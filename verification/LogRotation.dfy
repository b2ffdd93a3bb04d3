/**
 The rotating log of the desktop manager (src-tauri/src/logging.rs): the live file and
 three older copies, index 0 to 3, each absent or a list of lines.  File operations are
 taken to succeed.
 */
module LogRotation {
  import opened Bytes
  import opened Options

  type Line = seq<byte>
  type File = seq<Line>

  const MAX_ROTATED_FILES := 3

  function Size(f: File): nat { if f == [] then 0 else Size(f[..|f| - 1]) + |f[|f| - 1]| }

  function Content(f: Option<File>): File { f.GetOr([]) }

  // ---------------------------------------------------------------------------
  // The specification: whole directories as values
  // ---------------------------------------------------------------------------

  type Directory = d: seq<Option<File>> | |d| == 4 witness [None, None, None, None]

  function Rotated(max: nat, d: Directory): Directory {
    if d[0].Some? && Size(d[0].value) > max then [None, d[0], d[1], d[2]] else d
  }

  /** Starting the application rotates a full log and opens the live file. */
  function Opened(max: nat, d: Directory): Directory {
    var r := Rotated(max, d);
    r[0 := Some(Content(r[0]))]
  }

  function Written(max: nat, d: Directory, line: Line): Directory {
    var r := Opened(max, d);
    r[0 := Some(Content(r[0]) + [line])]
  }

  class LogWriter {
    const max: nat
    const files: array<Option<File>>

    ghost predicate Valid() { files.Length == 4 }

    constructor (max: nat)
      ensures Valid() && this.max == max && fresh(files) && files[..] == [None, None, None, None]
    {
      this.max := max;
      files := new Option<File>[4](_ => None);
    }

    method RotateIfFull()
      requires Valid()
      modifies files
      ensures files[..] == Rotated(max, old(files[..]))
    {
      if files[0].None? || Size(files[0].value) <= max { return; }
      files[MAX_ROTATED_FILES] := None;
      for i := MAX_ROTATED_FILES downto 1
        invariant files[i] == None
        invariant forall j :: 0 <= j < i ==> files[j] == old(files[j])
        invariant forall j :: i < j <= MAX_ROTATED_FILES ==> files[j] == old(files[j - 1])
      {
        if files[i].Some? {
          files[i + 1] := files[i];
          files[i] := None;
        }
      }
      files[1] := files[0];
      files[0] := None;
    }

    method Init()
      requires Valid()
      modifies files
      ensures files[..] == Opened(max, old(files[..]))
    {
      RotateIfFull();
      if files[0].None? { files[0] := Some([]); }
    }

    /** Appends one line, after rotating a live file that is already over the limit. */
    method WriteLine(line: Line)
      requires Valid() && files[0].Some?
      modifies files
      ensures files[..] == Written(max, old(files[..]), line)
      ensures files[0].Some?
    {
      if Size(files[0].value) > max {
        RotateIfFull();
        if files[0].None? { files[0] := Some([]); }
      }
      files[0] := Some(files[0].value + [line]);
    }
  }

  // ---------------------------------------------------------------------------
  // What is kept over any number of starts and lines
  // ---------------------------------------------------------------------------

  datatype Event = Start | Log(line: Line)

  function After(max: nat, es: seq<Event>): Directory {
    if es == [] then [None, None, None, None]
    else
      var d := After(max, es[..|es| - 1]);
      if es[|es| - 1].Start? then Opened(max, d) else Written(max, d, es[|es| - 1].line)
  }

  function Logged(es: seq<Event>): File {
    if es == [] then []
    else Logged(es[..|es| - 1]) + if es[|es| - 1].Log? then [es[|es| - 1].line] else []
  }

  /** Oldest copy first, live file last. */
  function Kept(d: Directory): File { Content(d[3]) + Content(d[2]) + Content(d[1]) + Content(d[0]) }

  /** Over the limit by at most the last line. */
  ghost predicate Bounded(max: nat, f: File) { f == [] || Size(f[..|f| - 1]) <= max }

  /** An older copy is over the limit, and the copy before it exists too. */
  ghost predicate FullCopy(max: nat, copy: Option<File>, newer: Option<File>) {
    copy.Some? ==> Bounded(max, copy.value) && Size(copy.value) > max && newer.Some?
  }

  ghost predicate Orderly(max: nat, d: Directory) {
    && Bounded(max, Content(d[0]))
    && FullCopy(max, d[1], d[0]) && FullCopy(max, d[2], d[1]) && FullCopy(max, d[3], d[2])
  }

  lemma {:induction false} SizeAppend(f: File, g: File)
    ensures Size(f + g) == Size(f) + Size(g)
    decreases |g|
  {
    if g == [] {
      assert f + g == f;
    } else {
      assert (f + g)[..|f + g| - 1] == f + g[..|g| - 1];
      SizeAppend(f, g[..|g| - 1]);
    }
  }

  lemma KeptShifted(d: Directory)
    ensures Kept(d) == Content(d[3]) + Kept([Some([]), d[0], d[1], d[2]])
  {
    var a, b, c, l := Content(d[3]), Content(d[2]), Content(d[1]), Content(d[0]);
    assert Kept([Some([]), d[0], d[1], d[2]]) == b + c + l + [] == b + c + l;
    assert a + b + c + l == a + (b + c + l);
  }

  /** Rotation drops only the oldest copy, and only when all three copies were there. */
  lemma RotationDropsOldest(max: nat, d: Directory)
    requires Orderly(max, d)
    ensures Orderly(max, Opened(max, d)) && Size(Content(Opened(max, d)[0])) <= max
    ensures Kept(d) == (if Rotated(max, d) != d then Content(d[3]) else []) + Kept(Opened(max, d))
    ensures d[3].Some? ==> Opened(max, d)[3].Some?
  {
    assert Bounded(max, []) && Size([]) == 0;
    hide Size, Bounded;
    var o := Opened(max, d);
    KeptShifted(d);
    if Rotated(max, d) != d {
      assert o == [Some([]), d[0], d[1], d[2]];
      hide Kept;
    } else {
      assert Kept(o) == Kept(d);
    }
  }

  lemma WritingAppends(max: nat, d: Directory, line: Line)
    requires Orderly(max, d)
    ensures Orderly(max, Written(max, d, line)) && Written(max, d, line)[3] == Opened(max, d)[3]
    ensures Kept(Written(max, d, line)) == Kept(Opened(max, d)) + [line]
  {
    RotationDropsOldest(max, d);
    var o := Opened(max, d);
    var live := Content(o[0]) + [line];
    assert live[..|live| - 1] == Content(o[0]);
    assert Written(max, d, line) == o[0 := Some(live)];
  }

  /** One step keeps a tail of the history, and an oldest copy once there is one. */
  lemma StepKeepsATail(max: nat, d: Directory, e: Event, history: File, g: nat) returns (gone: nat)
    requires Orderly(max, d) && g <= |history| && Kept(d) == history[g..] && (g > 0 ==> d[3].Some?)
    ensures var d' := if e.Start? then Opened(max, d) else Written(max, d, e.line);
            var history' := history + if e.Log? then [e.line] else [];
            && Orderly(max, d') && gone <= |history'| && Kept(d') == history'[gone..] && (gone > 0 ==> d'[3].Some?)
  {
    hide Written, Opened, Orderly, Rotated, Kept;
    RotationDropsOldest(max, d);
    var dropped := if Rotated(max, d) != d then Content(d[3]) else [];
    var o := Opened(max, d);
    gone := g + |dropped|;
    DropPrefix(history, g, dropped, Kept(o));
    if e.Log? {
      WritingAppends(max, d, e.line);
      assert (history + [e.line])[gone..] == history[gone..] + [e.line];
    }
  }

  lemma DropPrefix(history: File, g: nat, dropped: File, rest: File)
    requires g <= |history| && history[g..] == dropped + rest
    ensures g + |dropped| <= |history| && history[g + |dropped|..] == rest
  {
    assert |history[g..]| == |history| - g;
    assert history[g + |dropped|..] == history[g..][|dropped|..] == rest;
  }

  lemma {:induction false} RunKeepsATail(max: nat, es: seq<Event>) returns (gone: nat)
    ensures Orderly(max, After(max, es)) && gone <= |Logged(es)| && Kept(After(max, es)) == Logged(es)[gone..]
    ensures gone > 0 ==> After(max, es)[3].Some?
    decreases |es|
  {
    if es == [] {
      gone := 0;
    } else {
      var g := RunKeepsATail(max, es[..|es| - 1]);
      gone := StepKeepsATail(max, After(max, es[..|es| - 1]), es[|es| - 1], Logged(es[..|es| - 1]), g);
      assert es[|es| - 1].Start? ==> Logged(es[..|es| - 1]) + [] == Logged(es);
    }
  }

  /**
   The four files together are always a contiguous tail of everything logged.  Each is over
   the limit by at most its last line, and if anything is gone then more than three times
   the limit is still there.
   */
  lemma KeepsATail(max: nat, es: seq<Event>) returns (gone: nat)
    ensures gone <= |Logged(es)| && Kept(After(max, es)) == Logged(es)[gone..]
    ensures forall i :: 0 <= i < 4 ==> Bounded(max, Content(After(max, es)[i]))
    ensures gone > 0 ==> Size(Kept(After(max, es))) > 3 * max
  {
    hide *;
    gone := RunKeepsATail(max, es);
    OrderlySizes(max, After(max, es));
  }

  lemma OrderlySizes(max: nat, d: Directory)
    requires Orderly(max, d)
    ensures forall i :: 0 <= i < 4 ==> Bounded(max, Content(d[i]))
    ensures d[3].Some? ==> Size(Kept(d)) > 3 * max
  {
    assert Bounded(max, []);
    KeptSize(d);
    hide Size, Kept, Bounded;
  }

  lemma KeptSize(d: Directory)
    ensures Size(Kept(d)) == Size(Content(d[3])) + Size(Content(d[2])) + Size(Content(d[1])) + Size(Content(d[0]))
  {
    SizeAppend(Content(d[3]) + Content(d[2]) + Content(d[1]), Content(d[0]));
    SizeAppend(Content(d[3]) + Content(d[2]), Content(d[1]));
    SizeAppend(Content(d[3]), Content(d[2]));
  }
}

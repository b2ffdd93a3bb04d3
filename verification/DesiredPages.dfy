/**
 The paged desired state of an agent's printers (src/lib/desired-state-page.ts): at most 64
 rows and 512 KiB a page, continued after the last id of the page.
 */
module DesiredPages {
  import opened Options
  import opened LexOrder
  import opened SortedSequences
  import opened Bytes
  import opened FleetCursor

  /** A row with its JSON text. */
  datatype Row = Row(id: Id, json: seq<byte>)

  const PAGE_ROWS := 64
  const PAGE_BYTES := 524_288

  // ---------------------------------------------------------------------------
  // One page
  // ---------------------------------------------------------------------------

  datatype Page = TooLarge | Page(items: seq<Row>, next: Option<string>)

  /** How many rows fit after `taken` rows that already fill `bytes` bytes. */
  function Fit(rows: seq<Row>, taken: nat, bytes: nat): (n: nat)
    ensures n <= |rows| && (taken <= PAGE_ROWS ==> taken + n <= PAGE_ROWS)
  {
    if rows == [] || taken >= PAGE_ROWS then 0
    else
      var size := |rows[0].json| + if taken > 0 then 1 else 0;
      if bytes + size > PAGE_BYTES then 0 else 1 + Fit(rows[1..], taken + 1, bytes + size)
  }

  function PageOf(rows: seq<Row>): Page {
    var n := Fit(rows, 0, 2);
    if n == 0 && rows != [] then TooLarge
    else Page(rows[..n], if |rows| > n then Some(WriteCursor(rows[n - 1].id)) else None)
  }

  /** The loop has taken the first i rows, with their bytes counted, and the page continues from there. */
  ghost predicate Filling(rows: seq<Row>, i: nat, items: seq<Row>, bytes: nat) {
    && i <= |rows| && i <= PAGE_ROWS && items == rows[..i]
    && bytes == |JsonArray(items)| <= PAGE_BYTES
    && i + Fit(rows[i..], i, bytes) == Fit(rows, 0, 2)
  }

  method GetDesiredPrinterPage(rows: seq<Row>) returns (page: Page)
    ensures page == PageOf(rows)
    ensures page.Page? ==> |page.items| <= 64 && |JsonArray(page.items)| <= 524_288
  {
    FillBegins(rows);
    hide JsonArray, WriteCursor, Fit, PageOf, Filling;
    var items: seq<Row> := [];
    var bytes: nat := 2;
    var considered := if |rows| > PAGE_ROWS then PAGE_ROWS else |rows|;
    var i: nat := 0;
    while i < considered
      invariant 0 <= i <= considered && |items| == i && Filling(rows, i, items, bytes)
    {
      var size := |rows[i].json| + if |items| > 0 then 1 else 0;
      FillStep(rows, i, items, bytes);
      if bytes + size > PAGE_BYTES {
        if |items| == 0 { return TooLarge; }
        break;
      }
      items := items + [rows[i]];
      bytes := bytes + size;
      i := i + 1;
    }
    if i == considered { FillEnds(rows, i, items, bytes); }
    var next := if |rows| > |items| && |items| > 0 then Some(WriteCursor(items[|items| - 1].id)) else None;
    return Page(items, next);
  }

  lemma FillBegins(rows: seq<Row>)
    ensures Filling(rows, 0, [], 2)
  {
    assert |JsonArray([])| == 2;
    hide JsonArray, Fit;
    assert rows[0..] == rows;
  }

  /** One turn of the loop: the row is taken, or the page ends before it. */
  lemma FillStep(rows: seq<Row>, i: nat, items: seq<Row>, bytes: nat)
    requires i < |rows| && i < PAGE_ROWS && Filling(rows, i, items, bytes)
    ensures |items| == i
    ensures var size := |rows[i].json| + if i > 0 then 1 else 0;
            if bytes + size > PAGE_BYTES then EndsWith(rows, items)
            else Filling(rows, i + 1, items + [rows[i]], bytes + size)
  {
    hide JsonArray, Fit, EndsWith;
    var size := |rows[i].json| + if i > 0 then 1 else 0;
    JsonArrayGrows(items, rows[i]);
    FitStep(rows, i, bytes);
    assert rows[..i + 1] == items + [rows[i]];
    if bytes + size > PAGE_BYTES { PageAt(rows, i); }
  }

  lemma FillEnds(rows: seq<Row>, i: nat, items: seq<Row>, bytes: nat)
    requires (i == |rows| || i == PAGE_ROWS) && Filling(rows, i, items, bytes)
    ensures EndsWith(rows, items)
  {
    hide JsonArray, EndsWith;
    FitEnds(rows[i..], i, bytes);
    hide Fit;
    PageAt(rows, i);
  }

  /** The page of the rows holds these items. */
  ghost predicate EndsWith(rows: seq<Row>, items: seq<Row>) {
    && (items == [] && rows != [] ==> PageOf(rows) == TooLarge)
    && (items != [] || rows == [] ==>
          && |JsonArray(items)| <= PAGE_BYTES
          && PageOf(rows) == Page(items, if |rows| > |items| then Some(WriteCursor(items[|items| - 1].id)) else None))
  }

  lemma PageAt(rows: seq<Row>, n: nat)
    requires n == Fit(rows, 0, 2) && |JsonArray(rows[..n])| <= PAGE_BYTES
    ensures EndsWith(rows, rows[..n])
  {
    hide WriteCursor, Fit, JsonArray;
  }

  lemma FitStep(rows: seq<Row>, i: nat, bytes: nat)
    requires i < |rows| && i < PAGE_ROWS
    ensures var size := |rows[i].json| + if i > 0 then 1 else 0;
            Fit(rows[i..], i, bytes) ==
              if bytes + size > PAGE_BYTES then 0 else 1 + Fit(rows[i + 1..], i + 1, bytes + size)
  {
    assert rows[i..][0] == rows[i] && rows[i..][1..] == rows[i + 1..];
  }

  lemma FitEnds(rows: seq<Row>, taken: nat, bytes: nat)
    requires rows == [] || taken >= PAGE_ROWS
    ensures Fit(rows, taken, bytes) == 0
  {}

  // ---------------------------------------------------------------------------
  // The byte count is the size of the JSON text
  // ---------------------------------------------------------------------------

  const OPEN: byte := 91
  const CLOSE: byte := 93
  const COMMA: byte := 44

  ghost function Joined(items: seq<Row>): seq<byte> {
    if items == [] then []
    else if |items| == 1 then items[0].json
    else Joined(items[..|items| - 1]) + [COMMA] + items[|items| - 1].json
  }

  ghost function JsonArray(items: seq<Row>): seq<byte> { [OPEN] + Joined(items) + [CLOSE] }

  lemma JsonArrayGrows(items: seq<Row>, row: Row)
    ensures |JsonArray(items + [row])| == |JsonArray(items)| + |row.json| + if |items| > 0 then 1 else 0
  {
    assert (items + [row])[..|items|] == items;
  }

  /** Fit takes the longest prefix whose JSON array, built on `before`, stays within the limits. */
  lemma {:induction false} FitIsLongest(before: seq<Row>, rows: seq<Row>)
    requires |before| <= PAGE_ROWS && |JsonArray(before)| <= PAGE_BYTES
    ensures var n := Fit(rows, |before|, |JsonArray(before)|);
            && |JsonArray(before + rows[..n])| <= PAGE_BYTES
            && (n == |rows| || |before| + n == PAGE_ROWS || |JsonArray(before + rows[..n + 1])| > PAGE_BYTES)
    decreases |rows|
  {
    hide JsonArray;
    var n := Fit(rows, |before|, |JsonArray(before)|);
    if rows == [] || |before| >= PAGE_ROWS {
      assert before + rows[..n] == before;
    } else {
      JsonArrayGrows(before, rows[0]);
      if n == 0 {
        assert before + rows[..0] == before && rows[..1] == [rows[0]];
      } else {
        var grown := before + [rows[0]];
        FitIsLongest(grown, rows[1..]);
        assert before + rows[..n] == grown + rows[1..][..n - 1];
        if n < |rows| { assert before + rows[..n + 1] == grown + rows[1..][..n]; }
      }
    }
  }

  /** A page is the longest prefix within both limits, and fails exactly when its first row alone is too large. */
  lemma PageIsLongest(rows: seq<Row>)
    ensures PageOf(rows).TooLarge? <==> rows != [] && |rows[0].json| + 2 > 524_288
    ensures PageOf(rows).Page? ==>
              var items := PageOf(rows).items;
              && items <= rows && (rows != [] ==> items != []) && |items| <= 64
              && |JsonArray(items)| <= 524_288
              && (|items| == |rows| || |items| == 64 || |JsonArray(rows[..|items| + 1])| > 524_288)
              && (PageOf(rows).next.None? <==> items == rows)
  {
    if rows != [] { FitFirst(rows); }
    LongestFromStart(rows);
    hide JsonArray, WriteCursor, Fit;
  }

  lemma LongestFromStart(rows: seq<Row>)
    ensures var n := Fit(rows, 0, 2);
            && n <= PAGE_ROWS && |JsonArray(rows[..n])| <= PAGE_BYTES
            && (n == |rows| || n == PAGE_ROWS || |JsonArray(rows[..n + 1])| > PAGE_BYTES)
  {
    assert |JsonArray([])| == 2;
    hide JsonArray, Fit;
    FitIsLongest([], rows);
    var n := Fit(rows, 0, 2);
    assert [] + rows[..n] == rows[..n];
    if n < |rows| { assert [] + rows[..n + 1] == rows[..n + 1]; }
  }

  lemma FitFirst(rows: seq<Row>)
    requires rows != []
    ensures Fit(rows, 0, 2) == 0 <==> |rows[0].json| + 2 > PAGE_BYTES
  {
  }

  // ---------------------------------------------------------------------------
  // Reading
  // ---------------------------------------------------------------------------

  ghost predicate Sorted(t: seq<Row>) {
    forall i, j :: 0 <= i < j < |t| ==> LexLess(t[i].id, t[j].id)
  }

  predicate Beyond(after: Option<Id>, id: Id) { after.None? || LexLess(after.value, id) }

  /** The rows after a cursor, in the order of the table. */
  function Rest(t: seq<Row>, after: Option<Id>): (r: seq<Row>)
    ensures forall row :: row in r <==> row in t && Beyond(after, row.id)
  {
    if t == [] then [] else (if Beyond(after, t[0].id) then [t[0]] else []) + Rest(t[1..], after)
  }

  function Read(t: seq<Row>, after: Option<Id>): seq<Row> {
    var r := Rest(t, after);
    if |r| <= PAGE_ROWS + 1 then r else r[..PAGE_ROWS + 1]
  }

  lemma {:induction false} RestSorted(t: seq<Row>, after: Option<Id>)
    requires Sorted(t)
    ensures Sorted(Rest(t, after))
  {
    if t != [] {
      RestSorted(t[1..], after);
      var r := Rest(t[1..], after);
      forall j | 0 <= j < |r| ensures LexLess(t[0].id, r[j].id) {
        assert r[j] in t[1..];
        var k :| 0 <= k < |t[1..]| && t[1..][k] == r[j];
        assert t[k + 1] == r[j];
      }
    }
  }

  /** In a sorted table the rows after the n-th row of the rest are what is left of the rest. */
  lemma {:induction false} RestAfterRow(t: seq<Row>, after: Option<Id>, n: nat)
    requires Sorted(t) && 0 < n <= |Rest(t, after)|
    ensures Rest(t, Some(Rest(t, after)[n - 1].id)) == Rest(t, after)[n..]
  {
    RestSorted(t, after);
    var r := Rest(t, after);
    var last := r[n - 1].id;
    RestSorted(t, Some(last));
    forall row | row in t ensures row in Rest(t, Some(last)) <==> row in r[n..] {
      if LexLess(last, row.id) {
        if after.Some? { LexTransitive(after.value, last, row.id); }
        var k :| 0 <= k < |r| && r[k] == row;
        LexIrreflexive(last);
        if k < n - 1 { LexAsymmetric(r[k].id, last); }
        assert k >= n;
        assert r[n..][k - n] == row;
      }
    }
    SortedUnique(Rest(t, Some(last)), r[n..], (row: Row) => row.id);
  }

  // ---------------------------------------------------------------------------
  // Following the cursor
  // ---------------------------------------------------------------------------

  /** What a client collects page by page; the table may be a different one at each read. */
  datatype Walk = Complete(rows: seq<Row>) | Failed | Unfinished(rows: seq<Row>) {
    function After(items: seq<Row>): Walk {
      match this
      case Failed => Failed
      case Complete(more) => Complete(items + more)
      case Unfinished(more) => Unfinished(items + more)
    }
  }

  function Follow(tables: seq<seq<Row>>, after: Option<Id>): Walk {
    if tables == [] then Unfinished([])
    else
      match PageOf(Read(tables[0], after))
      case TooLarge => Failed
      case Page(items, None) => Complete(items)
      case Page(items, Some(cursor)) =>
        var id := ReadCursor(cursor);
        if id.None? then Failed else Follow(tables[1..], id).After(items)
  }

  ghost predicate AllSorted(tables: seq<seq<Row>>) { forall i :: 0 <= i < |tables| ==> Sorted(tables[i]) }

  /** A page holds the first rows of the rest: none, all, or some that the walk then continues after. */
  ghost predicate WalkStep(tables: seq<seq<Row>>, after: Option<Id>, items: seq<Row>)
    requires tables != []
  {
    var r := Rest(tables[0], after);
    var walk := Follow(tables, after);
    && items <= r && (forall row :: row in items ==> FitsAlone(row))
    && (|| (items == [] && r != [] && !FitsAlone(r[0]) && walk == Failed)
        || (items == r && walk == Complete(r))
        || (&& items != [] && items != r
            && var last := items[|items| - 1].id;
               walk == if Readable(last) then Follow(tables[1..], Some(last)).After(items) else Failed))
  }

  lemma FollowStep(tables: seq<seq<Row>>, after: Option<Id>) returns (items: seq<Row>)
    requires tables != []
    ensures WalkStep(tables, after, items)
  {
    hide JsonArray, Fit, WriteCursor, ReadCursor, Rest, PageOf, Read;
    var rows := Read(tables[0], after);
    ReadPrefix(tables[0], after);
    PageIsLongest(rows);
    var page := PageOf(rows);
    if page.TooLarge? {
      items := [];
    } else {
      items := page.items;
      FittingItems(items);
      if page.next.Some? { NextCursor(rows); }
    }
  }

  lemma ReadPrefix(t: seq<Row>, after: Option<Id>)
    ensures Read(t, after) <= Rest(t, after)
    ensures |Read(t, after)| <= PAGE_ROWS ==> Read(t, after) == Rest(t, after)
    ensures Rest(t, after) != [] ==> Read(t, after) != []
  {
    hide Rest;
  }

  lemma NextCursor(rows: seq<Row>)
    requires PageOf(rows).Page? && PageOf(rows).next.Some?
    ensures var items := PageOf(rows).items;
            && items != []
            && var last := items[|items| - 1].id;
               ReadCursor(PageOf(rows).next.value) == if Readable(last) then Some(last) else None
  {
    hide WriteCursor, ReadCursor, Fit;
    CursorRoundTrip(PageOf(rows).items[|PageOf(rows).items| - 1].id);
  }

  /** Strictly increasing ids, all beyond the cursor. */
  ghost predicate Increasing(after: Option<Id>, rows: seq<Row>) {
    Sorted(rows) && forall i :: 0 <= i < |rows| ==> Beyond(after, rows[i].id)
  }

  lemma PrefixIncreases(t: seq<Row>, after: Option<Id>, items: seq<Row>)
    requires Sorted(t) && items <= Rest(t, after)
    ensures Increasing(after, items)
  {
    RestSorted(t, after);
    hide LexLess;
    forall i | 0 <= i < |items| ensures Beyond(after, items[i].id) {
      assert items[i] == Rest(t, after)[i] && Rest(t, after)[i] in Rest(t, after);
    }
  }

  lemma JoinIncreases(after: Option<Id>, items: seq<Row>, more: seq<Row>)
    requires items != [] && Increasing(after, items) && Increasing(Some(items[|items| - 1].id), more)
    ensures Increasing(after, items + more)
  {
    hide LexLess;
    ConcatSorted(items, more);
    forall i | 0 <= i < |items + more| ensures Beyond(after, (items + more)[i].id) {
      if after.Some? && i >= |items| {
        LexTransitive(after.value, items[|items| - 1].id, more[i - |items|].id);
      }
    }
  }

  /** Ids come strictly increasing and beyond the starting cursor, so no row is returned twice. */
  lemma {:induction false} FollowIncreases(tables: seq<seq<Row>>, after: Option<Id>)
    requires AllSorted(tables) && !Follow(tables, after).Failed?
    ensures Increasing(after, Follow(tables, after).rows)
    decreases |tables|
  {
    if tables != [] {
      var items := FollowStep(tables, after);
      PrefixIncreases(tables[0], after, items);
      hide Follow, Rest, Increasing, Sorted;
      if Follow(tables, after) != Complete(items) {
        var last := items[|items| - 1].id;
        FollowIncreases(tables[1..], Some(last));
        JoinIncreases(after, items, Follow(tables[1..], Some(last)).rows);
      }
    }
  }

  lemma ConcatSorted(a: seq<Row>, b: seq<Row>)
    requires a != [] && Sorted(a) && Sorted(b)
    requires forall i :: 0 <= i < |b| ==> LexLess(a[|a| - 1].id, b[i].id)
    ensures Sorted(a + b)
  {
    forall i, j | 0 <= i < j < |a + b| ensures LexLess((a + b)[i].id, (a + b)[j].id) {
      if i < |a| - 1 && j >= |a| { LexTransitive(a[i].id, a[|a| - 1].id, b[j - |a|].id); }
    }
  }

  ghost predicate HasId(t: seq<Row>, id: Id) { exists i :: 0 <= i < |t| && t[i].id == id }

  lemma HasIdAppend(a: seq<Row>, b: seq<Row>, id: Id)
    ensures HasId(a, id) || HasId(b, id) ==> HasId(a + b, id)
  {
    if HasId(a, id) {
      var i :| 0 <= i < |a| && a[i].id == id;
      assert (a + b)[i].id == id;
    } else if HasId(b, id) {
      var i :| 0 <= i < |b| && b[i].id == id;
      assert (a + b)[|a| + i].id == id;
    }
  }

  /** A row beyond the cursor is on the page, or comes after the page's last row. */
  lemma OnPageOrLater(t: seq<Row>, after: Option<Id>, items: seq<Row>, id: Id)
    requires Sorted(t) && HasId(t, id) && Beyond(after, id) && items <= Rest(t, after)
    ensures HasId(items, id) || (items != Rest(t, after) && (items != [] ==> LexLess(items[|items| - 1].id, id)))
  {
    RestSorted(t, after);
    var r := Rest(t, after);
    var i :| 0 <= i < |t| && t[i].id == id;
    assert t[i] in r;
    hide Rest;
    var k :| 0 <= k < |r| && r[k] == t[i];
    if k < |items| {
      assert items[k].id == id;
    } else if items != [] {
      assert r[|items| - 1] == items[|items| - 1];
    }
  }

  /** A row that is there at every read is returned, however the rest of the table changes. */
  lemma {:induction false} FollowMissesNothing(tables: seq<seq<Row>>, after: Option<Id>, id: Id)
    requires AllSorted(tables) && Follow(tables, after).Complete? && Beyond(after, id)
    requires forall i :: 0 <= i < |tables| ==> HasId(tables[i], id)
    ensures HasId(Follow(tables, after).rows, id)
    decreases |tables|
  {
    assert tables != [];
    hide Follow, Rest, Sorted, HasId;
    var items := FollowStep(tables, after);
    OnPageOrLater(tables[0], after, items, id);
    if items != Rest(tables[0], after) {
      var last := items[|items| - 1].id;
      if !HasId(items, id) { FollowMissesNothing(tables[1..], Some(last), id); }
      HasIdAppend(items, Follow(tables[1..], Some(last)).rows, id);
    }
  }

  /** n reads of one unchanged table. */
  ghost function Repeat(t: seq<Row>, n: nat): (r: seq<seq<Row>>)
    ensures |r| == n && forall i :: 0 <= i < n ==> r[i] == t
  {
    seq(n, _ => t)
  }

  ghost predicate ReadableIds(t: seq<Row>) { forall i :: 0 <= i < |t| ==> Readable(t[i].id) }

  ghost predicate FitsAlone(row: Row) { |row.json| + 2 <= PAGE_BYTES }

  /**
   On an unchanged table the walk ends after finitely many pages.  It returns exactly the
   sorted rows after the cursor if each of them fits on a page of its own, and fails otherwise.
   */
  lemma {:induction false} FollowFixedTable(t: seq<Row>, after: Option<Id>, n: nat)
    requires Sorted(t) && ReadableIds(t) && n > |Rest(t, after)|
    ensures Follow(Repeat(t, n), after) ==
              if forall row :: row in Rest(t, after) ==> FitsAlone(row) then Complete(Rest(t, after)) else Failed
    decreases |Rest(t, after)|
  {
    hide Follow, Rest, Repeat, Sorted;
    assert Repeat(t, n)[0] == t;
    var items := FollowStep(Repeat(t, n), after);
    var r := Rest(t, after);
    if items == [] && r != [] {
      assert r[0] in r;
    } else if items != r {
      assert r == items + r[|items|..];
      assert items[|items| - 1] in r;
      assert Repeat(t, n)[1..] == Repeat(t, n - 1);
      RestAfterRow(t, after, |items|);
      FollowFixedTable(t, Some(items[|items| - 1].id), n - 1);
    }
  }

  lemma {:induction false} FittingItems(items: seq<Row>)
    requires |JsonArray(items)| <= PAGE_BYTES
    ensures forall row :: row in items ==> FitsAlone(row)
  {
    if items != [] {
      var before, row := items[..|items| - 1], items[|items| - 1];
      assert items == before + [row];
      JsonArrayGrows(before, row);
      assert |JsonArray(before)| >= 2;
      FittingItems(before);
    }
  }
}

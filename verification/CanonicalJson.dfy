/**
 The normal form behind idempotency fingerprints (src/lib/canonicalize.ts).  An object is the
 sequence of its entries in enumeration order.  JavaScript compares strings by UTF-16 code
 units and enumerates array-index keys first, in numeric order, whatever the insertion order.
 */
module CanonicalJson {
  import opened LexOrder
  import opened SortedSequences

  type CodeUnit = u: int | 0 <= u < 0x1_0000
  type Key = seq<CodeUnit>

  datatype Json =
    | Null | Bool(b: bool) | Number(n: real) | Text(s: Key)
    | Array(items: seq<Json>)
    | Object(entries: seq<Entry>)

  datatype Entry = Entry(key: Key, value: Json)

  // ---------------------------------------------------------------------------
  // Orders of keys
  // ---------------------------------------------------------------------------

  predicate Digits(k: Key) { forall i :: 0 <= i < |k| ==> 48 <= k[i] <= 57 }

  /** The canonical decimal of an integer below 2^32 - 1. */
  predicate IsIndex(k: Key) {
    && k != [] && Digits(k) && (|k| > 1 ==> k[0] != 48)
    && (|k| < 10 || (|k| == 10 && LexLess(k, [52, 50, 57, 52, 57, 54, 55, 50, 57, 53])))
  }

  /** Code-unit order, or numeric order of canonical decimals: shorter first, then by digits. */
  predicate Before(numeric: bool, a: Key, b: Key) {
    if numeric then |a| < |b| || (|a| == |b| && LexLess(a, b)) else LexLess(a, b)
  }

  function Insert(numeric: bool, e: Entry, es: seq<Entry>): (r: seq<Entry>)
    ensures |r| == |es| + 1 && forall x :: x in r <==> x == e || x in es
  {
    if es == [] || !Before(numeric, es[0].key, e.key) then [e] + es
    else
      var r := [es[0]] + Insert(numeric, e, es[1..]);
      assert es == [es[0]] + es[1..];
      r
  }

  function Sort(numeric: bool, es: seq<Entry>): (r: seq<Entry>)
    ensures |r| == |es| && forall x :: x in r <==> x in es
  {
    if es == [] then []
    else
      assert es == [es[0]] + es[1..];
      Insert(numeric, es[0], Sort(numeric, es[1..]))
  }

  function Indices(es: seq<Entry>, index: bool): (r: seq<Entry>)
    ensures forall x :: x in r <==> x in es && IsIndex(x.key) == index
  {
    if es == [] then []
    else
      assert es == [es[0]] + es[1..];
      (if IsIndex(es[0].key) == index then [es[0]] else []) + Indices(es[1..], index)
  }

  /** The enumeration order of an object whose entries were inserted in the given order. */
  function FromEntries(es: seq<Entry>): (r: seq<Entry>)
    ensures forall x :: x in r <==> x in es
  {
    Sort(true, Indices(es, true)) + Indices(es, false)
  }

  function Canonicalize(v: Json): Json
    decreases v
  {
    match v
    case Array(items) => Array(seq(|items|, i requires 0 <= i < |items| => Canonicalize(items[i])))
    case Object(entries) =>
      var sorted := Sort(false, entries);
      Object(FromEntries(seq(|sorted|, i requires 0 <= i < |sorted| =>
        assert sorted[i] in entries;
        Entry(sorted[i].key, Canonicalize(sorted[i].value)))))
    case _ => v
  }

  // ---------------------------------------------------------------------------
  // Equality up to key order
  // ---------------------------------------------------------------------------

  ghost predicate DistinctKeys(es: seq<Entry>) { forall i, j :: 0 <= i < j < |es| ==> es[i].key != es[j].key }

  /** No object has a key twice. */
  ghost predicate Proper(v: Json)
    decreases v
  {
    match v
    case Array(items) => forall i :: 0 <= i < |items| ==> Proper(items[i])
    case Object(entries) => DistinctKeys(entries) && forall i :: 0 <= i < |entries| ==> Proper(entries[i].value)
    case _ => true
  }

  /** The same value, except for the order of object keys at any depth. */
  ghost predicate Same(a: Json, b: Json)
    decreases a
  {
    match (a, b)
    case (Array(x), Array(y)) => |x| == |y| && forall i :: 0 <= i < |x| ==> Same(x[i], y[i])
    case (Object(x), Object(y)) =>
      (forall i :: 0 <= i < |x| ==> MatchedIn(x[i], y)) && (forall j :: 0 <= j < |y| ==> MatchedFrom(x, y[j]))
    case _ => a == b
  }

  ghost predicate SameEntry(e: Entry, f: Entry)
    decreases e, 0
  {
    e.key == f.key && Same(e.value, f.value)
  }

  ghost predicate MatchedIn(e: Entry, y: seq<Entry>)
    decreases e, 1
  {
    exists j :: 0 <= j < |y| && SameEntry(e, y[j])
  }

  ghost predicate MatchedFrom(x: seq<Entry>, f: Entry)
    decreases x
  {
    exists i :: 0 <= i < |x| && SameEntry(x[i], f)
  }

  // ---------------------------------------------------------------------------
  // Sorting
  // ---------------------------------------------------------------------------

  ghost predicate SortedKeys(numeric: bool, es: seq<Entry>) {
    forall i, j :: 0 <= i < j < |es| ==> Before(numeric, es[i].key, es[j].key)
  }

  lemma BeforeTransitive(numeric: bool, a: Key, b: Key, c: Key)
    requires Before(numeric, a, b) && Before(numeric, b, c)
    ensures Before(numeric, a, c)
  {
    if LexLess(a, b) && LexLess(b, c) { LexTransitive(a, b, c); }
  }

  lemma {:induction false} InsertSorted(numeric: bool, e: Entry, es: seq<Entry>)
    requires SortedKeys(numeric, es) && forall x :: x in es ==> x.key != e.key
    ensures SortedKeys(numeric, Insert(numeric, e, es))
  {
    if es == [] {
    } else if !Before(numeric, es[0].key, e.key) {
      assert es[0] in es;
      LexTotal(es[0].key, e.key);
      forall j | 1 <= j < |es| ensures Before(numeric, e.key, es[j].key) {
        BeforeTransitive(numeric, e.key, es[0].key, es[j].key);
      }
    } else {
      assert es == [es[0]] + es[1..];
      InsertSorted(numeric, e, es[1..]);
      var r := Insert(numeric, e, es[1..]);
      forall j | 0 <= j < |r| ensures Before(numeric, es[0].key, r[j].key) {
        assert r[j] in r;
        if r[j] != e {
          var k :| 0 <= k < |es[1..]| && es[1..][k] == r[j];
          assert es[k + 1] == r[j];
        }
      }
    }
  }

  lemma {:induction false} SortSorted(numeric: bool, es: seq<Entry>)
    requires DistinctKeys(es)
    ensures SortedKeys(numeric, Sort(numeric, es))
  {
    if es != [] {
      SortSorted(numeric, es[1..]);
      forall x | x in Sort(numeric, es[1..]) ensures x.key != es[0].key {
        var k :| 0 <= k < |es[1..]| && es[1..][k] == x;
        assert es[k + 1] == x;
      }
      InsertSorted(numeric, es[0], Sort(numeric, es[1..]));
    }
  }

  lemma SortedDistinct(numeric: bool, es: seq<Entry>)
    requires SortedKeys(numeric, es)
    ensures DistinctKeys(es)
  {
    forall i, j | 0 <= i < j < |es| ensures es[i].key != es[j].key { LexIrreflexive(es[i].key); }
  }

  // ---------------------------------------------------------------------------
  // Building objects
  // ---------------------------------------------------------------------------

  lemma {:induction false} IndicesDistinct(es: seq<Entry>, index: bool)
    requires DistinctKeys(es)
    ensures DistinctKeys(Indices(es, index))
  {
    if es != [] {
      IndicesDistinct(es[1..], index);
      forall x | x in Indices(es[1..], index) ensures x.key != es[0].key {
        var k :| 0 <= k < |es[1..]| && es[1..][k] == x;
        assert es[k + 1] == x;
      }
    }
  }

  lemma FromEntriesDistinct(es: seq<Entry>)
    requires DistinctKeys(es)
    ensures DistinctKeys(FromEntries(es))
  {
    IndicesDistinct(es, true);
    IndicesDistinct(es, false);
    var a, b := Sort(true, Indices(es, true)), Indices(es, false);
    SortSorted(true, Indices(es, true));
    SortedDistinct(true, a);
    hide Sort, Indices, IsIndex;
    forall i, j | 0 <= i < |a| && 0 <= j < |b| ensures a[i].key != b[j].key {
      assert a[i] in a && b[j] in b;
    }
  }

  ghost function Image(e: Entry): Entry { Entry(e.key, Canonicalize(e.value)) }

  ghost function Images(es: seq<Entry>): (r: seq<Entry>)
    ensures |r| == |es| && forall i :: 0 <= i < |es| ==> r[i] == Image(es[i])
  {
    seq(|es|, i requires 0 <= i < |es| => Image(es[i]))
  }

  lemma CanonicalObject(es: seq<Entry>)
    ensures Canonicalize(Object(es)) == Object(FromEntries(Images(Sort(false, es))))
  {
    var sorted := Sort(false, es);
    assert Images(sorted) == seq(|sorted|, i requires 0 <= i < |sorted| =>
      assert sorted[i] in es;
      Entry(sorted[i].key, Canonicalize(sorted[i].value)));
  }

  ghost predicate IsImage(x: Entry, es: seq<Entry>) { exists i :: 0 <= i < |es| && x == Image(es[i]) }

  lemma ImagesOfSorted(es: seq<Entry>)
    requires DistinctKeys(es)
    ensures SortedKeys(false, Images(Sort(false, es)))
    ensures forall x :: x in Images(Sort(false, es)) <==> IsImage(x, es)
  {
    hide Sort, Images, Image;
    SortSorted(false, es);
    var sorted := Sort(false, es);
    var images := Images(sorted);
    forall i | 0 <= i < |es| ensures Image(es[i]) in images {
      assert es[i] in sorted;
      var k :| 0 <= k < |sorted| && sorted[k] == es[i];
      assert images[k] == Image(es[i]);
    }
    forall x | x in images ensures IsImage(x, es) {
      var k :| 0 <= k < |images| && images[k] == x;
      assert sorted[k] in es;
      var i :| 0 <= i < |es| && es[i] == sorted[k];
      assert x == Image(es[i]);
    }
    SortedImages(sorted);
  }

  lemma SortedImages(es: seq<Entry>)
    requires SortedKeys(false, es)
    ensures SortedKeys(false, Images(es))
  {}

  /** The entries of a canonical object are the images of the entries, whatever their order. */
  lemma CanonicalEntries(es: seq<Entry>)
    requires DistinctKeys(es)
    ensures DistinctKeys(Canonicalize(Object(es)).entries)
    ensures forall x :: x in Canonicalize(Object(es)).entries <==> IsImage(x, es)
  {
    CanonicalObject(es);
    hide Canonicalize, Sort, FromEntries, Images, IsImage;
    ImagesOfSorted(es);
    SortedDistinct(false, Images(Sort(false, es)));
    FromEntriesDistinct(Images(Sort(false, es)));
  }

  // ---------------------------------------------------------------------------
  // The normal form
  // ---------------------------------------------------------------------------

  /** Canonicalizing changes nothing but the order of object keys. */
  lemma {:induction false} CanonicalIsSame(v: Json)
    requires Proper(v)
    ensures Same(v, Canonicalize(v)) && Proper(Canonicalize(v))
    decreases v
  {
    match v
    case Array(items) => forall i | 0 <= i < |items| { CanonicalIsSame(items[i]); }
    case Object(es) =>
      forall i | 0 <= i < |es| ensures SameEntry(es[i], Image(es[i])) && Proper(Image(es[i]).value) {
        CanonicalIsSame(es[i].value);
      }
      ObjectIsSame(es);
    case _ =>
  }

  lemma ObjectIsSame(es: seq<Entry>)
    requires DistinctKeys(es)
    requires forall i :: 0 <= i < |es| ==> SameEntry(es[i], Image(es[i])) && Proper(Image(es[i]).value)
    ensures Same(Object(es), Canonicalize(Object(es))) && Proper(Canonicalize(Object(es)))
  {
    CanonicalEntries(es);
    CanonicalObject(es);
    var c := Canonicalize(Object(es)).entries;
    hide Canonicalize, FromEntries, Image, SameEntry, MatchedIn, MatchedFrom, IsImage, Images;
    forall i | 0 <= i < |es| ensures MatchedIn(es[i], c) {
      ImagePresent(es, i);
      MatchedByMember(es[i], Image(es[i]), c);
    }
    forall j | 0 <= j < |c| ensures MatchedFrom(es, c[j]) && Proper(c[j].value) {
      assert c[j] in c;
      MatchedFromImage(es, c[j]);
    }
  }

  lemma ImagePresent(es: seq<Entry>, i: nat)
    requires i < |es|
    ensures IsImage(Image(es[i]), es)
  {}

  lemma MatchedByMember(e: Entry, f: Entry, c: seq<Entry>)
    requires SameEntry(e, f) && f in c
    ensures MatchedIn(e, c)
  {
    hide SameEntry;
    var j :| 0 <= j < |c| && c[j] == f;
    assert SameEntry(e, c[j]);
  }

  lemma MatchedFromImage(es: seq<Entry>, x: Entry)
    requires IsImage(x, es)
    requires forall i :: 0 <= i < |es| ==> SameEntry(es[i], Image(es[i])) && Proper(Image(es[i]).value)
    ensures MatchedFrom(es, x) && Proper(x.value)
  {
    hide SameEntry, Image, Proper;
    var i :| 0 <= i < |es| && x == Image(es[i]);
    assert SameEntry(es[i], x);
  }

  /** Values that are the same up to key order have one canonical form. */
  lemma {:induction false} SameHaveOneForm(a: Json, b: Json)
    requires Proper(a) && Proper(b) && Same(a, b)
    ensures Canonicalize(a) == Canonicalize(b)
    decreases a
  {
    match (a, b)
    case (Array(x), Array(y)) =>
      forall i | 0 <= i < |x| ensures Canonicalize(x[i]) == Canonicalize(y[i]) { SameHaveOneForm(x[i], y[i]); }
      assert Canonicalize(a).items == Canonicalize(b).items;
    case (Object(x), Object(y)) =>
      forall i, j | 0 <= i < |x| && 0 <= j < |y| && SameEntry(x[i], y[j]) ensures Image(x[i]) == Image(y[j]) {
        SameHaveOneForm(x[i].value, y[j].value);
      }
      ObjectsHaveOneForm(x, y);
    case _ =>
  }

  lemma ObjectsHaveOneForm(x: seq<Entry>, y: seq<Entry>)
    requires DistinctKeys(x) && DistinctKeys(y) && Same(Object(x), Object(y))
    requires forall i, j :: 0 <= i < |x| && 0 <= j < |y| && SameEntry(x[i], y[j]) ==> Image(x[i]) == Image(y[j])
    ensures Canonicalize(Object(x)) == Canonicalize(Object(y))
  {
    SameImages(x, y);
    hide Canonicalize, Sort, FromEntries, Images, Image, SameEntry, MatchedIn, MatchedFrom, IsImage, Same;
    CanonicalObject(x);
    CanonicalObject(y);
    ImagesOfSorted(x);
    ImagesOfSorted(y);
    SortedUnique(Images(Sort(false, x)), Images(Sort(false, y)), (e: Entry) => e.key);
  }

  lemma SameImages(x: seq<Entry>, y: seq<Entry>)
    requires forall i, j :: 0 <= i < |x| && 0 <= j < |y| && SameEntry(x[i], y[j]) ==> Image(x[i]) == Image(y[j])
    requires (forall i :: 0 <= i < |x| ==> MatchedIn(x[i], y)) && (forall j :: 0 <= j < |y| ==> MatchedFrom(x, y[j]))
    ensures forall e :: IsImage(e, x) <==> IsImage(e, y)
  {
    hide Image, SameEntry, MatchedIn, MatchedFrom;
    forall e | IsImage(e, x) ensures IsImage(e, y) {
      var i :| 0 <= i < |x| && e == Image(x[i]);
      ImageIn(x[i], y);
    }
    forall e | IsImage(e, y) ensures IsImage(e, x) {
      var j :| 0 <= j < |y| && e == Image(y[j]);
      ImageFrom(x, y[j]);
    }
  }

  lemma ImageIn(e: Entry, y: seq<Entry>)
    requires MatchedIn(e, y) && forall j :: 0 <= j < |y| && SameEntry(e, y[j]) ==> Image(e) == Image(y[j])
    ensures IsImage(Image(e), y)
  {
    hide SameEntry, Image;
    var j :| 0 <= j < |y| && SameEntry(e, y[j]);
    ImagePresent(y, j);
  }

  lemma ImageFrom(x: seq<Entry>, f: Entry)
    requires MatchedFrom(x, f) && forall i :: 0 <= i < |x| && SameEntry(x[i], f) ==> Image(x[i]) == Image(f)
    ensures IsImage(Image(f), x)
  {
    hide SameEntry, Image;
    var i :| 0 <= i < |x| && SameEntry(x[i], f);
    ImagePresent(x, i);
  }

  /** Two values that are the same as a third are the same as each other. */
  lemma {:induction false} SameJoin(a: Json, b: Json, c: Json)
    requires Same(a, c) && Same(b, c)
    ensures Same(a, b)
    decreases a
  {
    match (a, b, c)
    case (Array(x), Array(y), Array(z)) => forall i | 0 <= i < |x| { SameJoin(x[i], y[i], z[i]); }
    case (Object(x), Object(y), Object(z)) =>
      JoinObjects(x, y, z);
    case _ =>
  }

  lemma {:induction false} JoinObjects(x: seq<Entry>, y: seq<Entry>, z: seq<Entry>)
    requires Same(Object(x), Object(z)) && Same(Object(y), Object(z))
    ensures Same(Object(x), Object(y))
    decreases x, 1
  {
    hide SameEntry, MatchedIn, MatchedFrom;
    forall i | 0 <= i < |x| ensures MatchedIn(x[i], y) { JoinIn(x[i], y, z); }
    forall j | 0 <= j < |y| ensures MatchedFrom(x, y[j]) { JoinFrom(x, y[j], z); }
  }

  lemma {:induction false} JoinIn(e: Entry, y: seq<Entry>, z: seq<Entry>)
    requires MatchedIn(e, z) && forall k :: 0 <= k < |z| ==> MatchedFrom(y, z[k])
    ensures MatchedIn(e, y)
    decreases e
  {
    hide Same;
    var k :| 0 <= k < |z| && SameEntry(e, z[k]);
    var j :| 0 <= j < |y| && SameEntry(y[j], z[k]);
    SameJoin(e.value, y[j].value, z[k].value);
    assert SameEntry(e, y[j]);
  }

  lemma {:induction false} JoinFrom(x: seq<Entry>, f: Entry, z: seq<Entry>)
    requires MatchedIn(f, z) && forall k :: 0 <= k < |z| ==> MatchedFrom(x, z[k])
    ensures MatchedFrom(x, f)
    decreases x, 0
  {
    hide Same;
    var k :| 0 <= k < |z| && SameEntry(f, z[k]);
    var i :| 0 <= i < |x| && SameEntry(x[i], z[k]);
    SameJoin(x[i].value, f.value, z[k].value);
    assert SameEntry(x[i], f);
  }

  /** Equal canonical forms mean equality up to key order, and nothing less. */
  lemma CanonicalIff(a: Json, b: Json)
    requires Proper(a) && Proper(b)
    ensures Canonicalize(a) == Canonicalize(b) <==> Same(a, b)
  {
    if Same(a, b) {
      SameHaveOneForm(a, b);
    } else if Canonicalize(a) == Canonicalize(b) {
      CanonicalIsSame(a);
      CanonicalIsSame(b);
      SameJoin(a, b, Canonicalize(a));
    }
  }

  lemma CanonicalIdempotent(v: Json)
    requires Proper(v)
    ensures Canonicalize(Canonicalize(v)) == Canonicalize(v)
  {
    CanonicalIsSame(v);
    SameHaveOneForm(v, Canonicalize(v));
  }
}

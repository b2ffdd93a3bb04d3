/** Sequences sorted strictly by a key, in lexicographic order. */
module SortedSequences {
  import opened LexOrder

  ghost predicate SortedBy<T>(a: seq<T>, key: T -> seq<int>) {
    forall i, j :: 0 <= i < j < |a| ==> LexLess(key(a[i]), key(a[j]))
  }

  /** Sorted sequences with the same members are the same sequence. */
  lemma {:induction false} SortedUnique<T(!new)>(a: seq<T>, b: seq<T>, key: T -> seq<int>)
    requires SortedBy(a, key) && SortedBy(b, key) && forall x :: x in a <==> x in b
    ensures a == b
    decreases |a|
  {
    if a == [] || b == [] {
      SomeMember(a);
      SomeMember(b);
    } else {
      HeadsAgree(a, b, key);
      forall x ensures x in a[1..] <==> x in b[1..] {
        if x in a[1..] { InTail(a, b, key, x); }
        if x in b[1..] { InTail(b, a, key, x); }
      }
      SortedUnique(a[1..], b[1..], key);
      assert a == [a[0]] + a[1..] && b == [b[0]] + b[1..];
    }
  }

  lemma SomeMember<T(!new)>(a: seq<T>)
    ensures a == [] || exists x :: x in a
  {
    if a != [] { assert a[0] in a; }
  }

  lemma HeadsAgree<T(!new)>(a: seq<T>, b: seq<T>, key: T -> seq<int>)
    requires SortedBy(a, key) && SortedBy(b, key) && a != [] && b != [] && forall x :: x in a <==> x in b
    ensures a[0] == b[0]
  {
    assert a[0] in b && b[0] in a;
    var j :| 0 <= j < |b| && b[j] == a[0];
    var i :| 0 <= i < |a| && a[i] == b[0];
    LexIrreflexive(key(a[0]));
    if i > 0 && j > 0 { LexTransitive(key(a[0]), key(a[i]), key(a[0])); }
  }

  lemma InTail<T(!new)>(a: seq<T>, b: seq<T>, key: T -> seq<int>, x: T)
    requires SortedBy(a, key) && a != [] && b != [] && a[0] == b[0] && x in a[1..] && forall y :: y in a <==> y in b
    ensures x in b[1..]
  {
    var i :| 0 <= i < |a[1..]| && a[1..][i] == x;
    assert a[i + 1] == x;
    LexIrreflexive(key(a[0]));
    assert x in b;
    var j :| 0 <= j < |b| && b[j] == x;
    assert b[1..][j - 1] == x;
  }
}

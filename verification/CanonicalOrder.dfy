/** The one order in which a canonical object enumerates its keys. */
module CanonicalOrder {
  import opened LexOrder
  import opened CanonicalJson

  // ---------------------------------------------------------------------------
  // Index keys are decimals
  // ---------------------------------------------------------------------------

  /** The decimal text of a number, without leading zeros. */
  ghost function DecimalKey(n: nat): Key {
    if n < 10 then [48 + n] else DecimalKey(n / 10) + [48 + n % 10]
  }

  ghost function ValueOf(k: Key): int {
    if k == [] then 0 else 10 * ValueOf(k[..|k| - 1]) + k[|k| - 1] - 48
  }

  ghost function TenTo(n: nat): nat { if n == 0 then 1 else 10 * TenTo(n - 1) }

  ghost predicate IsNumeral(k: Key) { k != [] && Digits(k) && (|k| > 1 ==> k[0] != 48) }

  lemma {:induction false} ValueBounds(k: Key)
    requires Digits(k)
    ensures 0 <= ValueOf(k) < TenTo(|k|)
    ensures k != [] && k[0] != 48 ==> ValueOf(k) >= TenTo(|k| - 1)
  {
    if k != [] { ValueBounds(k[..|k| - 1]); }
  }

  lemma {:induction false} ValueOfDecimal(n: nat)
    ensures IsNumeral(DecimalKey(n)) && ValueOf(DecimalKey(n)) == n && (n > 0 ==> DecimalKey(n)[0] != 48)
  {
    if n < 10 {
      assert [48 + n][..0] == [];
    } else {
      ValueOfDecimal(n / 10);
      var k := DecimalKey(n);
      assert k[..|k| - 1] == DecimalKey(n / 10);
    }
  }

  lemma {:induction false} DecimalOfValue(k: Key)
    requires IsNumeral(k)
    ensures ValueOf(k) >= 0 && DecimalKey(ValueOf(k)) == k
  {
    ValueBounds(k);
    if |k| == 1 {
      assert k[..0] == [] && k == [k[0]];
    } else {
      var before := k[..|k| - 1];
      DecimalOfValue(before);
      ValueBounds(before);
      assert TenTo(|before| - 1) >= 1 by { TenToPositive(|before| - 1); }
      LastDigit(ValueOf(before), k[|k| - 1] - 48);
      assert k == before + [k[|k| - 1]];
    }
  }

  lemma TenToPositive(n: nat)
    ensures TenTo(n) >= 1
  {}

  lemma LastDigit(a: int, d: int)
    requires 0 <= d < 10
    ensures (10 * a + d) / 10 == a && (10 * a + d) % 10 == d
  {}

  lemma {:induction false} DigitsCompare(a: Key, b: Key)
    requires Digits(a) && Digits(b) && |a| == |b|
    ensures LexLess(a, b) <==> ValueOf(a) < ValueOf(b)
    ensures a == b <==> ValueOf(a) == ValueOf(b)
    decreases |a|
  {
    if a == [] {
      assert b == [];
    } else {
      var a', b', x, y := a[..|a| - 1], b[..|b| - 1], a[|a| - 1], b[|b| - 1];
      DigitsCompare(a', b');
      assert a == a' + [x] && b == b' + [y];
      assert ValueOf(a) == 10 * ValueOf(a') + (x - 48) && ValueOf(b) == 10 * ValueOf(b') + (y - 48);
      LexAppend(a', [x], b', [y]);
      OneUnit(x, y);
      hide ValueOf, LexLess, Digits;
      Positional(ValueOf(a'), ValueOf(b'), x - 48, y - 48);
    }
  }

  lemma Positional(p: int, q: int, x: int, y: int)
    requires 0 <= x < 10 && 0 <= y < 10
    ensures 10 * p + x < 10 * q + y <==> p < q || (p == q && x < y)
    ensures 10 * p + x == 10 * q + y <==> p == q && x == y
  {}

  lemma OneUnit(x: int, y: int)
    ensures LexLess([x], [y]) <==> x < y
  {}

  lemma Powers()
    ensures TenTo(9) == 1_000_000_000 && TenTo(10) == 10_000_000_000
  {
    assert TenTo(3) == 1_000 && TenTo(6) == 1_000_000;
  }

  lemma {:induction false} TenToGrows(i: nat, j: nat)
    requires i <= j
    ensures TenTo(i) <= TenTo(j)
  {
    if i < j { TenToGrows(i, j - 1); }
  }

  lemma TenDigits(k: Key)
    requires |k| == 10
    ensures var d: seq<int> := k;
            ValueOf(k) ==
            ((((((((d[0] * 10 + d[1]) * 10 + d[2]) * 10 + d[3]) * 10 + d[4]) * 10 + d[5]) * 10 + d[6]) * 10
              + d[7]) * 10 + d[8]) * 10 + d[9] - 48 * 1_111_111_111
  {
    hide ValueOf;
    PrefixValue(k, 0); PrefixValue(k, 1); PrefixValue(k, 2); PrefixValue(k, 3); PrefixValue(k, 4);
    PrefixValue(k, 5); PrefixValue(k, 6); PrefixValue(k, 7); PrefixValue(k, 8); PrefixValue(k, 9);
    assert k[..0] == [] && k[..10] == k;
  }

  lemma IndexLimit()
    ensures var limit: Key := [52, 50, 57, 52, 57, 54, 55, 50, 57, 53]; Digits(limit) && ValueOf(limit) == 4_294_967_295
  {
    hide ValueOf;
    TenDigits([52, 50, 57, 52, 57, 54, 55, 50, 57, 53]);
  }

  lemma PrefixValue(k: Key, n: nat)
    requires n < |k|
    ensures ValueOf(k[..n + 1]) == 10 * ValueOf(k[..n]) + k[n] - 48
    ensures ValueOf([]) == 0
  {
    assert k[..n + 1][..n] == k[..n];
  }

  ghost predicate Numeric(k: Key) { exists n: nat :: n < 4_294_967_295 && k == DecimalKey(n) }

  /** The keys that enumerate first are the decimals of the numbers below 2^32 - 1. */
  lemma IndexIff(k: Key)
    ensures IsIndex(k) <==> Numeric(k)
  {
    if IsNumeral(k) {
      ValueBounds(k);
      DecimalOfValue(k);
      Powers();
      IndexLimit();
      if |k| <= 9 { TenToGrows(|k|, 9); }
      if |k| > 10 { TenToGrows(10, |k| - 1); }
      if |k| == 10 { DigitsCompare(k, [52, 50, 57, 52, 57, 54, 55, 50, 57, 53]); }
      assert IsIndex(k) <==> ValueOf(k) < 4_294_967_295;
    }
    if n: nat :| n < 4_294_967_295 && k == DecimalKey(n) { ValueOfDecimal(n); }
  }

  /** Their order is that of the numbers. */
  lemma IndexOrder(m: nat, n: nat)
    ensures Before(true, DecimalKey(m), DecimalKey(n)) <==> m < n
  {
    var a, b := DecimalKey(m), DecimalKey(n);
    ValueOfDecimal(m);
    ValueOfDecimal(n);
    ValueBounds(a);
    ValueBounds(b);
    hide DecimalKey, ValueOf, TenTo;
    if |a| == |b| {
      DigitsCompare(a, b);
    } else if |a| < |b| {
      TenToGrows(|a|, |b| - 1);
    } else {
      TenToGrows(|b|, |a| - 1);
    }
  }

  // ---------------------------------------------------------------------------
  // The order of a canonical object
  // ---------------------------------------------------------------------------

  /** Numbers below 2^32 - 1 come first, in numeric order; then the other keys, by code units. */
  ghost predicate Earlier(a: Key, b: Key) {
    || (exists m: nat, n: nat :: m < n < 4_294_967_295 && a == DecimalKey(m) && b == DecimalKey(n))
    || (Numeric(a) && !Numeric(b))
    || (!Numeric(a) && !Numeric(b) && LexLess(a, b))
  }

  lemma IndexEarlier(a: Key, b: Key)
    requires Numeric(a) && Numeric(b) && Before(true, a, b)
    ensures Earlier(a, b)
  {
    var m: nat :| m < 4_294_967_295 && a == DecimalKey(m);
    var n: nat :| n < 4_294_967_295 && b == DecimalKey(n);
    IndexOrder(m, n);
  }

  /** Dropping the index keys keeps the others in order. */
  lemma {:induction false} IndicesSorted(es: seq<Entry>, index: bool)
    requires SortedKeys(false, es)
    ensures SortedKeys(false, Indices(es, index))
  {
    hide IsIndex, Before;
    if es != [] {
      IndicesSorted(es[1..], index);
      var rest := Indices(es[1..], index);
      forall j | 0 <= j < |rest| ensures Before(false, es[0].key, rest[j].key) {
        assert rest[j] in rest;
        var k :| 0 <= k < |es[1..]| && es[1..][k] == rest[j];
        assert es[k + 1] == rest[j];
      }
    }
  }

  /** A canonical object enumerates its keys in that order, so that its text is the same wherever it is built. */
  lemma CanonicalEnumerates(es: seq<Entry>, i: nat, j: nat)
    requires DistinctKeys(es) && i < j < |Canonicalize(Object(es)).entries|
    ensures Earlier(Canonicalize(Object(es)).entries[i].key, Canonicalize(Object(es)).entries[j].key)
  {
    CanonicalObject(es);
    ImagesOfSorted(es);
    var images := Images(Sort(false, es));
    hide Canonicalize, Sort, Indices, Images, IsIndex, Earlier, Numeric;
    SortedDistinct(false, images);
    IndicesDistinct(images, true);
    SortSorted(true, Indices(images, true));
    IndicesSorted(images, false);
    var first, second := Sort(true, Indices(images, true)), Indices(images, false);
    var all := first + second;
    assert all[i] in all && all[j] in all;
    IndexIff(all[i].key);
    IndexIff(all[j].key);
    if j < |first| {
      assert first[i] in first && first[j] in first;
      IndexEarlier(all[i].key, all[j].key);
    } else if i < |first| {
      assert first[i] in first && second[j - |first|] in second;
      NumericFirst(all[i].key, all[j].key);
    } else {
      assert second[i - |first|] in second && second[j - |first|] in second;
      OthersEarlier(all[i].key, all[j].key);
    }
  }

  lemma NumericFirst(a: Key, b: Key)
    requires Numeric(a) && !Numeric(b)
    ensures Earlier(a, b)
  {}

  lemma OthersEarlier(a: Key, b: Key)
    requires !Numeric(a) && !Numeric(b) && LexLess(a, b)
    ensures Earlier(a, b)
  {}
}

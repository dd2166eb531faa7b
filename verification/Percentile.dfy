/** `percentile` of `summarize_results.py`: interpolation between the two nearest ranks, over
    real numbers. */
module Percentile {
  import opened Basics

  // ---------------------------------------------------------------- sorting

  predicate Ordered(s: seq<real>) { forall i, j :: 0 <= i < j < |s| ==> s[i] <= s[j] }

  function Insert(x: real, s: seq<real>): seq<real> {
    if s == [] || x <= s[0] then [x] + s else [s[0]] + Insert(x, s[1..])
  }

  function Sorted(values: seq<real>): seq<real> {
    if values == [] then [] else Insert(values[0], Sorted(values[1..]))
  }

  predicate SameValues(a: seq<real>, b: seq<real>) { multiset(a) == multiset(b) }

  lemma {:induction false} InsertAdds(x: real, s: seq<real>)
    ensures multiset(Insert(x, s)) == multiset(s) + multiset{x}
  {
    if s != [] && x > s[0] {
      InsertAdds(x, s[1..]);
      assert s == [s[0]] + s[1..];
    }
  }

  lemma {:induction false} InsertOrders(x: real, s: seq<real>)
    requires Ordered(s)
    ensures Ordered(Insert(x, s))
  {
    if s != [] && x > s[0] {
      InsertOrders(x, s[1..]);
      InsertAdds(x, s[1..]);
      var tail := Insert(x, s[1..]);
      forall i | 0 <= i < |tail| ensures s[0] <= tail[i] {
        assert tail[i] in multiset(tail);
        assert tail[i] == x || tail[i] in s[1..];
      }
    }
  }

  lemma {:induction false} SortedSorts(values: seq<real>)
    ensures Ordered(Sorted(values)) && SameValues(Sorted(values), values) && |Sorted(values)| == |values|
  {
    if values != [] {
      SortedSorts(values[1..]);
      InsertOrders(values[0], Sorted(values[1..]));
      InsertAdds(values[0], Sorted(values[1..]));
      assert values == [values[0]] + values[1..];
      assert |multiset(Sorted(values))| == |multiset(values)|;
    }
  }

  lemma SameMembers(a: seq<real>, b: seq<real>)
    requires SameValues(a, b)
    ensures |a| == |b| && forall v :: v in a <==> v in b
  {
    assert |multiset(a)| == |a| && |multiset(b)| == |b|;
    forall v ensures v in a <==> v in b {
      assert v in a <==> v in multiset(a);
      assert v in b <==> v in multiset(b);
    }
  }

  lemma SameTails(a: seq<real>, b: seq<real>)
    requires SameValues(a, b) && a != [] && b != [] && a[0] == b[0]
    ensures SameValues(a[1..], b[1..])
  {
    assert a == [a[0]] + a[1..] && b == [b[0]] + b[1..];
    assert multiset(a[1..]) == multiset(a) - multiset{a[0]};
    assert multiset(b[1..]) == multiset(b) - multiset{b[0]};
  }

  /** There is only one way to sort, so any sorting routine gives `Sorted`. */
  lemma {:induction false} SortingIsUnique(a: seq<real>, b: seq<real>)
    requires Ordered(a) && Ordered(b) && SameValues(a, b)
    ensures a == b
  {
    SameMembers(a, b);
    if a != [] {
      assert a[0] in b && b[0] in a;
      SameTails(a, b);
      SortingIsUnique(a[1..], b[1..]);
      assert a == [a[0]] + a[1..] && b == [b[0]] + b[1..];
    }
  }

  // ---------------------------------------------------------------- the percentile

  /** The value at fractional rank `k` of sorted values. */
  function AtRank(s: seq<real>, k: real): real
    requires s != [] && 0.0 <= k <= (|s| - 1) as real
  {
    var f := k.Floor;
    var c := if f + 1 < |s| - 1 then f + 1 else |s| - 1;
    if f == c then s[f] else s[f] + (s[c] - s[f]) * (k - f as real)
  }

  function Rank(n: nat, p: real): real
    requires n > 0
  {
    (n - 1) as real * (p / 100.0)
  }

  lemma RankInRange(n: nat, p: real)
    requires n > 0 && 0.0 <= p <= 100.0
    ensures 0.0 <= Rank(n, p) <= (n - 1) as real
    ensures Rank(n, 0.0) == 0.0 && Rank(n, 100.0) == (n - 1) as real
  {
    var last, share := (n - 1) as real, p / 100.0;
    assert 0.0 <= share <= 1.0;
    Scale(last, share, 1.0);
    Scale(last, 0.0, share);
  }

  lemma Scale(x: real, a: real, b: real)
    requires x >= 0.0 && a <= b
    ensures x * a <= x * b
  {
  }

  function Percentile(values: seq<real>, p: real): Option<real>
    requires 0.0 <= p <= 100.0
  {
    if values == [] then None
    else
      var s := Sorted(values);
      SortedSorts(values);
      RankInRange(|s|, p);
      if |s| == 1 then Some(s[0]) else Some(AtRank(s, Rank(|s|, p)))
  }

  // ---------------------------------------------------------------- inside one cell

  lemma Interpolation(lo: real, hi: real, t: real, u: real)
    requires lo <= hi && 0.0 <= t <= u <= 1.0
    ensures lo <= lo + (hi - lo) * t <= lo + (hi - lo) * u <= hi
  {
    Scale(hi - lo, 0.0, t);
    Scale(hi - lo, t, u);
    Scale(hi - lo, u, 1.0);
  }

  /** The value lies between its two neighbouring ranks. */
  lemma InItsCell(s: seq<real>, k: real)
    requires s != [] && Ordered(s) && 0.0 <= k <= (|s| - 1) as real
    ensures var f := k.Floor;
            0 <= f < |s| && s[f] <= AtRank(s, k) <= s[if f + 1 < |s| then f + 1 else f]
  {
    var f := k.Floor;
    assert f as real <= k < f as real + 1.0;
    if f + 1 < |s| {
      Interpolation(s[f], s[f + 1], k - f as real, k - f as real);
    }
  }

  lemma RankMonotone(s: seq<real>, j: real, k: real)
    requires s != [] && Ordered(s) && 0.0 <= j <= k <= (|s| - 1) as real
    ensures AtRank(s, j) <= AtRank(s, k)
  {
    InItsCell(s, j);
    InItsCell(s, k);
    var f, g := j.Floor, k.Floor;
    if f == g && f + 1 < |s| {
      Interpolation(s[f], s[f + 1], j - f as real, k - f as real);
    }
  }

  // ---------------------------------------------------------------- the properties

  /** Whatever bounds hold of the values hold of every percentile. */
  lemma BetweenMinAndMax(values: seq<real>, p: real, lo: real, hi: real)
    requires values != [] && 0.0 <= p <= 100.0
    requires forall v :: v in values ==> lo <= v <= hi
    ensures lo <= Percentile(values, p).value <= hi
  {
    var s := Sorted(values);
    SortedSorts(values);
    RankInRange(|s|, p);
    InItsCell(s, Rank(|s|, p));
    SameMembers(s, values);
    assert forall i :: 0 <= i < |s| ==> s[i] in s;
  }

  /** The 0th percentile is the least value and the 100th the greatest. */
  lemma EndsAreMinAndMax(values: seq<real>)
    requires values != []
    ensures var least := Percentile(values, 0.0).value; least in values && forall v :: v in values ==> least <= v
    ensures var most := Percentile(values, 100.0).value; most in values && forall v :: v in values ==> v <= most
  {
    var s := Sorted(values);
    SortedSorts(values);
    RankInRange(|s|, 0.0);
    assert Percentile(values, 0.0).value == s[0];
    assert Percentile(values, 100.0).value == s[|s| - 1];
    SameMembers(s, values);
    assert s[0] in s && s[|s| - 1] in s;
    forall v | v in values ensures s[0] <= v <= s[|s| - 1] {
      var i :| 0 <= i < |s| && s[i] == v;
    }
  }

  /** A higher percentile is never lower, across ranks too. */
  lemma MonotoneInP(values: seq<real>, p: real, q: real)
    requires values != [] && 0.0 <= p <= q <= 100.0
    ensures Percentile(values, p).value <= Percentile(values, q).value
  {
    var s := Sorted(values);
    SortedSorts(values);
    RankInRange(|s|, p);
    RankInRange(|s|, q);
    Scale((|s| - 1) as real, p / 100.0, q / 100.0);
    RankMonotone(s, Rank(|s|, p), Rank(|s|, q));
  }

  /** The order of the values does not matter. */
  lemma OrderIsIrrelevant(a: seq<real>, b: seq<real>, p: real)
    requires SameValues(a, b) && 0.0 <= p <= 100.0
    ensures Percentile(a, p) == Percentile(b, p)
  {
    SortedSorts(a);
    SortedSorts(b);
    SortingIsUnique(Sorted(a), Sorted(b));
    SameMembers(a, b);
  }

  lemma AtWholeRank(s: seq<real>, j: nat)
    requires j < |s|
    ensures AtRank(s, j as real) == s[j]
  {
    assert (j as real).Floor == j;
    if j + 1 < |s| { assert (s[j + 1] - s[j]) * 0.0 == 0.0; }
  }

  lemma InsideCell(s: seq<real>, j: nat, t: real)
    requires j + 1 < |s| && 0.0 <= t < 1.0
    ensures AtRank(s, j as real + t) == s[j] + (s[j + 1] - s[j]) * t
  {
    assert (j as real + t).Floor == j;
  }

  lemma WeightedMean(lo: real, hi: real, t: real)
    ensures lo + (hi - lo) * t == (1.0 - t) * lo + t * hi
  {
  }

  /** Between two neighbouring ranks, both included, the value is the weighted mean of theirs: the
      percentile passes through every sorted value and is linear in between. */
  lemma LinearBetweenRanks(s: seq<real>, j: nat, t: real)
    requires j + 1 < |s| && 0.0 <= t <= 1.0
    ensures AtRank(s, j as real + t) == (1.0 - t) * s[j] + t * s[j + 1]
  {
    WeightedMean(s[j], s[j + 1], t);
    if t < 1.0 {
      InsideCell(s, j, t);
    } else {
      AtWholeRank(s, j + 1);
      assert j as real + t == (j + 1) as real;
    }
  }

  /** A percentile is that value of the sorted sample at its rank, whatever the sample's size. */
  lemma PercentileAtRank(values: seq<real>, p: real)
    requires values != [] && 0.0 <= p <= 100.0
    ensures var s := Sorted(values);
            s != [] && 0.0 <= Rank(|values|, p) <= (|s| - 1) as real
            && Percentile(values, p) == Some(AtRank(s, Rank(|values|, p)))
  {
    SortedSorts(values);
    RankInRange(|values|, p);
    if |values| == 1 { AtWholeRank(Sorted(values), 0); }
  }

  lemma RankOf(n: nat, p: real, k: real)
    requires n > 0 && p * (n - 1) as real == 100.0 * k
    ensures Rank(n, p) == k
  {
    var last := (n - 1) as real;
    assert last * (p / 100.0) == p * last / 100.0;
  }

  lemma SharesInRange(last: real, p: real, k: real)
    requires last > 0.0 && p * last == 100.0 * k && 0.0 <= k <= last
    ensures 0.0 <= p <= 100.0
  {
    if p < 0.0 { ScaleStrictly(last, p, 0.0); }
    if p > 100.0 { ScaleStrictly(last, 100.0, p); }
  }

  lemma ScaleStrictly(x: real, a: real, b: real)
    requires x > 0.0 && a < b
    ensures x * a < x * b
  {
  }

  lemma AtRankOf(values: seq<real>, p: real, k: real)
    requires values != [] && 0.0 <= p <= 100.0 && Rank(|values|, p) == k
    ensures |Sorted(values)| == |values| && 0.0 <= k <= (|values| - 1) as real
    ensures Percentile(values, p) == Some(AtRank(Sorted(values), k))
  {
    SortedSorts(values);
    PercentileAtRank(values, p);
  }

  /** `p` lies the share `t` of the way from value `j` to the next, of `n` that are spread evenly from
      0 to 100. */
  predicate Between(n: nat, p: real, j: nat, t: real) {
    j + 1 < n && 0.0 <= t <= 1.0 && p * (n - 1) as real == 100.0 * (j as real + t)
  }

  lemma RankBetween(n: nat, p: real, j: nat, t: real)
    requires Between(n, p, j, t)
    ensures 0.0 <= p <= 100.0 && Rank(n, p) == j as real + t
  {
    SharesInRange((n - 1) as real, p, j as real + t);
    RankOf(n, p, j as real + t);
  }

  /** Every percentage lies between two neighbouring values, if there are two. */
  lemma SomewhereBetween(n: nat, p: real) returns (j: nat, t: real)
    requires n > 1 && 0.0 <= p <= 100.0
    ensures Between(n, p, j, t)
  {
    RankInRange(n, p);
    var k := Rank(n, p);
    j := if k.Floor + 1 < n then k.Floor else n - 2;
    t := k - j as real;
    assert p * (n - 1) as real == 100.0 * k;
  }

  lemma MeanOf(s: seq<real>, j: nat, t: real, k: real)
    requires j + 1 < |s| && 0.0 <= t <= 1.0 && k == j as real + t
    ensures 0.0 <= k <= (|s| - 1) as real && AtRank(s, k) == (1.0 - t) * s[j] + t * s[j + 1]
  {
    LinearBetweenRanks(s, j, t);
  }

  lemma PercentileBetween(values: seq<real>, p: real, j: nat, t: real)
    requires Between(|values|, p, j, t)
    ensures 0.0 <= p <= 100.0 && |Sorted(values)| == |values| && 0.0 <= j as real + t <= (|values| - 1) as real
    ensures Percentile(values, p) == Some(AtRank(Sorted(values), j as real + t))
  {
    RankBetween(|values|, p, j, t);
    AtRankOf(values, p, j as real + t);
  }

  /** The percentile is the weighted mean of the two sorted values it lies between. */
  lemma WeightedMeanInP(values: seq<real>, p: real, j: nat, t: real, s: seq<real>)
    requires Between(|values|, p, j, t) && s == Sorted(values)
    ensures 0.0 <= p <= 100.0 && |s| == |values|
    ensures Percentile(values, p) == Some((1.0 - t) * s[j] + t * s[j + 1])
  {
    PercentileBetween(values, p, j, t);
    MeanOf(s, j, t, j as real + t);
  }

  lemma StepShare(j: real, last: real, p: real)
    requires last > 0.0 && p == j / last * 100.0
    ensures p * last == 100.0 * j
  {
    assert j / last * last == j;
    assert p * last == j / last * last * 100.0;
  }

  /** At `j` of the `n - 1` equal steps from 0 to 100 it is the sorted value `j`; and one value is
      every percentile of itself. */
  lemma SortedValuesAt(values: seq<real>, j: nat, p: real)
    requires j < |values| && 0.0 <= p <= 100.0
    requires |values| > 1 ==> p == j as real / (|values| - 1) as real * 100.0
    ensures |Sorted(values)| == |values| && Percentile(values, p) == Some(Sorted(values)[j])
  {
    if |values| > 1 { StepShare(j as real, (|values| - 1) as real, p); }
    RankOf(|values|, p, j as real);
    AtRankOf(values, p, j as real);
    AtWholeRank(Sorted(values), j);
  }

  /** The median of five, and their 90th percentile. */
  lemma OneToFive(values: seq<real>)
    requires SameValues(values, [1.0, 2.0, 3.0, 4.0, 5.0])
    ensures Percentile(values, 50.0) == Some(3.0) && Percentile(values, 90.0) == Some(4.6)
  {
    var sorted := [1.0, 2.0, 3.0, 4.0, 5.0];
    SortedSorts(values);
    SortingIsUnique(Sorted(values), sorted);
    SameMembers(values, sorted);
    WeightedMeanInP(values, 50.0, 2, 0.0, sorted);
    WeightedMeanInP(values, 90.0, 3, 0.6, sorted);
  }

  // ---------------------------------------------------------------- what share lies on each side

  function CountBelow(s: seq<real>, r: real): nat {
    if s == [] then 0 else (if s[0] < r then 1 else 0) + CountBelow(s[1..], r)
  }

  function CountAbove(s: seq<real>, r: real): nat {
    if s == [] then 0 else (if s[0] > r then 1 else 0) + CountAbove(s[1..], r)
  }

  lemma {:induction false} InsertCounts(x: real, s: seq<real>, r: real)
    ensures CountBelow(Insert(x, s), r) == CountBelow([x] + s, r)
    ensures CountAbove(Insert(x, s), r) == CountAbove([x] + s, r)
  {
    assert ([x] + s)[1..] == s;
    if s != [] && x > s[0] {
      InsertCounts(x, s[1..], r);
      assert ([x] + s[1..])[1..] == s[1..];
      assert Insert(x, s)[1..] == Insert(x, s[1..]);
    }
  }

  lemma {:induction false} SortedCounts(values: seq<real>, r: real)
    ensures CountBelow(Sorted(values), r) == CountBelow(values, r)
    ensures CountAbove(Sorted(values), r) == CountAbove(values, r)
  {
    if values != [] {
      SortedCounts(values[1..], r);
      InsertCounts(values[0], Sorted(values[1..]), r);
      assert ([values[0]] + Sorted(values[1..]))[1..] == Sorted(values[1..]);
    }
  }

  /** At most `m` values lie below one that is no greater than the value at rank `m`. */
  lemma {:induction false} FewBelow(s: seq<real>, m: nat, r: real)
    requires Ordered(s) && m <= |s| && (m < |s| ==> r <= s[m])
    ensures CountBelow(s, r) <= m
  {
    if s != [] {
      if m == 0 {
        assert forall i :: 0 <= i < |s| ==> s[0] <= s[i];
        assert s[1..] != [] ==> s[1..][0] == s[1];
        FewBelow(s[1..], 0, r);
      } else {
        FewBelow(s[1..], m - 1, r);
      }
    }
  }

  lemma {:induction false} FewAbove(s: seq<real>, m: nat, r: real)
    requires Ordered(s) && m < |s| && s[m] <= r
    ensures CountAbove(s, r) <= |s| - 1 - m
  {
    if m == 0 {
      AtMostAll(s[1..], r);
    } else {
      FewAbove(s[1..], m - 1, r);
    }
  }

  lemma {:induction false} AtMostAll(s: seq<real>, r: real)
    ensures CountAbove(s, r) <= |s|
  {
    if s != [] { AtMostAll(s[1..], r); }
  }

  /** What a percentile means: of the values as given, at most the whole part of its rank plus
      one lie below it, and at most the rest above. */
  lemma SharesOnEachSide(values: seq<real>, p: real)
    requires values != [] && 0.0 <= p <= 100.0
    ensures var r, f := Percentile(values, p).value, Rank(|values|, p).Floor;
            CountBelow(values, r) <= f + 1 && CountAbove(values, r) <= |values| - 1 - f
  {
    var s := Sorted(values);
    SortedSorts(values);
    RankInRange(|s|, p);
    var k := Rank(|s|, p);
    InItsCell(s, k);
    var r, f := Percentile(values, p).value, k.Floor;
    FewBelow(s, f + 1, r);
    FewAbove(s, f, r);
    SortedCounts(values, r);
  }
}

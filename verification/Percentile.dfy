/** The two linear-interpolation percentiles: one over raw values, one over sorted ones. */
module Percentile {
  import opened Wrappers
  import opened Arith
  import opened Sorting

  function AtMost(): (real, real) -> bool {
    (a, b) => a <= b
  }

  /** The fractional index of quantile `q` among `n` sorted values. */
  function Rank(q: real, n: nat): real {
    q * (n - 1) as real
  }

  lemma RankInRange(q: real, n: nat)
    requires 0.0 <= q <= 1.0 && n >= 1
    ensures 0.0 <= Rank(q, n) <= (n - 1) as real
  {
    RankRises(0.0, q, n);
    RankRises(q, 1.0, n);
  }

  lemma RankRises(q: real, r: real, n: nat)
    requires q <= r && n >= 1
    ensures Rank(q, n) <= Rank(r, n)
  {
    var m := (n - 1) as real;
    MulSign(r - q, m);
    MulSum(q, r - q, m);
    assert Rank(q, n) == Mul(q, m) && Rank(r, n) == Mul(r, m);
    hide Mul, Rank;
    assert q + (r - q) == r;
  }

  /** The way from `a` to `b`, a fraction `f` of it. */
  function Blend(a: real, b: real, f: real): real {
    a + (b - a) * f
  }

  lemma BlendRises(a: real, b: real, f: real, g: real)
    requires a <= b && 0.0 <= f <= g <= 1.0
    ensures a <= Blend(a, b, f) <= Blend(a, b, g) <= b
  {
    var d := b - a;
    MulSign(d, f);
    MulSign(d, g - f);
    MulSign(d, 1.0 - g);
    MulSum(f, g - f, d);
    MulSum(g, 1.0 - g, d);
    assert Blend(a, b, f) == a + Mul(d, f) && Blend(a, b, g) == a + Mul(d, g) && Mul(d, 1.0) == d;
    hide Mul, Blend;
    assert f + (g - f) == g && g + (1.0 - g) == 1.0;
  }

  /** Between `int(rank)` and the rank above it, clamped to the last index. */
  function Interpolate(s: seq<real>, rank: real): real
    requires |s| > 0 && 0.0 <= rank <= (|s| - 1) as real
  {
    var low := rank.Floor;
    var high := if low + 1 <= |s| - 1 then low + 1 else |s| - 1;
    Blend(s[low], s[high], rank - low as real)
  }

  function OfSorted(s: seq<real>, q: real): real
    requires s != [] && 0.0 <= q <= 1.0
  {
    if |s| == 1 then s[0] else
      RankInRange(q, |s|);
      Interpolate(s, Rank(q, |s|))
  }

  function PercentileOf(values: seq<real>, p: real): real
    requires 0.0 <= p <= 100.0
  {
    if values == [] then 0.0 else
      SortIsPermutation(values, AtMost());
      OfSorted(Sort(values, AtMost()), p / 100.0)
  }

  function Weighted(a: real, u: real, b: real, v: real): real {
    a * u + b * v
  }

  function Ceil(x: real): int {
    -((-x).Floor)
  }

  /** `PERCENTILE_CONT`: weights of the two nearest ranks, or the value itself on a rank. */
  function PercentileCont(sorted: seq<real>, q: real): Option<real>
    requires 0.0 <= q <= 1.0
  {
    if sorted == [] then None
    else if |sorted| == 1 then Some(sorted[0])
    else
      RankInRange(q, |sorted|);
      var pos := Rank(q, |sorted|);
      var lo, hi := pos.Floor, Ceil(pos);
      if lo == hi then Some(sorted[lo])
      else Some(Weighted(sorted[lo], hi as real - pos, sorted[hi], pos - lo as real))
  }

  lemma BlendIsWeighted(a: real, b: real, u: real, v: real)
    requires u + v == 1.0
    ensures Blend(a, b, v) == Weighted(a, u, b, v)
  {
    assert u == 1.0 - v;
  }

  lemma ContIsInterpolation(s: seq<real>, q: real)
    requires s != [] && 0.0 <= q <= 1.0
    ensures PercentileCont(s, q) == Some(OfSorted(s, q))
  {
    if |s| > 1 {
      RankInRange(q, |s|);
      var pos := Rank(q, |s|);
      var lo := pos.Floor;
      hide Rank, Blend, Weighted;
      if lo as real == pos {
        assert Ceil(pos) == lo;
        BlendFromStart(s[lo], s[if lo + 1 <= |s| - 1 then lo + 1 else |s| - 1]);
      } else {
        assert Ceil(pos) == lo + 1;
        BlendIsWeighted(s[lo], s[lo + 1], Ceil(pos) as real - pos, pos - lo as real);
      }
    }
  }

  lemma BlendFromStart(a: real, b: real)
    ensures Blend(a, b, 0.0) == a
  {}

  /** The two agree: the p-th percentile is PERCENTILE_CONT of p/100 over the sorted values. */
  lemma PercentilesAgree(values: seq<real>, p: real)
    requires 0.0 <= p <= 100.0
    ensures values != [] ==> PercentileCont(Sort(values, AtMost()), p / 100.0) == Some(PercentileOf(values, p))
    ensures values == [] ==> PercentileCont(Sort(values, AtMost()), p / 100.0) == None && PercentileOf(values, p) == 0.0
  {
    hide OfSorted, PercentileCont;
    SortIsPermutation(values, AtMost());
    if values != [] {
      hide Sort;
      ContIsInterpolation(Sort(values, AtMost()), p / 100.0);
    } else {
      ContOfNothing(p / 100.0);
    }
  }

  lemma ContOfNothing(q: real)
    requires 0.0 <= q <= 1.0
    ensures PercentileCont([], q) == None
  {}

  lemma Ordered(s: seq<real>, i: nat, j: nat)
    requires Sorted(s, AtMost()) && i <= j < |s|
    ensures s[i] <= s[j]
  {
    assert i < j ==> AtMost()(s[i], s[j]);
  }

  /** Interpolation over sorted values rises with the rank and stays within them. */
  lemma InterpolateRises(s: seq<real>, r: real, t: real)
    requires |s| > 0 && Sorted(s, AtMost()) && 0.0 <= r <= t <= (|s| - 1) as real
    ensures s[0] <= Interpolate(s, r) <= Interpolate(s, t) <= s[|s| - 1]
  {
    hide Blend, Sorted;
    var i, j := r.Floor, t.Floor;
    var i' := if i + 1 <= |s| - 1 then i + 1 else |s| - 1;
    var j' := if j + 1 <= |s| - 1 then j + 1 else |s| - 1;
    Ordered(s, 0, i);
    Ordered(s, i, i');
    Ordered(s, j, j');
    Ordered(s, j', |s| - 1);
    if i == j {
      BlendRises(s[i], s[i'], r - i as real, t - i as real);
    } else {
      Ordered(s, i', j);
      BlendRises(s[i], s[i'], r - i as real, r - i as real);
      BlendRises(s[j], s[j'], t - j as real, t - j as real);
    }
  }

  lemma OfSortedRises(s: seq<real>, q: real, r: real)
    requires s != [] && Sorted(s, AtMost()) && 0.0 <= q <= r <= 1.0
    ensures s[0] <= OfSorted(s, q) <= OfSorted(s, r) <= s[|s| - 1]
  {
    hide Rank, Interpolate;
    RankInRange(q, |s|);
    RankInRange(r, |s|);
    RankRises(q, r, |s|);
    InterpolateRises(s, Rank(q, |s|), Rank(r, |s|));
  }

  /** Between two neighbouring ranks the percentile moves evenly from the one value to the other. */
  lemma BetweenRanks(values: seq<real>, p: real, k: nat)
    requires 0.0 <= p <= 100.0 && k + 1 < |values|
    requires k as real <= p / 100.0 * (|values| - 1) as real <= (k + 1) as real
    ensures var s := Sort(values, AtMost());
      |s| == |values| && PercentileOf(values, p) == s[k] + (s[k + 1] - s[k]) * (p / 100.0 * (|values| - 1) as real - k as real)
  {
    hide Sort;
    SortIsPermutation(values, AtMost());
    var s, q := Sort(values, AtMost()), p / 100.0;
    RankInRange(q, |s|);
    var rank := Rank(q, |s|);
    assert rank == q * (|s| - 1) as real;
    hide Rank;
    if rank == (k + 1) as real {
      BlendFromStart(s[k + 1], s[if k + 2 <= |s| - 1 then k + 2 else |s| - 1]);
      assert (s[k + 1] - s[k]) * 1.0 == s[k + 1] - s[k];
    } else {
      assert rank.Floor == k;
    }
  }

  lemma AtMostIsTotal()
    ensures TotalPreorder(AtMost())
  {}

  /** The percentile rises with p and never leaves the range of the values. */
  lemma PercentileRises(values: seq<real>, p: real, q: real, lo: real, hi: real)
    requires values != [] && 0.0 <= p <= q <= 100.0
    requires forall v | v in values :: lo <= v <= hi
    ensures lo <= PercentileOf(values, p) <= PercentileOf(values, q) <= hi
  {
    hide Sort, OfSorted;
    AtMostIsTotal();
    SortIsPermutation(values, AtMost());
    SortSorts(values, AtMost());
    var s := Sort(values, AtMost());
    OfSortedRises(s, p / 100.0, q / 100.0);
    assert s[0] in multiset(values) && s[|s| - 1] in multiset(values);
    assert s[0] in values && s[|s| - 1] in values;
  }

  /** The order the values arrive in does not matter. */
  lemma PercentileOfPermutation(a: seq<real>, b: seq<real>, p: real)
    requires multiset(a) == multiset(b) && 0.0 <= p <= 100.0
    ensures PercentileOf(a, p) == PercentileOf(b, p)
  {
    hide Sort, OfSorted;
    AtMostIsTotal();
    SortIsPermutation(a, AtMost());
    SortIsPermutation(b, AtMost());
    SortSorts(a, AtMost());
    SortSorts(b, AtMost());
    SortedIsUnique(Sort(a, AtMost()), Sort(b, AtMost()), AtMost());
    assert |a| == |multiset(a)| == |multiset(b)| == |b|;
  }
}

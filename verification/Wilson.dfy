/** The Wilson score interval, over the reals. The square root is a parameter: the non-negative
  * number whose square is the radicand. */
module Wilson {
  import opened Arith

  function Radicand(p: real, n: real, z: real): real
    requires n > 0.0
  {
    (p * (1.0 - p) + z * z / (4.0 * n)) / n
  }

  predicate IsRoot(r: real, x: real) {
    r >= 0.0 && r * r == x
  }

  /** Every non-negative number is the root of its square. */
  lemma RootOfSquare(r: real)
    requires r >= 0.0
    ensures IsRoot(r, r * r)
  {}

  datatype Interval = Interval(low: real, high: real)

  function WilsonInterval(successes: nat, n: nat, z: real, root: real): Interval
    requires n > 0 ==> IsRoot(root, Radicand(successes as real / n as real, n as real, z))
  {
    if n == 0 then Interval(0.0, 0.0) else
      var N := n as real;
      var p := successes as real / N;
      var denom := 1.0 + z * z / N;
      var center := (p + z * z / (2.0 * N)) / denom;
      var margin := z * root / denom;
      Interval(MaxReal(0.0, center - margin), MinReal(1.0, center + margin))
  }

  /** The score test accepts `x` as the true proportion: the observed one is within z standard
    * errors computed at `x`. Here w is z squared over n. */
  predicate Accepts(p: real, w: real, x: real) {
    (p - x) * (p - x) <= w * (x * (1.0 - x))
  }

  // ---------------------------------------------------------------- algebra

  function Centre(p: real, w: real): real {
    p + w / 2.0
  }

  /** `b` is the half-width before dividing by 1 + w. */
  predicate HalfWidth(p: real, w: real, b: real) {
    b >= 0.0 && b * b == w * (p * (1.0 - p)) + w * w / 4.0
  }

  lemma Square(a: real, b: real)
    ensures (a - b) * (a - b) == a * a - 2.0 * (a * b) + b * b
  {}

  /** The key identity: accepting x is a bound on the distance of (1 + w) x from the centre. */
  lemma KeyIdentity(p: real, w: real, b: real, x: real)
    requires HalfWidth(p, w, b)
    ensures var t := (1.0 + w) * x - Centre(p, w);
      t * t - b * b == (1.0 + w) * ((p - x) * (p - x) - w * (x * (1.0 - x)))
  {
    var d, c := 1.0 + w, Centre(p, w);
    var q := (p - x) * (p - x) - w * (x * (1.0 - x));
    Square(d * x, c);
    Square(p, x);
    assert q == d * (x * x) - 2.0 * (c * x) + p * p by {
      assert w * (x * (1.0 - x)) == w * x - w * (x * x);
      assert d * (x * x) == x * x + w * (x * x);
      assert 2.0 * (c * x) == 2.0 * (p * x) + w * x;
    }
    assert c * c == p * p + p * w + w * w / 4.0;
    assert c * c - b * b == d * (p * p) by {
      assert w * (p * (1.0 - p)) == w * p - w * (p * p);
    }
    assert d * q == d * (d * (x * x)) - d * (2.0 * (c * x)) + d * (p * p);
    assert (d * x) * (d * x) == d * (d * (x * x));
    assert 2.0 * ((d * x) * c) == d * (2.0 * (c * x));
  }

  lemma Products(a: real, b: real)
    ensures a > 0.0 && b > 0.0 ==> a * b > 0.0
    ensures a >= 0.0 && b >= 0.0 ==> a * b >= 0.0
  {}

  lemma DifferenceOfSquares(t: real, b: real)
    ensures t * t - b * b == (t - b) * (t + b)
  {}

  lemma MulSquareAbove(u: real, b: real)
    requires u > b >= 0.0
    ensures Mul(u, u) > Mul(b, b)
  {
    hide Mul;
    var d := u - b;
    MulSum(b, d, u);
    MulSum(b, d, b);
    MulSign(d, u);
    MulSign(b, d);
    assert b + d == u;
  }

  lemma MulSquareWithin(t: real, b: real)
    requires -b <= t <= b
    ensures Mul(t, t) <= Mul(b, b)
  {
    hide Mul;
    MulSign(b - t, b + t);
    MulSum(b, -t, b + t);
    MulSum(b, t, b);
    MulSum(b, t, -t);
    MulNegate(t, b);
    MulNegate(t, t);
    MulCommutes(b, t);
    assert b + -t == b - t;
  }

  lemma SquareOrder(t: real, b: real)
    requires b >= 0.0
    ensures t * t <= b * b <==> -b <= t <= b
  {
    assert t * t == Mul(t, t) && b * b == Mul(b, b);
    hide Mul;
    if t > b {
      MulSquareAbove(t, b);
    } else if t < -b {
      MulNegate(t, t);
      MulSquareAbove(-t, b);
    } else {
      MulSquareWithin(t, b);
    }
  }

  lemma SignOfProduct(d: real, q: real)
    requires d > 0.0
    ensures d * q <= 0.0 <==> q <= 0.0
  {}

  function Stretch(w: real, x: real): real {
    (1.0 + w) * x
  }

  lemma AcceptsIffNear(p: real, w: real, b: real, x: real)
    requires HalfWidth(p, w, b) && w >= 0.0
    ensures Accepts(p, w, x) <==> Centre(p, w) - b <= Stretch(w, x) <= Centre(p, w) + b
  {
    assert b >= 0.0;
    hide HalfWidth;
    var t := (1.0 + w) * x - Centre(p, w);
    var q := (p - x) * (p - x) - w * (x * (1.0 - x));
    KeyIdentity(p, w, b, x);
    SquareOrder(t, b);
    SignOfProduct(1.0 + w, q);
  }

  lemma CentreCoversHalfWidth(p: real, w: real, b: real)
    requires HalfWidth(p, w, b) && w >= 0.0 && 0.0 <= p <= 1.0
    ensures b <= Centre(p, w) <= 1.0 + w - b
  {
    CentreAtLeast(p, w, b);
    assert (1.0 - p) * (1.0 - (1.0 - p)) == p * (1.0 - p);
    CentreAtLeast(1.0 - p, w, b);
  }

  lemma CentreAtLeast(p: real, w: real, b: real)
    requires HalfWidth(p, w, b) && w >= 0.0 && 0.0 <= p <= 1.0
    ensures b <= Centre(p, w)
  {
    assert b >= 0.0;
    var c := Centre(p, w);
    KeyIdentity(p, w, b, 0.0);
    Products(p, p);
    Products(1.0 + w, p * p);
    hide HalfWidth;
    assert c * c - b * b == (1.0 + w) * (p * p);
    SquareOrder(b, c);
  }

  // ---------------------------------------------------------------- the interval

  lemma MulRegroup(z: real, root: real, w: real, n: real, r: real)
    ensures Mul(Mul(z, root), Mul(z, root)) == Mul(Mul(z, z), Mul(root, root))
    ensures Mul(Mul(w, n), r) == Mul(w, Mul(r, n))
    ensures Mul(w, w / 4.0) == Mul(w, w) / 4.0
  {}

  /** The half-width, from its defining equations. */
  lemma HalfWidthSquared(z: real, root: real, w: real, n: real, v: real)
    requires Mul(w, n) == Mul(z, z) && Mul(Mul(root, root), n) == v + w / 4.0
    ensures Mul(Mul(z, root), Mul(z, root)) == Mul(w, v) + Mul(w, w) / 4.0
  {
    hide Mul;
    MulRegroup(z, root, w, n, Mul(root, root));
    MulSum(v, w / 4.0, w);
  }

  lemma QuarterOf(z: real, n: real)
    requires n > 0.0
    ensures z * z / (4.0 * n) == (z * z / n) / 4.0
  {}

  /** The root's square, times n. */
  lemma RootEquation(p: real, n: real, z: real, root: real)
    requires n > 0.0 && IsRoot(root, Radicand(p, n, z))
    ensures root >= 0.0
    ensures Mul(Mul(root, root), n) == p * (1.0 - p) + (z * z / n) / 4.0
  {
    QuarterOf(z, n);
    TimesDenominator(p * (1.0 - p) + z * z / (4.0 * n), n);
    assert Mul(root, root) == (p * (1.0 - p) + z * z / (4.0 * n)) / n;
  }

  lemma FractionInUnit(s: nat, n: nat)
    requires 0 < n && s <= n
    ensures 0.0 <= s as real / n as real <= 1.0
  {
    Quotient(s as real, n as real, 0.0);
    Quotient(s as real, n as real, 1.0);
  }

  lemma SquareOver(z: real, n: real)
    requires n > 0.0
    ensures z * z / n >= 0.0 && Mul(z * z / n, n) == Mul(z, z)
  {
    MulSign(z, z);
    MulSign(-z, -z);
    MulNegate(z, z);
    Quotient(z * z, n, 0.0);
    TimesDenominator(z * z, n);
  }

  lemma HalfWidthIs(p: real, w: real, b: real)
    requires b >= 0.0 && Mul(b, b) == Mul(w, p * (1.0 - p)) + Mul(w, w) / 4.0
    ensures HalfWidth(p, w, b)
  {}

  /** The parameters of a call, and the half-width its root gives. */
  lemma ScaledRoot(s: nat, n: nat, z: real, root: real) returns (p: real, w: real, b: real)
    requires 0 < n && s <= n && z >= 0.0
    requires IsRoot(root, Radicand(s as real / n as real, n as real, z))
    ensures p == s as real / n as real && 0.0 <= p <= 1.0
    ensures w == z * z / n as real && w >= 0.0 && b == z * root && HalfWidth(p, w, b)
  {
    p, w, b := s as real / n as real, z * z / n as real, z * root;
    RootEquation(p, n as real, z, root);
    assert b == Mul(z, root);
    hide Mul, IsRoot, Radicand, HalfWidth;
    FractionInUnit(s, n);
    SquareOver(z, n as real);
    MulSign(z, root);
    HalfWidthSquared(z, root, w, n as real, p * (1.0 - p));
    HalfWidthIs(p, w, b);
  }

  lemma TimesDenominator(a: real, n: real)
    requires n > 0.0
    ensures Mul(a / n, n) == a
  {}

  /** The raw ends, before clamping. */
  lemma RawEnds(p: real, w: real, b: real, z: real, root: real, n: real)
    requires n > 0.0 && w == z * z / n && w >= 0.0 && b == z * root
    ensures var denom := 1.0 + z * z / n;
      && (p + z * z / (2.0 * n)) / denom - z * root / denom == (Centre(p, w) - b) / (1.0 + w)
      && (p + z * z / (2.0 * n)) / denom + z * root / denom == (Centre(p, w) + b) / (1.0 + w)
  {
    assert z * z / (2.0 * n) == w / 2.0 by {
      assert w * n == z * z;
      assert (w / 2.0) * (2.0 * n) == z * z;
    }
  }

  function RawLow(p: real, w: real, b: real): real
    requires w >= 0.0
  {
    (Centre(p, w) - b) / (1.0 + w)
  }

  function RawHigh(p: real, w: real, b: real): real
    requires w >= 0.0
  {
    (Centre(p, w) + b) / (1.0 + w)
  }

  lemma RawEndsInUnit(p: real, w: real, b: real)
    requires HalfWidth(p, w, b) && w >= 0.0 && 0.0 <= p <= 1.0
    ensures 0.0 <= RawLow(p, w, b) && RawHigh(p, w, b) <= 1.0
  {
    CentreCoversHalfWidth(p, w, b);
    hide HalfWidth, Centre;
    Quotient(Centre(p, w) - b, 1.0 + w, 0.0);
    Quotient(Centre(p, w) + b, 1.0 + w, 1.0);
  }

  lemma RawEndsEncloseAccepted(p: real, w: real, b: real, x: real)
    requires HalfWidth(p, w, b) && w >= 0.0
    ensures Accepts(p, w, x) <==> RawLow(p, w, b) <= x <= RawHigh(p, w, b)
  {
    AcceptsIffNear(p, w, b, x);
    hide HalfWidth, Centre, Accepts, Stretch, RawLow, RawHigh;
    RawLowAtMost(p, w, b, x);
    RawHighAtLeast(p, w, b, x);
  }

  lemma RawLowAtMost(p: real, w: real, b: real, x: real)
    requires w >= 0.0
    ensures RawLow(p, w, b) <= x <==> Centre(p, w) - b <= Stretch(w, x)
  {
    Quotient(Centre(p, w) - b, 1.0 + w, x);
  }

  lemma RawHighAtLeast(p: real, w: real, b: real, x: real)
    requires w >= 0.0
    ensures x <= RawHigh(p, w, b) <==> Stretch(w, x) <= Centre(p, w) + b
  {
    Quotient(Centre(p, w) + b, 1.0 + w, x);
  }

  /** Neither clamp ever binds: the interval is the raw one, within [0, 1]. */
  lemma ClampsNeverBind(s: nat, n: nat, z: real, root: real) returns (p: real, w: real, b: real)
    requires 0 < n && s <= n && z >= 0.0
    requires IsRoot(root, Radicand(s as real / n as real, n as real, z))
    ensures p == s as real / n as real && 0.0 <= p <= 1.0 && w == z * z / n as real && w >= 0.0
    ensures b == z * root && HalfWidth(p, w, b)
    ensures WilsonInterval(s, n, z, root) == Interval(RawLow(p, w, b), RawHigh(p, w, b))
    ensures 0.0 <= RawLow(p, w, b) && RawHigh(p, w, b) <= 1.0
  {
    p, w, b := ScaledRoot(s, n, z, root);
    RawEndsInUnit(p, w, b);
    hide HalfWidth, Centre, IsRoot, Radicand;
    RawEnds(p, w, b, z, root, n as real);
  }

  /** The interval is exactly the set of proportions the score test accepts. */
  lemma IntervalIsAcceptedSet(s: nat, n: nat, z: real, root: real, x: real)
    requires 0 < n && s <= n && z >= 0.0
    requires IsRoot(root, Radicand(s as real / n as real, n as real, z))
    ensures var i := WilsonInterval(s, n, z, root);
      i.low <= x <= i.high <==> Accepts(s as real / n as real, z * z / n as real, x)
  {
    hide HalfWidth, Centre, WilsonInterval, Accepts, IsRoot, Radicand, RawLow, RawHigh;
    var p, w, b := ClampsNeverBind(s, n, z, root);
    RawEndsEncloseAccepted(p, w, b, x);
  }

  lemma ObservedIsAccepted(p: real, w: real)
    requires 0.0 <= p <= 1.0 && w >= 0.0
    ensures Accepts(p, w, p)
  {
    Products(p, 1.0 - p);
    Products(w, p * (1.0 - p));
    assert (p - p) * (p - p) == 0.0;
  }

  /** It is a sub-interval of [0, 1] around the observed proportion; of no sample, it is just zero. */
  lemma IntervalShape(s: nat, n: nat, z: real, root: real)
    requires s <= n && z >= 0.0
    requires n > 0 ==> IsRoot(root, Radicand(s as real / n as real, n as real, z))
    ensures var i := WilsonInterval(s, n, z, root);
      if n > 0 then 0.0 <= i.low <= s as real / n as real <= i.high <= 1.0 else i.low == i.high == 0.0
  {
    if n > 0 {
      hide HalfWidth, WilsonInterval, Accepts, IsRoot, Radicand, RawLow, RawHigh;
      var p, w, b := ClampsNeverBind(s, n, z, root);
      ObservedIsAccepted(p, w);
      IntervalIsAcceptedSet(s, n, z, root, p);
    }
  }

  lemma ComplementFraction(s: nat, n: nat)
    requires 0 < n && s <= n
    ensures (n - s) as real / n as real == 1.0 - s as real / n as real
  {
    Complement(n as real, s as real);
  }

  lemma FractionsOrder(s: nat, t: nat, n: nat)
    requires 0 < n && s <= t
    ensures s as real / n as real <= t as real / n as real
  {}

  lemma MirrorRoot(s: nat, n: nat, z: real)
    requires 0 < n && s <= n
    ensures Radicand((n - s) as real / n as real, n as real, z) == Radicand(s as real / n as real, n as real, z)
  {
    ComplementFraction(s, n);
    var p := s as real / n as real;
    assert (1.0 - p) * (1.0 - (1.0 - p)) == p * (1.0 - p);
  }

  lemma MirrorEnds(p: real, w: real, b: real)
    requires w >= 0.0
    ensures RawLow(1.0 - p, w, b) == 1.0 - RawHigh(p, w, b)
    ensures RawHigh(1.0 - p, w, b) == 1.0 - RawLow(p, w, b)
  {
    var d, lo, hi := 1.0 + w, Centre(p, w) - b, Centre(p, w) + b;
    assert Centre(1.0 - p, w) - b == d - hi && Centre(1.0 - p, w) + b == d - lo;
    Complement(d, lo);
    Complement(d, hi);
  }

  lemma Complement(d: real, x: real)
    requires d > 0.0
    ensures (d - x) / d == 1.0 - x / d
  {
    var q := x / d;
    assert q * d == x;
    assert (1.0 - q) * d == d - x;
    Quotient(d - x, d, 1.0 - q);
  }

  /** The failures' interval is the mirror image of the successes'. */
  lemma MirrorImage(s: nat, n: nat, z: real, root: real)
    requires 0 < n && s <= n && z >= 0.0
    requires IsRoot(root, Radicand(s as real / n as real, n as real, z))
    ensures IsRoot(root, Radicand((n - s) as real / n as real, n as real, z))
    ensures var (i, m) := (WilsonInterval(s, n, z, root), WilsonInterval(n - s, n, z, root));
      m == Interval(1.0 - i.high, 1.0 - i.low)
  {
    hide HalfWidth, WilsonInterval, IsRoot, Radicand, RawLow, RawHigh;
    MirrorRoot(s, n, z);
    ComplementFraction(s, n);
    var p, w, b := ClampsNeverBind(s, n, z, root);
    var q, v, c := ClampsNeverBind(n - s, n, z, root);
    MirrorEnds(p, w, b);
  }

  /** More successes move both ends up. */
  lemma LowIsMonotone(s: nat, t: nat, n: nat, z: real, rs: real, rt: real)
    requires 0 < n && s <= t <= n && z >= 0.0
    requires IsRoot(rs, Radicand(s as real / n as real, n as real, z))
    requires IsRoot(rt, Radicand(t as real / n as real, n as real, z))
    ensures WilsonInterval(s, n, z, rs).low <= WilsonInterval(t, n, z, rt).low
  {
    hide WilsonInterval, Accepts, IsRoot, Radicand;
    var x := WilsonInterval(t, n, z, rt).low;
    IntervalShape(s, n, z, rs);
    IntervalShape(t, n, z, rt);
    if x < s as real / n as real {
      IntervalIsAcceptedSet(t, n, z, rt, x);
      FractionsOrder(s, t, n);
      CloserIsAccepted(s as real / n as real, t as real / n as real, z * z / n as real, x);
      IntervalIsAcceptedSet(s, n, z, rs, x);
    }
  }

  lemma CloserIsAccepted(p: real, q: real, w: real, x: real)
    requires x < p <= q && Accepts(q, w, x)
    ensures Accepts(p, w, x)
  {
    DifferenceOfSquares(q - x, p - x);
    Products(q - p, (q - x) + (p - x));
  }

  lemma BothEndsAreMonotone(s: nat, t: nat, n: nat, z: real, rs: real, rt: real)
    requires 0 < n && s <= t <= n && z >= 0.0
    requires IsRoot(rs, Radicand(s as real / n as real, n as real, z))
    requires IsRoot(rt, Radicand(t as real / n as real, n as real, z))
    ensures var (i, k) := (WilsonInterval(s, n, z, rs), WilsonInterval(t, n, z, rt));
      i.low <= k.low && i.high <= k.high
  {
    hide WilsonInterval, IsRoot, Radicand;
    LowIsMonotone(s, t, n, z, rs, rt);
    MirrorImage(s, n, z, rs);
    MirrorImage(t, n, z, rt);
    LowIsMonotone(n - t, n - s, n, z, rt, rs);
  }
}

/** The exact one-sided sign test behind "is this gain more than a coin flip?". */
module SignTest {

  function Choose(n: nat, k: nat): nat {
    if k == 0 then 1 else if n == 0 then 0 else Choose(n - 1, k - 1) + Choose(n - 1, k)
  }

  function Pow2(n: nat): (p: nat)
    ensures p >= 1
  {
    if n == 0 then 1 else 2 * Pow2(n - 1)
  }

  /** `sum(comb(n, k) for k in range(from, n + 1))`. */
  function Tail(n: nat, from: nat): nat
    decreases n + 1 - from
  {
    if from > n then 0 else Choose(n, from) + Tail(n, from + 1)
  }

  function Ratio(a: nat, m: nat): real
    requires m >= 1
  {
    a as real / m as real
  }

  function SignTestP(fixed: nat, broke: nat): real {
    var n := fixed + broke;
    if n == 0 then 1.0 else Ratio(Tail(n, fixed), Pow2(n))
  }

  const ALPHA := 0.05

  predicate Significant(fixed: nat, broke: nat, alpha: real) {
    fixed > broke && SignTestP(fixed, broke) < alpha
  }

  // ---------------------------------------------------------------- the meaning of the tail

  function Ones(s: seq<bool>): nat {
    if s == [] then 0 else Ones(s[..|s| - 1]) + if s[|s| - 1] then 1 else 0
  }

  function Extend(a: set<seq<bool>>, b: bool): set<seq<bool>> {
    set s | s in a :: s + [b]
  }

  /** All ways `n` coin flips can fall with at least `k` heads. */
  function Falls(n: nat, k: nat): set<seq<bool>> {
    if n == 0 then (if k == 0 then {[]} else {})
    else Extend(Falls(n - 1, if k == 0 then 0 else k - 1), true) + Extend(Falls(n - 1, k), false)
  }

  lemma InExtend(a: set<seq<bool>>, b: bool, s: seq<bool>)
    ensures s in Extend(a, b) <==> s != [] && s[|s| - 1] == b && s[..|s| - 1] in a
  {
    if s != [] && s[|s| - 1] == b {
      assert s == s[..|s| - 1] + [b];
    }
    if s in Extend(a, b) {
      var t :| t in a && s == t + [b];
      assert s[..|s| - 1] == t;
    }
  }

  lemma {:induction false} FallsAre(n: nat, k: nat, s: seq<bool>)
    ensures s in Falls(n, k) <==> |s| == n && Ones(s) >= k
  {
    hide Extend;
    if n > 0 {
      var k' := if k == 0 then 0 else k - 1;
      InExtend(Falls(n - 1, k'), true, s);
      InExtend(Falls(n - 1, k), false, s);
      if s != [] {
        FallsAre(n - 1, k', s[..|s| - 1]);
        FallsAre(n - 1, k, s[..|s| - 1]);
      }
    }
  }

  lemma ExtendsAreDisjoint(a: set<seq<bool>>, b: set<seq<bool>>)
    ensures Extend(a, true) !! Extend(b, false)
  {
    forall s | s in Extend(a, true) ensures s !in Extend(b, false) {
      InExtend(a, true, s);
      InExtend(b, false, s);
    }
  }

  lemma {:induction false} ExtendKeepsSize(a: set<seq<bool>>, b: bool)
    ensures |Extend(a, b)| == |a|
  {
    if a != {} {
      var s :| s in a;
      ExtendKeepsSize(a - {s}, b);
      InExtend(a - {s}, b, s + [b]);
      assert (s + [b])[..|s|] == s;
      assert Extend(a, b) == Extend(a - {s}, b) + {s + [b]};
    }
  }

  lemma {:induction false} ChooseBeyond(n: nat, k: nat)
    requires k > n
    ensures Choose(n, k) == 0
  {
    if n > 0 {
      ChooseBeyond(n - 1, k - 1);
      ChooseBeyond(n - 1, k);
    }
  }

  /** Pascal's rule for tails. */
  lemma {:induction false} TailPascal(n: nat, k: nat)
    ensures Tail(n + 1, k) == Tail(n, if k == 0 then 0 else k - 1) + Tail(n, k)
    decreases n + 2 - k
  {
    if k <= n + 1 {
      TailPascal(n, k + 1);
      ChooseBeyond(n, n + 1);
    }
  }

  lemma FallsSize(n: nat, k: nat)
    requires n > 0
    ensures |Falls(n, k)| == |Falls(n - 1, if k == 0 then 0 else k - 1)| + |Falls(n - 1, k)|
  {
    hide Extend;
    var a, b := Falls(n - 1, if k == 0 then 0 else k - 1), Falls(n - 1, k);
    ExtendKeepsSize(a, true);
    ExtendKeepsSize(b, false);
    ExtendsAreDisjoint(a, b);
  }

  lemma NoFlips(k: nat)
    ensures |Falls(0, k)| == Tail(0, k)
  {
    assert Tail(0, 1) == 0;
  }

  /** The tail counts exactly the falls with enough heads. */
  lemma {:induction false} TailCountsFalls(n: nat, k: nat)
    ensures |Falls(n, k)| == Tail(n, k)
  {
    hide Falls, Tail;
    if n == 0 {
      NoFlips(k);
    } else {
      FallsSize(n, k);
      TailPascal(n - 1, k);
      TailCountsFalls(n - 1, if k == 0 then 0 else k - 1);
      TailCountsFalls(n - 1, k);
    }
  }

  lemma {:induction false} TailFromZero(n: nat)
    ensures Tail(n, 0) == Pow2(n)
  {
    if n == 0 {
      assert Tail(0, 1) == 0;
    } else {
      TailFromZero(n - 1);
      TailPascal(n - 1, 0);
    }
  }

  lemma PIsRatio(fixed: nat, broke: nat)
    ensures SignTestP(fixed, broke) == Ratio(Tail(fixed + broke, fixed), Pow2(fixed + broke))
  {
    if fixed + broke == 0 {
      assert Tail(0, 1) == 0;
    }
  }

  /** The p-value is the share of all falls of the discordant flips in which at least `fixed`
    * come out as fixes. */
  lemma PValueIsShareOfFalls(fixed: nat, broke: nat)
    ensures var n := fixed + broke;
      |Falls(n, 0)| >= 1 && SignTestP(fixed, broke) == Ratio(|Falls(n, fixed)|, |Falls(n, 0)|)
    ensures forall s :: s in Falls(fixed + broke, fixed) <==> |s| == fixed + broke && Ones(s) >= fixed
    ensures forall s :: s in Falls(fixed + broke, 0) <==> |s| == fixed + broke
  {
    hide Falls, Tail, Ratio, SignTestP, Ones;
    var n := fixed + broke;
    TailCountsFalls(n, fixed);
    TailCountsFalls(n, 0);
    TailFromZero(n);
    PIsRatio(fixed, broke);
    forall s
      ensures s in Falls(n, fixed) <==> |s| == n && Ones(s) >= fixed
      ensures s in Falls(n, 0) <==> |s| == n
    {
      FallsAre(n, fixed, s);
      FallsAre(n, 0, s);
    }
  }

  // ---------------------------------------------------------------- laws of the p-value

  lemma EmptyTail(n: nat)
    ensures Tail(n, n + 1) == 0
  {}

  /** Tails from either end cover everything once. */
  lemma {:induction false} TailsComplement(n: nat, k: nat)
    requires k <= n + 1
    ensures Tail(n, k) + Tail(n, n + 1 - k) == Pow2(n)
  {
    hide Tail;
    if 0 < k <= n {
      TailPascal(n - 1, k);
      TailPascal(n - 1, n + 1 - k);
      TailsComplement(n - 1, k - 1);
      TailsComplement(n - 1, k);
      assert Pow2(n) == 2 * Pow2(n - 1);
    } else {
      EmptyTail(n);
      TailFromZero(n);
    }
  }

  lemma {:induction false} TailShrinks(n: nat, k: nat, j: nat)
    requires k <= j
    ensures Tail(n, j) <= Tail(n, k)
    decreases j - k
  {
    if k < j {
      TailShrinks(n, k + 1, j);
    }
  }

  lemma RatioOrder(a: nat, b: nat, m: nat)
    requires m >= 1
    ensures a <= b ==> Ratio(a, m) <= Ratio(b, m)
    ensures a < b ==> Ratio(a, m) < Ratio(b, m)
    ensures Ratio(a, m) + Ratio(b, m) == Ratio(a + b, m)
    ensures Ratio(m, m) == 1.0
  {}

  lemma RatioDoubled(a: nat, m: nat)
    requires m >= 1
    ensures Ratio(2 * a, 2 * m) == Ratio(a, m)
  {
    var r := Ratio(a, m);
    assert r * m as real == a as real;
    assert r * (2 * m) as real == (2 * a) as real;
  }

  /** Swapping the roles of fix and break leaves the complementary probability. */
  lemma PValuesComplement(fixed: nat, broke: nat)
    requires fixed >= 1
    ensures SignTestP(fixed, broke) + SignTestP(broke + 1, fixed - 1) == 1.0
  {
    hide Ratio, Tail, SignTestP;
    var n := fixed + broke;
    TailsComplement(n, fixed);
    PIsRatio(fixed, broke);
    PIsRatio(broke + 1, fixed - 1);
    RatioOrder(Tail(n, fixed), Tail(n, broke + 1), Pow2(n));
  }

  /** No net gain is never better than a coin flip, so for any alpha up to 1/2 the explicit
    * `fixed > broke` test adds nothing. */
  lemma NoGainIsNoise(fixed: nat, broke: nat, alpha: real)
    requires alpha <= 0.5
    ensures fixed <= broke ==> SignTestP(fixed, broke) >= 0.5
    ensures Significant(fixed, broke, alpha) <==> SignTestP(fixed, broke) < alpha
  {
    hide Ratio, Tail, SignTestP;
    if fixed <= broke {
      var n := fixed + broke;
      var t := Tail(n, fixed);
      TailsComplement(n, fixed);
      TailShrinks(n, fixed, n + 1 - fixed);
      PIsRatio(fixed, broke);
      RatioOrder(Pow2(n), 2 * t, Pow2(n));
      RatioOrder(t, t, Pow2(n));
    }
  }

  /** One more fix can only strengthen the evidence, one more break only weaken it. */
  lemma PValueIsMonotone(fixed: nat, broke: nat)
    ensures SignTestP(fixed + 1, broke) <= SignTestP(fixed, broke) <= SignTestP(fixed, broke + 1)
  {
    hide Ratio, Tail, SignTestP;
    var n := fixed + broke;
    var t := Tail(n, fixed);
    PIsRatio(fixed, broke);
    PIsRatio(fixed + 1, broke);
    PIsRatio(fixed, broke + 1);
    RatioDoubled(t, Pow2(n));
    TailPascal(n, fixed + 1);
    TailPascal(n, fixed);
    TailShrinks(n, fixed, fixed + 1);
    TailShrinks(n, if fixed == 0 then 0 else fixed - 1, fixed);
    RatioOrder(Tail(n + 1, fixed + 1), 2 * t, 2 * Pow2(n));
    RatioOrder(2 * t, Tail(n + 1, fixed), 2 * Pow2(n));
  }

  lemma {:induction false} SignificanceIsMonotone(fixed: nat, broke: nat, fixed': nat, broke': nat, alpha: real)
    requires fixed <= fixed' && broke' <= broke
    requires Significant(fixed, broke, alpha)
    ensures Significant(fixed', broke', alpha)
    decreases fixed' - fixed + broke - broke'
  {
    if fixed < fixed' {
      PValueIsMonotone(fixed, broke);
      SignificanceIsMonotone(fixed + 1, broke, fixed', broke', alpha);
    } else if broke' < broke {
      PValueIsMonotone(fixed, broke - 1);
      SignificanceIsMonotone(fixed, broke - 1, fixed', broke', alpha);
    }
  }

  lemma {:induction false} Pow2Grows(n: nat)
    requires n >= 5
    ensures Pow2(n) >= 32
  {
    if n == 5 {
      assert Pow2(5) == 2 * Pow2(4) && Pow2(4) == 2 * Pow2(3) && Pow2(3) == 2 * Pow2(2) && Pow2(2) == 2 * Pow2(1);
    } else {
      Pow2Grows(n - 1);
    }
  }

  lemma {:induction false} ChooseAll(n: nat)
    ensures Choose(n, n) == 1
  {
    if n > 0 {
      ChooseAll(n - 1);
      ChooseBeyond(n - 1, n);
    }
  }

  /** With nothing broken, the default level asks for at least five fixes. */
  lemma FiveFixesNeeded(fixed: nat)
    ensures Significant(fixed, 0, ALPHA) <==> fixed >= 5
  {
    ChooseAll(fixed);
    assert Tail(fixed, fixed) == 1 + Tail(fixed, fixed + 1) == 1;
    PIsRatio(fixed, 0);
    if fixed >= 5 {
      Pow2Grows(fixed);
      OneOver(Pow2(fixed));
    } else {
      assert Pow2(0) == 1 && Pow2(1) == 2 && Pow2(2) == 4 && Pow2(3) == 8 && Pow2(4) == 16;
      OneOver(Pow2(fixed));
    }
  }

  lemma OneOver(m: nat)
    requires m >= 1
    ensures Ratio(1, m) < ALPHA <==> m > 20
  {
    assert Ratio(1, m) * m as real == 1.0;
    assert ALPHA * m as real > 1.0 <==> m > 20;
    var d := ALPHA - Ratio(1, m);
    assert d * m as real == ALPHA * m as real - 1.0;
    if d > 0.0 {
      assert d * m as real > 0.0;
    } else {
      assert d * m as real <= 0.0;
    }
  }
}

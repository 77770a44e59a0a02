/** One spend meter shared by N threads, each doing guard, call, record. The lock makes every
  * step below atomic, and nothing more: any interleaving of the steps can happen. */
module SharedMeter {
  import opened Wrappers
  import opened Arith
  import opened Permutations
  import opened Sums
  import opened Cost

  /** Where a thread stands: between calls, past the guard, or tallied but not yet in the store. */
  datatype Phase = Idle | Guarded(cost: real) | Tallied(cost: real)

  datatype Meter = Meter(spent: real, ledger: seq<real>, threads: seq<Phase>)

  function Pending(p: Phase): real {
    if p.Guarded? then p.cost else 0.0
  }

  function Unstored(p: Phase): real {
    if p.Tallied? then p.cost else 0.0
  }

  function Start(threads: nat): Meter {
    Meter(0.0, [], seq(threads, _ => Idle))
  }

  /** The guard admits a call planned at `cost`, at most `most`. */
  predicate GuardPasses(budget: real, most: real, s: Meter, s': Meter, t: nat) {
    && t < |s.threads| == |s'.threads| && s.threads[t].Idle? && s'.threads[t].Guarded?
    && 0.0 <= s'.threads[t].cost <= most
    && !Exceeds(s.spent, s'.threads[t].cost, Some(budget))
    && s' == s.(threads := s.threads[t := s'.threads[t]])
  }

  /** A finished call adds its actual cost, which the plan covered. */
  predicate Tallies(s: Meter, s': Meter, t: nat) {
    && t < |s.threads| == |s'.threads| && s.threads[t].Guarded? && s'.threads[t].Tallied?
    && 0.0 <= s'.threads[t].cost <= s.threads[t].cost
    && s' == s.(threads := s.threads[t := s'.threads[t]], spent := s.spent + s'.threads[t].cost)
  }

  /** The tallied cost reaches the store. */
  predicate Stores(s: Meter, s': Meter, t: nat) {
    && t < |s.threads| && s.threads[t].Tallied?
    && s' == s.(threads := s.threads[t := Idle], ledger := s.ledger + [s.threads[t].cost])
  }

  /** The call raised: nothing is recorded. */
  predicate GivesUp(s: Meter, s': Meter, t: nat) {
    t < |s.threads| && s.threads[t].Guarded? && s' == s.(threads := s.threads[t := Idle])
  }

  predicate StepBy(budget: real, most: real, s: Meter, s': Meter, t: nat) {
    GuardPasses(budget, most, s, s', t) || Tallies(s, s', t) || Stores(s, s', t) || GivesUp(s, s', t)
  }

  ghost predicate Step(budget: real, most: real, s: Meter, s': Meter) {
    exists t: nat :: StepBy(budget, most, s, s', t)
  }

  ghost predicate IsRun(budget: real, most: real, threads: nat, run: seq<Meter>) {
    && run != [] && run[0] == Start(threads)
    && forall i | 0 <= i < |run| - 1 :: Step(budget, most, run[i], run[i + 1])
  }

  function Exposure(s: Meter): real {
    s.spent + Sum(Pending, s.threads)
  }

  /** The most that N threads can have spent or committed. */
  function Ceiling(budget: real, most: real, threads: nat): real {
    budget + EPSILON + (threads - 1) as real * most
  }

  ghost predicate Inv(budget: real, most: real, threads: nat, s: Meter) {
    && |s.threads| == threads
    && (forall p | p in s.threads :: 0.0 <= Pending(p) <= most)
    && 0.0 <= s.spent
    && Exposure(s) <= Ceiling(budget, most, threads)
    && s.spent == Sum(Id, s.ledger) + Sum(Unstored, s.threads)
  }

  /** All threads but one have committed at most `most` each. */
  lemma OthersPending(phases: seq<Phase>, t: nat, most: real)
    requires t < |phases| && forall p | p in phases :: 0.0 <= Pending(p) <= most
    ensures Sum(Pending, phases) <= Pending(phases[t]) + (|phases| - 1) as real * most
  {
    var others := Without(phases, t);
    WithoutIsMultisetMinus(phases, t);
    SumWithout(Pending, phases, t);
    SumAtMost(Pending, others, most);
  }

  lemma GuardKeepsInv(budget: real, most: real, threads: nat, s: Meter, s': Meter, t: nat)
    requires threads > 0 && Inv(budget, most, threads, s) && GuardPasses(budget, most, s, s', t)
    ensures Inv(budget, most, threads, s')
  {
    var p := s'.threads[t];
    SumUpdate(Pending, s.threads, t, p);
    SumUpdate(Unstored, s.threads, t, p);
    OthersPending(s.threads, t, most);
    hide Sum;
  }

  lemma OtherStepsKeepInv(budget: real, most: real, threads: nat, s: Meter, s': Meter, t: nat)
    requires threads > 0 && Inv(budget, most, threads, s)
    requires Tallies(s, s', t) || Stores(s, s', t) || GivesUp(s, s', t)
    ensures Inv(budget, most, threads, s')
  {
    SumUpdate(Pending, s.threads, t, s'.threads[t]);
    SumUpdate(Unstored, s.threads, t, s'.threads[t]);
    assert s.threads[t] in s.threads;
    if Stores(s, s', t) {
      SumAppend(Id, s.ledger, s.threads[t].cost);
    }
  }

  /** A guarded call may always be given up; that frees what it was guarded for and spends nothing. */
  lemma GivingUpFrees(budget: real, most: real, s: Meter, t: nat)
    requires t < |s.threads| && s.threads[t].Guarded?
    ensures var s' := s.(threads := s.threads[t := Idle]);
      StepBy(budget, most, s, s', t) && Exposure(s') == Exposure(s) - s.threads[t].cost
  {
    SumUpdate(Pending, s.threads, t, Idle);
  }

  lemma {:induction false} RunKeepsInv(budget: real, most: real, threads: nat, run: seq<Meter>, i: nat)
    requires budget >= 0.0 && most >= 0.0 && threads > 0
    requires IsRun(budget, most, threads, run) && i < |run|
    ensures Inv(budget, most, threads, run[i])
  {
    if i == 0 {
      var s := run[0];
      SumConstant(Pending, s.threads, 0.0);
      SumConstant(Unstored, s.threads, 0.0);
    } else {
      RunKeepsInv(budget, most, threads, run, i - 1);
      var t: nat :| StepBy(budget, most, run[i - 1], run[i], t);
      if GuardPasses(budget, most, run[i - 1], run[i], t) {
        GuardKeepsInv(budget, most, threads, run[i - 1], run[i], t);
      } else {
        OtherStepsKeepInv(budget, most, threads, run[i - 1], run[i], t);
      }
    }
  }

  lemma {:induction false} PendingIsNonNegative(threads: seq<Phase>)
    requires forall p | p in threads :: 0.0 <= Pending(p)
    ensures 0.0 <= Sum(Pending, threads)
  {
    if threads != [] {
      PendingIsNonNegative(threads[1..]);
    }
  }

  /** A planned call above the whole budget never passes the guard, so the others do not count. */
  lemma OnlyAffordableCalls(budget: real, most: real, threads: nat, run: seq<Meter>)
    requires budget >= 0.0 && most >= 0.0 && threads > 0 && IsRun(budget, most, threads, run)
    ensures IsRun(budget, MinReal(most, budget + EPSILON), threads, run)
  {
    var least := MinReal(most, budget + EPSILON);
    forall i | 0 <= i < |run| - 1 ensures Step(budget, least, run[i], run[i + 1]) {
      RunKeepsInv(budget, most, threads, run, i);
      var t: nat :| StepBy(budget, most, run[i], run[i + 1], t);
      GuardsAffordable(budget, most, run[i], run[i + 1], t);
    }
  }

  lemma GuardsAffordable(budget: real, most: real, s: Meter, s': Meter, t: nat)
    requires s.spent >= 0.0 && StepBy(budget, most, s, s', t)
    ensures StepBy(budget, MinReal(most, budget + EPSILON), s, s', t)
  {}

  /** However the threads interleave, spend plus outstanding commitments overshoots the budget
    * by at most N - 1 of the largest planned calls that fit it; a lone caller never overshoots; and
    * whenever all threads are idle the ledger reconciles with the meter. */
  lemma OvershootIsBounded(budget: real, most: real, threads: nat, run: seq<Meter>, i: nat)
    requires budget >= 0.0 && most >= 0.0 && threads > 0
    requires IsRun(budget, most, threads, run) && i < |run|
    ensures run[i].spent <= Exposure(run[i]) <= Ceiling(budget, MinReal(most, budget + EPSILON), threads)
    ensures threads == 1 ==> run[i].spent <= budget + EPSILON
    ensures (forall p | p in run[i].threads :: p.Idle?) ==> run[i].spent == Sum(Id, run[i].ledger)
  {
    OnlyAffordableCalls(budget, most, threads, run);
    RunKeepsInv(budget, MinReal(most, budget + EPSILON), threads, run, i);
    PendingIsNonNegative(run[i].threads);
    if forall p | p in run[i].threads :: p.Idle? {
      SumConstant(Unstored, run[i].threads, 0.0);
    }
  }

  // ---------------------------------------------------------------- the bound is attained

  function Last(run: seq<Meter>): Meter
    requires run != []
  {
    run[|run| - 1]
  }

  lemma OneStepMore(budget: real, most: real, threads: nat, run: seq<Meter>, s: Meter, t: nat)
    requires IsRun(budget, most, threads, run) && StepBy(budget, most, Last(run), s, t)
    ensures run + [s] != [] && IsRun(budget, most, threads, run + [s]) && Last(run + [s]) == s
  {
    hide StepBy;
    var next := run + [s];
    forall i | 0 <= i < |next| - 1 ensures Step(budget, most, next[i], next[i + 1]) {
      if i < |run| - 1 {
        assert next[i] == run[i] && next[i + 1] == run[i + 1];
      } else {
        assert next[i] == Last(run) && next[i + 1] == s;
      }
    }
  }

  function AllIdle(threads: nat): seq<Phase> {
    seq(threads, _ => Idle)
  }

  /** The first thread makes one call from start to store. */
  lemma OneCall(budget: real, most: real, threads: nat, run: seq<Meter>, cost: real) returns (r: seq<Meter>)
    requires threads > 0 && run != [] && IsRun(budget, most, threads, run) && Last(run).threads == AllIdle(threads)
    requires 0.0 <= cost <= most && Last(run).spent + cost <= budget + EPSILON
    ensures r != [] && IsRun(budget, most, threads, r) && Last(r).threads == AllIdle(threads) && Last(r).spent == Last(run).spent + cost
  {
    var s := Last(run);
    var guarded := s.(threads := s.threads[0 := Guarded(cost)]);
    var tallied := guarded.(threads := guarded.threads[0 := Tallied(cost)], spent := s.spent + cost);
    var stored := tallied.(threads := tallied.threads[0 := Idle], ledger := s.ledger + [cost]);
    assert GuardPasses(budget, most, s, guarded, 0) && Tallies(guarded, tallied, 0) && Stores(tallied, stored, 0);
    assert stored.threads == AllIdle(threads);
    hide IsRun, GuardPasses, Tallies, Stores;
    OneStepMore(budget, most, threads, run, guarded, 0);
    OneStepMore(budget, most, threads, run + [guarded], tallied, 0);
    OneStepMore(budget, most, threads, run + [guarded] + [tallied], stored, 0);
    r := run + [guarded] + [tallied] + [stored];
  }

  /** A lone caller can spend any amount within the budget, in calls of at most `most`. */
  lemma {:induction false} SpendSerially(budget: real, most: real, threads: nat, goal: real, calls: nat) returns (r: seq<Meter>)
    requires budget >= 0.0 && most > 0.0 && threads > 0
    requires 0.0 <= goal <= budget + EPSILON && goal <= Mul(calls as real, most)
    ensures r != [] && IsRun(budget, most, threads, r) && Last(r).threads == AllIdle(threads) && Last(r).spent == goal
    decreases calls
  {
    hide Mul, IsRun;
    if calls == 0 {
      NoCalls(budget, most, threads);
      r := [Start(threads)];
    } else {
      OneFewer(calls, most);
      r := SpendSerially(budget, most, threads, goal - MinReal(goal, most), calls - 1);
      r := OneCall(budget, most, threads, r, MinReal(goal, most));
    }
  }

  lemma NoCalls(budget: real, most: real, threads: nat)
    ensures IsRun(budget, most, threads, [Start(threads)]) && Last([Start(threads)]).threads == AllIdle(threads)
    ensures Mul(0.0, most) == 0.0
  {}

  lemma OneFewer(calls: nat, most: real)
    requires calls > 0 && most > 0.0
    ensures 0.0 <= Mul((calls - 1) as real, most) == Mul(calls as real, most) - most
  {}

  /** On top of `base`, `guarded` threads past the guard at `c`, of which the first `tallied` have
    * recorded it. */
  function Burst(base: Meter, c: real, threads: nat, guarded: nat, tallied: nat): Meter
    requires tallied <= guarded <= threads
  {
    Meter(base.spent + tallied as real * c, base.ledger,
          seq(threads, t => if t < tallied then Tallied(c) else if t < guarded then Guarded(c) else Idle))
  }

  lemma {:induction false} GuardAll(budget: real, c: real, threads: nat, run: seq<Meter>, k: nat) returns (r: seq<Meter>)
    requires run != [] && IsRun(budget, c, threads, run) && Last(run).threads == AllIdle(threads) && k <= threads
    requires c >= 0.0 && Last(run).spent + c <= budget + EPSILON
    ensures r != [] && IsRun(budget, c, threads, r) && Last(r) == Burst(Last(run), c, threads, k, 0)
  {
    hide IsRun;
    var base := Last(run);
    if k == 0 {
      r := run;
      assert Burst(base, c, threads, 0, 0).threads == AllIdle(threads);
    } else {
      r := GuardAll(budget, c, threads, run, k - 1);
      var next := Burst(base, c, threads, k, 0);
      assert next.threads == Last(r).threads[k - 1 := Guarded(c)];
      assert GuardPasses(budget, c, Last(r), next, k - 1);
      OneStepMore(budget, c, threads, r, next, k - 1);
      r := r + [next];
    }
  }

  lemma OneMore(k: nat, c: real)
    ensures (k + 1) as real * c == k as real * c + c
  {}

  lemma {:induction false} TallyAll(budget: real, c: real, threads: nat, run: seq<Meter>, base: Meter, k: nat) returns (r: seq<Meter>)
    requires run != [] && IsRun(budget, c, threads, run) && Last(run) == Burst(base, c, threads, threads, 0) && k <= threads && c >= 0.0
    ensures r != [] && IsRun(budget, c, threads, r) && Last(r) == Burst(base, c, threads, threads, k)
  {
    hide IsRun;
    if k == 0 {
      r := run;
    } else {
      r := TallyAll(budget, c, threads, run, base, k - 1);
      var next := Burst(base, c, threads, threads, k);
      assert next.threads == Last(r).threads[k - 1 := Tallied(c)];
      OneMore(k - 1, c);
      assert Tallies(Last(r), next, k - 1);
      OneStepMore(budget, c, threads, r, next, k - 1);
      r := r + [next];
    }
  }

  /** The overshoot is real, for every largest call: after serial calls leave room for just one more of
    * it, N threads all pass the guard and then record, and have spent the whole ceiling. */
  lemma OvershootIsAttained(budget: real, most: real, threads: nat) returns (run: seq<Meter>)
    requires budget >= 0.0 && most > 0.0 && threads > 0
    ensures run != [] && IsRun(budget, most, threads, run)
    ensures Last(run).spent == Ceiling(budget, MinReal(most, budget + EPSILON), threads)
  {
    var c := MinReal(most, budget + EPSILON);
    var goal := budget + EPSILON - c;
    var calls: nat := (goal / c).Floor + 1;
    Quotient(goal, c, calls as real);
    assert goal <= Mul(calls as real, c);
    hide IsRun;
    run := SpendSerially(budget, c, threads, goal, calls);
    var base := Last(run);
    run := GuardAll(budget, c, threads, run, threads);
    run := TallyAll(budget, c, threads, run, base, threads);
    OneMore(threads - 1, c);
    WiderRun(budget, c, most, threads, run);
  }

  lemma WiderRun(budget: real, c: real, most: real, threads: nat, run: seq<Meter>)
    requires c <= most && IsRun(budget, c, threads, run)
    ensures IsRun(budget, most, threads, run)
  {
    forall i | 0 <= i < |run| - 1 ensures Step(budget, most, run[i], run[i + 1]) {
      var t: nat :| StepBy(budget, c, run[i], run[i + 1], t);
      assert StepBy(budget, most, run[i], run[i + 1], t);
    }
  }
}

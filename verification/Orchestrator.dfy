/** Bounded, budget-capped fan-out of paid work units, with retry on rate limits. */
module Orchestrator {
  import opened Wrappers
  import opened Arith
  import opened Cost
  import opened Permutations
  import opened Sums

  datatype UnitId = UnitId(name: string)

  datatype WorkUnit = WorkUnit(id: UnitId, primesCache: bool)

  /** What one call of a unit's closure does. */
  datatype Attempt =
    | Succeeds(usage: Usage)
    | RateLimited(retryAfter: Option<real>, billed: Option<Usage>)
    | Raises

  /** The provider: what the n-th attempt (from 1) of a unit does. */
  type World = (UnitId, nat) -> Attempt

  datatype Status = Completed | Failed | Skipped

  datatype UnitOutcome = UnitOutcome(unit: UnitId, status: Status, attempts: nat, usage: Usage)

  function SkippedOutcome(id: UnitId): UnitOutcome {
    UnitOutcome(id, Skipped, 0, NO_USAGE)
  }

  // ---------------------------------------------------------------- one unit

  function Billed(a: Attempt): Usage {
    match a
    case Succeeds(u) => u
    case RateLimited(_, billed) => if billed.Some? then billed.value else NO_USAGE
    case Raises => NO_USAGE
  }

  /** The first `n` attempts are all rate limits the loop retries. */
  predicate Retried(world: World, id: UnitId, maxRetries: int, n: nat) {
    forall k | 1 <= k <= n :: world(id, k).RateLimited? && k <= maxRetries
  }

  /** Tokens billed by the first `n` attempts. */
  function BilledBy(world: World, id: UnitId, n: nat): Usage {
    if n == 0 then NO_USAGE else BilledBy(world, id, n - 1).Plus(Billed(world(id, n)))
  }

  /** The first attempt the retry loop does not retry: the last one allowed, or the first that
    * is not a rate limit. */
  function LastAttempt(world: World, id: UnitId, maxRetries: int, from: nat): (n: nat)
    ensures from <= n && (n <= maxRetries + 1 || n == from)
    ensures forall k | from <= k < n :: world(id, k).RateLimited? && k <= maxRetries
    ensures world(id, n).RateLimited? ==> n > maxRetries
    decreases maxRetries + 1 - from
  {
    if world(id, from).RateLimited? && from <= maxRetries
    then LastAttempt(world, id, maxRetries, from + 1) else from
  }

  /** What running a unit comes to: every attempt's tokens, and the last attempt's fate. */
  function ExecOutcome(world: World, id: UnitId, maxRetries: int): UnitOutcome {
    var n := LastAttempt(world, id, maxRetries, 1);
    UnitOutcome(id, if world(id, n).Succeeds? then Completed else Failed, n, BilledBy(world, id, n))
  }

  lemma RunningIsNotSkipping(world: World, id: UnitId, maxRetries: int)
    ensures ExecOutcome(world, id, maxRetries).unit == id && !ExecOutcome(world, id, maxRetries).status.Skipped?
  {}

  /** The retry loop's exit condition pins down the attempt it stops at. */
  lemma StopsAtLastAttempt(world: World, id: UnitId, maxRetries: int, n: nat)
    requires n >= 1 && Retried(world, id, maxRetries, n - 1)
    requires !world(id, n).RateLimited? || n > maxRetries
    ensures ExecOutcome(world, id, maxRetries)
      == UnitOutcome(id, if world(id, n).Succeeds? then Completed else Failed, n, BilledBy(world, id, n))
  {
    var last := LastAttempt(world, id, maxRetries, 1);
    assert world(id, last).RateLimited? ==> last > maxRetries;
    assert n < last ==> world(id, n).RateLimited? && n <= maxRetries;
  }

  /** A unit completes exactly when some allowed attempt succeeds after nothing but rate limits;
    * either way it stops within `maxRetries` retries, at the first attempt that is not a rate limit if
    * there is one. */
  lemma CompletesIff(world: World, id: UnitId, maxRetries: int)
    ensures var o := ExecOutcome(world, id, maxRetries);
      && o.unit == id && !o.status.Skipped?
      && 1 <= o.attempts && (o.attempts == 1 || o.attempts <= maxRetries + 1)
      && (forall k | 1 <= k < o.attempts :: world(id, k).RateLimited?)
      && (world(id, o.attempts).RateLimited? ==> o.attempts > maxRetries)
      && (o.status == Completed <==> exists n: nat ::
            1 <= n && (n == 1 || n <= maxRetries + 1) && world(id, n).Succeeds?
            && forall k | 1 <= k < n :: world(id, k).RateLimited?)
  {
    var o := ExecOutcome(world, id, maxRetries);
    if n: nat :| 1 <= n && (n == 1 || n <= maxRetries + 1) && world(id, n).Succeeds?
                 && forall k | 1 <= k < n :: world(id, k).RateLimited?
    {
      StopsAtLastAttempt(world, id, maxRetries, n);
    }
    assert world(id, o.attempts) == world(id, LastAttempt(world, id, maxRetries, 1));
  }

  /** A unit pays for every attempt it makes, also for a rate-limited one that was billed. */
  lemma AttemptsAreAllPaid(world: World, id: UnitId, maxRetries: int, r: ModelRate)
    ensures var o := ExecOutcome(world, id, maxRetries);
      PriceAt(o.usage, r) == Sum<nat>((k: nat) => match world(id, k + 1)
                                                  case Succeeds(usage) => PriceAt(usage, r)
                                                  case RateLimited(_, billed) => if billed.Some? then PriceAt(billed.value, r) else 0.0
                                                  case Raises => 0.0, seq(o.attempts, k => k))
  {
    hide PriceAt, LastAttempt;
    BilledIsPaid(world, id, LastAttempt(world, id, maxRetries, 1), r);
  }

  lemma {:induction false} BilledIsPaid(world: World, id: UnitId, n: nat, r: ModelRate)
    ensures PriceAt(BilledBy(world, id, n), r)
      == Sum<nat>((k: nat) => match world(id, k + 1)
                              case Succeeds(usage) => PriceAt(usage, r)
                              case RateLimited(_, billed) => if billed.Some? then PriceAt(billed.value, r) else 0.0
                              case Raises => 0.0, seq(n, k => k))
  {
    NothingIsFree(r);
    hide PriceAt;
    if n > 0 {
      BilledIsPaid(world, id, n - 1, r);
      PriceAtIsAdditive(BilledBy(world, id, n - 1), Billed(world(id, n)), r);
      assert seq(n, k => k) == seq(n - 1, k => k) + [n - 1];
      SumAppend<nat>((k: nat) => match world(id, k + 1)
                                 case Succeeds(usage) => PriceAt(usage, r)
                                 case RateLimited(_, billed) => if billed.Some? then PriceAt(billed.value, r) else 0.0
                                 case Raises => 0.0, seq(n - 1, k => k), n - 1);
    }
  }

  function Pow2(n: nat): (p: real)
    ensures p >= 1.0
  {
    if n == 0 then 1.0 else 2.0 * Pow2(n - 1)
  }

  /** The server's hint wins; otherwise a jittered exponential, both capped. `jitter` is the
    * fraction drawn from [0, 1). */
  function Backoff(base: real, cap: real, attempt: nat, retryAfter: Option<real>, jitter: real): real
    requires attempt >= 1
  {
    if retryAfter.Some? then MinReal(retryAfter.value, cap)
    else jitter * MinReal(cap, base * Pow2(attempt - 1))
  }

  lemma BackoffIsBounded(base: real, cap: real, attempt: nat, retryAfter: Option<real>, jitter: real)
    requires attempt >= 1 && base >= 0.0 && cap >= 0.0 && 0.0 <= jitter < 1.0
    requires retryAfter.Some? ==> retryAfter.value >= 0.0
    ensures 0.0 <= Backoff(base, cap, attempt, retryAfter, jitter) <= cap
  {
    NonNegativeProduct(base, Pow2(attempt - 1));
    var ceiling := MinReal(cap, base * Pow2(attempt - 1));
    NonNegativeProduct(jitter, ceiling);
    NonNegativeProduct(1.0 - jitter, ceiling);
    assert (1.0 - jitter) * ceiling == ceiling - jitter * ceiling;
  }

  /** A hint is obeyed up to the cap; without one the ceiling of the delay is the base, doubled after
    * each attempt, up to the cap. */
  lemma BackoffDoubles(base: real, cap: real, attempt: nat, hint: real, jitter: real)
    requires attempt >= 1
    ensures Backoff(base, cap, attempt, Some(hint), jitter) == if hint <= cap then hint else cap
    ensures base <= cap ==> Backoff(base, cap, 1, None, jitter) == jitter * base
    ensures base * Pow2(attempt) <= cap && base >= 0.0 ==>
      Backoff(base, cap, attempt + 1, None, jitter) == 2.0 * Backoff(base, cap, attempt, None, jitter)
    ensures base * Pow2(attempt) > cap ==> Backoff(base, cap, attempt + 1, None, jitter) == jitter * cap
  {
    hide Pow2;
    Doubled(base, attempt);
    var ceiling := Mul(base, Pow2(attempt - 1));
    CappedCeiling(base, cap, attempt, jitter);
    CappedCeiling(base, cap, attempt + 1, jitter);
    CappedCeiling(base, cap, 1, jitter);
    hide Mul, Backoff;
    MulDoubles(jitter, ceiling);
    assert jitter * cap == Mul(jitter, cap) && jitter * base == Mul(jitter, base);
  }

  lemma Doubled(base: real, attempt: nat)
    requires attempt >= 1
    ensures Pow2(0) == 1.0 && Mul(base, 1.0) == base
    ensures base * Pow2(attempt) == Mul(base, Pow2(attempt)) == 2.0 * Mul(base, Pow2(attempt - 1))
    ensures base >= 0.0 ==> Mul(base, Pow2(attempt - 1)) >= 0.0
  {}

  lemma MulDoubles(a: real, b: real)
    ensures Mul(a, 2.0 * b) == 2.0 * Mul(a, b)
  {}

  lemma CappedCeiling(base: real, cap: real, attempt: nat, jitter: real)
    requires attempt >= 1
    ensures Backoff(base, cap, attempt, None, jitter) == Mul(jitter, MinReal(cap, Mul(base, Pow2(attempt - 1))))
  {}

  lemma NonNegativeProduct(a: real, b: real)
    requires a >= 0.0 && b >= 0.0
    ensures a * b >= 0.0
  {}

  // ---------------------------------------------------------------- a job and its bookkeeping

  function AllIds(us: seq<WorkUnit>): (r: seq<UnitId>)
    ensures |r| == |us|
  {
    if us == [] then [] else [us[0].id] + AllIds(us[1..])
  }

  /** `[u.id for u in us if u.primes_cache == flag]`. */
  function Select(us: seq<WorkUnit>, flag: bool): seq<UnitId> {
    if us == [] then [] else (if us[0].primesCache == flag then [us[0].id] else []) + Select(us[1..], flag)
  }

  /** The first `n` ids, as a set. */
  function First(ids: seq<UnitId>, n: nat): set<UnitId>
    requires n <= |ids|
  {
    if n == 0 then {} else First(ids, n - 1) + {ids[n - 1]}
  }

  lemma {:induction false} FirstContains(ids: seq<UnitId>, n: nat, x: UnitId)
    requires n <= |ids|
    ensures x in First(ids, n) <==> exists i :: 0 <= i < n && ids[i] == x
  {
    if n > 0 {
      FirstContains(ids, n - 1, x);
    }
  }

  lemma HeadIsNew(us: seq<WorkUnit>)
    requires us != [] && Distinct(AllIds(us))
    ensures Distinct(AllIds(us[1..])) && us[0].id !in AllIds(us[1..])
  {
    assert AllIds(us) == [us[0].id] + AllIds(us[1..]);
    ConsDistinct(us[0].id, AllIds(us[1..]));
  }

  /** Priming units and wave units split the job: each id is in exactly one part, once. */
  lemma {:induction false} SelectSplits(us: seq<WorkUnit>, x: UnitId)
    requires Distinct(AllIds(us))
    ensures x in AllIds(us) <==> x in Select(us, true) || x in Select(us, false)
    ensures !(x in Select(us, true) && x in Select(us, false))
  {
    if us != [] {
      HeadIsNew(us);
      SelectSplits(us[1..], x);
    }
  }

  lemma {:induction false} SelectIsDistinct(us: seq<WorkUnit>, flag: bool)
    requires Distinct(AllIds(us))
    ensures Distinct(Select(us, flag))
  {
    if us != [] {
      HeadIsNew(us);
      SelectIsDistinct(us[1..], flag);
      SelectSplits(us[1..], us[0].id);
      ConsDistinct(us[0].id, Select(us[1..], flag));
    }
  }

  /** `ran` is what each unit comes to when it runs. */
  datatype Job = Job(
    units: seq<WorkUnit>, budget: Option<real>, price: Option<Usage -> real>,
    concurrency: nat, ran: UnitId -> UnitOutcome)
  {
    ghost predicate Valid() {
      && concurrency >= 1 && Distinct(AllIds(units))
      && forall id :: ran(id).unit == id && !ran(id).status.Skipped?
    }

    ghost predicate NonNegativePrices() {
      price.Some? ==> forall u: Usage :: price.value(u) >= 0.0
    }

    /** Cache-priming units run first, one at a time; the rest form the wave. */
    function Priming(): seq<UnitId> {
      Select(units, true)
    }

    function Wave(): seq<UnitId> {
      Select(units, false)
    }

    function Primed(): set<UnitId> {
      First(Priming(), |Priming()|)
    }

    /** What an outcome adds to the spend: nothing when unpriced or never run. */
    function CostOf(o: UnitOutcome): real {
      if price.Some? && !o.status.Skipped? then price.value(o.usage) else 0.0
    }

    function RanCost(id: UnitId): real {
      CostOf(ran(id))
    }

    /** The cost of the first `n` priming units. */
    function PrimingCost(n: nat): real
      requires n <= |Priming()|
    {
      Sum(RanCost, Priming()[..n])
    }

    /** The spend on those of `ids` that have an outcome. */
    function SpentOn(ids: seq<UnitId>, outcomes: map<UnitId, UnitOutcome>): real {
      if ids == [] then 0.0 else
        SpentOn(ids[1..], outcomes) + if ids[0] in outcomes then CostOf(outcomes[ids[0]]) else 0.0
    }

    predicate OverBudget(spent: real) {
      budget.Some? && price.Some? && spent >= budget.value
    }

    /** The dearest of the units. */
    function MaxCost(ids: seq<UnitId>): (m: real)
      ensures m >= 0.0 && (m == 0.0 || exists id :: id in ids && m == CostOf(ran(id)))
    {
      if ids == [] then 0.0 else
        var rest, first := MaxCost(ids[1..]), CostOf(ran(ids[0]));
        if first > rest then first else rest
    }

    lemma {:induction false} MaxCostIsMax(ids: seq<UnitId>, id: UnitId)
      requires id in ids
      ensures CostOf(ran(id)) <= MaxCost(ids)
    {
      if ids[0] != id {
        MaxCostIsMax(ids[1..], id);
      }
    }

    lemma {:induction false} SpentOnOthers(ids: seq<UnitId>, outcomes: map<UnitId, UnitOutcome>, id: UnitId, o: UnitOutcome)
      requires id !in ids
      ensures SpentOn(ids, outcomes[id := o]) == SpentOn(ids, outcomes)
    {
      if ids != [] {
        SpentOnOthers(ids[1..], outcomes, id, o);
      }
    }

    /** A new outcome for a unit of the job adds its cost, once. */
    lemma {:induction false} SpentOnInsert(ids: seq<UnitId>, outcomes: map<UnitId, UnitOutcome>, id: UnitId, o: UnitOutcome)
      requires Distinct(ids) && id in ids && id !in outcomes
      ensures SpentOn(ids, outcomes[id := o]) == SpentOn(ids, outcomes) + CostOf(o)
    {
      assert Distinct(ids[1..]);
      if ids[0] == id {
        SpentOnOthers(ids[1..], outcomes, id, o);
      } else {
        SpentOnInsert(ids[1..], outcomes, id, o);
      }
    }
  }

  // ---------------------------------------------------------------- the wave

  /** The bookkeeping of a run in progress. */
  datatype WaveState = WaveState(idx: nat, inFlight: set<UnitId>, outcomes: map<UnitId, UnitOutcome>, spent: real)

  predicate OutcomeIsRight(job: Job, id: UnitId, o: UnitOutcome) {
    o == job.ran(id)
    || (o == UnitOutcome(id, Skipped, 0, Usage(0, 0, 0, 0)) && id in job.Wave() && job.budget.Some? && job.price.Some?)
  }

  predicate AllRight(job: Job, outcomes: map<UnitId, UnitOutcome>) {
    forall id | id in outcomes :: OutcomeIsRight(job, id, outcomes[id])
  }

  /** Everything handed out is in flight or done, never both, and no priming unit is in flight. */
  predicate Partition(primed: set<UnitId>, handedOut: set<UnitId>, inFlight: set<UnitId>, done: set<UnitId>) {
    inFlight !! done && inFlight <= handedOut && inFlight + done == primed + handedOut
  }

  lemma PartitionSteps(primed: set<UnitId>, handedOut: set<UnitId>, inFlight: set<UnitId>, done: set<UnitId>, x: UnitId)
    requires Partition(primed, handedOut, inFlight, done)
    ensures x !in handedOut && x !in primed ==>
      Partition(primed, handedOut + {x}, inFlight + {x}, done) && Partition(primed, handedOut + {x}, inFlight, done + {x})
    ensures x in inFlight ==> Partition(primed, handedOut, inFlight - {x}, done + {x})
  {}

  /** Every unit handed out so far is in flight or has its one outcome, never both; what has an
    * outcome ran, or was skipped under a budget; and the spend is the cost of the outcomes. */
  ghost predicate Safe(job: Job, s: WaveState) {
    && s.idx <= |job.Wave()|
    && |s.inFlight| <= job.concurrency
    && Partition(job.Primed(), First(job.Wave(), s.idx), s.inFlight, s.outcomes.Keys)
    && AllRight(job, s.outcomes)
    && s.spent == job.SpentOn(AllIds(job.units), s.outcomes)
  }

  predicate WasSkipped(outcomes: map<UnitId, UnitOutcome>, id: UnitId) {
    id in outcomes && outcomes[id].status.Skipped?
  }

  /** Of the first `idx` ids of the wave, the first `k` were dispatched and the rest skipped. */
  predicate SkipsAreASuffix(wave: seq<UnitId>, outcomes: map<UnitId, UnitOutcome>, idx: nat, k: nat) {
    && k <= idx <= |wave|
    && forall i | 0 <= i < idx :: WasSkipped(outcomes, wave[i]) <==> k <= i
  }

  /** Spend plus what is in flight stays below the budget plus one full wave of the dearest unit. */
  predicate Exposed(job: Job, inFlight: nat, spent: real) {
    var m := job.MaxCost(AllIds(job.units));
    job.budget.Some? && job.price.Some? ==>
      spent + inFlight as real * m < job.budget.value + job.concurrency as real * m
  }

  /** The first `k` units of the wave were dispatched, the rest skipped once the budget was
    * reached; and the spend is bounded accordingly. */
  ghost predicate Bounded(job: Job, s: WaveState, k: nat, primedSpend: real) {
    && SkipsAreASuffix(job.Wave(), s.outcomes, s.idx, k)
    && (k < s.idx ==> job.budget.Some? && job.price.Some? && s.spent >= job.budget.value)
    && (k == 0 ==> s.spent == primedSpend && s.inFlight == {})
    && (k > 0 ==> Exposed(job, |s.inFlight|, s.spent))
  }

  ghost predicate Good(job: Job, s: WaveState, k: nat, primedSpend: real) {
    Safe(job, s) && (job.NonNegativePrices() ==> Bounded(job, s, k, primedSpend))
  }

  function Dispatched(job: Job, s: WaveState): WaveState
    requires s.idx < |job.Wave()|
  {
    s.(idx := s.idx + 1, inFlight := s.inFlight + {job.Wave()[s.idx]})
  }

  function SkippedOver(job: Job, s: WaveState): WaveState
    requires s.idx < |job.Wave()|
  {
    var id := job.Wave()[s.idx];
    s.(idx := s.idx + 1, outcomes := s.outcomes[id := SkippedOutcome(id)])
  }

  function Collected(job: Job, s: WaveState, id: UnitId): WaveState {
    s.(inFlight := s.inFlight - {id}, outcomes := s.outcomes[id := job.ran(id)],
       spent := s.spent + job.CostOf(job.ran(id)))
  }

  /** One update of the bookkeeping: while there is room the next unit is skipped, exactly when the
    * spend has reached the budget of a priced run, or else dispatched; or a unit in flight, any of
    * them, completes. */
  ghost predicate Moves(job: Job, s: WaveState, t: WaveState) {
    || (s.idx < |job.Wave()| && |s.inFlight| < job.concurrency
        && t == if job.budget.Some? && job.price.Some? && s.spent >= job.budget.value then SkippedOver(job, s)
                else Dispatched(job, s))
    || (exists id :: id in s.inFlight && t == Collected(job, s, id))
  }

  /** The priming units have run, in order, and nothing else has. */
  ghost predicate StartsPrimed(job: Job, s: WaveState) {
    && s.idx == 0 && s.inFlight == {} && s.spent == job.PrimingCost(|job.Priming()|)
    && s.outcomes.Keys == First(job.Priming(), |job.Priming()|)
    && forall id | id in s.outcomes :: s.outcomes[id] == job.ran(id)
  }

  predicate AllRan(job: Job, outcomes: map<UnitId, UnitOutcome>) {
    forall id | id in outcomes :: outcomes[id] == job.ran(id)
  }

  lemma AllRanIs(job: Job, s: WaveState)
    requires AllRan(job, s.outcomes)
    ensures forall id | id in s.outcomes :: s.outcomes[id] == job.ran(id)
  {}

  lemma HistoryStarts(job: Job, s: WaveState)
    requires StartsPrimed(job, s) && Safe(job, s)
    ensures IsHistory(job, [s])
  {}

  /** Every state of a run, from the primed one on, each one update after the one before. */
  ghost predicate IsHistory(job: Job, h: seq<WaveState>) {
    && h != [] && StartsPrimed(job, h[0])
    && (forall i | 0 < i < |h| :: Moves(job, h[i - 1], h[i]))
    && forall s | s in h :: Safe(job, s)
  }

  lemma HistoryGrows(job: Job, h: seq<WaveState>, t: WaveState)
    requires IsHistory(job, h) && Moves(job, h[|h| - 1], t) && Safe(job, t)
    ensures IsHistory(job, h + [t])
  {
    hide Moves, Safe, StartsPrimed;
    var next := h + [t];
    forall i | 0 < i < |next| ensures Moves(job, next[i - 1], next[i]) {
      assert i < |h| ==> next[i] == h[i] && next[i - 1] == h[i - 1];
    }
  }

  /** The next unit of the wave has not been handed out. */
  lemma NextIsNew(job: Job, i: nat)
    requires job.Valid() && i < |job.Wave()|
    ensures var id := job.Wave()[i];
      && id in AllIds(job.units)
      && id !in job.Primed() && id !in First(job.Wave(), i)
  {
    hide Select;
    var id := job.Wave()[i];
    SelectSplits(job.units, id);
    SelectIsDistinct(job.units, false);
    FirstContains(job.Priming(), |job.Priming()|, id);
    FirstContains(job.Wave(), i, id);
  }

  /** The next unit is not in flight, has no outcome, and does not occur earlier in the wave. */
  predicate NextIsFresh(wave: seq<UnitId>, s: WaveState) {
    && s.idx < |wave| && wave[s.idx] !in s.inFlight && wave[s.idx] !in s.outcomes
    && forall i | 0 <= i < s.idx :: wave[i] != wave[s.idx]
  }

  lemma WithinLimits(job: Job, s: WaveState)
    requires Safe(job, s)
    ensures s.idx <= |job.Wave()| && |s.inFlight| <= job.concurrency
  {}

  lemma NextIsFree(job: Job, s: WaveState)
    requires job.Valid() && Safe(job, s) && s.idx < |job.Wave()|
    ensures job.Wave()[s.idx] in AllIds(job.units) && NextIsFresh(job.Wave(), s)
    ensures var id := job.Wave()[s.idx]; var h := First(job.Wave(), s.idx + 1);
      && Partition(job.Primed(), h, s.inFlight + {id}, s.outcomes.Keys)
      && Partition(job.Primed(), h, s.inFlight, s.outcomes.Keys + {id})
  {
    hide AllIds, Job.Wave, Job.SpentOn, Job.Primed, OutcomeIsRight, Partition;
    var id := job.Wave()[s.idx];
    NextIsNew(job, s.idx);
    PartitionSteps(job.Primed(), First(job.Wave(), s.idx), s.inFlight, s.outcomes.Keys, id);
    PartitionMembers(job.Primed(), First(job.Wave(), s.idx), s.inFlight, s.outcomes.Keys, id);
    forall i | 0 <= i < s.idx ensures job.Wave()[i] != id {
      FirstContains(job.Wave(), s.idx, id);
    }
  }

  lemma PartitionMembers(primed: set<UnitId>, handedOut: set<UnitId>, inFlight: set<UnitId>, done: set<UnitId>, x: UnitId)
    requires Partition(primed, handedOut, inFlight, done)
    ensures x in inFlight ==> x in handedOut && x !in done
    ensures x in inFlight || x in done <==> x in primed || x in handedOut
  {}

  lemma OutcomesGrow(job: Job, outcomes: map<UnitId, UnitOutcome>, id: UnitId, o: UnitOutcome)
    requires AllRight(job, outcomes) && OutcomeIsRight(job, id, o)
    ensures AllRight(job, outcomes[id := o])
    ensures outcomes[id := o].Keys == outcomes.Keys + {id}
  {}

  lemma SafeIf(job: Job, idx: nat, inFlight: set<UnitId>, outcomes: map<UnitId, UnitOutcome>, spent: real)
    requires idx <= |job.Wave()| && |inFlight| <= job.concurrency
    requires Partition(job.Primed(), First(job.Wave(), idx), inFlight, outcomes.Keys)
    requires AllRight(job, outcomes) && spent == job.SpentOn(AllIds(job.units), outcomes)
    ensures Safe(job, WaveState(idx, inFlight, outcomes, spent))
  {}

  lemma OneMore(inFlight: set<UnitId>, id: UnitId)
    ensures |inFlight + {id}| <= |inFlight| + 1
  {}

  lemma DispatchKeepsSafe(job: Job, s: WaveState)
    requires job.Valid() && Safe(job, s) && s.idx < |job.Wave()| && |s.inFlight| < job.concurrency
    ensures Safe(job, Dispatched(job, s))
  {
    hide AllIds, Job.Wave, Job.SpentOn, Job.Primed, Job.Valid, AllRight, OutcomeIsRight, Partition, First, Distinct, NextIsFresh;
    NextIsFree(job, s);
    OneMore(s.inFlight, job.Wave()[s.idx]);
    SafeIf(job, s.idx + 1, s.inFlight + {job.Wave()[s.idx]}, s.outcomes, s.spent);
  }

  lemma SkipIsRight(job: Job, idx: nat, spent: real)
    requires idx < |job.Wave()| && job.OverBudget(spent)
    ensures OutcomeIsRight(job, job.Wave()[idx], SkippedOutcome(job.Wave()[idx]))
  {}

  lemma SkipIsFree(job: Job, outcomes: map<UnitId, UnitOutcome>, id: UnitId)
    requires job.Valid() && id in AllIds(job.units) && id !in outcomes
    ensures job.SpentOn(AllIds(job.units), outcomes[id := SkippedOutcome(id)]) == job.SpentOn(AllIds(job.units), outcomes)
  {
    hide AllIds, Job.SpentOn, Distinct;
    job.SpentOnInsert(AllIds(job.units), outcomes, id, SkippedOutcome(id));
  }

  lemma SkippedIs(job: Job, s: WaveState)
    requires s.idx < |job.Wave()|
    ensures var id := job.Wave()[s.idx];
      SkippedOver(job, s) == WaveState(s.idx + 1, s.inFlight, s.outcomes[id := SkippedOutcome(id)], s.spent)
  {}

  lemma SkipKeepsSafe(job: Job, s: WaveState)
    requires job.Valid() && Safe(job, s) && s.idx < |job.Wave()| && job.OverBudget(s.spent)
    ensures Safe(job, SkippedOver(job, s))
  {
    hide AllIds, Job.Wave, Job.SpentOn, Job.Primed, Job.Valid, Job.OverBudget, Partition, First, Distinct, OutcomeIsRight, AllRight;
    hide SkippedOutcome;
    var id := job.Wave()[s.idx];
    NextIsFree(job, s);
    assert id !in s.outcomes;
    hide NextIsFresh, SkippedOver;
    SkippedIs(job, s);
    SkipIsRight(job, s.idx, s.spent);
    OutcomesGrow(job, s.outcomes, id, SkippedOutcome(id));
    SkipIsFree(job, s.outcomes, id);
    SafeIf(job, s.idx + 1, s.inFlight, s.outcomes[id := SkippedOutcome(id)], s.spent);
  }

  lemma InFlightIsKnown(job: Job, s: WaveState, id: UnitId)
    requires job.Valid() && Safe(job, s) && id in s.inFlight
    ensures id in AllIds(job.units) && id in job.Wave() && id !in s.outcomes
    ensures Partition(job.Primed(), First(job.Wave(), s.idx), s.inFlight - {id}, s.outcomes.Keys + {id})
  {
    hide Select, AllIds, Job.Primed, Job.SpentOn, OutcomeIsRight, Partition;
    PartitionSteps(job.Primed(), First(job.Wave(), s.idx), s.inFlight, s.outcomes.Keys, id);
    PartitionMembers(job.Primed(), First(job.Wave(), s.idx), s.inFlight, s.outcomes.Keys, id);
    FirstContains(job.Wave(), s.idx, id);
    SelectSplits(job.units, id);
  }

  lemma CollectKeepsSafe(job: Job, s: WaveState, id: UnitId)
    requires job.Valid() && Safe(job, s) && id in s.inFlight
    ensures Safe(job, Collected(job, s, id))
  {
    hide AllIds, Job.Wave, Job.SpentOn, First, Job.Primed, Partition, Distinct;
    InFlightIsKnown(job, s, id);
    assert OutcomeIsRight(job, id, job.ran(id));
    hide OutcomeIsRight, AllRight;
    OutcomesGrow(job, s.outcomes, id, job.ran(id));
    job.SpentOnInsert(AllIds(job.units), s.outcomes, id, job.ran(id));
  }

  lemma SuffixGrows(wave: seq<UnitId>, outcomes: map<UnitId, UnitOutcome>, idx: nat, k: nat, o: UnitOutcome)
    requires SkipsAreASuffix(wave, outcomes, idx, k) && idx < |wave| && wave[idx] !in outcomes
    requires forall i | 0 <= i < idx :: wave[i] != wave[idx]
    ensures k == idx ==> SkipsAreASuffix(wave, outcomes, idx + 1, k + 1)
    ensures o.status.Skipped? ==> SkipsAreASuffix(wave, outcomes[wave[idx] := o], idx + 1, k)
  {}

  lemma SuffixKept(wave: seq<UnitId>, outcomes: map<UnitId, UnitOutcome>, idx: nat, k: nat, id: UnitId, o: UnitOutcome)
    requires SkipsAreASuffix(wave, outcomes, idx, k) && id !in outcomes && !o.status.Skipped?
    ensures SkipsAreASuffix(wave, outcomes[id := o], idx, k)
  {}

  /** A unit handed out below the budget keeps the exposure bounded, and so does collecting one. */
  lemma ExposureSteps(job: Job, inFlight: nat, spent: real, id: UnitId)
    requires inFlight > 0
    ensures !job.OverBudget(spent) && inFlight <= job.concurrency ==> Exposed(job, inFlight, spent)
    ensures Exposed(job, inFlight, spent) && id in AllIds(job.units)
      ==> Exposed(job, inFlight - 1, spent + job.CostOf(job.ran(id)))
  {
    hide AllIds, Job.CostOf, Job.MaxCost;
    var m := job.MaxCost(AllIds(job.units));
    if inFlight <= job.concurrency {
      ScaleUp(inFlight, job.concurrency, m);
    }
    if id in AllIds(job.units) {
      job.MaxCostIsMax(AllIds(job.units), id);
      assert (inFlight - 1) as real * m == inFlight as real * m - m;
    }
  }

  lemma ScaleUp(a: nat, b: nat, m: real)
    requires a <= b && m >= 0.0
    ensures a as real * m <= b as real * m
  {}

  lemma DispatchKeepsBounded(job: Job, s: WaveState, k: nat, ps: real)
    requires Bounded(job, s, k, ps) && NextIsFresh(job.Wave(), s)
    requires !job.OverBudget(s.spent) && |s.inFlight| < job.concurrency
    ensures Bounded(job, Dispatched(job, s), k + 1, ps)
  {
    hide AllIds, Job.Wave, Exposed;
    SuffixGrows(job.Wave(), s.outcomes, s.idx, k, SkippedOutcome(job.Wave()[s.idx]));
    ExposureSteps(job, |s.inFlight| + 1, s.spent, job.Wave()[s.idx]);
  }

  lemma SkipKeepsBounded(job: Job, s: WaveState, k: nat, ps: real)
    requires Bounded(job, s, k, ps) && NextIsFresh(job.Wave(), s) && job.OverBudget(s.spent)
    ensures Bounded(job, SkippedOver(job, s), k, ps)
  {
    hide AllIds, Job.Wave, Exposed;
    SuffixGrows(job.Wave(), s.outcomes, s.idx, k, SkippedOutcome(job.Wave()[s.idx]));
  }

  lemma CollectKeepsBounded(job: Job, s: WaveState, k: nat, ps: real, id: UnitId)
    requires Bounded(job, s, k, ps) && id in s.inFlight && id !in s.outcomes && id in AllIds(job.units)
    requires !job.ran(id).status.Skipped? && job.CostOf(job.ran(id)) >= 0.0
    ensures Bounded(job, Collected(job, s, id), k, ps)
  {
    hide AllIds, Job.Wave, Exposed;
    SuffixKept(job.Wave(), s.outcomes, s.idx, k, id, job.ran(id));
    ExposureSteps(job, |s.inFlight|, s.spent, id);
  }

  lemma DispatchKeepsGood(job: Job, s: WaveState, k: nat, ps: real)
    requires job.Valid() && Good(job, s, k, ps) && s.idx < |job.Wave()| && |s.inFlight| < job.concurrency
    requires !job.OverBudget(s.spent)
    ensures Good(job, Dispatched(job, s), k + 1, ps)
  {
    hide Safe, Bounded, Job.Wave, Job.Primed, Partition, First, Dispatched;
    DispatchKeepsSafe(job, s);
    if job.NonNegativePrices() {
      NextIsFree(job, s);
      DispatchKeepsBounded(job, s, k, ps);
    }
  }

  lemma SkipKeepsGood(job: Job, s: WaveState, k: nat, ps: real)
    requires job.Valid() && Good(job, s, k, ps) && s.idx < |job.Wave()| && job.OverBudget(s.spent)
    ensures Good(job, SkippedOver(job, s), k, ps)
  {
    hide Safe, Bounded, Job.Wave, Job.Primed, Partition, First, SkippedOver;
    SkipKeepsSafe(job, s);
    if job.NonNegativePrices() {
      NextIsFree(job, s);
      SkipKeepsBounded(job, s, k, ps);
    }
  }

  lemma CollectKeepsGood(job: Job, s: WaveState, k: nat, ps: real, id: UnitId)
    requires job.Valid() && Good(job, s, k, ps) && id in s.inFlight
    ensures Good(job, Collected(job, s, id), k, ps)
  {
    hide Safe, Bounded, Job.Wave, Job.Primed, Partition, First, Collected;
    CollectKeepsSafe(job, s, id);
    if job.NonNegativePrices() {
      InFlightIsKnown(job, s, id);
      CollectKeepsBounded(job, s, k, ps, id);
    }
  }

  // ---------------------------------------------------------------- results

  datatype OrchestratorResult = OrchestratorResult(outcomes: seq<UnitOutcome>, totalUsage: Usage, totalCost: real)

  /** Usage folded over outcomes, in order. */
  function UsageOf(os: seq<UnitOutcome>): Usage {
    if os == [] then NO_USAGE else UsageOf(os[..|os| - 1]).Plus(os[|os| - 1].usage)
  }

  /** `[outcomes[i] for i in ids]`. */
  function InOrder(ids: seq<UnitId>, outcomes: map<UnitId, UnitOutcome>): (r: seq<UnitOutcome>)
    requires forall id | id in ids :: id in outcomes
    ensures |r| == |ids| && forall i | 0 <= i < |ids| :: r[i] == outcomes[ids[i]]
  {
    if ids == [] then [] else [outcomes[ids[0]]] + InOrder(ids[1..], outcomes)
  }

  lemma {:induction false} SpentIsSum(job: Job, ids: seq<UnitId>, outcomes: map<UnitId, UnitOutcome>)
    requires forall id | id in ids :: id in outcomes
    ensures job.SpentOn(ids, outcomes) == Sum(job.CostOf, InOrder(ids, outcomes))
  {
    if ids != [] {
      SpentIsSum(job, ids[1..], outcomes);
      assert InOrder(ids, outcomes)[1..] == InOrder(ids[1..], outcomes);
    }
  }

  /** When every unit is priced at one model's rates, the metered total is the price of the
    * total usage. */
  lemma {:induction false} CostIsPriceOfUsage(job: Job, os: seq<UnitOutcome>, r: ModelRate)
    requires job.price.Some? && forall u :: job.price.value(u) == PriceAt(u, r)
    requires forall o | o in os :: o.status.Skipped? ==> o.usage == NO_USAGE
    ensures Sum(job.CostOf, os) == PriceAt(UsageOf(os), r)
  {
    if os != [] {
      var rest, o := os[..|os| - 1], os[|os| - 1];
      CostIsPriceOfUsage(job, rest, r);
      assert os == rest + [o];
      calc {
        Sum(job.CostOf, os);
        { SumAppend(job.CostOf, rest, o); }
        Sum(job.CostOf, rest) + job.CostOf(o);
        { CostIsPrice(job, o, r); }
        PriceAt(UsageOf(rest), r) + PriceAt(o.usage, r);
        { PriceAtIsAdditive(UsageOf(rest), o.usage, r); }
        PriceAt(UsageOf(os), r);
      }
    }
  }

  lemma CostIsPrice(job: Job, o: UnitOutcome, r: ModelRate)
    requires job.price.Some? && job.price.value(o.usage) == PriceAt(o.usage, r)
    requires o.status.Skipped? ==> o.usage == NO_USAGE
    ensures job.CostOf(o) == PriceAt(o.usage, r)
  {}

  /** What a finished run returns. A unit of the wave that is skipped was reached only after the
    * budget was, and every later one is skipped too; whatever the completion order, the total
    * stays below the budget plus one wave of the dearest unit. */
  ghost predicate Settled(job: Job, r: OrchestratorResult) {
    && |r.outcomes| == |job.units|
    && (forall i | 0 <= i < |job.units| ::
          || r.outcomes[i] == job.ran(job.units[i].id)
          || (!job.units[i].primesCache && job.budget.Some? && job.price.Some?
              && r.outcomes[i] == UnitOutcome(job.units[i].id, Skipped, 0, Usage(0, 0, 0, 0))))
    && r.totalUsage == UsageOf(r.outcomes)
    && r.totalCost == Sum(job.CostOf, r.outcomes)
    && (job.NonNegativePrices() ==> BudgetKept(job, r))
  }

  predicate RanInWave(job: Job, r: OrchestratorResult, i: nat)
    requires |r.outcomes| == |job.units|
  {
    i < |job.units| && !job.units[i].primesCache && !r.outcomes[i].status.Skipped?
  }

  ghost predicate BudgetKept(job: Job, r: OrchestratorResult)
    requires |r.outcomes| == |job.units|
  {
    && (forall i | 0 <= i < |job.units| && r.outcomes[i].status.Skipped? ::
          && job.budget.Some? && job.price.Some? && r.totalCost >= job.budget.value
          && forall j | i < j :: !RanInWave(job, r, j))
    && (job.budget.Some? && job.price.Some? && (exists i: nat :: RanInWave(job, r, i)) ==>
          r.totalCost < job.budget.value + job.concurrency as real * job.MaxCost(AllIds(job.units)))
    && ((forall i: nat :: !RanInWave(job, r, i)) ==> r.totalCost == job.PrimingCost(|job.Priming()|))
  }

  /** When even all units together cost less than the budget, every unit runs. */
  lemma NoneSkippedBelowBudget(job: Job, r: OrchestratorResult)
    requires Settled(job, r) && job.NonNegativePrices()
    requires job.budget.Some? ==> Sum(job.RanCost, AllIds(job.units)) < job.budget.value
    ensures forall i | 0 <= i < |job.units| :: r.outcomes[i] == job.ran(job.units[i].id)
  {
    hide AllIds, RanInWave, Exposed, UsageOf, Job.CostOf, Job.Wave;
    RanCostsMore(job, job.units, r.outcomes);
  }

  lemma {:induction false} RanCostsMore(job: Job, us: seq<WorkUnit>, os: seq<UnitOutcome>)
    requires |os| == |us| && job.NonNegativePrices()
    requires forall i | 0 <= i < |us| :: os[i] == job.ran(us[i].id) || os[i].status.Skipped?
    ensures Sum(job.CostOf, os) <= Sum(job.RanCost, AllIds(us))
  {
    if us != [] {
      RanCostsMore(job, us[1..], os[1..]);
      assert AllIds(us)[1..] == AllIds(us[1..]);
    }
  }

  /** Units keep their order in the wave. */
  lemma {:induction false} WaveIndex(us: seq<WorkUnit>, i: nat) returns (a: nat)
    requires i < |us| && !us[i].primesCache
    ensures a < |Select(us, false)| && Select(us, false)[a] == us[i].id
    ensures a == |Select(us[..i], false)|
  {
    if i == 0 {
      a := 0;
    } else {
      a := WaveIndex(us[1..], i - 1);
      assert us[..i][1..] == us[1..][..i - 1];
      if !us[0].primesCache {
        a := a + 1;
      }
    }
  }

  lemma {:induction false} WavePrefixGrows(us: seq<WorkUnit>, i: nat, j: nat)
    requires i < j <= |us| && !us[i].primesCache
    ensures |Select(us[..i], false)| < |Select(us[..j], false)|
  {
    if i > 0 {
      assert us[..i][1..] == us[1..][..i - 1] && us[..j][1..] == us[1..][..j - 1];
      WavePrefixGrows(us[1..], i - 1, j - 1);
    }
  }

  lemma {:induction false} UnitOfWaveIndex(us: seq<WorkUnit>, a: nat) returns (i: nat)
    requires a < |Select(us, false)|
    ensures i < |us| && !us[i].primesCache && us[i].id == Select(us, false)[a]
  {
    if us[0].primesCache {
      i := UnitOfWaveIndex(us[1..], a);
      i := i + 1;
    } else if a == 0 {
      i := 0;
    } else {
      i := UnitOfWaveIndex(us[1..], a - 1);
      i := i + 1;
    }
  }

  lemma AllIdsAt(us: seq<WorkUnit>, i: nat)
    requires i < |us|
    ensures AllIds(us)[i] == us[i].id
  {
    if i > 0 {
      AllIdsAt(us[1..], i - 1);
    }
  }

  lemma {:induction false} SpentOnNothing(job: Job, ids: seq<UnitId>)
    ensures job.SpentOn(ids, map[]) == 0.0
  {
    if ids != [] {
      SpentOnNothing(job, ids[1..]);
    }
  }

  lemma PrimingBegins(job: Job)
    ensures First(job.Priming(), 0) == {} && AllRight(job, map[]) && AllRan(job, map[])
    ensures job.PrimingCost(0) == 0.0 == job.SpentOn(AllIds(job.units), map[])
  {
    SpentOnNothing(job, AllIds(job.units));
  }

  lemma PrimingEnds(job: Job, s: WaveState)
    requires s.idx == 0 && s.inFlight == {} && AllRight(job, s.outcomes)
    requires s.outcomes.Keys == First(job.Priming(), |job.Priming()|)
    requires s.spent == job.PrimingCost(|job.Priming()|) == job.SpentOn(AllIds(job.units), s.outcomes)
    ensures Good(job, s, 0, job.PrimingCost(|job.Priming()|))
  {
    hide AllRight, AllIds, Job.SpentOn, Job.PrimingCost, Job.Priming, Job.Wave;
    assert First(job.Wave(), 0) == {};
  }

  /** The next priming unit has no outcome yet; recording it adds its cost. */
  lemma PrimingStep(job: Job, outcomes: map<UnitId, UnitOutcome>, i: nat)
    requires job.Valid() && i < |job.Priming()| && outcomes.Keys == First(job.Priming(), i)
    requires AllRight(job, outcomes) && AllRan(job, outcomes)
    ensures var id := job.Priming()[i]; var next := outcomes[id := job.ran(id)];
      && next.Keys == First(job.Priming(), i + 1) && AllRight(job, next) && AllRan(job, next)
      && job.SpentOn(AllIds(job.units), next) == job.SpentOn(AllIds(job.units), outcomes) + job.RanCost(id)
      && job.PrimingCost(i + 1) == job.PrimingCost(i) + job.RanCost(id)
  {
    hide Select, AllIds, Job.SpentOn;
    var priming := job.Priming();
    var id := priming[i];
    SelectIsDistinct(job.units, true);
    SelectSplits(job.units, id);
    FirstContains(priming, i, id);
    job.SpentOnInsert(AllIds(job.units), outcomes, id, job.ran(id));
    assert priming[..i + 1] == priming[..i] + [id];
    SumAppend(job.RanCost, priming[..i], id);
  }

  /** At the end of the wave every unit has its outcome. */
  lemma AllDone(job: Job, s: WaveState)
    requires job.Valid() && Safe(job, s) && s.idx == |job.Wave()| && s.inFlight == {}
    ensures forall id | id in AllIds(job.units) :: id in s.outcomes
  {
    hide Select, AllIds, First, AllRight, Job.SpentOn;
    forall id | id in AllIds(job.units) ensures id in s.outcomes {
      SelectSplits(job.units, id);
      FirstContains(job.Priming(), |job.Priming()|, id);
      FirstContains(job.Wave(), s.idx, id);
    }
  }

  function Report(job: Job, s: WaveState): OrchestratorResult
    requires forall id | id in AllIds(job.units) :: id in s.outcomes
  {
    var ordered := InOrder(AllIds(job.units), s.outcomes);
    OrchestratorResult(ordered, UsageOf(ordered), s.spent)
  }

  /** Where unit `i` of the job, a wave unit, stands among the first `k` of the wave. */
  lemma SkippedIffPast(job: Job, s: WaveState, k: nat, i: nat) returns (a: nat)
    requires job.Valid() && SkipsAreASuffix(job.Wave(), s.outcomes, |job.Wave()|, k)
    requires i < |job.units| && !job.units[i].primesCache
    ensures WasSkipped(s.outcomes, job.units[i].id) <==> k <= a
    ensures a == |Select(job.units[..i], false)| < |job.Wave()|
  {
    a := WaveIndex(job.units, i);
  }

  lemma PrimingNeverSkipped(job: Job, i: nat, o: UnitOutcome)
    requires job.Valid() && i < |job.units| && job.units[i].primesCache
    requires OutcomeIsRight(job, job.units[i].id, o)
    ensures o == job.ran(job.units[i].id)
  {
    var id := job.units[i].id;
    AllIdsAt(job.units, i);
    PrimesInPriming(job.units, i);
    SelectSplits(job.units, id);
  }

  lemma {:induction false} PrimesInPriming(us: seq<WorkUnit>, i: nat)
    requires i < |us| && us[i].primesCache
    ensures us[i].id in Select(us, true)
  {
    if i > 0 {
      PrimesInPriming(us[1..], i - 1);
    }
  }

  lemma EndIsSettled(job: Job, s: WaveState, k: nat)
    requires job.Valid() && Good(job, s, k, job.PrimingCost(|job.Priming()|))
    requires s.idx == |job.Wave()| && s.inFlight == {}
    requires forall id | id in AllIds(job.units) :: id in s.outcomes
    ensures Settled(job, Report(job, s))
  {
    var r := Report(job, s);
    SpentIsSum(job, AllIds(job.units), s.outcomes);
    forall i | 0 <= i < |job.units|
      ensures OutcomeIsRight(job, job.units[i].id, r.outcomes[i])
      ensures job.units[i].primesCache ==> r.outcomes[i] == job.ran(job.units[i].id)
    {
      AllIdsAt(job.units, i);
      if job.units[i].primesCache {
        PrimingNeverSkipped(job, i, r.outcomes[i]);
      }
    }
    if job.NonNegativePrices() {
      EndKeepsBudget(job, s, k);
    }
  }

  /** At the end of a run: unit `i` was skipped exactly when it is past the first `k` of the wave. */
  ghost predicate AtEnd(job: Job, s: WaveState, k: nat) {
    && job.Valid() && Safe(job, s) && s.idx == |job.Wave()| && s.inFlight == {}
    && SkipsAreASuffix(job.Wave(), s.outcomes, |job.Wave()|, k)
    && forall id | id in AllIds(job.units) :: id in s.outcomes
  }

  lemma RanIff(job: Job, s: WaveState, k: nat, i: nat)
    requires AtEnd(job, s, k) && i < |job.units|
    ensures RanInWave(job, Report(job, s), i) <==> !job.units[i].primesCache && |Select(job.units[..i], false)| < k
    ensures Report(job, s).outcomes[i].status.Skipped? ==> !job.units[i].primesCache && k <= |Select(job.units[..i], false)| < |job.Wave()|
  {
    hide Select, Job.Wave, Job.SpentOn, First, Partition, Job.Primed;
    AllIdsAt(job.units, i);
    if job.units[i].primesCache {
      PrimingNeverSkipped(job, i, s.outcomes[job.units[i].id]);
    } else {
      var a := SkippedIffPast(job, s, k, i);
    }
  }

  lemma NoneRunAfter(job: Job, s: WaveState, k: nat, i: nat, j: nat)
    requires AtEnd(job, s, k) && i < j < |job.units| && Report(job, s).outcomes[i].status.Skipped?
    ensures !RanInWave(job, Report(job, s), j)
  {
    hide Safe, Job.Valid, Job.Wave, SkipsAreASuffix, Select, RanInWave, InOrder;
    RanIff(job, s, k, i);
    RanIff(job, s, k, j);
    WavePrefixGrows(job.units, i, j);
  }

  lemma SomeRan(job: Job, s: WaveState, k: nat)
    requires AtEnd(job, s, k)
    ensures k > 0 <==> exists i: nat :: RanInWave(job, Report(job, s), i)
  {
    hide Select, Safe, Job.Valid, UsageOf;
    if i: nat :| RanInWave(job, Report(job, s), i) {
      RanIff(job, s, k, i);
    }
    if k > 0 {
      var i := UnitOfWaveIndex(job.units, 0);
      AllIdsAt(job.units, i);
      assert !WasSkipped(s.outcomes, job.Wave()[0]);
      assert RanInWave(job, Report(job, s), i);
    }
  }

  lemma EndKeepsBudget(job: Job, s: WaveState, k: nat)
    requires job.Valid() && Safe(job, s) && Bounded(job, s, k, job.PrimingCost(|job.Priming()|))
    requires s.idx == |job.Wave()| && s.inFlight == {}
    requires forall id | id in AllIds(job.units) :: id in s.outcomes
    ensures BudgetKept(job, Report(job, s))
  {
    hide Select, Job.SpentOn, Job.MaxCost, Job.PrimingCost, Job.Wave, Job.Valid, Safe, RanInWave, SkipsAreASuffix, Exposed, InOrder;
    assert AtEnd(job, s, k);
    hide AtEnd;
    var r := Report(job, s);
    forall i: nat | i < |job.units| && r.outcomes[i].status.Skipped?
      ensures job.budget.Some? && job.price.Some? && r.totalCost >= job.budget.value
      ensures forall j | i < j < |job.units| :: !RanInWave(job, r, j)
    {
      RanIff(job, s, k, i);
      forall j | i < j < |job.units| ensures !RanInWave(job, r, j) {
        NoneRunAfter(job, s, k, i, j);
      }
    }
    OnlyUnitsRan(job, r);
    SomeRan(job, s, k);
    if Exposed(job, 0, s.spent) && job.budget.Some? && job.price.Some? {
      AtRest(job, s.spent);
    }
  }

  lemma AtRest(job: Job, spent: real)
    requires Exposed(job, 0, spent) && job.budget.Some? && job.price.Some?
    ensures spent < job.budget.value + job.concurrency as real * job.MaxCost(AllIds(job.units))
  {
    hide AllIds;
  }

  lemma OnlyUnitsRan(job: Job, r: OrchestratorResult)
    requires |r.outcomes| == |job.units|
    ensures forall i: nat | i >= |job.units| :: !RanInWave(job, r, i)
  {}

  /** The run-local variables of `run` and `_run_wave` are fields; `history` is the trail of
    * bookkeeping states, one after each update, from the end of priming on. */
  class Orchestrator {
    const concurrency: nat
    const maxRetries: int
    const baseBackoff: real
    const maxBackoff: real
    var spent: real
    var outcomes: map<UnitId, UnitOutcome>
    var inFlight: set<UnitId>
    var idx: nat
    ghost var dispatched: nat
    ghost var history: seq<WaveState>

    constructor (concurrency: nat, maxRetries: int, baseBackoff: real, maxBackoff: real)
      requires concurrency >= 1
      ensures this.concurrency == concurrency && this.maxRetries == maxRetries
      ensures this.baseBackoff == baseBackoff && this.maxBackoff == maxBackoff
    {
      this.concurrency, this.maxRetries := concurrency, maxRetries;
      this.baseBackoff, this.maxBackoff := baseBackoff, maxBackoff;
      spent, outcomes, inFlight, idx := 0.0, map[], {}, 0;
      dispatched, history := 0, [];
    }

    ghost function State(): WaveState
      reads this
    {
      WaveState(idx, inFlight, outcomes, spent)
    }

    /** The job is this orchestrator's, against that provider. */
    ghost predicate Serves(job: Job, world: World) {
      job.Valid() && job.concurrency == concurrency
      && forall id :: job.ran(id) == ExecOutcome(world, id, maxRetries)
    }

    /** Between any two updates of the wave. */
    ghost predicate Inv(job: Job, primedSpend: real)
      reads this
    {
      && job.Valid() && job.concurrency == concurrency
      && Good(job, State(), dispatched, primedSpend)
      && IsHistory(job, history) && history[|history| - 1] == State()
    }

    /** Run one unit with retry on rate limits: one backoff between any two attempts. */
    method Exec(world: World, id: UnitId, jitter: nat -> real) returns (o: UnitOutcome, delays: seq<real>)
      ensures o == ExecOutcome(world, id, maxRetries)
      ensures |delays| == o.attempts - 1
      ensures forall k: nat | k < |delays| ::
        && world(id, k + 1).RateLimited?
        && delays[k] == Backoff(baseBackoff, maxBackoff, k + 1, world(id, k + 1).retryAfter, jitter(k + 1))
    {
      hide Backoff, ExecOutcome;
      var attempt := 0;
      var burned := NO_USAGE;
      delays := [];
      while true
        invariant burned == BilledBy(world, id, attempt)
        invariant Retried(world, id, maxRetries, attempt)
        invariant |delays| == attempt
        invariant forall k: nat | k < attempt ::
          && world(id, k + 1).RateLimited?
          && delays[k] == Backoff(baseBackoff, maxBackoff, k + 1, world(id, k + 1).retryAfter, jitter(k + 1))
        decreases maxRetries + 1 - attempt
      {
        attempt := attempt + 1;
        match world(id, attempt)
        case Succeeds(usage) =>
          StopsAtLastAttempt(world, id, maxRetries, attempt);
          return UnitOutcome(id, Completed, attempt, burned.Plus(usage)), delays;
        case RateLimited(retryAfter, billed) =>
          if billed.Some? {
            burned := burned.Plus(billed.value);
          }
          if attempt > maxRetries {
            StopsAtLastAttempt(world, id, maxRetries, attempt);
            return UnitOutcome(id, Failed, attempt, burned), delays;
          }
          delays := delays + [Backoff(baseBackoff, maxBackoff, attempt, retryAfter, jitter(attempt))];
        case Raises =>
          StopsAtLastAttempt(world, id, maxRetries, attempt);
          return UnitOutcome(id, Failed, attempt, burned), delays;
      }
    }

    method Account(job: Job, o: UnitOutcome)
      requires !o.status.Skipped?
      modifies this`spent
      ensures spent == old(spent) + job.CostOf(o)
    {
      if job.price.Some? {
        spent := spent + job.price.value(o.usage);
      }
    }

    /** Hand out units until the pool is full or the queue is empty, checking the budget before
      * each. */
    method Fill(job: Job, ghost primedSpend: real)
      requires Inv(job, primedSpend)
      modifies this
      ensures Inv(job, primedSpend)
      ensures idx >= old(idx) && (idx == old(idx) ==> inFlight == old(inFlight))
      ensures idx == |job.Wave()| || |inFlight| == concurrency
    {
      hide Job.Wave, Safe, Bounded, IsHistory;
      var queue := job.Wave();
      while |inFlight| < concurrency && idx < |queue|
        invariant Inv(job, primedSpend)
        invariant idx >= old(idx) && (idx == old(idx) ==> inFlight == old(inFlight))
        decreases |queue| - idx
      {
        var id := queue[idx];
        ghost var before := State();
        if job.OverBudget(spent) {
          SkipKeepsGood(job, before, dispatched, primedSpend);
          outcomes := outcomes[id := SkippedOutcome(id)];
        } else {
          DispatchKeepsGood(job, before, dispatched, primedSpend);
          inFlight := inFlight + {id};
          dispatched := dispatched + 1;
        }
        idx := idx + 1;
        HistoryGrows(job, history, State());
        history := history + [State()];
      }
      WithinLimits(job, State());
    }

    /** One finished future: its outcome is recorded and its cost metered. */
    method Collect(job: Job, world: World, id: UnitId, jitter: nat -> real, ghost primedSpend: real)
      requires Inv(job, primedSpend) && Serves(job, world) && id in inFlight
      modifies this
      ensures Inv(job, primedSpend)
      ensures idx == old(idx) && inFlight == old(inFlight) - {id}
    {
      hide Job.Wave, Safe, Bounded, ExecOutcome, IsHistory;
      ghost var before := State();
      CollectKeepsGood(job, before, dispatched, primedSpend, id);
      inFlight := inFlight - {id};
      var outcome, _ := Exec(world, id, jitter);
      outcomes := outcomes[id := outcome];
      Account(job, outcome);
      assert Moves(job, before, State());
      HistoryGrows(job, history, State());
      history := history + [State()];
    }

    /** The wave, for every order in which futures can complete: each round takes an arbitrary
      * non-empty set of the units in flight as done. */
    method RunWave(job: Job, world: World, jitter: nat -> real, ghost primedSpend: real)
      requires Inv(job, primedSpend) && Serves(job, world) && idx == 0 && inFlight == {}
      modifies this
      ensures Inv(job, primedSpend) && idx == |job.Wave()| && inFlight == {}
    {
      Fill(job, primedSpend);
      while inFlight != {}
        invariant Inv(job, primedSpend)
        invariant idx == |job.Wave()| || |inFlight| == concurrency
        decreases |job.Wave()| - idx, inFlight
      {
        var done :| done <= inFlight && done != {};
        ghost var waiting, handedOut := inFlight, idx;
        while done != {}
          invariant Inv(job, primedSpend) && done <= inFlight <= waiting
          invariant done == {} ==> inFlight < waiting
          invariant idx == handedOut
          decreases done
        {
          var id :| id in done;
          done := done - {id};
          Collect(job, world, id, jitter, primedSpend);
        }
        Fill(job, primedSpend);
      }
    }

    /** Priming units run to completion, in order, before the wave. */
    method RunPriming(job: Job, world: World, jitter: nat -> real)
      requires Serves(job, world) && spent == 0.0 && outcomes == map[] && inFlight == {} && idx == 0 && history == []
      requires dispatched == 0
      modifies this
      ensures Inv(job, job.PrimingCost(|job.Priming()|))
      ensures idx == 0 && inFlight == {}
    {
      hide First, AllRight, AllRan, Job.SpentOn, Job.PrimingCost, Job.Priming, ExecOutcome, IsHistory, Safe, Job.Wave;
      var priming := job.Priming();
      PrimingBegins(job);
      for i := 0 to |priming|
        invariant idx == 0 && inFlight == {} && history == [] && dispatched == 0
        invariant outcomes.Keys == First(priming, i) && AllRight(job, outcomes)
        invariant AllRan(job, outcomes)
        invariant spent == job.PrimingCost(i) == job.SpentOn(AllIds(job.units), outcomes)
      {
        var id := priming[i];
        PrimingStep(job, outcomes, i);
        var outcome, _ := Exec(world, id, jitter);
        outcomes := outcomes[id := outcome];
        Account(job, outcome);
      }
      PrimingEnds(job, State());
      AllRanIs(job, State());
      HistoryStarts(job, State());
      history := [State()];
    }

    method TotalUsage(os: seq<UnitOutcome>) returns (total: Usage)
      ensures total == UsageOf(os)
    {
      total := NO_USAGE;
      for i := 0 to |os|
        invariant total == UsageOf(os[..i])
      {
        assert os[..i + 1][..i] == os[..i];
        total := total.Plus(os[i].usage);
      }
      assert os[..|os|] == os;
    }

    /** Every unit, priming ones first; `Err` when two units share an id. */
    method Run(units: seq<WorkUnit>, budget: Option<real>, price: Option<Usage -> real>, world: World, jitter: nat -> real)
        returns (r: Result<OrchestratorResult, string>)
      modifies this
      requires concurrency >= 1
      ensures r.Err? <==> !Distinct(AllIds(units))
      ensures r.Ok? ==>
        var job := Job(units, budget, price, concurrency, id => ExecOutcome(world, id, maxRetries));
        && Settled(job, r.value) && IsHistory(job, history)
        && var last := history[|history| - 1];
        && last.idx == |job.Wave()| && last.inFlight == {}
        && (forall id | id in AllIds(units) :: id in last.outcomes) && r.value == Report(job, last)
    {
      hide AllIds, ExecOutcome, Safe, Bounded, Settled, Job.PrimingCost, Job.Wave, Job.Priming;
      if !Distinct(AllIds(units)) {
        return Err("WorkUnit ids must be unique");
      }
      spent, outcomes, inFlight, idx := 0.0, map[], {}, 0;
      dispatched, history := 0, [];
      var job := Job(units, budget, price, concurrency, id => ExecOutcome(world, id, maxRetries));
      forall id ensures job.ran(id).unit == id && !job.ran(id).status.Skipped? {
        RunningIsNotSkipping(world, id, maxRetries);
      }
      RunPriming(job, world, jitter);
      RunWave(job, world, jitter, job.PrimingCost(|job.Priming()|));
      AllDone(job, State());
      var ordered := InOrder(AllIds(units), outcomes);
      var total := TotalUsage(ordered);
      EndIsSettled(job, State(), dispatched);
      return Ok(OrchestratorResult(ordered, total, spent));
    }
  }
}

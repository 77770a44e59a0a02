/** The attention router: what is applied unsighted, what is queued, and how many queued
  * decisions it takes to reach the target accuracy. */
module Attention {
  import opened Arith
  import opened Permutations
  import opened Questions
  import opened Sorting
  import opened Sums

  /** `rank` is the position of the decision's id in string order. */
  datatype Decision = Decision(
    rank: nat, confidence: real, leverage: real, affected: seq<QuestionId>, requiresHuman: bool)
  {
    predicate Valid() {
      0.0 <= confidence <= 1.0 && leverage >= 0.0
    }
  }

  // ---------------------------------------------------------------- routing

  predicate Auto(d: Decision, threshold: real) {
    !d.requiresHuman && d.confidence >= threshold
  }

  /** Highest leverage first, then lower confidence, then id. */
  function Before(): (Decision, Decision) -> bool {
    (a: Decision, b: Decision) =>
      a.leverage > b.leverage
      || (a.leverage == b.leverage
          && (a.confidence < b.confidence || (a.confidence == b.confidence && a.rank <= b.rank)))
  }

  function Keep(ds: seq<Decision>, auto: bool, threshold: real): (r: seq<Decision>)
    ensures forall d :: d in r <==> d in ds && Auto(d, threshold) == auto
  {
    if ds == [] then [] else (if Auto(ds[0], threshold) == auto then [ds[0]] else []) + Keep(ds[1..], auto, threshold)
  }

  function Queue(ds: seq<Decision>, threshold: real): seq<Decision> {
    Sort(Keep(ds, false, threshold), Before())
  }

  lemma {:induction false} KeepSplits(ds: seq<Decision>, threshold: real)
    ensures multiset(Keep(ds, true, threshold)) + multiset(Keep(ds, false, threshold)) == multiset(ds)
  {
    if ds != [] {
      KeepSplits(ds[1..], threshold);
      assert ds == [ds[0]] + ds[1..];
    }
  }

  /** Every decision goes to exactly one side: it is applied unsighted exactly when it needs no human and
    * is at least as sure as the threshold. The queue has the highest leverage first, then the lower
    * confidence, then the id. */
  lemma RoutingLosesNothing(ds: seq<Decision>, threshold: real)
    ensures multiset(Keep(ds, true, threshold)) + multiset(Queue(ds, threshold)) == multiset(ds)
    ensures forall d :: d in Keep(ds, true, threshold) <==> d in ds && !d.requiresHuman && d.confidence >= threshold
    ensures forall d :: d in Queue(ds, threshold) <==> d in ds && (d.requiresHuman || d.confidence < threshold)
    ensures var q := Queue(ds, threshold);
      forall i, j | 0 <= i < j < |q| ::
        && q[i].leverage >= q[j].leverage
        && (q[i].leverage == q[j].leverage ==> q[i].confidence <= q[j].confidence)
        && (q[i].leverage == q[j].leverage && q[i].confidence == q[j].confidence ==> q[i].rank <= q[j].rank)
    ensures Descending(Queue(ds, threshold))
  {
    hide Sort, Before;
    KeepSplits(ds, threshold);
    var kept, queue := Keep(ds, false, threshold), Queue(ds, threshold);
    SortIsPermutation(kept, Before());
    SameMembers(queue, kept);
    SortedByWorth(kept);
  }

  lemma SameMembers(a: seq<Decision>, b: seq<Decision>)
    requires multiset(a) == multiset(b)
    ensures forall d :: d in a <==> d in b
  {
    forall d ensures d in a <==> d in b {
      assert d in multiset(a) <==> d in multiset(b);
    }
  }

  lemma SortedByWorth(ds: seq<Decision>)
    ensures var q := Sort(ds, Before());
      forall i, j | 0 <= i < j < |q| ::
        && q[i].leverage >= q[j].leverage
        && (q[i].leverage == q[j].leverage ==> q[i].confidence <= q[j].confidence)
        && (q[i].leverage == q[j].leverage && q[i].confidence == q[j].confidence ==> q[i].rank <= q[j].rank)
  {
    hide Sort;
    SortSorts(ds, Before());
    assert forall i, j | 0 <= i < j < |Sort(ds, Before())| :: Before()(Sort(ds, Before())[i], Sort(ds, Before())[j]);
  }

  /** What is applied keeps its order: routing one more decision adds it at the end, or not at all. */
  lemma {:induction false} AppliedInOrder(ds: seq<Decision>, d: Decision, auto: bool, threshold: real)
    ensures Keep(ds + [d], auto, threshold) == Keep(ds, auto, threshold) + Keep([d], auto, threshold)
  {
    if ds == [] {
      assert ds + [d] == [d];
    } else {
      assert (ds + [d])[1..] == ds[1..] + [d];
      AppliedInOrder(ds[1..], d, auto, threshold);
    }
  }

  // ---------------------------------------------------------------- readiness

  datatype Readiness = Readiness(accuracy: real, decisionsToTarget: nat, projected: real, reachable: bool)

  /** Leverage of the first `k`. */
  function Prefix(queue: seq<Decision>, k: nat): real
    requires k <= |queue|
  {
    if k == 0 then 0.0 else Prefix(queue, k - 1) + queue[k - 1].leverage
  }

  /** Leverage, and number, of the chosen ones among the first `k`. */
  function Gain(queue: seq<Decision>, chosen: seq<bool>, k: nat): real
    requires k <= |queue| == |chosen|
  {
    if k == 0 then 0.0 else Gain(queue, chosen, k - 1) + if chosen[k - 1] then queue[k - 1].leverage else 0.0
  }

  function Size(chosen: seq<bool>, k: nat): (n: nat)
    requires k <= |chosen|
    ensures n <= k
  {
    if k == 0 then 0 else Size(chosen, k - 1) + if chosen[k - 1] then 1 else 0
  }

  predicate Descending(queue: seq<Decision>) {
    forall i, j | 0 <= i < j < |queue| :: queue[i].leverage >= queue[j].leverage
  }

  /** No selection of m decisions beats the first m. */
  lemma {:induction false} PrefixIsBest(queue: seq<Decision>, chosen: seq<bool>, k: nat)
    requires Descending(queue) && k <= |queue| == |chosen|
    ensures Gain(queue, chosen, k) <= Prefix(queue, Size(chosen, k))
  {
    if k > 0 {
      PrefixIsBest(queue, chosen, k - 1);
      if chosen[k - 1] {
        var m := Size(chosen, k - 1);
        assert m < k - 1 ==> queue[m].leverage >= queue[k - 1].leverage;
      }
    }
  }

  lemma {:induction false} PrefixGrows(queue: seq<Decision>, j: nat, k: nat)
    requires j <= k <= |queue| && forall d | d in queue :: d.leverage >= 0.0
    ensures Prefix(queue, j) <= Prefix(queue, k)
  {
    if j < k {
      PrefixGrows(queue, j, k - 1);
    }
  }

  function Accuracy(nCorrect: nat, n: nat): real {
    if n == 0 then 0.0 else nCorrect as real / n as real
  }

  lemma AccuracyIsShare(nCorrect: nat, n: nat)
    ensures if n == 0 then Accuracy(nCorrect, n) == 0.0 else Accuracy(nCorrect, n) * n as real == nCorrect as real
  {}

  /** The questions not yet claimed, repeats included. */
  function Fresh(qs: seq<QuestionId>, covered: set<QuestionId>): (r: seq<QuestionId>)
    ensures forall q :: q in r <==> q in qs && q !in covered
  {
    if qs == [] then [] else (if qs[0] in covered then [] else [qs[0]]) + Fresh(qs[1..], covered)
  }

  function AsSet(qs: seq<QuestionId>): set<QuestionId> {
    set q | q in qs
  }

  /** Leverage of the decisions that name no question. */
  function Unlisted(queue: seq<Decision>, k: nat): real
    requires k <= |queue|
  {
    if k == 0 then 0.0 else
      Unlisted(queue, k - 1) + if queue[k - 1].affected == [] then queue[k - 1].leverage else 0.0
  }

  lemma {:induction false} UnlistedIsSum(queue: seq<Decision>, k: nat)
    requires k <= |queue|
    ensures Unlisted(queue, k) == Sum((d: Decision) => if d.affected == [] then d.leverage else 0.0, queue[..k])
  {
    if k > 0 {
      UnlistedIsSum(queue, k - 1);
      assert queue[..k] == queue[..k - 1] + [queue[k - 1]];
      SumAppend((d: Decision) => if d.affected == [] then d.leverage else 0.0, queue[..k - 1], queue[k - 1]);
    }
  }

  function Claimed(queue: seq<Decision>, k: nat): set<QuestionId>
    requires k <= |queue|
  {
    if k == 0 then {} else Claimed(queue, k - 1) + AsSet(queue[k - 1].affected)
  }

  lemma SizeWith(q: QuestionId, rest: seq<QuestionId>, covered: set<QuestionId>)
    ensures |covered + AsSet([q] + rest)| == |covered + AsSet(rest)| + if q in covered || q in rest then 0 else 1
  {
    assert AsSet([q] + rest) == {q} + AsSet(rest);
    if q in covered || q in rest {
      assert covered + AsSet([q] + rest) == covered + AsSet(rest);
    } else {
      assert covered + AsSet([q] + rest) == (covered + AsSet(rest)) + {q};
    }
  }

  /** As many unclaimed entries are counted as questions are newly covered exactly when no uncovered
    * question is listed twice. */
  lemma {:induction false} UnclaimedCountIff(qs: seq<QuestionId>, covered: set<QuestionId>)
    ensures |covered + AsSet(qs)| <= |covered| + |Fresh(qs, covered)|
    ensures |covered + AsSet(qs)| == |covered| + |Fresh(qs, covered)| <==> Distinct(Fresh(qs, covered))
  {
    if qs == [] {
      assert covered + AsSet(qs) == covered;
    } else {
      hide AsSet, Distinct;
      var q, rest := qs[0], qs[1..];
      assert qs == [q] + rest;
      UnclaimedCountIff(rest, covered);
      ConsDistinct(q, Fresh(rest, covered));
      SizeWith(q, rest, covered);
      assert Fresh(qs, covered) == if q in covered then Fresh(rest, covered) else [q] + Fresh(rest, covered);
    }
  }

  lemma {:induction false} FreshSize(qs: seq<QuestionId>, covered: set<QuestionId>)
    requires Distinct(qs)
    ensures Distinct(Fresh(qs, covered)) && |covered + AsSet(qs)| == |covered| + |Fresh(qs, covered)|
  {
    UnclaimedCountIff(qs, covered);
    if qs != [] {
      hide AsSet, Distinct;
      assert qs == [qs[0]] + qs[1..];
      ConsDistinct(qs[0], qs[1..]);
      FreshSize(qs[1..], covered);
      ConsDistinct(qs[0], Fresh(qs[1..], covered));
      assert Fresh(qs, covered)
        == if qs[0] in covered then Fresh(qs[1..], covered) else [qs[0]] + Fresh(qs[1..], covered);
    }
  }

  /** Share of the evaluation set that `k` questions make up. */
  function Share(k: nat, n: nat): real {
    if n == 0 then 0.0 else k as real / n as real
  }

  lemma ShareAdds(a: nat, b: nat, n: nat)
    ensures Share(a + b, n) == Share(a, n) + Share(b, n)
    ensures 0.0 <= Share(b, n)
  {}

  // ---------------------------------------------------------------- the greedy walk

  predicate Unshared(queue: seq<Decision>) {
    forall d | d in queue :: d.affected == []
  }

  predicate RepeatFree(queue: seq<Decision>) {
    forall d | d in queue :: Distinct(d.affected)
  }

  /** Without question lists: `count` decisions from the front were taken, all needed, and what
    * was passed over has no leverage. */
  predicate TookFront(queue: seq<Decision>, i: nat, count: nat, accuracy: real, projected: real, target: real)
    requires i <= |queue|
  {
    && count <= i
    && (forall j | count <= j < i :: queue[j].leverage <= 0.0)
    && projected == MinReal(1.0, accuracy + Prefix(queue, count))
    && forall k | 0 <= k < count :: accuracy + Prefix(queue, k) < target
  }

  /** What a decision with `k` unclaimed questions is credited with. */
  function Credit(leverage: real, k: nat, n: nat): real {
    if n == 0 then 0.0 else MinReal(leverage, k as real / n as real)
  }

  function LeverageAt(queue: seq<Decision>, j: nat): real {
    if j < |queue| then queue[j].leverage else 0.0
  }

  lemma TakeFront(queue: seq<Decision>, i: nat, count: nat, accuracy: real, projected: real, target: real)
    requires i < |queue| && queue[i].Valid() && Descending(queue)
    requires TookFront(queue, i, count, accuracy, projected, target) && projected < target <= 1.0
    ensures queue[i].leverage <= 0.0 ==> TookFront(queue, i + 1, count, accuracy, projected, target)
    ensures queue[i].leverage > 0.0 ==>
      TookFront(queue, i + 1, count + 1, accuracy, MinReal(1.0, projected + queue[i].leverage), target)
  {
    if queue[i].leverage > 0.0 {
      var passedOver := LeverageAt(queue, count);
    }
  }

  /** Where the walk over a list-free queue stops says whether, and how soon, the target can be
    * reached by any selection at all. */
  lemma FrontIsOptimal(queue: seq<Decision>, i: nat, count: nat, accuracy: real, projected: real, target: real)
    requires i <= |queue| && Descending(queue) && target <= 1.0 && forall d | d in queue :: d.Valid()
    requires TookFront(queue, i, count, accuracy, projected, target) && (i == |queue| || projected >= target)
    ensures projected >= target <==> accuracy + Prefix(queue, |queue|) >= target
    ensures count <= |queue| && (projected >= target ==> accuracy + Prefix(queue, count) >= target)
    ensures forall chosen | |chosen| == |queue| && accuracy + Gain(queue, chosen, |queue|) >= target ::
      count <= Size(chosen, |queue|)
  {
    PrefixGrows(queue, count, |queue|);
    if i == |queue| {
      PrefixStalls(queue, count, i);
    }
    forall chosen | |chosen| == |queue| && accuracy + Gain(queue, chosen, |queue|) >= target
      ensures count <= Size(chosen, |queue|)
    {
      PrefixIsBest(queue, chosen, |queue|);
    }
  }

  lemma {:induction false} PrefixStalls(queue: seq<Decision>, j: nat, k: nat)
    requires j <= k <= |queue| && forall m | j <= m < k :: queue[m].leverage <= 0.0
    ensures Prefix(queue, k) <= Prefix(queue, j)
  {
    if j < k {
      PrefixStalls(queue, j, k - 1);
    }
  }

  lemma UnsharedAt(queue: seq<Decision>, i: nat)
    requires i < |queue|
    ensures Unshared(queue) ==> queue[i].affected == []
  {
    assert queue[i] in queue;
  }

  lemma NothingTaken(queue: seq<Decision>, accuracy: real, target: real)
    ensures accuracy < target <= 1.0 ==> TookFront(queue, 0, 0, accuracy, accuracy, target)
  {}

  lemma AlreadyThere(queue: seq<Decision>, accuracy: real, target: real)
    requires accuracy >= target && forall d | d in queue :: d.Valid()
    ensures accuracy + Prefix(queue, |queue|) >= target && accuracy + Prefix(queue, 0) >= target
  {
    PrefixGrows(queue, 0, |queue|);
  }

  // ---------------------------------------------------------------- what the walk credits

  /** The walk over the first decisions: its projection and picks, the questions the picks cover, and
    * what was credited to picks that name questions and to picks that name none. */
  datatype Walk = Walk(projected: real, count: nat, covered: set<QuestionId>, credited: real, unlisted: real)

  predicate Picks(w: Walk, d: Decision, target: real) {
    w.projected < target && d.leverage > 0.0 && (d.affected == [] || Fresh(d.affected, w.covered) != [])
  }

  function Picked(w: Walk, d: Decision, n: nat): Walk {
    if d.affected == [] then
      Walk(MinReal(1.0, w.projected + d.leverage), w.count + 1, w.covered, w.credited, w.unlisted + d.leverage)
    else
      var gain := Credit(d.leverage, |Fresh(d.affected, w.covered)|, n);
      Walk(MinReal(1.0, w.projected + gain), w.count + 1, w.covered + AsSet(d.affected), w.credited + gain, w.unlisted)
  }

  function WalkOf(queue: seq<Decision>, k: nat, accuracy: real, n: nat, target: real): Walk
    requires k <= |queue|
  {
    if k == 0 then Walk(accuracy, 0, {}, 0.0, 0.0) else
      var w := WalkOf(queue, k - 1, accuracy, n, target);
      if Picks(w, queue[k - 1], target) then Picked(w, queue[k - 1], n) else w
  }

  lemma WalkNext(queue: seq<Decision>, k: nat, accuracy: real, n: nat, target: real)
    requires k < |queue|
    ensures var w := WalkOf(queue, k, accuracy, n, target);
      WalkOf(queue, k + 1, accuracy, n, target) == if Picks(w, queue[k], target) then Picked(w, queue[k], n) else w
  {
    assert k + 1 - 1 == k;
  }

  lemma {:induction false} WalkStops(queue: seq<Decision>, j: nat, k: nat, accuracy: real, n: nat, target: real)
    requires j <= k <= |queue| && WalkOf(queue, j, accuracy, n, target).projected >= target
    ensures WalkOf(queue, k, accuracy, n, target) == WalkOf(queue, j, accuracy, n, target)
  {
    if j < k {
      WalkStops(queue, j, k - 1, accuracy, n, target);
    }
  }

  /** `projected` is the accuracy plus the credits so far, capped at one once anything was picked. */
  predicate Adds(w: Walk, accuracy: real) {
    && w.projected == (if w.count == 0 then accuracy else MinReal(1.0, accuracy + w.unlisted + w.credited))
    && (w.count == 0 ==> w.unlisted == w.credited == 0.0) && w.credited >= 0.0 && w.unlisted >= 0.0
  }

  lemma PickAdds(w: Walk, d: Decision, n: nat, accuracy: real)
    requires Adds(w, accuracy) && d.Valid()
    ensures Adds(Picked(w, d, n), accuracy)
  {
    CreditIsNonNegative(d.leverage, |Fresh(d.affected, w.covered)|, n);
    hide Fresh, AsSet, Credit;
  }

  function Gained(qs: seq<QuestionId>, covered: set<QuestionId>): nat {
    SubsetSize(covered, covered + AsSet(qs));
    |covered + AsSet(qs)| - |covered|
  }

  lemma ShareOrder(a: nat, b: nat, n: nat)
    requires n > 0
    ensures Share(a, n) <= Share(b, n) <==> a <= b
  {
    Quotient(a as real, n as real, Share(b, n));
  }

  /** A decision is documented never to be credited for more than it newly covers. It is not exactly when
    * it lists no uncovered question twice, or claims no more leverage than what it covers anyway. */
  lemma CreditIsWithinCoverageIff(qs: seq<QuestionId>, covered: set<QuestionId>, leverage: real, n: nat)
    requires leverage >= 0.0
    ensures Credit(leverage, |Fresh(qs, covered)|, n) <= Share(Gained(qs, covered), n)
      <==> n == 0 || Distinct(Fresh(qs, covered)) || leverage <= Share(Gained(qs, covered), n)
  {
    UnclaimedCountIff(qs, covered);
    if n > 0 {
      ShareOrder(|Fresh(qs, covered)|, Gained(qs, covered), n);
      hide AsSet, Distinct, Fresh;
    }
  }

  /** One question in four, listed twice by a decision that claims half of them all, is credited as two. */
  lemma RepeatIsCreditedTwice(q: QuestionId)
    ensures var d := Decision(0, 0.5, 0.5, [q, q], false);
      var w := WalkOf([d], 1, 0.0, 4, 1.0);
      w.covered == {q} && w.credited == 0.5 && Share(|w.covered|, 4) == 0.25
  {
    var d := Decision(0, 0.5, 0.5, [q, q], false);
    assert [q, q][1..] == [q] && [q][1..] == [];
    assert Fresh([q], {}) == [q] + Fresh([], {}) == [q];
    assert Fresh([q, q], {}) == [q] + Fresh([q], {}) == [q, q];
    assert AsSet([q, q]) == {q} && {} + {q} == {q};
    assert WalkOf([d], 0, 0.0, 4, 1.0) == Walk(0.0, 0, {}, 0.0, 0.0);
  }

  lemma CreditIsNonNegative(leverage: real, k: nat, n: nat)
    requires leverage >= 0.0
    ensures 0.0 <= Credit(leverage, k, n) <= Share(k, n)
  {}

  lemma PickIsCovered(w: Walk, d: Decision, n: nat)
    requires Distinct(d.affected) && w.credited <= Share(|w.covered|, n) && d.Valid()
    ensures Picked(w, d, n).credited <= Share(|Picked(w, d, n).covered|, n)
  {
    var unclaimed := Fresh(d.affected, w.covered);
    FreshSize(d.affected, w.covered);
    ShareAdds(|w.covered|, |unclaimed|, n);
    CreditIsNonNegative(d.leverage, |unclaimed|, n);
    hide Fresh, AsSet, Credit, Share, Distinct, MinReal;
  }

  /** The projection is the accuracy plus the two kinds of credit, capped at one; and the walk credits
    * no leverage and covers no question that is not in the queue. */
  lemma {:induction false} ProjectionIsCredit(queue: seq<Decision>, k: nat, accuracy: real, n: nat, target: real)
    requires k <= |queue| && forall d | d in queue :: d.Valid()
    ensures var w := WalkOf(queue, k, accuracy, n, target);
      && Adds(w, accuracy) && w.unlisted <= Unlisted(queue, k) && w.covered <= Claimed(queue, k) && w.count <= k
  {
    hide Fresh, AsSet, Adds, Picks, Credit, MinReal;
    if k == 0 {
      NothingAdded(accuracy);
    } else {
      ProjectionIsCredit(queue, k - 1, accuracy, n, target);
      assert queue[k - 1].Valid();
      PickAdds(WalkOf(queue, k - 1, accuracy, n, target), queue[k - 1], n, accuracy);
    }
  }

  lemma NothingAdded(accuracy: real)
    ensures Adds(Walk(accuracy, 0, {}, 0.0, 0.0), accuracy)
  {}

  /** The `j`-th decision is picked and names the question. */
  predicate PicksFor(queue: seq<Decision>, j: nat, accuracy: real, n: nat, target: real, q: QuestionId)
    requires j < |queue|
  {
    Picks(WalkOf(queue, j, accuracy, n, target), queue[j], target) && q in queue[j].affected
  }

  /** A covered question is one that some picked decision names. */
  lemma {:induction false} CoveredIsPicked(queue: seq<Decision>, k: nat, accuracy: real, n: nat, target: real, q: QuestionId)
    requires k <= |queue|
    ensures q in WalkOf(queue, k, accuracy, n, target).covered <==>
      exists j: nat :: j < k && PicksFor(queue, j, accuracy, n, target, q)
  {
    hide WalkOf, Fresh, MinReal, Credit, Picks;
    if k == 0 {
      Outset(queue, accuracy, n, target);
    } else {
      CoveredIsPicked(queue, k - 1, accuracy, n, target, q);
      WalkNext(queue, k - 1, accuracy, n, target);
      if j: nat :| j < k && PicksFor(queue, j, accuracy, n, target, q) {
        assert j < k - 1 || j == k - 1;
      }
      assert PicksFor(queue, k - 1, accuracy, n, target, q)
        <==> Picks(WalkOf(queue, k - 1, accuracy, n, target), queue[k - 1], target) && q in queue[k - 1].affected;
    }
  }

  /** With repeat-free question lists, the picks that name questions are together credited with no more
    * than the share of the questions they cover. */
  lemma {:induction false} CreditIsCovered(queue: seq<Decision>, k: nat, accuracy: real, n: nat, target: real)
    requires k <= |queue| && RepeatFree(queue) && forall d | d in queue :: d.Valid()
    ensures var w := WalkOf(queue, k, accuracy, n, target); w.credited <= Share(|w.covered|, n)
  {
    hide Fresh, AsSet, Picked, Picks, Credit, Share, Distinct;
    if k == 0 {
      ShareAdds(0, 0, n);
    } else {
      CreditIsCovered(queue, k - 1, accuracy, n, target);
      assert queue[k - 1] in queue;
      PickIsCovered(WalkOf(queue, k - 1, accuracy, n, target), queue[k - 1], n);
    }
  }

  // ---------------------------------------------------------------- when order does not matter

  /** No question is listed by two decisions of the queue. */
  predicate Disjoint(queue: seq<Decision>) {
    forall i, j | 0 <= i < j < |queue| :: AsSet(queue[i].affected) !! AsSet(queue[j].affected)
  }

  /** What a decision is credited with when nothing before it listed its questions. */
  function Solo(d: Decision, n: nat): real {
    if d.leverage <= 0.0 then 0.0
    else if d.affected == [] then d.leverage
    else Credit(d.leverage, |d.affected|, n)
  }

  function Worth(n: nat): Decision -> real {
    (d: Decision) => Solo(d, n)
  }

  lemma {:induction false} FreshOfUnclaimed(qs: seq<QuestionId>, covered: set<QuestionId>)
    requires AsSet(qs) !! covered
    ensures Fresh(qs, covered) == qs
  {
    if qs != [] {
      assert qs[0] in AsSet(qs) && qs == [qs[0]] + qs[1..];
      assert AsSet(qs[1..]) <= AsSet(qs);
      FreshOfUnclaimed(qs[1..], covered);
    }
  }

  lemma {:induction false} ClaimedIsEarlier(queue: seq<Decision>, k: nat, q: QuestionId)
    requires k <= |queue| && q in Claimed(queue, k)
    ensures exists j :: 0 <= j < k && q in AsSet(queue[j].affected)
  {
    if k > 0 && q in Claimed(queue, k - 1) {
      ClaimedIsEarlier(queue, k - 1, q);
    } else {
      assert q in AsSet(queue[k - 1].affected);
    }
  }

  lemma PickedIsSolo(w: Walk, d: Decision, n: nat, target: real)
    requires AsSet(d.affected) !! w.covered && w.projected < target && d.Valid()
    ensures var next := if Picks(w, d, target) then Picked(w, d, n) else w;
      next.unlisted + next.credited == w.unlisted + w.credited + Solo(d, n)
  {
    FreshOfUnclaimed(d.affected, w.covered);
    hide AsSet, Fresh, MinReal;
  }

  /** Until the target is met, each decision of a disjoint queue is credited with its own worth. */
  lemma {:induction false} DisjointWalk(queue: seq<Decision>, k: nat, accuracy: real, n: nat, target: real)
    requires k <= |queue| && Disjoint(queue) && forall d | d in queue :: d.Valid()
    ensures var w := WalkOf(queue, k, accuracy, n, target);
      && w.unlisted + w.credited <= Sum(Worth(n), queue[..k])
      && (w.projected < target ==> w.unlisted + w.credited == Sum(Worth(n), queue[..k]))
  {
    hide AsSet, Fresh, Picks, Picked, Claimed, Unlisted, Solo;
    if k == 0 {
      assert queue[..0] == [];
    } else {
      var w, d := WalkOf(queue, k - 1, accuracy, n, target), queue[k - 1];
      DisjointWalk(queue, k - 1, accuracy, n, target);
      assert queue[..k] == queue[..k - 1] + [d] && d in queue;
      SumAppend(Worth(n), queue[..k - 1], d);
      SoloIsNonNegative(d, n);
      ProjectionIsCredit(queue, k - 1, accuracy, n, target);
      if w.projected < target {
        forall q | q in AsSet(d.affected) ensures q !in w.covered {
          NotClaimed(queue, k - 1, q);
        }
        PickedIsSolo(w, d, n, target);
      } else {
        WalkStops(queue, k - 1, k, accuracy, n, target);
      }
    }
  }

  lemma SoloIsNonNegative(d: Decision, n: nat)
    ensures 0.0 <= Solo(d, n) == Worth(n)(d)
  {
    if d.leverage > 0.0 {
      CreditIsNonNegative(d.leverage, |d.affected|, n);
    }
  }

  lemma NotClaimed(queue: seq<Decision>, k: nat, q: QuestionId)
    requires k < |queue| && Disjoint(queue) && q in AsSet(queue[k].affected)
    ensures q !in Claimed(queue, k)
  {
    hide AsSet, Claimed;
    if q in Claimed(queue, k) {
      ClaimedIsEarlier(queue, k, q);
    }
  }

  /** A disjoint queue reaches the target exactly when the accuracy and all the decisions' own worth do. */
  lemma DisjointReachesIff(queue: seq<Decision>, accuracy: real, n: nat, target: real)
    requires Disjoint(queue) && target <= 1.0 && forall d | d in queue :: d.Valid()
    ensures WalkOf(queue, |queue|, accuracy, n, target).projected >= target <==> accuracy + Sum(Worth(n), queue) >= target
  {
    assert queue[..|queue|] == queue;
    DisjointWalk(queue, |queue|, accuracy, n, target);
    ProjectionIsCredit(queue, |queue|, accuracy, n, target);
    hide WalkOf, Sum, Disjoint;
  }

  lemma DisjointInAnyOrder(a: seq<Decision>, b: seq<Decision>)
    requires multiset(a) == multiset(b) && Disjoint(a)
    ensures Disjoint(b)
  {
    hide AsSet;
    forall i, j | 0 <= i < j < |b| ensures AsSet(b[i].affected) !! AsSet(b[j].affected) {
      if b[i] == b[j] {
        Twice(b, i, j);
        var k, l := TwoOf(a, b[i]);
      } else {
        assert b[i] in multiset(b) && b[j] in multiset(b);
        var k := IndexOf(a, b[i]);
        var l := IndexOf(a, b[j]);
        assert k < l || l < k;
      }
    }
  }

  /** So when no question is listed by two decisions, their order does not decide reachability. */
  lemma OrderIsIrrelevant(a: seq<Decision>, b: seq<Decision>, accuracy: real, n: nat, target: real)
    requires multiset(a) == multiset(b) && Disjoint(a) && target <= 1.0 && forall d | d in a :: d.Valid()
    ensures WalkOf(a, |a|, accuracy, n, target).projected >= target <==> WalkOf(b, |b|, accuracy, n, target).projected >= target
  {
    hide WalkOf, Disjoint, Decision.Valid;
    forall d | d in b ensures d.Valid() {
      assert d in multiset(b);
    }
    DisjointInAnyOrder(a, b);
    DisjointReachesIff(a, accuracy, n, target);
    DisjointReachesIff(b, accuracy, n, target);
    SumOfPermutation(Worth(n), a, b);
  }

  function Stepped(w: Walk, d: Decision, n: nat, target: real): Walk {
    if Picks(w, d, target) then Picked(w, d, n) else w
  }

  lemma WalkOfTwo(x: Decision, y: Decision, accuracy: real, n: nat, target: real)
    ensures WalkOf([x, y], 2, accuracy, n, target)
      == Stepped(Stepped(Walk(accuracy, 0, {}, 0.0, 0.0), x, n, target), y, n, target)
  {
    hide WalkOf, Picks, Picked;
    Outset([x, y], accuracy, n, target);
    WalkNext([x, y], 0, accuracy, n, target);
    WalkNext([x, y], 1, accuracy, n, target);
  }

  lemma StepOf(w: Walk, d: Decision, n: nat, target: real, unclaimed: seq<QuestionId>, gain: real)
    requires d.affected != [] && d.leverage > 0.0 && w.projected < target
    requires Fresh(d.affected, w.covered) == unclaimed && gain == Credit(d.leverage, |unclaimed|, n)
    ensures unclaimed == [] ==> Stepped(w, d, n, target) == w
    ensures unclaimed != [] ==>
      var next := Stepped(w, d, n, target);
      next.projected == MinReal(1.0, w.projected + gain) && next.covered == w.covered + AsSet(d.affected)
  {
    hide Fresh, AsSet, Credit;
  }

  lemma ThirdsSuffice()
    ensures Credit(0.1, 3, 3) == 0.1 && Credit(0.09, 1, 3) == 0.09 && Credit(0.1, 2, 3) == 0.1
  {}

  function Broad(a: QuestionId, b: QuestionId, c: QuestionId): Decision {
    Decision(0, 0.5, 0.1, [a, b, c], false)
  }

  function Narrow(a: QuestionId): Decision {
    Decision(1, 0.5, 0.09, [a], false)
  }

  lemma BroadFirst(a: QuestionId, b: QuestionId, c: QuestionId)
    requires a != b && b != c && a != c
    ensures WalkOf([Broad(a, b, c), Narrow(a)], 2, 0.0, 3, 0.15).projected == 0.1
  {
    SharedFresh(a, b, c);
    ThirdsSuffice();
    hide WalkOf, Fresh, AsSet, Stepped, Credit;
    var outset := Walk(0.0, 0, {}, 0.0, 0.0);
    WalkOfTwo(Broad(a, b, c), Narrow(a), 0.0, 3, 0.15);
    StepOf(outset, Broad(a, b, c), 3, 0.15, [a, b, c], 0.1);
    StepOf(Stepped(outset, Broad(a, b, c), 3, 0.15), Narrow(a), 3, 0.15, [], Credit(0.09, 0, 3));
  }

  lemma NarrowFirst(a: QuestionId, b: QuestionId, c: QuestionId)
    requires a != b && b != c && a != c
    ensures WalkOf([Narrow(a), Broad(a, b, c)], 2, 0.0, 3, 0.15).projected == 0.19
  {
    SharedFresh(a, b, c);
    ThirdsSuffice();
    hide WalkOf, Fresh, AsSet, Stepped, Credit;
    var outset := Walk(0.0, 0, {}, 0.0, 0.0);
    WalkOfTwo(Narrow(a), Broad(a, b, c), 0.0, 3, 0.15);
    StepOf(outset, Narrow(a), 3, 0.15, [a], 0.09);
    StepOf(Stepped(outset, Narrow(a), 3, 0.15), Broad(a, b, c), 3, 0.15, [b, c], 0.1);
  }

  /** With a shared question it can: the broader decision first, as the queue has it, leaves the other
    * nothing to add and the target of 0.15 out of reach; the other order reaches it. */
  lemma OrderMatters(a: QuestionId, b: QuestionId, c: QuestionId)
    requires a != b && b != c && a != c
    ensures var queue := [Broad(a, b, c), Narrow(a)];
      && Descending(queue) && RepeatFree(queue)
      && WalkOf(queue, 2, 0.0, 3, 0.15).projected < 0.15 <= WalkOf([queue[1], queue[0]], 2, 0.0, 3, 0.15).projected
  {
    hide WalkOf;
    BroadFirst(a, b, c);
    NarrowFirst(a, b, c);
  }

  lemma SharedFresh(a: QuestionId, b: QuestionId, c: QuestionId)
    requires a != b && b != c && a != c
    ensures Fresh([a, b, c], {}) == [a, b, c] && Fresh([a], {}) == [a]
    ensures {} + AsSet([a, b, c]) == {a, b, c} && {} + AsSet([a]) == {a}
    ensures Fresh([a], {a, b, c}) == [] && Fresh([a, b, c], {a}) == [b, c]
  {
    FreshOfUnclaimed([a, b, c], {});
    FreshOfUnclaimed([a], {});
    assert [a][1..] == [] && [a, b, c][1..] == [b, c];
    assert b !in [a] && c !in [a];
    FreshOfUnclaimed([b, c], {a});
  }

  /** The greedy walk. When no decision names questions it is optimal: the target is reachable
    * exactly when all the queued leverage reaches it, and no smaller selection does. In general,
    * the picks that name questions are together never credited more than the questions they cover. */
  method ReadinessOf(queue: seq<Decision>, nCorrect: nat, n: nat, target: real) returns (r: Readiness)
    requires forall d | d in queue :: d.Valid()
    ensures n == 0 ==> r.accuracy == 0.0
    ensures n > 0 ==> r.accuracy * n as real == nCorrect as real
    ensures r.reachable <==> r.projected >= target
    ensures r.accuracy >= target ==> r.decisionsToTarget == 0 && r.projected == r.accuracy
    ensures target <= 1.0 && Descending(queue) && Unshared(queue) ==>
      (r.reachable <==> r.accuracy + Prefix(queue, |queue|) >= target)
    ensures target <= 1.0 && Descending(queue) && Unshared(queue) && r.reachable ==>
      r.decisionsToTarget <= |queue| && r.accuracy + Prefix(queue, r.decisionsToTarget) >= target
    ensures target <= 1.0 && Descending(queue) && Unshared(queue) ==>
      forall chosen | |chosen| == |queue| && r.accuracy + Gain(queue, chosen, |queue|) >= target ::
        r.decisionsToTarget <= Size(chosen, |queue|)
    ensures var w := WalkOf(queue, |queue|, r.accuracy, n, target);
      && r.projected == w.projected && r.decisionsToTarget == w.count
      && r.projected <= r.accuracy + w.unlisted + w.credited
      && w.unlisted <= Sum((d: Decision) => if d.affected == [] then d.leverage else 0.0, queue)
      && w.covered <= Claimed(queue, |queue|)
      && (RepeatFree(queue) ==> w.credited <= Share(|w.covered|, n))
  {
    hide TookFront, WalkOf, Picks, Prefix, Gain, Size, Unlisted, Claimed, Share, Descending, Accuracy, Credit, MinReal;
    hide Unshared, RepeatFree, Decision.Valid, AsSet;
    var accuracy := Accuracy(nCorrect, n);
    AccuracyIsShare(nCorrect, n);
    UnlistedIsSum(queue, |queue|);
    assert queue[..|queue|] == queue;
    ProjectionHolds(queue, accuracy, n, target);
    Outset(queue, accuracy, n, target);
    if accuracy >= target {
      AlreadyThere(queue, accuracy, target);
      WalkStops(queue, 0, |queue|, accuracy, n, target);
      return Readiness(accuracy, 0, accuracy, true);
    }
    NothingTaken(queue, accuracy, target);
    var projected, count := accuracy, 0;
    var covered: set<QuestionId> := {};
    var i := 0;
    while i < |queue|
      invariant i <= |queue|
      invariant Unshared(queue) && Descending(queue) && target <= 1.0 ==>
        TookFront(queue, i, count, accuracy, projected, target)
      invariant Agrees(WalkOf(queue, i, accuracy, n, target), projected, count, covered)
    {
      var d := queue[i];
      if projected >= target {
        break;
      }
      UnsharedAt(queue, i);
      if Unshared(queue) && Descending(queue) && target <= 1.0 {
        TakeFront(queue, i, count, accuracy, projected, target);
      }
      WalkNext(queue, i, accuracy, n, target);
      PicksIff(WalkOf(queue, i, accuracy, n, target), d, target);
      i := i + 1;
      if d.leverage <= 0.0 {
        continue;
      }
      var gain := d.leverage;
      if d.affected != [] {
        var unclaimed := Fresh(d.affected, covered);
        if unclaimed == [] {
          continue;
        }
        gain := Credit(d.leverage, |unclaimed|, n);
        covered := covered + AsSet(d.affected);
      }
      projected := MinReal(1.0, projected + gain);
      count := count + 1;
    }
    if Unshared(queue) && Descending(queue) && target <= 1.0 {
      FrontIsOptimal(queue, i, count, accuracy, projected, target);
    }
    if projected >= target {
      WalkStops(queue, i, |queue|, accuracy, n, target);
    }
    return Readiness(accuracy, count, projected, projected >= target);
  }

  predicate Agrees(w: Walk, projected: real, count: nat, covered: set<QuestionId>) {
    w.projected == projected && w.count == count && w.covered == covered
  }

  lemma Outset(queue: seq<Decision>, accuracy: real, n: nat, target: real)
    ensures WalkOf(queue, 0, accuracy, n, target) == Walk(accuracy, 0, {}, 0.0, 0.0)
  {}

  lemma PicksIff(w: Walk, d: Decision, target: real)
    ensures w.projected < target ==>
      (Picks(w, d, target) <==> d.leverage > 0.0 && (d.affected == [] || Fresh(d.affected, w.covered) != []))
  {}

  lemma ProjectionHolds(queue: seq<Decision>, accuracy: real, n: nat, target: real)
    requires forall d | d in queue :: d.Valid()
    ensures var w := WalkOf(queue, |queue|, accuracy, n, target);
      && w.projected <= accuracy + w.unlisted + w.credited
      && w.unlisted <= Unlisted(queue, |queue|) && w.covered <= Claimed(queue, |queue|)
      && (RepeatFree(queue) ==> w.credited <= Share(|w.covered|, n))
  {
    ProjectionIsCredit(queue, |queue|, accuracy, n, target);
    hide WalkOf, RepeatFree, Unlisted, Claimed, Share;
    if RepeatFree(queue) {
      CreditIsCovered(queue, |queue|, accuracy, n, target);
    }
  }
}

/** Scored runs, and the keep-or-revert decision over repeated trials of a candidate edit. */
module Trials {
  import opened Arith
  import opened Permutations
  import opened Questions
  import opened Sums
  import opened Sorting
  import opened SignTest

  datatype QuestionResult = QuestionResult(id: QuestionId, verdict: Verdict, cost: real)

  datatype ScoredRun = ScoredRun(results: seq<QuestionResult>) {
    function Total(): nat {
      |results|
    }

    function NCorrect(): nat {
      CountCorrect(results)
    }

    function CorrectIds(): set<QuestionId> {
      set r | r in results && r.verdict == Correct :: r.id
    }

    function Accuracy(): real {
      if Total() == 0 then 0.0 else NCorrect() as real / Total() as real
    }

    function TotalCost(): real {
      Sum(CostOfResult, results)
    }

    /** An evaluation of the questions `ids`, once each, in that order. */
    predicate Answers(ids: seq<QuestionId>) {
      && |results| == |ids|
      && (forall i | 0 <= i < |ids| :: results[i].id == ids[i] && results[i].cost >= 0.0)
      && forall i, j | 0 <= i < j < |ids| :: ids[i] != ids[j]
    }
  }

  function CostOfResult(r: QuestionResult): real {
    r.cost
  }

  function CountCorrect(rs: seq<QuestionResult>): nat {
    if rs == [] then 0 else CountCorrect(rs[..|rs| - 1]) + if rs[|rs| - 1].verdict == Correct then 1 else 0
  }

  /** With unique ids the count of correct rows is the size of the set of correct ids. */
  lemma {:induction false} CorrectIdsCount(rs: seq<QuestionResult>)
    requires forall i, j | 0 <= i < j < |rs| :: rs[i].id != rs[j].id
    ensures |ScoredRun(rs).CorrectIds()| == CountCorrect(rs)
  {
    if rs != [] {
      var init, last := rs[..|rs| - 1], rs[|rs| - 1];
      CorrectIdsCount(init);
      CorrectIdsOfLast(rs);
    }
  }

  lemma CorrectIdsOfLast(rs: seq<QuestionResult>)
    requires rs != [] && forall i, j | 0 <= i < j < |rs| :: rs[i].id != rs[j].id
    ensures var before, last := ScoredRun(rs[..|rs| - 1]).CorrectIds(), rs[|rs| - 1];
      last.id !in before
      && ScoredRun(rs).CorrectIds() == before + if last.verdict == Correct then {last.id} else {}
  {
    var init, last := rs[..|rs| - 1], rs[|rs| - 1];
    assert forall r :: r in rs <==> r in init || r == last by {
      assert rs == init + [last];
    }
    forall r | r in init ensures r.id != last.id {
      var i :| 0 <= i < |init| && init[i] == r;
    }
  }

  // ---------------------------------------------------------------- paired deltas

  datatype Delta = Delta(fixed: nat, broke: nat) {
    function Net(): int {
      fixed - broke
    }
  }

  /** How many questions the change flipped to right, and how many to wrong. */
  function PairedDelta(before: ScoredRun, after: ScoredRun): Delta {
    var b, a := before.CorrectIds(), after.CorrectIds();
    Delta(|a - b|, |b - a|)
  }

  lemma SetDifferences<T>(a: set<T>, b: set<T>)
    ensures |a - b| - |b - a| == |a| - |b|
  {
    assert a == (a - b) + (a * b) && b == (b - a) + (a * b);
  }

  lemma NetIsDifference(before: ScoredRun, after: ScoredRun, ids: seq<QuestionId>)
    requires before.Answers(ids) && after.Answers(ids)
    ensures PairedDelta(before, after).Net() == after.NCorrect() - before.NCorrect()
  {
    var b, a := before.CorrectIds(), after.CorrectIds();
    CorrectIdsCount(before.results);
    CorrectIdsCount(after.results);
    SetDifferences(a, b);
  }

  lemma {:induction false} PlacesAreIds(ids: seq<QuestionId>, places: set<nat>)
    requires Distinct(ids) && forall i | i in places :: i < |ids|
    ensures |set i | i in places :: ids[i]| == |places|
  {
    if i :| i in places {
      var rest := places - {i};
      PlacesAreIds(ids, rest);
      assert (set j | j in places :: ids[j]) == (set j | j in rest :: ids[j]) + {ids[i]};
    }
  }

  lemma CorrectAt(run: ScoredRun, ids: seq<QuestionId>, id: QuestionId)
    requires run.Answers(ids)
    ensures id in run.CorrectIds() <==> exists i :: 0 <= i < |ids| && ids[i] == id && run.results[i].verdict == Correct
  {
    if id in run.CorrectIds() {
      var r :| r in run.results && r.verdict == Correct && r.id == id;
      var i :| 0 <= i < |ids| && run.results[i] == r;
      assert ids[i] == id;
    }
  }

  /** Any distinct questions, and any verdicts on them, make such an evaluation. */
  lemma AnyVerdictsAnswer(ids: seq<QuestionId>, verdicts: seq<Verdict>)
    requires Distinct(ids) && |verdicts| == |ids|
    ensures ScoredRun(seq(|ids|, i requires 0 <= i < |ids| => QuestionResult(ids[i], verdicts[i], 0.0))).Answers(ids)
  {}

  /** Row by row: a question is fixed when it was wrong before and is right after, and broken the
    * other way round. */
  lemma DeltaCountsFlips(before: ScoredRun, after: ScoredRun, ids: seq<QuestionId>)
    requires before.Answers(ids) && after.Answers(ids)
    ensures PairedDelta(before, after).fixed
      == |set i | 0 <= i < |ids| && before.results[i].verdict != Correct && after.results[i].verdict == Correct|
    ensures PairedDelta(before, after).broke
      == |set i | 0 <= i < |ids| && before.results[i].verdict == Correct && after.results[i].verdict != Correct|
  {
    FixedCount(before, after, ids);
    FixedCount(after, before, ids);
    var broke := set i | 0 <= i < |ids| && before.results[i].verdict == Correct && after.results[i].verdict != Correct;
    assert broke == Fixed(after, before);
    assert Fixed(before, after)
        == set i | 0 <= i < |ids| && before.results[i].verdict != Correct && after.results[i].verdict == Correct;
  }

  /** The places of the questions that went from wrong to right. */
  function Fixed(before: ScoredRun, after: ScoredRun): set<nat> {
    set i | 0 <= i < |before.results| && i < |after.results|
            && before.results[i].verdict != Correct && after.results[i].verdict == Correct
  }

  lemma FixedCount(before: ScoredRun, after: ScoredRun, ids: seq<QuestionId>)
    requires before.Answers(ids) && after.Answers(ids)
    ensures |after.CorrectIds() - before.CorrectIds()| == |Fixed(before, after)|
  {
    hide ScoredRun.CorrectIds;
    var places := Fixed(before, after);
    PlacesAreIds(ids, places);
    forall id ensures id in after.CorrectIds() - before.CorrectIds() <==> id in set i | i in places :: ids[i] {
      CorrectAt(before, ids, id);
      CorrectAt(after, ids, id);
    }
    assert after.CorrectIds() - before.CorrectIds() == set i | i in places :: ids[i];
  }

  /** More fixed than broken, and less than one chance in twenty of that being luck. */
  predicate IsSignificant(before: ScoredRun, after: ScoredRun) {
    var d := PairedDelta(before, after);
    Significant(d.fixed, d.broke, ALPHA)
  }

  lemma SignificantIff(before: ScoredRun, after: ScoredRun, ids: seq<QuestionId>)
    requires before.Answers(ids) && after.Answers(ids)
    ensures var fixed, broke := |Fixed(before, after)|, |Fixed(after, before)|;
      IsSignificant(before, after) <==> fixed > broke && SignTestP(fixed, broke) < 0.05
  {
    FixedCount(before, after, ids);
    FixedCount(after, before, ids);
  }

  /** The count is the number of rows answered right, and the accuracy its share of all rows. */
  lemma {:induction false} CorrectRowsCount(rs: seq<QuestionResult>)
    ensures CountCorrect(rs) == |set i | 0 <= i < |rs| && rs[i].verdict == Correct|
  {
    if rs != [] {
      var last := |rs| - 1;
      var before := set i | 0 <= i < last && rs[..last][i].verdict == Correct;
      CorrectRowsCount(rs[..last]);
      AddLast(rs, before, set i | 0 <= i < |rs| && rs[i].verdict == Correct);
    }
  }

  lemma AddLast(rs: seq<QuestionResult>, before: set<int>, whole: set<int>)
    requires rs != []
    requires forall i :: i in before <==> 0 <= i < |rs| - 1 && rs[..|rs| - 1][i].verdict == Correct
    requires forall i :: i in whole <==> 0 <= i < |rs| && rs[i].verdict == Correct
    ensures |whole| == |before| + if rs[|rs| - 1].verdict == Correct then 1 else 0
  {
    var last := |rs| - 1;
    assert forall i | 0 <= i < last :: rs[..last][i] == rs[i];
    assert whole == before + if rs[last].verdict == Correct then {last} else {};
  }

  /** A target is met exactly when the right rows are that share of all rows; by no rows, only when it
    * is not positive. */
  lemma MeetsTargetIff(run: ScoredRun, target: real)
    ensures var right := |set i | 0 <= i < |run.results| && run.results[i].verdict == Correct|;
      run.Accuracy() >= target
      <==> if run.results == [] then target <= 0.0 else right as real >= |run.results| as real * target
  {
    CorrectRowsCount(run.results);
    if run.results != [] {
      Quotient(run.NCorrect() as real, run.Total() as real, target);
    }
  }

  /** Every row's cost is in the total, once. */
  lemma TotalCostGrows(a: seq<QuestionResult>, r: QuestionResult, b: seq<QuestionResult>)
    ensures ScoredRun(a + [r] + b).TotalCost() == ScoredRun(a + b).TotalCost() + r.cost && ScoredRun([]).TotalCost() == 0.0
  {
    SumConcat(CostOfResult, a + [r], b);
    SumAppend(CostOfResult, a, r);
    SumConcat(CostOfResult, a, b);
  }

  // ---------------------------------------------------------------- the decision

  function GainAt(gains: seq<int>, i: nat): int {
    if i < |gains| then gains[i] else 0
  }

  function ByGain(gains: seq<int>): (nat, nat) -> bool {
    (i: nat, j: nat) => GainAt(gains, i) <= GainAt(gains, j)
  }

  function Indices(n: nat): (r: seq<nat>)
    ensures |r| == n && forall i | 0 <= i < n :: r[i] == i
  {
    seq(n, i => i)
  }

  /** `sorted(range(len(gains)), key=gains)`, and the element in its middle. */
  function Median(gains: seq<int>): (mid: nat)
    requires gains != []
    ensures mid < |gains|
  {
    var order := Sort(Indices(|gains|), ByGain(gains));
    SortIsPermutation(Indices(|gains|), ByGain(gains));
    assert order[|order| / 2] in multiset(Indices(|gains|));
    order[|order| / 2]
  }

  /** Trials at or above the bar. */
  function Votes(gains: seq<int>, minGain: int): nat {
    if gains == [] then 0 else Votes(gains[1..], minGain) + if gains[0] >= minGain then 1 else 0
  }

  datatype Decision = Decision(keep: bool, representative: ScoredRun, netGain: int, significant: bool)

  function Gains(best: ScoredRun, trials: seq<ScoredRun>): (g: seq<int>)
    ensures |g| == |trials|
  {
    seq(|trials|, i requires 0 <= i < |trials| => PairedDelta(best, trials[i]).Net())
  }

  /** Keep on a strict majority of trials at `minGain` or better; record the median trial. */
  function JudgeTrials(best: ScoredRun, trials: seq<ScoredRun>, minGain: int, requireSignificant: bool): Decision
    requires trials != []
  {
    var gains := Gains(best, trials);
    var mid := Median(gains);
    var d := PairedDelta(best, trials[mid]);
    var significant := Significant(d.fixed, d.broke, ALPHA);
    var majority := Votes(gains, minGain) * 2 > |trials|;
    Decision(if requireSignificant then majority && significant else majority, trials[mid], gains[mid], significant)
  }

  /** Over one question set, the trials that gain enough are those with so many more right rows. */
  lemma GainsAreRows(best: ScoredRun, trials: seq<ScoredRun>, minGain: int, ids: seq<QuestionId>)
    requires best.Answers(ids) && forall k | 0 <= k < |trials| :: trials[k].Answers(ids)
    ensures (set k | 0 <= k < |Gains(best, trials)| && Gains(best, trials)[k] >= minGain)
      == set k | 0 <= k < |trials| && trials[k].NCorrect() - best.NCorrect() >= minGain
  {
    hide ScoredRun.Answers, ScoredRun.NCorrect;
    forall k | 0 <= k < |trials| ensures Gains(best, trials)[k] == trials[k].NCorrect() - best.NCorrect() {
      NetIsDifference(best, trials[k], ids);
    }
  }

  // ---------------------------------------------------------------- majority and median

  lemma {:induction false} VotesWithout(gains: seq<int>, minGain: int, i: nat)
    requires i < |gains|
    ensures Votes(gains, minGain)
      == Votes(gains[..i] + gains[i + 1..], minGain) + if gains[i] >= minGain then 1 else 0
  {
    if i == 0 {
      assert gains[..0] + gains[1..] == gains[1..];
    } else {
      var rest := gains[..i] + gains[i + 1..];
      assert rest[1..] == gains[1..][..i - 1] + gains[1..][i..];
      VotesWithout(gains[1..], minGain, i - 1);
    }
  }

  /** The number of votes does not depend on the order of the trials. */
  lemma {:induction false} VotesOfPermutation(a: seq<int>, b: seq<int>, minGain: int)
    requires multiset(a) == multiset(b)
    ensures Votes(a, minGain) == Votes(b, minGain)
    decreases |a|
  {
    assert |a| == |multiset(a)| == |b|;
    if a != [] {
      assert a[0] in multiset(b);
      var j :| 0 <= j < |b| && b[j] == a[0];
      var rest := b[..j] + b[j + 1..];
      assert b == b[..j] + [b[j]] + b[j + 1..];
      TailOf(a);
      assert multiset(rest) == multiset(b) - multiset{a[0]};
      VotesOfPermutation(a[1..], rest, minGain);
      VotesWithout(b, minGain, j);
    }
  }

  /** The votes are the trials at or above the bar, each counted once. */
  lemma {:induction false} VotesAreTrials(gains: seq<int>, minGain: int)
    ensures Votes(gains, minGain) == |set k | 0 <= k < |gains| && gains[k] >= minGain|
  {
    var all := set k | 0 <= k < |gains| && gains[k] >= minGain;
    if gains != [] {
      var last := |gains| - 1;
      var before := set k | 0 <= k < last && gains[..last][k] >= minGain;
      VotesAreTrials(gains[..last], minGain);
      VotesWithout(gains, minGain, last);
      assert gains[..last] + gains[|gains|..] == gains[..last];
      assert all == before + if gains[last] >= minGain then {last} else {};
    }
  }

  predicate Ascending(s: seq<int>) {
    forall i, j | 0 <= i < j < |s| :: s[i] <= s[j]
  }

  /** In ascending order, the votes are exactly the elements from some position on. */
  lemma {:induction false} VotesOfAscending(s: seq<int>, minGain: int, k: nat)
    requires Ascending(s) && k < |s|
    ensures s[k] >= minGain <==> Votes(s, minGain) >= |s| - k
  {
    VotesAtMost(s[1..], minGain);
    if s[0] >= minGain {
      AllVote(s, minGain);
    } else if k > 0 {
      assert Ascending(s[1..]);
      VotesOfAscending(s[1..], minGain, k - 1);
    }
  }

  lemma {:induction false} VotesAtMost(s: seq<int>, minGain: int)
    ensures Votes(s, minGain) <= |s|
  {
    if s != [] {
      VotesAtMost(s[1..], minGain);
    }
  }

  lemma {:induction false} AllVote(s: seq<int>, minGain: int)
    requires forall i | 0 <= i < |s| :: s[i] >= minGain
    ensures Votes(s, minGain) == |s|
  {
    if s != [] {
      AllVote(s[1..], minGain);
    }
  }

  /** The gains, sorted, have the median's gain in the middle. */
  lemma SortedGains(gains: seq<int>) returns (s: seq<int>)
    requires gains != []
    ensures Ascending(s) && multiset(s) == multiset(gains) && |s| == |gains|
    ensures s[|s| / 2] == gains[Median(gains)]
  {
    var le, idx := ByGain(gains), Indices(|gains|);
    var order := Sort(idx, le);
    SortIsPermutation(idx, le);
    SortSorts(idx, le);
    s := Map(i => GainAt(gains, i), order);
    MapKeepsPermutation(i => GainAt(gains, i), order, idx);
    assert Map(i => GainAt(gains, i), idx) == gains;
    forall i, j | 0 <= i < j < |s| ensures s[i] <= s[j] {
      assert le(order[i], order[j]);
    }
  }

  /** The median clears the bar exactly when at least half the trials, rounding up, do. */
  lemma MedianClearsIff(gains: seq<int>, minGain: int)
    requires gains != []
    ensures gains[Median(gains)] >= minGain <==> Votes(gains, minGain) * 2 >= |gains|
  {
    var s := SortedGains(gains);
    VotesOfPermutation(s, gains, minGain);
    VotesOfAscending(s, minGain, |s| / 2);
  }

  /** The decision: a strict majority of the trials gains enough and, where that is asked for, the median
    * is significant: more questions fixed than broken, and less than one chance in twenty of that by luck. */
  lemma JudgeIff(best: ScoredRun, trials: seq<ScoredRun>, minGain: int, requireSignificant: bool)
    requires trials != []
    ensures var d, gains, was := JudgeTrials(best, trials, minGain, requireSignificant), Gains(best, trials), best.CorrectIds();
      var median := trials[Median(gains)];
      var fixed, broke := |median.CorrectIds() - was|, |was - median.CorrectIds()|;
      && d.representative == median && d.netGain == gains[Median(gains)] == fixed - broke
      && (d.significant <==> fixed > broke && SignTestP(fixed, broke) < 0.05)
      && (d.keep <==>
            |set k | 0 <= k < |gains| && gains[k] >= minGain| * 2 > |trials| && (requireSignificant ==> d.significant))
  {
    hide Median, SignTestP, ScoredRun.CorrectIds, Votes;
    VotesAreTrials(Gains(best, trials), minGain);
  }
}

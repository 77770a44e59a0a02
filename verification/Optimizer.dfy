/** The autonomous optimizer: coach, apply, evaluate over repeated trials, keep or roll back. */
module Optimizer {
  import opened Wrappers
  import opened Questions
  import opened Sums
  import opened Text
  import opened SignTest
  import opened Trials
  import opened ProjectFiles

  // ---------------------------------------------------------------- the environment

  datatype CoachReply = Report(proposals: seq<Proposal>, cost: real) | CoachRaises

  datatype EvalReply = Scored(run: ScoredRun) | EvalRaises

  /** Everything the loop calls out to, as arbitrary replies: the coach by round, the dev
    * evaluations in order (0 is the baseline), and whether saving the n-th kept run works. */
  datatype Environment = Environment(
    coach: nat -> CoachReply, eval: nat -> EvalReply, saves: nat -> bool, heldOut: Option<EvalReply>)
  {
    /** Every evaluation answers the same questions, each once. */
    ghost predicate FixedQuestions(ids: seq<QuestionId>) {
      forall n :: eval(n).Scored? ==> eval(n).run.Answers(ids)
    }

    /** Coach calls and trials cost no more than they were estimated at. */
    ghost predicate WithinEstimates(c: Config) {
      && c.coachEstimate >= 0.0 && c.evalEstimate >= 0.0
      && (forall n :: coach(n).Report? ==> 0.0 <= coach(n).cost <= c.coachEstimate)
      && (forall n: nat :: n > 0 && eval(n).Scored? ==> 0.0 <= eval(n).run.TotalCost() <= c.evalEstimate)
    }
  }

  datatype Config = Config(
    target: real, budget: Option<real>, minGain: int, maxRounds: int, trials: nat,
    requireSignificant: bool, scoreTest: bool, coachEstimate: real, evalEstimate: real)
  {
    predicate WouldExceed(spent: real, next: real) {
      budget.Some? && spent + next > budget.value
    }
  }

  datatype StopReason = TargetMet | BudgetExhausted | Converged | NoProposals | MaxRounds

  /** One version: the baseline, or an accepted edit with its net gain over the one before. */
  datatype FrontierPoint = FrontierPoint(run: ScoredRun, netGain: int, significant: bool, edit: Option<Proposal>)

  datatype OptimizeResult = OptimizeResult(
    frontier: seq<FrontierPoint>, picked: nat, stopped: StopReason, rounds: nat, spent: real,
    pickedSignificant: bool, tried: nat, kept: nat, reverted: nat, testAccuracy: Option<real>)

  datatype Attempt = NotApplied | Kept | Reverted | Crashed

  // ---------------------------------------------------------------- the file map

  /** The files as text. */
  function View(files: Files): Files {
    map p | p in files :: Universal(files[p])
  }

  lemma ViewIsFilesIff(files: Files)
    ensures View(files) == files <==> forall p | p in files :: '\r' !in files[p]
  {
    forall p | p in files ensures Universal(files[p]) == files[p] <==> '\r' !in files[p] {
      UniversalIsIdentityIff(files[p]);
    }
    if View(files) == files {
      forall p | p in files ensures '\r' !in files[p] {
        assert View(files)[p] == files[p];
      }
    }
  }

  lemma ViewReadsAlike(files: Files, p: Path)
    ensures ReadText(View(files), p) == ReadText(files, p)
  {
    if p in files {
      UniversalIsIdentityIff(files[p]);
      UniversalIsIdentityIff(Universal(files[p]));
    }
  }

  /** The proposals applied in order to the text of the project, all of which must succeed. */
  function Replay(j: Judge, view: Files, kept: seq<Proposal>): Result<Files, ApplyError>
    decreases |kept|
  {
    if kept == [] then Ok(view) else
      var before := Replay(j, view, kept[..|kept| - 1]);
      if before.Err? then before else
        var p := kept[|kept| - 1];
        var text := NewText(j, before.value, p, false);
        if text.Err? then Err(text.error) else Ok(before.value[p.target := Universal(text.value)])
  }

  function Edits(frontier: seq<FrontierPoint>): seq<Proposal> {
    if frontier == [] then [] else
      Edits(frontier[..|frontier| - 1])
      + if frontier[|frontier| - 1].edit.Some? then [frontier[|frontier| - 1].edit.value] else []
  }

  // ---------------------------------------------------------------- the frontier

  /** Each accepted version gained what it records, and at least `minGain`. */
  ghost predicate Climbs(frontier: seq<FrontierPoint>, minGain: int) {
    forall i | 0 < i < |frontier| ::
      frontier[i].run.NCorrect() == frontier[i - 1].run.NCorrect() + frontier[i].netGain
      && frontier[i].netGain >= minGain
  }

  /** More rows went right than wrong, and with less than one chance in twenty by luck. */
  predicate Beats(after: ScoredRun, before: ScoredRun) {
    var fixed, broke := |Fixed(before, after)|, |Fixed(after, before)|;
    fixed > broke && SignTestP(fixed, broke) < 0.05
  }

  /** A version is marked significant exactly when it beats the one before. */
  ghost predicate Marked(frontier: seq<FrontierPoint>) {
    forall i | 0 < i < |frontier| :: frontier[i].significant <==> Beats(frontier[i].run, frontier[i - 1].run)
  }

  /** The net gains telescope: the final count is the baseline's plus all of them, so at least
    * `minGain` per kept edit. */
  lemma {:induction false} GainsTelescope(frontier: seq<FrontierPoint>, minGain: int)
    requires frontier != [] && Climbs(frontier, minGain)
    ensures var last := frontier[|frontier| - 1].run.NCorrect();
      last == frontier[0].run.NCorrect() + TotalGain(frontier)
      && last >= frontier[0].run.NCorrect() + (|frontier| - 1) * minGain
  {
    if |frontier| > 1 {
      var init := frontier[..|frontier| - 1];
      GainsTelescope(init, minGain);
      assert (|init| - 1) * minGain + minGain == (|frontier| - 1) * minGain;
    }
  }

  function TotalGain(frontier: seq<FrontierPoint>): int {
    if |frontier| <= 1 then 0 else TotalGain(frontier[..|frontier| - 1]) + frontier[|frontier| - 1].netGain
  }

  lemma {:induction false} CorrectAtMostTotal(rs: seq<QuestionResult>)
    ensures CountCorrect(rs) <= |rs|
  {
    if rs != [] {
      CorrectAtMostTotal(rs[..|rs| - 1]);
    }
  }

  /** A kept decision's median trial clears the bar, and its gain is a difference of counts. */
  lemma KeptGainIsReal(best: ScoredRun, trials: seq<ScoredRun>, minGain: int, req: bool, ids: seq<QuestionId>)
    requires trials != [] && best.Answers(ids) && forall t | t in trials :: t.Answers(ids)
    requires JudgeTrials(best, trials, minGain, req).keep
    ensures var d := JudgeTrials(best, trials, minGain, req);
      d.netGain >= minGain && d.representative.Answers(ids)
      && d.representative.NCorrect() == best.NCorrect() + d.netGain
      && (d.significant <==> Beats(d.representative, best))
  {
    hide ScoredRun.Answers, ScoredRun.NCorrect, ScoredRun.CorrectIds, Fixed, SignTestP, Median, Votes;
    var gains := Gains(best, trials);
    MedianClearsIff(gains, minGain);
    var mid := Median(gains);
    assert trials[mid] in trials;
    NetIsDifference(best, trials[mid], ids);
    SignificantIff(best, trials[mid], ids);
  }

  lemma SignificantById(before: ScoredRun, after: ScoredRun)
    ensures var a, b := after.CorrectIds(), before.CorrectIds();
      IsSignificant(before, after) <==> |a - b| > |b - a| && SignTestP(|a - b|, |b - a|) < 0.05
  {
    hide ScoredRun.CorrectIds, SignTestP;
  }

  lemma BeatsIff(before: ScoredRun, after: ScoredRun, ids: seq<QuestionId>)
    requires before.Answers(ids) && after.Answers(ids)
    ensures IsSignificant(before, after) <==> Beats(after, before)
  {
    hide Fixed, IsSignificant, SignTestP;
    SignificantIff(before, after, ids);
  }

  /** Kept edits are paid for with questions still wrong at the baseline. */
  lemma GainsAreBounded(frontier: seq<FrontierPoint>, minGain: int, ids: seq<QuestionId>)
    requires frontier != [] && Climbs(frontier, minGain) && frontier[|frontier| - 1].run.Answers(ids)
    ensures var first, last := frontier[0].run.NCorrect(), frontier[|frontier| - 1].run.NCorrect();
      last == first + TotalGain(frontier) && (|frontier| - 1) * minGain <= |ids| - first
  {
    GainsTelescope(frontier, minGain);
    CorrectAtMostTotal(frontier[|frontier| - 1].run.results);
  }

  // ---------------------------------------------------------------- the trace of a run

  /** Where the loop stands: the files' bytes, the version to beat, and how many evaluations were
    * made and edits kept so far. */
  datatype Point = Point(files: Files, best: ScoredRun, evals: nat, kept: nat)

  /** One proposal, the `place`-th of its round, and where it was met. */
  datatype Try = Try(here: Point, round: nat, place: nat, proposal: Proposal)

  /** The first `n` evaluations from `from` on; `None` when one raises. */
  function TrialsFrom(env: Environment, from: nat, n: nat): Option<seq<ScoredRun>> {
    if n == 0 then Some([]) else
      var before := TrialsFrom(env, from, n - 1);
      if before.None? || env.eval(from + n - 1).EvalRaises? then None
      else Some(before.value + [env.eval(from + n - 1).run])
  }

  lemma {:induction false} TrialsAre(env: Environment, from: nat, n: nat)
    ensures var t := TrialsFrom(env, from, n);
      && (t.Some? <==> forall i | from <= i < from + n :: env.eval(i).Scored?)
      && (t.Some? ==> |t.value| == n && forall k | 0 <= k < n :: env.eval(from + k) == Scored(t.value[k]))
  {
    if n > 0 {
      TrialsAre(env, from, n - 1);
    }
  }

  function EvalCost(env: Environment, n: nat): real {
    if n == 0 then 0.0
    else EvalCost(env, n - 1) + if env.eval(n - 1).Scored? then env.eval(n - 1).run.TotalCost() else 0.0
  }

  function CoachCost(env: Environment, n: nat): real {
    if n == 0 then 0.0
    else CoachCost(env, n - 1) + if env.coach(n - 1).Report? then env.coach(n - 1).cost else 0.0
  }

  /** The spend of a run is everything billed, once: each evaluation that returned, each coach report. */
  lemma {:induction false} SpendIsEverythingBilled(env: Environment, n: nat)
    ensures EvalCost(env, n) == Sum<nat>((k: nat) => if env.eval(k).Scored? then env.eval(k).run.TotalCost() else 0.0, Indices(n))
    ensures CoachCost(env, n) == Sum<nat>((k: nat) => if env.coach(k).Report? then env.coach(k).cost else 0.0, Indices(n))
  {
    hide ScoredRun.TotalCost;
    if n > 0 {
      SpendIsEverythingBilled(env, n - 1);
      assert Indices(n) == Indices(n - 1) + [n - 1];
      SumAppend<nat>((k: nat) => if env.eval(k).Scored? then env.eval(k).run.TotalCost() else 0.0, Indices(n - 1), n - 1);
      SumAppend<nat>((k: nat) => if env.coach(k).Report? then env.coach(k).cost else 0.0, Indices(n - 1), n - 1);
    }
  }

  lemma NextEval(env: Environment, from: nat, n: nat)
    ensures EvalCost(env, from + n + 1)
      == EvalCost(env, from + n) + if env.eval(from + n).Scored? then env.eval(from + n).run.TotalCost() else 0.0
    ensures TrialsFrom(env, from, n + 1)
      == if TrialsFrom(env, from, n).None? || env.eval(from + n).EvalRaises? then None
         else Some(TrialsFrom(env, from, n).value + [env.eval(from + n).run])
  {
    hide ScoredRun.TotalCost;
    assert from + n + 1 - 1 == from + n && n + 1 - 1 == n;
  }

  lemma NoTrials(env: Environment, from: nat)
    ensures TrialsFrom(env, from, 0) == Some([])
  {}

  /** What a run depends on. */
  datatype Lab = Lab(cfg: Config, env: Environment, judge: Judge) {
    predicate Applies(files: Files, p: Proposal) {
      Writable(p.target) && NewText(judge, files, p, false).Ok?
    }

    /** The decision over trials of a candidate, against the version to beat. */
    function Ruling(best: ScoredRun, runs: seq<ScoredRun>): Decision
      requires runs != []
    {
      JudgeTrials(best, runs, cfg.minGain, cfg.requireSignificant)
    }

    function RulingAt(here: Point): Option<Decision> {
      match TrialsFrom(env, here.evals, cfg.trials)
      case None => None
      case Some(runs) => if runs == [] then None else Some(Ruling(here.best, runs))
    }

    /** An applied edit is kept exactly when its trials say so and its run can be saved. */
    function AttemptOn(here: Point, p: Proposal): Attempt {
      if !Applies(here.files, p) then NotApplied else
        match RulingAt(here)
        case None => Crashed
        case Some(d) => if !d.keep then Reverted else if env.saves(here.kept) then Kept else Crashed
    }

    function FilesAfter(here: Point, p: Proposal): Files {
      if !Applies(here.files, p) then here.files else
        var edited := here.files[p.target := NewText(judge, here.files, p, false).value];
        if AttemptOn(here, p).Kept? then edited else Restored(edited, p.target, TextBefore(here.files, p.target))
    }

    function NextPoint(here: Point, p: Proposal): Point {
      match AttemptOn(here, p)
      case NotApplied => here
      case Kept => Point(FilesAfter(here, p), RulingAt(here).value.representative, here.evals + cfg.trials, here.kept + 1)
      case _ => Point(FilesAfter(here, p), here.best, here.evals + cfg.trials, here.kept)
    }

    predicate IsKept(t: Try) {
      AttemptOn(t.here, t.proposal).Kept?
    }

    function Where(start: Point, trail: seq<Try>): Point {
      if trail == [] then start else NextPoint(trail[|trail| - 1].here, trail[|trail| - 1].proposal)
    }

    /** The round and the place in it of the next proposal: a kept edit ends its round. */
    function NextRound(trail: seq<Try>): nat {
      if trail == [] then 0 else trail[|trail| - 1].round + if IsKept(trail[|trail| - 1]) then 1 else 0
    }

    function NextPlace(trail: seq<Try>): nat {
      if trail == [] || IsKept(trail[|trail| - 1]) then 0 else trail[|trail| - 1].place + 1
    }

    predicate HasCrashed(trail: seq<Try>) {
      trail != [] && AttemptOn(trail[|trail| - 1].here, trail[|trail| - 1].proposal).Crashed?
    }

    predicate Proposed(round: nat, place: nat, p: Proposal) {
      env.coach(round).Report? && place < |env.coach(round).proposals| && env.coach(round).proposals[place] == p
    }

    /** What the evaluations up to a point and so many coach calls cost. */
    function SpentAt(here: Point, coached: nat): real {
      EvalCost(env, here.evals) + CoachCost(env, coached)
    }

    /** A round is opened, and its coach call made, only below the target, within the round limit, and
      * when the call fits the budget. */
    predicate Opens(here: Point, round: nat) {
      && here.best.Accuracy() < cfg.target && round < cfg.maxRounds
      && (cfg.budget.Some? ==> SpentAt(here, round) + cfg.coachEstimate <= cfg.budget.value)
    }

    /** A proposal is met only when its whole batch of trials fits the budget. */
    predicate Affords(here: Point, round: nat) {
      cfg.budget.Some? ==> SpentAt(here, round + 1) + cfg.evalEstimate * cfg.trials as real <= cfg.budget.value
    }

    predicate Follows(start: Point, trail: seq<Try>, t: Try) {
      && !HasCrashed(trail) && t.here == Where(start, trail)
      && t.round == NextRound(trail) && t.place == NextPlace(trail)
      && Proposed(t.round, t.place, t.proposal)
      && (t.place == 0 ==> Opens(t.here, t.round)) && Affords(t.here, t.round)
    }

    /** Every proposal in turn meets the point the one before led to, none is left out, and a kept
      * one opens the next round. */
    predicate IsTrace(start: Point, trail: seq<Try>) {
      trail == [] || (IsTrace(start, trail[..|trail| - 1]) && Follows(start, trail[..|trail| - 1], trail[|trail| - 1]))
    }

    function VersionOf(here: Point, p: Proposal): FrontierPoint
      requires AttemptOn(here, p).Kept?
    {
      var d := RulingAt(here).value;
      FrontierPoint(d.representative, d.netGain, d.significant, Some(p))
    }

    /** The baseline and one version for each kept edit. */
    function FrontierOf(start: Point, trail: seq<Try>): seq<FrontierPoint> {
      if trail == [] then [FrontierPoint(start.best, 0, false, None)] else
        var last := trail[|trail| - 1];
        FrontierOf(start, trail[..|trail| - 1]) + if IsKept(last) then [VersionOf(last.here, last.proposal)] else []
    }

    function CountOf(trail: seq<Try>, a: Attempt): nat {
      if trail == [] then 0 else
        var last := trail[|trail| - 1];
        CountOf(trail[..|trail| - 1], a) + if AttemptOn(last.here, last.proposal) == a then 1 else 0
    }

    lemma FilesOfNext(here: Point, p: Proposal)
      ensures NextPoint(here, p).files == FilesAfter(here, p)
    {
      hide RulingAt, Restored, TextBefore, NewText;
    }

    lemma Extend(start: Point, trail: seq<Try>, t: Try)
      requires IsTrace(start, trail) && Follows(start, trail, t)
      ensures IsTrace(start, trail + [t]) && Where(start, trail + [t]) == NextPoint(t.here, t.proposal)
      ensures FrontierOf(start, trail + [t]) == FrontierOf(start, trail) + if IsKept(t) then [VersionOf(t.here, t.proposal)] else []
      ensures forall a :: CountOf(trail + [t], a) == CountOf(trail, a) + if AttemptOn(t.here, t.proposal) == a then 1 else 0
      ensures NextRound(trail + [t]) == t.round + if IsKept(t) then 1 else 0
      ensures NextPlace(trail + [t]) == if IsKept(t) then 0 else t.place + 1
      ensures HasCrashed(trail + [t]) <==> AttemptOn(t.here, t.proposal).Crashed?
    {
      hide AttemptOn, NextPoint, Proposed, Opens, Affords, RulingAt;
      assert (trail + [t])[..|trail|] == trail;
    }
  }

  // ---------------------------------------------------------------- what every trace keeps

  lemma RulingOn(lab: Lab, here: Point, runs: seq<ScoredRun>)
    requires lab.cfg.trials >= 1 && |runs| == lab.cfg.trials
    requires forall k | 0 <= k < lab.cfg.trials :: lab.env.eval(here.evals + k) == Scored(runs[k])
    ensures lab.RulingAt(here) == Some(JudgeTrials(here.best, runs, lab.cfg.minGain, lab.cfg.requireSignificant))
  {
    hide JudgeTrials;
    TrialsAre(lab.env, here.evals, lab.cfg.trials);
    forall i | here.evals <= i < here.evals + lab.cfg.trials ensures lab.env.eval(i).Scored? {
      assert lab.env.eval(here.evals + (i - here.evals)) == Scored(runs[i - here.evals]);
    }
    var seen := TrialsFrom(lab.env, here.evals, lab.cfg.trials).value;
    assert forall k | 0 <= k < |runs| :: Scored(seen[k]) == Scored(runs[k]);
    assert seen == runs;
  }

  /** What becomes of an edit whose trials all return. It is worth keeping exactly when a strict majority
    * of them gains `minGain` and, where that is asked for, the median is significant: more questions
    * fixed than broken, and less than one chance in twenty of that by luck. */
  lemma KeptIff(lab: Lab, here: Point, p: Proposal, runs: seq<ScoredRun>)
    requires lab.cfg.trials >= 1 && |runs| == lab.cfg.trials
    requires forall k | 0 <= k < lab.cfg.trials :: lab.env.eval(here.evals + k) == Scored(runs[k])
    ensures var gains, was := Gains(here.best, runs), here.best.CorrectIds();
      var median := runs[Median(gains)];
      var fixed, broke := |median.CorrectIds() - was|, |was - median.CorrectIds()|;
      var significant := fixed > broke && SignTestP(fixed, broke) < 0.05;
      var worth := |set k | 0 <= k < |gains| && gains[k] >= lab.cfg.minGain| * 2 > lab.cfg.trials
                   && (lab.cfg.requireSignificant ==> significant);
      var applies := Writable(p.target) && NewText(lab.judge, here.files, p, false).Ok?;
      && (lab.AttemptOn(here, p).NotApplied? <==> !applies)
      && (lab.AttemptOn(here, p).Kept? <==> applies && worth && lab.env.saves(here.kept))
      && (lab.AttemptOn(here, p).Reverted? <==> applies && !worth)
      && (lab.AttemptOn(here, p).Kept? ==> lab.VersionOf(here, p) == FrontierPoint(median, fixed - broke, significant, Some(p)))
  {
    hide NewText, Writable, Median, Gains, SignTestP, ScoredRun.CorrectIds, JudgeTrials, TrialsFrom;
    RulingOn(lab, here, runs);
    hide Lab.RulingAt;
    JudgeIff(here.best, runs, lab.cfg.minGain, lab.cfg.requireSignificant);
  }

  /** The same over the rows of evaluations that answer the same questions: gains are differences of
    * right rows, and the median is significant by the rows it flips. */
  lemma KeptOverRows(lab: Lab, here: Point, p: Proposal, runs: seq<ScoredRun>, ids: seq<QuestionId>)
    requires lab.cfg.trials >= 1 && |runs| == lab.cfg.trials
    requires forall k | 0 <= k < lab.cfg.trials :: lab.env.eval(here.evals + k) == Scored(runs[k])
    requires here.best.Answers(ids) && forall k | 0 <= k < lab.cfg.trials :: runs[k].Answers(ids)
    ensures var median := runs[Median(Gains(here.best, runs))];
      var fixed, broke := |Fixed(here.best, median)|, |Fixed(median, here.best)|;
      var significant := fixed > broke && SignTestP(fixed, broke) < 0.05;
      var votes := set k | 0 <= k < lab.cfg.trials && runs[k].NCorrect() - here.best.NCorrect() >= lab.cfg.minGain;
      && (lab.AttemptOn(here, p).Kept? <==>
            && Writable(p.target) && NewText(lab.judge, here.files, p, false).Ok? && lab.env.saves(here.kept)
            && |votes| * 2 > lab.cfg.trials && (lab.cfg.requireSignificant ==> significant))
      && (lab.AttemptOn(here, p).Kept? ==>
            lab.VersionOf(here, p) == FrontierPoint(median, fixed - broke, significant, Some(p)))
  {
    hide NewText, Writable, Median, Gains, SignTestP, ScoredRun.NCorrect, ScoredRun.CorrectIds, ScoredRun.Answers, Lab.AttemptOn;
    hide Lab.VersionOf, Fixed;
    KeptIff(lab, here, p, runs);
    GainsAreRows(here.best, runs, lab.cfg.minGain, ids);
    FixedCount(here.best, runs[Median(Gains(here.best, runs))], ids);
    FixedCount(runs[Median(Gains(here.best, runs))], here.best, ids);
  }

  /** A trial that raises is never kept: the edit crashes and is rolled back. */
  lemma RaisedIsCrashed(lab: Lab, here: Point, p: Proposal, i: nat)
    requires here.evals <= i < here.evals + lab.cfg.trials && lab.env.eval(i).EvalRaises? && lab.Applies(here.files, p)
    ensures lab.AttemptOn(here, p).Crashed? && View(lab.FilesAfter(here, p)) == View(here.files)
  {
    hide View, NewText;
    TrialsAre(lab.env, here.evals, lab.cfg.trials);
    assert !lab.env.eval(i).Scored?;
    RejectedFiles(lab, here, p);
  }

  /** Rounds, kept edits and versions go together. */
  lemma {:induction false} TraceCounts(lab: Lab, start: Point, trail: seq<Try>)
    requires lab.IsTrace(start, trail) && start.kept == 0
    ensures lab.Where(start, trail).kept == lab.NextRound(trail) == lab.CountOf(trail, Kept)
    ensures |lab.FrontierOf(start, trail)| == lab.CountOf(trail, Kept) + 1
  {
    hide Lab.RulingAt, Lab.FilesAfter, Lab.Proposed, Lab.Opens, Lab.Affords, Lab.Applies;
    if trail != [] {
      TraceCounts(lab, start, trail[..|trail| - 1]);
    }
  }

  /** The frontier runs from the baseline to the version to beat. */
  lemma {:induction false} FrontierEnds(lab: Lab, start: Point, trail: seq<Try>)
    requires lab.IsTrace(start, trail)
    ensures var f := lab.FrontierOf(start, trail);
      f != [] && f[0].run == start.best && f[|f| - 1].run == lab.Where(start, trail).best
  {
    hide Lab.RulingAt, Lab.FilesAfter, Lab.Proposed, Lab.Opens, Lab.Affords, Lab.Applies;
    if trail != [] {
      FrontierEnds(lab, start, trail[..|trail| - 1]);
    }
  }

  lemma RejectedFiles(lab: Lab, here: Point, p: Proposal)
    requires !lab.AttemptOn(here, p).Kept?
    ensures View(lab.FilesAfter(here, p)) == View(here.files)
    ensures lab.FilesAfter(here, p) == here.files <==>
      !lab.Applies(here.files, p) || p.target !in here.files || '\r' !in here.files[p.target]
  {
    hide View, NewText, Lab.AttemptOn, Restored, TextBefore;
    if lab.Applies(here.files, p) {
      RollbackKeepsView(here.files, p.target, NewText(lab.judge, here.files, p, false).value);
      RollbackIsExactIff(here.files, p.target, NewText(lab.judge, here.files, p, false).value);
    }
  }

  /** The text of the project is the initial one with exactly the kept edits applied in order. */
  lemma {:induction false} TraceReplays(lab: Lab, start: Point, trail: seq<Try>)
    requires lab.IsTrace(start, trail)
    ensures Replay(lab.judge, View(start.files), Edits(lab.FrontierOf(start, trail))) == Ok(View(lab.Where(start, trail).files))
  {
    hide View, Replay, NewText, Lab.RulingAt, Restored, TextBefore, Lab.Proposed, Lab.Opens, Lab.Affords;
    if trail == [] {
      NothingReplays(lab.judge, View(start.files), FrontierPoint(start.best, 0, false, None));
    } else {
      var init, last := trail[..|trail| - 1], trail[|trail| - 1];
      var before := lab.FrontierOf(start, init);
      TraceReplays(lab, start, init);
      if lab.IsKept(last) {
        assert (before + [lab.VersionOf(last.here, last.proposal)])[..|before|] == before;
        KeepExtendsReplay(lab.judge, View(start.files), Edits(before), last.here.files, last.proposal);
      } else {
        assert before + [] == before;
        RejectedFiles(lab, last.here, last.proposal);
      }
    }
  }

  /** Some proposal for the file was applied, if only to be rolled back. */
  ghost predicate Targeted(lab: Lab, trail: seq<Try>, q: Path) {
    exists t | t in trail :: t.proposal.target == q && lab.Applies(t.here.files, t.proposal)
  }

  predicate SameAt(f: Files, g: Files, q: Path) {
    (q in f <==> q in g) && (q in f ==> f[q] == g[q])
  }

  lemma StepTouchesTarget(lab: Lab, here: Point, p: Proposal, q: Path)
    ensures p.target == q && lab.Applies(here.files, p) ==> Writable(q)
    ensures !(p.target == q && lab.Applies(here.files, p)) ==> SameAt(here.files, lab.FilesAfter(here, p), q)
  {
    hide NewText, Lab.AttemptOn, TextBefore;
  }

  /** Every other file keeps its bytes, in particular every file the Coach may not write. */
  lemma {:induction false} TraceTouchesTargets(lab: Lab, start: Point, trail: seq<Try>, q: Path)
    requires lab.IsTrace(start, trail)
    ensures Targeted(lab, trail, q) ==> Writable(q)
    ensures !Targeted(lab, trail, q) ==> SameAt(start.files, lab.Where(start, trail).files, q)
  {
    hide Lab.Proposed, Lab.Opens, Lab.Affords, Lab.Applies, Lab.FilesAfter, Lab.NextPoint, Lab.AttemptOn, Writable;
    if trail != [] {
      var init, last := trail[..|trail| - 1], trail[|trail| - 1];
      TraceTouchesTargets(lab, start, init, q);
      StepTouchesTarget(lab, last.here, last.proposal, q);
      lab.FilesOfNext(last.here, last.proposal);
      assert trail == init + [last] && last in trail;
      assert forall t | t in init :: t in trail;
    }
  }

  lemma TouchesTargets(lab: Lab, start: Point, trail: seq<Try>)
    requires lab.IsTrace(start, trail)
    ensures forall q | !Targeted(lab, trail, q) || !Writable(q) :: SameAt(start.files, lab.Where(start, trail).files, q)
  {
    forall q | !Targeted(lab, trail, q) || !Writable(q) ensures SameAt(start.files, lab.Where(start, trail).files, q) {
      TraceTouchesTargets(lab, start, trail, q);
    }
  }

  lemma KeptVersionGains(lab: Lab, here: Point, ids: seq<QuestionId>)
    requires lab.env.FixedQuestions(ids) && here.best.Answers(ids) && lab.RulingAt(here).Some? && lab.RulingAt(here).value.keep
    ensures var d := lab.RulingAt(here).value;
      d.netGain >= lab.cfg.minGain && d.representative.Answers(ids)
      && d.representative.NCorrect() == here.best.NCorrect() + d.netGain
      && (d.significant <==> Beats(d.representative, here.best))
  {
    hide JudgeTrials, Beats, ScoredRun.Answers, ScoredRun.NCorrect;
    var runs := TrialsFrom(lab.env, here.evals, lab.cfg.trials).value;
    TrialsAre(lab.env, here.evals, lab.cfg.trials);
    forall t | t in runs ensures t.Answers(ids) {
      var k :| 0 <= k < |runs| && runs[k] == t;
      assert lab.env.eval(here.evals + k) == Scored(t);
    }
    KeptGainIsReal(here.best, runs, lab.cfg.minGain, lab.cfg.requireSignificant, ids);
  }

  /** The evaluations answer fixed questions: every version gained what it records. */
  lemma {:induction false} TraceClimbs(lab: Lab, start: Point, trail: seq<Try>, ids: seq<QuestionId>)
    requires lab.IsTrace(start, trail) && lab.env.FixedQuestions(ids) && start.best.Answers(ids)
    ensures Climbs(lab.FrontierOf(start, trail), lab.cfg.minGain) && Marked(lab.FrontierOf(start, trail))
    ensures lab.Where(start, trail).best.Answers(ids)
  {
    hide Beats, Lab.RulingAt, Lab.FilesAfter, ScoredRun.Answers, ScoredRun.NCorrect, Lab.Proposed, Lab.Opens, Lab.Affords, Lab.Applies;
    hide Environment.FixedQuestions;
    if trail != [] {
      var init, last := trail[..|trail| - 1], trail[|trail| - 1];
      TraceClimbs(lab, start, init, ids);
      FrontierEnds(lab, start, init);
      if lab.IsKept(last) {
        KeptVersionGains(lab, last.here, ids);
      }
    }
  }

  lemma NothingReplays(j: Judge, view: Files, baseline: FrontierPoint)
    requires baseline.edit.None?
    ensures Replay(j, view, Edits([baseline])) == Ok(view)
  {
    assert [baseline][..0] == [];
  }

  lemma KeepExtendsReplay(j: Judge, initial: Files, kept: seq<Proposal>, before: Files, p: Proposal)
    requires Replay(j, initial, kept) == Ok(View(before)) && NewText(j, before, p, false).Ok?
    ensures Replay(j, initial, kept + [p]) == Ok(View(before[p.target := NewText(j, before, p, false).value]))
  {
    var text := NewText(j, before, p, false).value;
    assert (kept + [p])[..|kept|] == kept;
    ViewReadsAlike(before, p.target);
    assert NewText(j, View(before), p, false) == Ok(text);
    assert View(before[p.target := text]) == View(before)[p.target := Universal(text)];
  }

  lemma RollbackKeepsView(before: Files, target: Path, text: string)
    ensures View(Restored(before[target := text], target, TextBefore(before, target))) == View(before)
  {
    if target in before {
      UniversalIsIdentityIff(before[target]);
      UniversalIsIdentityIff(Universal(before[target]));
      assert before[target := text][target := Universal(before[target])] == before[target := Universal(before[target])];
    } else {
      assert before[target := text] - {target} == before;
    }
  }

  // ---------------------------------------------------------------- the outcome

  /** Each stop reason, with what held when the loop left: the trace says how far the last round
    * went, and no proposal was passed over. */
  predicate StoppedBecause(lab: Lab, start: Point, stopped: StopReason, trail: seq<Try>, rounds: nat) {
    var round, place, here := lab.NextRound(trail), lab.NextPlace(trail), lab.Where(start, trail);
    match stopped
    case TargetMet => rounds == round && place == 0 && here.best.Accuracy() >= lab.cfg.target
    case MaxRounds => rounds == round && place == 0 && here.best.Accuracy() < lab.cfg.target && rounds >= lab.cfg.maxRounds
    case NoProposals =>
      && rounds == round && place == 0 && lab.Opens(here, round)
      && lab.env.coach(round).Report? && lab.env.coach(round).proposals == []
    case Converged =>
      rounds == round + 1 && lab.env.coach(round).Report? && place == |lab.env.coach(round).proposals| > 0
    case BudgetExhausted =>
      || (rounds == round && place == 0 && here.best.Accuracy() < lab.cfg.target && round < lab.cfg.maxRounds
          && lab.cfg.budget.Some? && lab.SpentAt(here, round) + lab.cfg.coachEstimate > lab.cfg.budget.value)
      || (rounds == round + 1 && (place == 0 ==> lab.Opens(here, round))
          && lab.env.coach(round).Report? && place < |lab.env.coach(round).proposals| && !lab.Affords(here, round))
  }

  /** The held-out set is scored once, when asked for and present, outside the budget. */
  predicate HeldOutScored(lab: Lab, r: OptimizeResult, loopSpent: real) {
    if lab.cfg.scoreTest && lab.env.heldOut.Some? && lab.env.heldOut.value.Scored? && lab.env.heldOut.value.run.Total() > 0
    then
      var test := lab.env.heldOut.value.run;
      r.testAccuracy == Some(test.Accuracy()) && r.spent == loopSpent + test.TotalCost()
    else r.testAccuracy == None && r.spent == loopSpent
  }

  /** Why a started run raises: a proposal crashed, or the coach did when it was due, or the loop had
    * stopped for one of its reasons and the held-out evaluation raised. */
  ghost predicate FailedBecause(lab: Lab, start: Point, trail: seq<Try>) {
    || lab.HasCrashed(trail)
    || (lab.NextPlace(trail) == 0 && lab.Opens(lab.Where(start, trail), lab.NextRound(trail))
        && lab.env.coach(lab.NextRound(trail)).CoachRaises?)
    || (lab.cfg.scoreTest && lab.env.heldOut == Some(EvalRaises)
        && exists stopped, rounds: nat :: StoppedBecause(lab, start, stopped, trail, rounds))
  }

  /** Coach calls made by a run that ended after so many rounds. */
  function CoachCalls(stopped: StopReason, rounds: nat): nat {
    rounds + if stopped.NoProposals? then 1 else 0
  }

  /** What a normal return promises. With `minGain` at least one, the questions wrong at the baseline
    * bound the rounds, whatever `maxRounds` is. */
  ghost predicate Sound(lab: Lab, start: Point, trail: seq<Try>, r: OptimizeResult, loopSpent: real, ids: seq<QuestionId>) {
    && lab.IsTrace(start, trail) && !lab.HasCrashed(trail)
    && r.frontier == lab.FrontierOf(start, trail) && r.frontier != []
    && r.picked == r.kept == |r.frontier| - 1 == lab.CountOf(trail, Kept)
    && r.reverted == lab.CountOf(trail, Reverted) && r.tried == r.kept + r.reverted
    && r.kept <= r.rounds <= r.kept + 1 && (r.rounds == 0 || r.rounds <= lab.cfg.maxRounds)
    && var first, last := r.frontier[0].run, r.frontier[r.picked].run;
    && first == start.best && last == lab.Where(start, trail).best
    && (r.stopped == TargetMet <==> last.Accuracy() >= lab.cfg.target)
    && StoppedBecause(lab, start, r.stopped, trail, r.rounds)
    && loopSpent == lab.SpentAt(lab.Where(start, trail), CoachCalls(r.stopped, r.rounds))
    && HeldOutScored(lab, r, loopSpent)
    && (var fixed, broke := |last.CorrectIds() - first.CorrectIds()|, |first.CorrectIds() - last.CorrectIds()|;
        r.pickedSignificant <==> r.picked > 0 && fixed > broke && SignTestP(fixed, broke) < 0.05)
    && (lab.env.FixedQuestions(ids) ==>
          Climbs(r.frontier, lab.cfg.minGain) && Marked(r.frontier)
          && (r.picked > 0 ==> (r.pickedSignificant <==> Beats(last, first)))
          && last.NCorrect() == first.NCorrect() + TotalGain(r.frontier)
          && r.kept * lab.cfg.minGain <= |ids| - first.NCorrect()
          && (lab.cfg.minGain >= 1 ==> r.rounds <= 1 + |ids| - first.NCorrect()))
  }

  lemma FrontierIsBounded(lab: Lab, start: Point, trail: seq<Try>, ids: seq<QuestionId>)
    requires lab.IsTrace(start, trail) && lab.env.FixedQuestions(ids) && start.best.Answers(ids)
    ensures var f := lab.FrontierOf(start, trail);
      && f != [] && Climbs(f, lab.cfg.minGain) && Marked(f)
      && f[|f| - 1].run.Answers(ids)
      && f[|f| - 1].run.NCorrect() == f[0].run.NCorrect() + TotalGain(f)
      && (|f| - 1) * lab.cfg.minGain <= |ids| - f[0].run.NCorrect()
      && (lab.cfg.minGain >= 1 ==> |f| <= 1 + |ids| - f[0].run.NCorrect())
  {
    hide Climbs, Marked, ScoredRun.NCorrect, ScoredRun.Answers, TotalGain, Lab.IsTrace, Lab.FrontierOf, Lab.Where, Environment.FixedQuestions;
    var f := lab.FrontierOf(start, trail);
    TraceClimbs(lab, start, trail, ids);
    FrontierEnds(lab, start, trail);
    GainsAreBounded(f, lab.cfg.minGain, ids);
    AtLeastOnce(|f| - 1, lab.cfg.minGain);
  }

  lemma AtLeastOnce(a: nat, b: int)
    ensures b >= 1 ==> a <= a * b
  {}

  lemma Scale(a: nat, b: nat, x: real)
    requires a <= b
    ensures x >= 0.0 ==> x * a as real <= x * b as real
  {}

  // ---------------------------------------------------------------- the loop

  class Optimizer {
    const lab: Lab
    const project: Project
    var spent: real
    var best: ScoredRun
    var frontier: seq<FrontierPoint>
    var tried: nat
    var kept: nat
    var reverted: nat
    var evals: nat
    /** Every proposal met so far, kept or not, with the point it was met at. */
    ghost var trail: seq<Try>

    constructor (cfg: Config, env: Environment, judge: Judge, project: Project)
      requires cfg.trials >= 1
      ensures lab == Lab(cfg, env, judge) && this.project == project
    {
      this.lab, this.project := Lab(cfg, env, judge), project;
      spent, best, frontier, evals := 0.0, ScoredRun([]), [], 0;
      tried, kept, reverted, trail := 0, 0, 0, [];
    }

    ghost predicate At(here: Point)
      reads this, project
    {
      project.files == here.files && best == here.best && evals == here.evals && kept == here.kept
    }

    /** The trace so far accounts for the files and for the versions, also after a crash. */
    ghost predicate Recorded(start: Point)
      reads this, project
    {
      && lab.IsTrace(start, trail) && start.kept == 0
      && project.files == lab.Where(start, trail).files
      && frontier == lab.FrontierOf(start, trail)
    }

    ghost predicate Inv(start: Point)
      reads this, project
    {
      && lab.cfg.trials >= 1 && lab.env.eval(0) == Scored(start.best)
      && Recorded(start) && At(lab.Where(start, trail)) && !lab.HasCrashed(trail)
      && reverted == lab.CountOf(trail, Reverted) && tried == kept + reverted
    }

    /** Within the budget, unless the baseline alone was already past it. */
    ghost predicate Affordable(start: Point)
      reads this
    {
      lab.env.WithinEstimates(lab.cfg) && lab.cfg.budget.Some? ==>
        spent <= lab.cfg.budget.value || spent <= start.best.TotalCost()
    }

    /** The spend is what the evaluations and coach calls made so far cost. */
    ghost predicate Accounted(coached: nat)
      reads this
    {
      spent == EvalCost(lab.env, evals) + CoachCost(lab.env, coached)
    }

    /** One dev evaluation per trial; `None` when one raises. */
    method RunTrials() returns (runs: Option<seq<ScoredRun>>)
      requires evals > 0 && lab.cfg.trials >= 1
      modifies this`spent, this`evals
      ensures runs == TrialsFrom(lab.env, old(evals), lab.cfg.trials)
      ensures runs.Some? ==> evals == old(evals) + lab.cfg.trials
      ensures evals >= old(evals)
      ensures spent == old(spent) + EvalCost(lab.env, evals) - EvalCost(lab.env, old(evals))
      ensures lab.env.WithinEstimates(lab.cfg) ==> spent <= old(spent) + lab.cfg.evalEstimate * lab.cfg.trials as real
    {
      hide TrialsFrom, EvalCost, ScoredRun.TotalCost, Environment.WithinEstimates;
      var acc := [];
      NoTrials(lab.env, evals);
      for k := 0 to lab.cfg.trials
        invariant evals == old(evals) + k
        invariant TrialsFrom(lab.env, old(evals), k) == Some(acc)
        invariant spent == old(spent) + EvalCost(lab.env, evals) - EvalCost(lab.env, old(evals))
        invariant lab.env.WithinEstimates(lab.cfg) ==> spent <= old(spent) + lab.cfg.evalEstimate * k as real
      {
        NextEval(lab.env, old(evals), k);
        TrialFits(evals, k);
        var reply := lab.env.eval(evals);
        evals := evals + 1;
        if reply.EvalRaises? {
          TrialsStayNone(old(evals), k + 1, lab.cfg.trials);
          return None;
        }
        spent := spent + reply.run.TotalCost();
        acc := acc + [reply.run];
      }
      return Some(acc);
    }

    lemma TrialFits(n: nat, k: nat)
      requires n > 0 && k < lab.cfg.trials
      ensures var most := lab.cfg.evalEstimate; lab.env.WithinEstimates(lab.cfg) ==>
        && most * k as real <= most * (k + 1) as real <= most * lab.cfg.trials as real
        && (lab.env.eval(n).Scored? ==> most * k as real + lab.env.eval(n).run.TotalCost() <= most * (k + 1) as real)
    {
      hide ScoredRun.TotalCost;
      Scale(k, k + 1, lab.cfg.evalEstimate);
      Scale(k + 1, lab.cfg.trials, lab.cfg.evalEstimate);
    }

    lemma {:induction false} TrialsStayNone(from: nat, k: nat, n: nat)
      requires k <= n && TrialsFrom(lab.env, from, k).None?
      ensures TrialsFrom(lab.env, from, n).None?
    {
      if k < n {
        TrialsStayNone(from, k, n - 1);
      }
    }

    /** One proposal: snapshot its target, apply it, run the trials, then keep it or put the
      * target back, also when a trial or the save raises. */
    method TryProposal(p: Proposal, ghost here: Point, ghost coached: nat) returns (a: Attempt)
      requires lab.cfg.trials >= 1 && At(here) && here.evals > 0 && Accounted(coached)
      modifies this, project
      ensures a == lab.AttemptOn(here, p) && trail == old(trail)
      ensures project.files == lab.FilesAfter(here, p)
      ensures !a.Crashed? ==> At(lab.NextPoint(here, p))
      ensures !a.Kept? ==>
        (project.files == old(project.files) <==>
           a.NotApplied? || p.target !in old(project.files) || '\r' !in old(project.files)[p.target])
      ensures frontier == old(frontier) + if a.Kept? then [lab.VersionOf(here, p)] else []
      ensures tried == old(tried) + (if a.NotApplied? then 0 else 1)
      ensures reverted == old(reverted) + (if a.Reverted? then 1 else 0)
      ensures Accounted(coached)
      ensures a.NotApplied? ==> spent == old(spent)
      ensures evals >= old(evals) && (!a.Kept? ==> best == old(best) && kept == old(kept))
      ensures a.Kept? ==> kept == old(kept) + 1 && best == lab.VersionOf(here, p).run
      ensures !a.Crashed? ==> evals == old(evals) + (if a.NotApplied? then 0 else lab.cfg.trials)
      ensures lab.env.WithinEstimates(lab.cfg) ==> spent <= old(spent) + lab.cfg.evalEstimate * lab.cfg.trials as real
    {
      hide NewText, JudgeTrials, Restored, TextBefore, View, Writable, Universal;
      hide EvalCost, CoachCost, Environment.WithinEstimates, TrialsFrom;
      var snapshot := project.Snapshot(p.target);
      if snapshot.None? {
        NothingSpent();
        return NotApplied;
      }
      var applied := project.ApplyProposal(lab.judge, p, false);
      if applied.Err? {
        NothingSpent();
        return NotApplied;
      }
      tried := tried + 1;
      var runs := RunTrials();
      if runs.Some? {
        TrialsAre(lab.env, here.evals, lab.cfg.trials);
        var d := JudgeTrials(best, runs.value, lab.cfg.minGain, lab.cfg.requireSignificant);
        if d.keep && lab.env.saves(kept) {
          best := d.representative;
          kept := kept + 1;
          frontier := frontier + [FrontierPoint(d.representative, d.netGain, d.significant, Some(p))];
          return Kept;
        }
        a := if d.keep then Crashed else Reverted;
      } else {
        a := Crashed;
      }
      RejectedFiles(lab, here, p);
      project.Restore(p.target, snapshot.value);
      if a.Reverted? {
        reverted := reverted + 1;
      }
    }

    lemma NothingSpent()
      ensures lab.env.WithinEstimates(lab.cfg) ==> 0.0 <= lab.cfg.evalEstimate * lab.cfg.trials as real
    {
      Scale(0, lab.cfg.trials, lab.cfg.evalEstimate);
    }

    /** One round's proposals in order, until one is kept, the next batch of trials would not fit
      * the budget, or a trial raises. */
    method RunRound(proposals: seq<Proposal>, ghost start: Point, ghost round: nat)
        returns (accepted: bool, budgetHit: bool, crashed: bool)
      requires Inv(start) && Affordable(start) && Accounted(round + 1) && evals > 0
      requires lab.env.coach(round).Report? && lab.env.coach(round).proposals == proposals
      requires lab.NextRound(trail) == round && lab.NextPlace(trail) == 0 && lab.Opens(lab.Where(start, trail), round)
      modifies this, project
      ensures Recorded(start) && Affordable(start) && Accounted(round + 1) && evals > 0
      ensures forall q | !Targeted(lab, trail, q) || !Writable(q) :: SameAt(start.files, project.files, q)
      ensures crashed <==> lab.HasCrashed(trail)
      ensures !crashed ==> Inv(start)
      ensures accepted ==> lab.NextRound(trail) == round + 1 && lab.NextPlace(trail) == 0
      ensures !accepted && !crashed ==> lab.NextRound(trail) == round && best == old(best)
      ensures budgetHit ==> !accepted && !crashed && lab.NextPlace(trail) < |proposals|
      ensures budgetHit ==> !lab.Affords(lab.Where(start, trail), round)
      ensures budgetHit && lab.NextPlace(trail) == 0 ==> lab.Opens(lab.Where(start, trail), round)
      ensures !accepted && !crashed && !budgetHit ==> lab.NextPlace(trail) == |proposals|
    {
      hide Lab.AttemptOn, Lab.NextPoint, Lab.FilesAfter, Lab.FrontierOf, Lab.VersionOf, Lab.CountOf, Lab.IsTrace, EvalCost, CoachCost;
      hide ScoredRun.TotalCost, Environment.WithinEstimates, Targeted, SameAt, Writable, Lab.Applies, Lab.Opens;
      accepted, budgetHit, crashed := false, false, false;
      for i := 0 to |proposals|
        invariant Inv(start) && Affordable(start) && Accounted(round + 1) && evals > 0
        invariant lab.NextRound(trail) == round && lab.NextPlace(trail) == i && best == old(best)
        invariant i == 0 ==> lab.Opens(lab.Where(start, trail), round)
      {
        if lab.cfg.WouldExceed(spent, lab.cfg.evalEstimate * lab.cfg.trials as real) {
          budgetHit := true;
          break;
        }
        ghost var here := lab.Where(start, trail);
        ghost var t := Try(here, round, i, proposals[i]);
        lab.Extend(start, trail, t);
        lab.FilesOfNext(here, proposals[i]);
        var a := TryProposal(proposals[i], here, round + 1);
        trail := trail + [t];
        if a.Crashed? {
          crashed := true;
          break;
        }
        if a.Kept? {
          accepted := true;
          break;
        }
      }
      TouchesTargets(lab, start, trail);
    }

    method Begin(run: ScoredRun, ghost start: Point)
      requires lab.cfg.trials >= 1 && trail == [] && start == Point(project.files, run, 1, 0)
      requires lab.env.eval(0) == Scored(run)
      modifies this
      ensures trail == [] && evals > 0 && Inv(start) && Affordable(start) && Accounted(0)
    {
      hide ScoredRun.TotalCost;
      best, evals, spent := run, 1, run.TotalCost();
      tried, kept, reverted := 0, 0, 0;
      frontier := [FrontierPoint(run, 0, false, None)];
      NextEval(lab.env, 0, 0);
    }

    /** The whole loop. Whatever happens, a crash included, the trace accounts for every proposal met:
      * the tree is the initial one with exactly the kept edits applied in order, only files that
      * some proposal was applied to may change a byte, and the spend stays affordable. */
    method Run(ghost ids: seq<QuestionId>) returns (r: Result<OptimizeResult, string>)
      requires lab.cfg.trials >= 1 && trail == [] && frontier == []
      modifies this, project
      ensures lab.env.eval(0).EvalRaises? ==> r.Err? && project.files == old(project.files)
      ensures lab.env.eval(0).Scored? ==>
        var start := Point(old(project.files), lab.env.eval(0).run, 1, 0);
        && lab.IsTrace(start, trail) && frontier == lab.FrontierOf(start, trail)
        && project.files == lab.Where(start, trail).files
        && Replay(lab.judge, View(start.files), Edits(frontier)) == Ok(View(project.files))
        && (forall q | !Targeted(lab, trail, q) || !Writable(q) :: SameAt(start.files, project.files, q))
        && Affordable(start)
        && (r.Ok? ==> Sound(lab, start, trail, r.value, spent, ids))
        && (r.Err? ==> FailedBecause(lab, start, trail))
    {
      hide View, Replay, Sound, Targeted, ScoredRun.Accuracy, ScoredRun.TotalCost, Edits, EvalCost, CoachCost, Environment.WithinEstimates;
      hide Lab.IsTrace, Lab.FrontierOf, Lab.Where, Lab.CountOf, FailedBecause, SameAt, Writable;
      var baseline := lab.env.eval(0);
      if baseline.EvalRaises? {
        return Err("the baseline evaluation raised");
      }
      ghost var start := Point(project.files, baseline.run, 1, 0);
      Begin(baseline.run, start);
      r := Loop(start, ids);
      TraceReplays(lab, start, trail);
      TouchesTargets(lab, start, trail);
    }

    method Loop(ghost start: Point, ghost ids: seq<QuestionId>) returns (r: Result<OptimizeResult, string>)
      requires Inv(start) && Affordable(start) && Accounted(0) && evals > 0 && trail == []
      modifies this, project
      ensures Recorded(start) && Affordable(start)
      ensures r.Ok? ==> Sound(lab, start, trail, r.value, spent, ids)
      ensures r.Err? ==> FailedBecause(lab, start, trail)
    {
      hide Sound, ScoredRun.Accuracy, ScoredRun.TotalCost, EvalCost, Environment.WithinEstimates;
      hide Lab.IsTrace, Lab.FrontierOf, Lab.Where, Lab.CountOf, Lab.IsKept, CoachCost;
      var stopped := Converged;
      var rounds := 0;
      while true
        invariant Inv(start) && Affordable(start) && Accounted(rounds) && evals > 0
        invariant lab.NextRound(trail) == rounds && lab.NextPlace(trail) == 0 && (rounds == 0 || rounds <= lab.cfg.maxRounds)
        decreases lab.cfg.maxRounds - rounds
      {
        if best.Accuracy() >= lab.cfg.target {
          stopped := TargetMet;
          break;
        }
        if rounds >= lab.cfg.maxRounds {
          stopped := MaxRounds;
          break;
        }
        if lab.cfg.WouldExceed(spent, lab.cfg.coachEstimate) {
          stopped := BudgetExhausted;
          break;
        }
        var reply := CallCoach(rounds, start);
        if reply.CoachRaises? {
          return Err("the coach raised");
        }
        if reply.proposals == [] {
          stopped := NoProposals;
          break;
        }
        var accepted, budgetHit, crashed := RunRound(reply.proposals, start, rounds);
        if crashed {
          return Err("a trial raised");
        }
        rounds := rounds + 1;
        if budgetHit {
          stopped := BudgetExhausted;
          break;
        }
        if !accepted {
          stopped := Converged;
          break;
        }
      }
      r := Finish(stopped, rounds, start, ids);
    }

    /** One affordable coach call, paid for at once. */
    method CallCoach(round: nat, ghost start: Point) returns (reply: CoachReply)
      requires Inv(start) && Affordable(start) && Accounted(round) && !lab.cfg.WouldExceed(spent, lab.cfg.coachEstimate)
      modifies this`spent
      ensures reply == lab.env.coach(round) && Inv(start) && Recorded(start) && Affordable(start)
      ensures reply.Report? ==> Accounted(round + 1)
    {
      hide Lab.IsTrace, Lab.FrontierOf, Lab.Where, Lab.CountOf, ScoredRun.TotalCost, EvalCost, Environment.WithinEstimates;
      reply := lab.env.coach(round);
      if reply.Report? {
        CoachFits(reply, round);
        spent := spent + reply.cost;
      }
    }

    lemma CoachFits(reply: CoachReply, round: nat)
      requires reply == lab.env.coach(round) && reply.Report?
      ensures lab.env.WithinEstimates(lab.cfg) ==> 0.0 <= reply.cost <= lab.cfg.coachEstimate
    {}

    /** The picked version is the working tree; the held-out set is scored once, on it. */
    method Finish(stopped: StopReason, rounds: nat, ghost start: Point, ghost ids: seq<QuestionId>)
        returns (r: Result<OptimizeResult, string>)
      requires Inv(start) && Accounted(CoachCalls(stopped, rounds))
      requires rounds == 0 || rounds <= lab.cfg.maxRounds
      requires stopped == TargetMet <==> best.Accuracy() >= lab.cfg.target
      requires StoppedBecause(lab, start, stopped, trail, rounds)
      ensures r.Ok? ==> Sound(lab, start, trail, r.value, spent, ids)
      ensures r.Err? <==> lab.cfg.scoreTest && lab.env.heldOut == Some(EvalRaises)
    {
      hide Climbs, Marked, Beats, ScoredRun.Accuracy, ScoredRun.TotalCost, IsSignificant, TotalGain, ScoredRun.Answers, CountCorrect, ScoredRun.CorrectIds, SignTestP;
      hide Lab.IsTrace, Lab.FrontierOf, Lab.Where, Lab.CountOf, Lab.NextRound, Lab.NextPlace, EvalCost, CoachCost;
      var picked := |frontier| - 1;
      TraceCounts(lab, start, trail);
      FrontierEnds(lab, start, trail);
      var significant := picked > 0 && IsSignificant(frontier[0].run, best);
      if lab.env.FixedQuestions(ids) {
        FrontierIsBounded(lab, start, trail, ids);
        BeatsIff(frontier[0].run, best, ids);
      }
      SignificantById(frontier[0].run, best);
      var result := OptimizeResult(frontier, picked, stopped, rounds, spent, significant, tried, kept, reverted, None);
      if lab.cfg.scoreTest && lab.env.heldOut.Some? {
        if lab.env.heldOut.value.EvalRaises? {
          return Err("the held-out evaluation raised");
        }
        var test := lab.env.heldOut.value.run;
        if test.Total() > 0 {
          result := result.(testAccuracy := Some(test.Accuracy()), spent := spent + test.TotalCost());
        }
      }
      return Ok(result);
    }
  }
}

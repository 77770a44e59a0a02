/** Scoring a benchmark: one fresh call per question, judges for what the scorer cannot settle,
  * and the number of calls quoted for it up front. */
module EvalRun {
  import opened Wrappers
  import opened Cost
  import opened AgentLoop
  import opened Permutations
  import opened Questions
  import opened Sums
  import Selection

  datatype Vote = Vote(passed: bool, confidence: real)

  /** One judge call: it may fail outright, and its answer may be unreadable. */
  datatype Ballot = Ballot(vote: Option<Vote>, usage: Usage) | NoBallot

  /** A question with whatever happens to it: `matched` is the outcome of comparing results. */
  datatype Case = Case(goldSql: Option<string>, goldAsset: string, world: World, matched: Option<bool>, ballot: nat -> Ballot)

  datatype Settings = Settings(repairs: nat, judging: bool, minConfidence: real, assets: map<string, string>)

  datatype Scored = Scored(verdict: Verdict, attempts: nat, usage: Usage, suggestion: Option<Verdict>, votes: seq<Vote>,
                           judgeUsage: Usage)

  const GOLD_MISMATCH_JUDGES := 3
  const NO_GOLD_JUDGES := 2

  // ---------------------------------------------------------------- verdicts

  function VerdictOf(ran: bool, matched: Option<bool>): Verdict {
    if !ran then Error else if matched == Some(true) then Correct else ManualReview
  }

  predicate HasGold(c: Case, assets: map<string, string>) {
    c.goldSql.Some? || (c.goldAsset != "" && c.goldAsset in assets)
  }

  function PanelSize(c: Case, assets: map<string, string>): nat {
    if HasGold(c, assets) then GOLD_MISMATCH_JUDGES else NO_GOLD_JUDGES
  }

  function LeastConfidence(votes: seq<Vote>): real
    requires votes != []
  {
    if |votes| == 1 then votes[0].confidence else
      var rest := LeastConfidence(votes[1..]);
      if votes[0].confidence < rest then votes[0].confidence else rest
  }

  /** A confident suggestion only from a confident and unanimous panel. */
  function FoldPanel(votes: seq<Vote>, minConfidence: real): Verdict {
    if votes == [] || LeastConfidence(votes) < minConfidence then ManualReview
    else if forall v | v in votes :: v.passed then Correct
    else if forall v | v in votes :: !v.passed then Incorrect
    else ManualReview
  }

  lemma {:induction false} LeastConfidenceIsLeast(votes: seq<Vote>, bar: real)
    requires votes != []
    ensures LeastConfidence(votes) >= bar <==> forall v | v in votes :: v.confidence >= bar
  {
    if |votes| > 1 {
      LeastConfidenceIsLeast(votes[1..], bar);
      assert votes == [votes[0]] + votes[1..];
    }
  }

  predicate Agree(votes: seq<Vote>, passed: bool, minConfidence: real) {
    votes != [] && forall v | v in votes :: v.passed == passed && v.confidence >= minConfidence
  }

  /** The documented rule, whatever the order of the judges: a suggestion exactly when all of a non-empty
    * panel agree with confidence. */
  lemma FoldPanelIsUnanimity(votes: seq<Vote>, minConfidence: real)
    ensures FoldPanel(votes, minConfidence) == Correct <==> Agree(votes, true, minConfidence)
    ensures FoldPanel(votes, minConfidence) == Incorrect <==> Agree(votes, false, minConfidence)
    ensures FoldPanel(votes, minConfidence) in {Correct, Incorrect, ManualReview}
  {
    if votes != [] {
      LeastConfidenceIsLeast(votes, minConfidence);
      assert votes[0] in votes;
    }
  }

  /** One judge more, wherever in the panel, can only add doubt: the larger panel suggests something
    * exactly when the smaller one does and the judge is confident and of the same opinion. */
  lemma AnotherJudgeOnlyAddsDoubt(votes: seq<Vote>, i: nat, minConfidence: real)
    requires i < |votes| && |votes| > 1
    ensures var without, whole := FoldPanel(Without(votes, i), minConfidence), FoldPanel(votes, minConfidence);
      && whole in {without, ManualReview}
      && (whole != ManualReview <==>
            without != ManualReview && votes[i].confidence >= minConfidence && votes[i].passed == (without == Correct))
  {
    hide FoldPanel;
    var rest := Without(votes, i);
    FoldPanelIsUnanimity(votes, minConfidence);
    FoldPanelIsUnanimity(rest, minConfidence);
    assert rest[0] in rest;
    assert votes == votes[..i] + [votes[i]] + votes[i + 1..];
    assert forall v :: v in votes <==> v in rest || v == votes[i];
  }

  function Votes(ballot: nat -> Ballot, n: nat): seq<Vote> {
    if n == 0 then [] else
      var before := Votes(ballot, n - 1);
      if ballot(n - 1).Ballot? && ballot(n - 1).vote.Some? then before + [ballot(n - 1).vote.value] else before
  }

  function JudgeUsage(ballot: nat -> Ballot, start: Usage, n: nat): Usage {
    if n == 0 then start else
      var before := JudgeUsage(ballot, start, n - 1);
      if ballot(n - 1).Ballot? then before.Plus(ballot(n - 1).usage) else before
  }

  /** The ballots as they are when judge `k` answers unreadably. */
  function Unread(ballot: nat -> Ballot, k: nat): nat -> Ballot {
    (j: nat) => if j == k && ballot(j).Ballot? then Ballot(None, ballot(j).usage) else ballot(j)
  }

  lemma {:induction false} UnreadVotes(ballot: nat -> Ballot, k: nat, n: nat)
    requires ballot(k).Ballot? && ballot(k).vote.Some?
    ensures n <= k ==> Votes(Unread(ballot, k), n) == Votes(ballot, n)
    ensures k < n ==>
      var i := |Votes(ballot, k)|;
      && i < |Votes(ballot, n)| && Votes(ballot, n)[i] == ballot(k).vote.value
      && Votes(Unread(ballot, k), n) == Without(Votes(ballot, n), i)
    ensures JudgeUsage(Unread(ballot, k), NO_USAGE, n) == JudgeUsage(ballot, NO_USAGE, n)
  {
    hide Usage.Plus;
    if n > 0 {
      UnreadVotes(ballot, k, n - 1);
    }
  }

  // ---------------------------------------------------------------- one row

  datatype Outcome = Outcome(suggestion: Option<Verdict>, votes: seq<Vote>, usage: Usage)

  function Panel(c: Case, settings: Settings, n: nat): Outcome {
    Outcome(Some(FoldPanel(Votes(c.ballot, n), settings.minConfidence)), Votes(c.ballot, n), JudgeUsage(c.ballot, NO_USAGE, n))
  }

  /** A judge whose answer is unreadable is still paid for, and dropped. With another readable judge
    * left, that can only make the panel bolder, and does exactly when the judge would have dissented or
    * doubted; with none left, nothing is suggested. */
  lemma UnreadableJudgeMakesThePanelBolder(c: Case, settings: Settings, n: nat, k: nat)
    requires k < n && c.ballot(k).Ballot? && c.ballot(k).vote.Some?
    ensures var v := c.ballot(k).vote.value;
      var heard, unheard := Panel(c, settings, n), Panel(c.(ballot := Unread(c.ballot, k)), settings, n);
      && heard.usage == unheard.usage
      && if |Votes(c.ballot, n)| == 1 then unheard.suggestion == Some(ManualReview)
         else
           && heard.suggestion in {unheard.suggestion, Some(ManualReview)}
           && (heard.suggestion != unheard.suggestion <==>
                 unheard.suggestion != Some(ManualReview)
                 && (v.confidence < settings.minConfidence || v.passed != (unheard.suggestion == Some(Correct))))
  {
    hide Votes, JudgeUsage, Unread;
    UnreadVotes(c.ballot, k, n);
    if |Votes(c.ballot, n)| > 1 {
      hide FoldPanel;
      AnotherJudgeOnlyAddsDoubt(Votes(c.ballot, n), |Votes(c.ballot, k)|, settings.minConfidence);
    }
  }

  /** One such panel: a confident judge passes the row and another fails it. Once the second answer is
    * unreadable, the row is suggested as correct. */
  lemma DissentUnheard(c: Case, settings: Settings)
    requires c.ballot(0).Ballot? && c.ballot(0).vote == Some(Vote(true, 0.9))
    requires c.ballot(1).Ballot? && c.ballot(1).vote == Some(Vote(false, 0.9))
    requires settings.minConfidence == 0.7
    ensures Panel(c, settings, 2).suggestion == Some(ManualReview)
    ensures Panel(c.(ballot := Unread(c.ballot, 1)), settings, 2).suggestion == Some(Correct)
  {
    hide FoldPanel, JudgeUsage, Votes, Unread;
    var pass, fail := Vote(true, 0.9), Vote(false, 0.9);
    TwoVotes(c.ballot);
    assert pass in [pass, fail] && fail in [pass, fail];
    FoldPanelIsUnanimity([pass, fail], 0.7);
    FoldPanelIsUnanimity([pass], 0.7);
  }

  lemma TwoVotes(ballot: nat -> Ballot)
    requires Readable(ballot(0)) && Readable(ballot(1))
    ensures Votes(ballot, 2) == [ballot(0).vote.value, ballot(1).vote.value]
    ensures Votes(Unread(ballot, 1), 2) == [ballot(0).vote.value]
  {
    assert Votes(ballot, 1) == [ballot(0).vote.value];
    assert Votes(Unread(ballot, 1), 1) == [ballot(0).vote.value];
  }

  /** Only rows left to review cost anything; an unreadable judge is paid for but has no vote. */
  method Adjudicate(c: Case, verdict: Verdict, settings: Settings) returns (result: Result<Outcome, Crash>, calls: nat)
    ensures verdict != ManualReview ==> calls == 0 && result == Ok(Outcome(None, [], NO_USAGE))
    ensures verdict == ManualReview ==>
      var n := PanelSize(c, settings.assets);
      && calls <= n
      && (result.Ok? <==> forall k: nat | k < n :: c.ballot(k).Ballot?)
      && (result.Ok? ==> calls == n && result.value == Panel(c, settings, n))
  {
    hide FoldPanel, HasGold;
    calls := 0;
    if verdict != ManualReview {
      return Ok(Outcome(None, [], NO_USAGE)), calls;
    }
    var votes: seq<Vote>, usage := [], NO_USAGE;
    for k := 0 to PanelSize(c, settings.assets)
      invariant calls == k && votes == Votes(c.ballot, k) && usage == JudgeUsage(c.ballot, NO_USAGE, k)
      invariant forall j: nat | j < k :: c.ballot(j).Ballot?
    {
      calls := calls + 1;
      match c.ballot(k) {
        case NoBallot =>
          return Err(Crash), calls;
        case Ballot(vote, spent) =>
          usage := usage.Plus(spent);
          if vote.Some? {
            votes := votes + [vote.value];
          }
      }
    }
    result := Ok(Outcome(Some(FoldPanel(votes, settings.minConfidence)), votes, usage));
  }

  /** What a scored row says, in terms of the answer it scores. */
  ghost predicate RowOf(c: Case, settings: Settings, answer: Answer, row: Scored) {
    && row.verdict == VerdictOf(answer.error.None?, c.matched)
    && row.attempts == answer.attempts && row.usage == answer.usage
    && if settings.judging && row.verdict == ManualReview then
         var n := PanelSize(c, settings.assets);
         && (forall k: nat | k < n :: c.ballot(k).Ballot?)
         && Outcome(row.suggestion, row.votes, row.judgeUsage) == Panel(c, settings, n)
       else row.suggestion == None && row.votes == [] && row.judgeUsage == NO_USAGE
  }

  ghost predicate Explained(c: Case, settings: Settings, row: Scored) {
    c.world.context.Some?
    && exists answer, events, n ::
         Ended(c.world, c.world.context.value, settings.repairs, false, Ok(answer), events, n) && RowOf(c, settings, answer, row)
  }

  /** A row is an error exactly when every allowed attempt fails, correct exactly when one runs and its
    * result matched gold, and left to review otherwise. */
  ghost predicate FairVerdict(c: Case, settings: Settings, row: Scored) {
    && (row.verdict == Error <==> forall k: nat | k < 1 + settings.repairs :: Complaint(c.world, k).Some?)
    && (row.verdict == Correct <==> Ran(c.world, settings.repairs) && c.matched == Some(true))
    && (row.verdict == ManualReview <==> Ran(c.world, settings.repairs) && c.matched != Some(true))
  }

  /** Some allowed attempt works, after ones that only drew complaints. */
  ghost predicate Ran(w: World, repairs: nat) {
    exists k: nat :: k < 1 + repairs && Works(w, k) && forall j: nat | j < k :: Complaint(w, j).Some?
  }

  lemma VerdictIsFair(c: Case, settings: Settings, row: Scored)
    requires Explained(c, settings, row)
    ensures FairVerdict(c, settings, row)
  {
    hide EventsOf, UsageOf, LastGeneration, Offered, Panel, Ended, HasGold;
    var answer, events, n: nat :|
      Ended(c.world, c.world.context.value, settings.repairs, false, Ok(answer), events, n) && RowOf(c, settings, answer, row);
    AnswerOverWorld(c.world, c.world.context.value, settings.repairs, false, answer, events, n);
    if answer.error.Some? {
      ExhaustedOverWorld(c.world, c.world.context.value, settings.repairs, false, answer, events, n);
      assert forall k: nat | Works(c.world, k) :: Complaint(c.world, k).None?;
    } else {
      assert Works(c.world, n - 1) && Complaint(c.world, n - 1).None? && n - 1 < 1 + settings.repairs;
      assert Ran(c.world, settings.repairs);
    }
  }

  /** A suggestion is made only on rows left to review, by three judges where there is gold and two where
    * there is none: correct or incorrect exactly when all that answer readably, and one at least does,
    * agree with confidence. Every judge is paid for. */
  lemma SuggestionIsFair(c: Case, settings: Settings, row: Scored, r: ModelRate)
    requires Explained(c, settings, row)
    ensures if settings.judging && row.verdict == ManualReview then
        var n := if c.goldSql.Some? || (c.goldAsset != "" && c.goldAsset in settings.assets) then 3 else 2;
        && (row.suggestion == Some(Correct) <==> PanelAgrees(c.ballot, n, true, settings.minConfidence))
        && (row.suggestion == Some(Incorrect) <==> PanelAgrees(c.ballot, n, false, settings.minConfidence))
        && row.suggestion in {Some(Correct), Some(Incorrect), Some(ManualReview)}
        && PriceAt(row.judgeUsage, r)
           == Sum<nat>((k: nat) => if c.ballot(k).Ballot? then PriceAt(c.ballot(k).usage, r) else 0.0, seq(n, k => k))
      else row.suggestion == None && row.votes == [] && row.judgeUsage == Usage(0, 0, 0, 0)
  {
    hide FoldPanel, Votes, JudgeUsage, PriceAt, Ended, Agree;
    if settings.judging && row.verdict == ManualReview {
      var n := PanelSize(c, settings.assets);
      FoldPanelIsUnanimity(Votes(c.ballot, n), settings.minConfidence);
      AgreeIff(c.ballot, n, true, settings.minConfidence);
      AgreeIff(c.ballot, n, false, settings.minConfidence);
      JudgesArePaid(c.ballot, n, r);
    }
  }

  predicate Readable(b: Ballot) {
    b.Ballot? && b.vote.Some?
  }

  /** Some judge answers readably, and all that do are of this opinion and confident. */
  ghost predicate PanelAgrees(ballot: nat -> Ballot, n: nat, passed: bool, minConfidence: real) {
    && (exists k: nat :: k < n && Readable(ballot(k)))
    && forall k: nat | k < n && Readable(ballot(k)) ::
         ballot(k).vote.value.passed == passed && ballot(k).vote.value.confidence >= minConfidence
  }

  lemma {:induction false} VotesAre(ballot: nat -> Ballot, n: nat)
    ensures forall v :: v in Votes(ballot, n) <==> exists k: nat :: k < n && Readable(ballot(k)) && ballot(k).vote.value == v
    ensures forall k: nat | k < n && Readable(ballot(k)) :: ballot(k).vote.value in Votes(ballot, n)
  {
    if n > 0 {
      VotesAre(ballot, n - 1);
      var rest, all := Votes(ballot, n - 1), Votes(ballot, n);
      if Readable(ballot(n - 1)) {
        assert forall v :: v in all <==> v in rest || v == ballot(n - 1).vote.value;
      }
    }
  }

  lemma AgreeIff(ballot: nat -> Ballot, n: nat, passed: bool, minConfidence: real)
    ensures Agree(Votes(ballot, n), passed, minConfidence) <==> PanelAgrees(ballot, n, passed, minConfidence)
  {
    hide Votes;
    VotesAre(ballot, n);
    if Votes(ballot, n) != [] {
      assert Votes(ballot, n)[0] in Votes(ballot, n);
    }
  }

  /** No readable judge is counted twice. */
  lemma {:induction false} VotesCount(ballot: nat -> Ballot, n: nat)
    ensures |Votes(ballot, n)| == |set k: nat | k < n && Readable(ballot(k))|
  {
    var all := set k: nat | k < n && Readable(ballot(k));
    if n > 0 {
      var before := set k: nat | k < n - 1 && Readable(ballot(k));
      VotesCount(ballot, n - 1);
      assert all == before + if Readable(ballot(n - 1)) then {n - 1} else {};
    } else {
      assert all == {};
    }
  }

  lemma {:induction false} JudgesArePaid(ballot: nat -> Ballot, n: nat, r: ModelRate)
    ensures PriceAt(JudgeUsage(ballot, NO_USAGE, n), r)
      == Sum<nat>((k: nat) => if ballot(k).Ballot? then PriceAt(ballot(k).usage, r) else 0.0, seq(n, k => k))
  {
    NothingIsFree(r);
    hide PriceAt;
    if n > 0 {
      JudgesArePaid(ballot, n - 1, r);
      if ballot(n - 1).Ballot? {
        PriceAtIsAdditive(JudgeUsage(ballot, NO_USAGE, n - 1), ballot(n - 1).usage, r);
      }
      assert seq(n, k => k) == seq(n - 1, k => k) + [n - 1];
      SumAppend<nat>((k: nat) => if ballot(k).Ballot? then PriceAt(ballot(k).usage, r) else 0.0, seq(n - 1, k => k), n - 1);
    }
  }

  /** The calls a finished row took: a shortlist if any, its attempts, and its judges if reviewed. */
  function RowCalls(c: Case, settings: Settings, row: Scored): nat {
    (if c.world.shortlisted then 1 else 0) + row.attempts
    + if settings.judging && row.verdict == ManualReview then PanelSize(c, settings.assets) else 0
  }

  function PerQuestion(repairs: nat, judging: bool, selecting: bool): nat {
    1 + repairs + (if selecting then 1 else 0) + (if judging then GOLD_MISMATCH_JUDGES else 0)
  }

  method ScoreOne(c: Case, settings: Settings) returns (row: Result<Scored, Crash>, calls: nat)
    ensures calls <= PerQuestion(settings.repairs, settings.judging, false) + if c.world.shortlisted then 1 else 0
    ensures row.Ok? ==> Explained(c, settings, row.value) && calls == RowCalls(c, settings, row.value)
    ensures row.Ok? ==> FairVerdict(c, settings, row.value)
  {
    hide Ended, FoldPanel, Votes, JudgeUsage, HasGold, FairVerdict;
    var answered, events, n := Ask(c.world, settings.repairs, false);
    calls := Calls(events);
    if c.world.context.None? {
      StartCalls(c.world);
      return Err(Crash), calls;
    }
    EveryRunIsBounded(c.world, c.world.context.value, settings.repairs, false, answered, events, n);
    if answered.Err? {
      return Err(Crash), calls;
    }
    CallsOfRun(c.world, c.world.context.value, settings.repairs, false, answered, events, n);
    var answer := answered.value;
    var verdict := VerdictOf(answer.error.None?, c.matched);
    var outcome := Outcome(None, [], NO_USAGE);
    if settings.judging {
      var judged, paid := Adjudicate(c, verdict, settings);
      calls := calls + paid;
      if judged.Err? {
        return Err(Crash), calls;
      }
      outcome := judged.value;
    }
    row := Ok(Scored(verdict, answer.attempts, answer.usage, outcome.suggestion, outcome.votes, outcome.usage));
    assert RowOf(c, settings, answer, row.value);
    VerdictIsFair(c, settings, row.value);
  }

  // ---------------------------------------------------------------- the run

  function Shortlists(cases: seq<Case>): nat {
    if cases == [] then 0
    else Shortlists(cases[..|cases| - 1]) + if cases[|cases| - 1].world.shortlisted then 1 else 0
  }

  function TotalCalls(cases: seq<Case>, settings: Settings, rows: seq<Scored>): nat
    requires |rows| == |cases|
  {
    if cases == [] then 0 else
      var k := |cases| - 1;
      TotalCalls(cases[..k], settings, rows[..k]) + RowCalls(cases[k], settings, rows[k])
  }

  /** Whatever the models do, a run makes no more calls than quoted with the selection model; without
    * it, one more for each question that shortlists. A finished run's rows account for every call. */
  method ScoreRun(cases: seq<Case>, settings: Settings) returns (result: Result<seq<Scored>, Crash>, calls: nat)
    ensures calls <= |cases| * PerQuestion(settings.repairs, settings.judging, false)
                     + |set i: nat | i < |cases| && cases[i].world.shortlisted|
    ensures calls <= |cases| * PerQuestion(settings.repairs, settings.judging, true)
    ensures result.Ok? ==> |result.value| == |cases| && calls == TotalCalls(cases, settings, result.value)
    ensures result.Ok? ==>
      forall i: nat | i < |cases| :: Explained(cases[i], settings, result.value[i]) && FairVerdict(cases[i], settings, result.value[i])
  {
    hide Explained, RowCalls, PerQuestion, FairVerdict;
    ShortlistsAtMost(cases);
    ShortlistsCount(cases);
    PricedSelectionCovers(|cases|, settings.repairs, settings.judging);
    var rows: seq<Scored> := [];
    calls := 0;
    for i := 0 to |cases|
      invariant |rows| == i && calls == TotalCalls(cases[..i], settings, rows)
      invariant calls <= i * PerQuestion(settings.repairs, settings.judging, false) + Shortlists(cases[..i])
      invariant forall k: nat | k < i :: Explained(cases[k], settings, rows[k]) && FairVerdict(cases[k], settings, rows[k])
    {
      var row, paid := ScoreOne(cases[i], settings);
      assert cases[..i + 1][..i] == cases[..i];
      ShortlistsGrow(cases, i + 1);
      More(i + 1, |cases|, PerQuestion(settings.repairs, settings.judging, false));
      calls := calls + paid;
      if row.Err? {
        return Err(Crash), calls;
      }
      rows := rows + [row.value];
      assert rows[..i] + [rows[i]] == rows;
    }
    assert cases[..|cases|] == cases;
    result := Ok(rows);
  }

  lemma {:induction false} ShortlistsAtMost(cases: seq<Case>)
    ensures Shortlists(cases) <= |cases|
  {
    if cases != [] {
      ShortlistsAtMost(cases[..|cases| - 1]);
    }
  }

  function Shortlisting(cases: seq<Case>): set<nat> {
    set i: nat | i < |cases| && cases[i].world.shortlisted
  }

  lemma {:induction false} ShortlistsCount(cases: seq<Case>)
    ensures Shortlists(cases) == |set i: nat | i < |cases| && cases[i].world.shortlisted|
  {
    if cases != [] {
      ShortlistsCount(cases[..|cases| - 1]);
      LastShortlists(cases);
    }
    assert Shortlisting(cases) == set i: nat | i < |cases| && cases[i].world.shortlisted;
  }

  lemma LastShortlists(cases: seq<Case>)
    requires cases != []
    ensures |Shortlisting(cases)|
      == |Shortlisting(cases[..|cases| - 1])| + if cases[|cases| - 1].world.shortlisted then 1 else 0
  {
    var k := |cases| - 1;
    forall i: nat | i < k ensures cases[..k][i] == cases[i] {}
    assert Shortlisting(cases) == Shortlisting(cases[..k]) + if cases[k].world.shortlisted then {k} else {};
  }

  lemma PricedSelectionCovers(n: nat, repairs: nat, judging: bool)
    ensures n * PerQuestion(repairs, judging, false) + n == n * PerQuestion(repairs, judging, true)
  {}

  lemma {:induction false} ShortlistsGrow(cases: seq<Case>, i: nat)
    requires i <= |cases|
    ensures Shortlists(cases[..i]) <= Shortlists(cases)
  {
    if i < |cases| {
      ShortlistsGrow(cases[..|cases| - 1], i);
      assert cases[..|cases| - 1][..i] == cases[..i];
    } else {
      assert cases[..i] == cases;
    }
  }

  lemma More(a: nat, b: nat, each: nat)
    requires a <= b
    ensures a * each <= b * each && (a > 0 ==> a * each == (a - 1) * each + each)
  {}

  // ---------------------------------------------------------------- the quote

  datatype Item = Item(model: string, calls: nat)

  function CallsIn(items: seq<Item>): nat {
    if items == [] then 0 else CallsIn(items[..|items| - 1]) + items[|items| - 1].calls
  }

  /** One line for the agent, one for shortlisting and one for the judges, when these are priced. */
  method EvalEstimate(agent: string, questions: nat, judge: Option<string>, repairs: nat, selection: Option<string>)
      returns (items: seq<Item>)
    ensures CallsIn(items) == questions * PerQuestion(repairs, judge.Some?, selection.Some?)
    ensures forall i | 0 <= i < |items| :: items[i].model == agent || judge == Some(items[i].model) || selection == Some(items[i].model)
  {
    hide CallsIn;
    items := [Item(agent, questions * (1 + repairs))];
    CallsInAppend([], items[0]);
    assert [] + items == items;
    if selection.Some? {
      CallsInAppend(items, Item(selection.value, questions));
      items := items + [Item(selection.value, questions)];
    }
    if judge.Some? {
      CallsInAppend(items, Item(judge.value, questions * GOLD_MISMATCH_JUDGES));
      items := items + [Item(judge.value, questions * GOLD_MISMATCH_JUDGES)];
    }
    Expand(questions, 1 + repairs, if selection.Some? then 1 else 0, if judge.Some? then GOLD_MISMATCH_JUDGES else 0);
  }

  lemma CallsInAppend(items: seq<Item>, x: Item)
    ensures CallsIn(items + [x]) == CallsIn(items) + x.calls && CallsIn([]) == 0
  {
    assert (items + [x])[..|items|] == items;
  }

  lemma Expand(n: nat, a: nat, b: nat, c: nat)
    ensures n * (a + b + c) == n * a + n * b + n * c
  {}

  /** A row that spends everything: the last repair runs, disagrees with gold, and is judged. */
  function Costliest(settings: Settings, shortlisted: bool): Case {
    Case(Some("gold"), "",
         World(shortlisted, Some(Context("question", [], NO_USAGE)),
               (k: nat) => Reply("", if k < settings.repairs then Err("unreadable") else Ok(Generation("", "query", [])), NO_USAGE),
               (k: nat) => Passed, (k: nat) => Rows([]), None),
         Some(false), (k: nat) => Ballot(None, NO_USAGE))
  }

  function CostliestRow(settings: Settings): Scored {
    Scored(ManualReview, settings.repairs + 1, NO_USAGE, if settings.judging then Some(ManualReview) else None, [], NO_USAGE)
  }

  lemma {:induction false} NothingSpent(w: World, n: nat)
    requires forall k: nat :: w.reply(k).Reply? && w.reply(k).usage == NO_USAGE
    ensures UsageOf(w, NO_USAGE, n) == NO_USAGE
  {
    if n > 0 {
      NothingSpent(w, n - 1);
    }
  }

  lemma {:induction false} NoVotes(ballot: nat -> Ballot, n: nat)
    requires forall k: nat :: ballot(k).Ballot? && ballot(k).vote.None? && ballot(k).usage == NO_USAGE
    ensures Votes(ballot, n) == [] && JudgeUsage(ballot, NO_USAGE, n) == NO_USAGE
  {
    if n > 0 {
      NoVotes(ballot, n - 1);
    }
  }

  lemma CostliestIsExplained(settings: Settings, shortlisted: bool)
    ensures Explained(Costliest(settings, shortlisted), settings, CostliestRow(settings))
    ensures RowCalls(Costliest(settings, shortlisted), settings, CostliestRow(settings)) == PerQuestion(settings.repairs, settings.judging, shortlisted)
  {
    hide EventsOf, Conversation, UsageOf, Votes, JudgeUsage, Start;
    var c := Costliest(settings, shortlisted);
    var w, n := c.world, settings.repairs + 1;
    var context := w.context.value;
    NothingSpent(w, n);
    NoVotes(c.ballot, GOLD_MISMATCH_JUDGES);
    var answer := SuccessAt(w, context, settings.repairs, false);
    var events := Start(w) + EventsOf(w, context.user, n) + [];
    assert Ended(w, context, settings.repairs, false, Ok(answer), events, n);
    assert RowOf(c, settings, answer, CostliestRow(settings));
  }

  /** The quote is exact in the worst case, and leaving the selection model out of it misses exactly
    * one call for each question of such a run. */
  lemma {:induction false} QuoteIsAttained(questions: nat, settings: Settings, shortlisted: bool)
    ensures var cases := seq(questions, i => Costliest(settings, shortlisted));
      var rows := seq(questions, i => CostliestRow(settings));
      && (forall i: nat | i < questions :: Explained(cases[i], settings, rows[i]))
      && TotalCalls(cases, settings, rows) == questions * PerQuestion(settings.repairs, settings.judging, shortlisted)
      && TotalCalls(cases, settings, rows)
         == questions * PerQuestion(settings.repairs, settings.judging, false) + (if shortlisted then questions else 0)
  {
    hide Explained, RowCalls, Costliest, CostliestRow;
    CostliestIsExplained(settings, shortlisted);
    var cases, rows := seq(questions, i => Costliest(settings, shortlisted)), seq(questions, i => CostliestRow(settings));
    if questions > 0 {
      QuoteIsAttained(questions - 1, settings, shortlisted);
      assert cases[..questions - 1] == seq(questions - 1, i => Costliest(settings, shortlisted));
      assert rows[..questions - 1] == seq(questions - 1, i => CostliestRow(settings));
      More(questions, questions, PerQuestion(settings.repairs, settings.judging, shortlisted));
      More(questions, questions, PerQuestion(settings.repairs, settings.judging, false));
    }
  }

  /** The world is one that narrowing the schema by the strategy leads to. */
  ghost predicate NarrowedBy(w: World, strategy: Selection.Strategy) {
    exists shortlist :: Compiled(w, strategy, shortlist)
  }

  /** A finished run of an evaluation whose selection strategy is that one. */
  ghost predicate IsRun(cases: seq<Case>, settings: Settings, rows: seq<Scored>, strategy: Selection.Strategy) {
    |rows| == |cases| && forall i: nat | i < |cases| :: NarrowedBy(cases[i].world, strategy) && Explained(cases[i], settings, rows[i])
  }

  lemma RowIsQuoted(c: Case, settings: Settings, row: Scored)
    requires Explained(c, settings, row)
    ensures RowCalls(c, settings, row) <= PerQuestion(settings.repairs, settings.judging, c.world.shortlisted)
  {
    hide EventsOf, UsageOf, LastGeneration, Offered, Panel, AttemptOf;
    var answer, events, n :|
      Ended(c.world, c.world.context.value, settings.repairs, false, Ok(answer), events, n) && RowOf(c, settings, answer, row);
    CallsOfRun(c.world, c.world.context.value, settings.repairs, false, Ok(answer), events, n);
  }

  lemma {:induction false} RunIsQuoted(cases: seq<Case>, settings: Settings, rows: seq<Scored>, strategy: Selection.Strategy)
    requires IsRun(cases, settings, rows, strategy)
    ensures TotalCalls(cases, settings, rows) <= |cases| * PerQuestion(settings.repairs, settings.judging, Selecting(strategy))
  {
    hide Explained, RowCalls, PerQuestion;
    if cases != [] {
      var k := |cases| - 1;
      RunIsQuoted(cases[..k], settings, rows[..k], strategy);
      RowIsQuoted(cases[k], settings, rows[k]);
      More(|cases|, |cases|, PerQuestion(settings.repairs, settings.judging, Selecting(strategy)));
    }
  }

  /** The estimate without a selection model never under-reads exactly when the strategy does not shortlist;
    * with one, it never does. */
  lemma QuoteWithoutSelectionHoldsIff(questions: nat, settings: Settings, strategy: Selection.Strategy)
    requires questions > 0
    ensures (forall cases: seq<Case>, rows | |cases| == questions && IsRun(cases, settings, rows, strategy) ::
               TotalCalls(cases, settings, rows) <= questions * PerQuestion(settings.repairs, settings.judging, false))
      <==> !Selecting(strategy)
    ensures forall cases: seq<Case>, rows | |cases| == questions && IsRun(cases, settings, rows, strategy) ::
      TotalCalls(cases, settings, rows) <= questions * PerQuestion(settings.repairs, settings.judging, true)
  {
    hide Explained, TotalCalls, PerQuestion, IsRun;
    PricedSelectionCovers(questions, settings.repairs, settings.judging);
    forall cases: seq<Case>, rows | |cases| == questions && IsRun(cases, settings, rows, strategy)
      ensures |rows| == |cases|
      ensures TotalCalls(cases, settings, rows) <= questions * PerQuestion(settings.repairs, settings.judging, Selecting(strategy))
    {
      SameLength(cases, settings, rows, strategy);
      RunIsQuoted(cases, settings, rows, strategy);
    }
    if Selecting(strategy) {
      QuoteIsAttained(questions, settings, true);
      CostliestIsARun(questions, settings, strategy);
    }
  }

  lemma SameLength(cases: seq<Case>, settings: Settings, rows: seq<Scored>, strategy: Selection.Strategy)
    requires IsRun(cases, settings, rows, strategy)
    ensures |rows| == |cases|
  {}

  lemma CostliestIsARun(questions: nat, settings: Settings, strategy: Selection.Strategy)
    ensures IsRun(seq(questions, i => Costliest(settings, Selecting(strategy))), settings,
                  seq(questions, i => CostliestRow(settings)), strategy)
  {
    hide Explained;
    CostliestIsExplained(settings, Selecting(strategy));
    assert Compiled(Costliest(settings, Selecting(strategy)).world, strategy, Selection.Named([], NO_USAGE));
  }
}

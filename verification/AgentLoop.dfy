/** Answering one question: generate, validate, execute, and repair a bounded number of times. */
module AgentLoop {
  import opened Wrappers
  import opened Cost
  import opened Sums
  import Selection

  datatype Message = User(text: string) | Assistant(text: string)

  datatype Generation = Generation(plan: string, sql: string, usedAssets: seq<string>)

  /** What one paid call comes back with; `parsed` fails when the answer misses the schema. */
  datatype Reply = Reply(raw: string, parsed: Result<Generation, string>, usage: Usage) | NoReply

  /** `EXPLAIN` on generated SQL. An error of another kind leaves the loop. */
  datatype Check = Passed | Rejected(error: string) | CheckCrashed

  datatype Execution = Rows(rows: seq<seq<string>>) | ExecutionFailed(error: string)

  datatype Context = Context(user: string, offeredAssets: seq<string>, usage: Usage)

  /** Whatever the models and the database do: the outcome of each call in the order they are made.
    * `shortlisted` says whether compiling the context paid for a table-shortlisting call; the
    * narration's text is already stripped. */
  datatype World = World(shortlisted: bool, context: Option<Context>, reply: nat -> Reply, check: nat -> Check,
                         execution: nat -> Execution, narration: Option<(string, Usage)>)

  datatype Event =
    | Shortlist
    | Generate(messages: seq<Message>)
    | Explain(sql: string)
    | Execute(sql: string)
    | Narrate

  datatype Answer = Answer(plan: string, sql: string, rows: seq<seq<string>>, usedAssets: seq<string>, attempts: nat,
                           repaired: bool, error: Option<string>, usage: Usage, narrationUsage: Usage,
                           narrated: Option<string>)

  datatype Crash = Crash

  const NO_ANSWER := "the model produced no parseable answer"

  function ReparsePrompt(error: string): string {
    "Your previous response could not be read as an answer:\n\n" + error
  }

  function RepairPrompt(error: string): string {
    "That SQL failed with the following error:\n\n" + error
  }

  // ---------------------------------------------------------------- one attempt

  datatype Attempt = Succeeded(rows: seq<seq<string>>) | Failed(error: string, said: string, next: string) | Crashed

  /** The outcome of attempt `k`; a failure carries the two messages it adds to the conversation. */
  function AttemptOf(w: World, k: nat): Attempt {
    match w.reply(k)
    case NoReply => Crashed
    case Reply(raw, Err(e), _) => Failed(e, raw, ReparsePrompt(e))
    case Reply(_, Ok(g), _) =>
      match w.check(k)
      case CheckCrashed => Crashed
      case Rejected(e) => Failed(e, g.sql, RepairPrompt(e))
      case Passed =>
        match w.execution(k)
        case ExecutionFailed(e) => Failed(e, g.sql, RepairPrompt(e))
        case Rows(rows) => Succeeded(rows)
  }

  /** The attempt is answered readably, passes `EXPLAIN`, and its query runs. */
  predicate Works(w: World, k: nat) {
    w.reply(k).Reply? && w.reply(k).parsed.Ok? && w.check(k).Passed? && w.execution(k).Rows?
  }

  /** What the model is shown of a failed attempt: why it could not be read, why the query was rejected, or
    * why it failed. */
  function Complaint(w: World, k: nat): Option<string> {
    if !w.reply(k).Reply? then None
    else if w.reply(k).parsed.Err? then Some(w.reply(k).parsed.error)
    else if w.check(k).Rejected? then Some(w.check(k).error)
    else if w.check(k).Passed? && w.execution(k).ExecutionFailed? then Some(w.execution(k).error)
    else None
  }

  /** An attempt succeeds exactly when it works, with the rows of its query. It fails exactly when there is
    * something to complain about; then the model is reminded of its answer, or of the query it gave, and
    * told the complaint. Any other attempt crashes. */
  lemma AttemptIs(w: World, k: nat)
    ensures AttemptOf(w, k).Succeeded? <==> Works(w, k)
    ensures Works(w, k) ==> Rows(AttemptOf(w, k).rows) == w.execution(k)
    ensures AttemptOf(w, k).Failed? <==> Complaint(w, k).Some?
    ensures Complaint(w, k).Some? ==>
      var attempt, e := AttemptOf(w, k), Complaint(w, k).value;
      && attempt.error == e && |attempt.next| > |e| && attempt.next[|attempt.next| - |e|..] == e
      && attempt.said == if w.reply(k).parsed.Err? then w.reply(k).raw else w.reply(k).parsed.value.sql
  {
    if Complaint(w, k).Some? {
      PromptsEnd(Complaint(w, k).value);
    }
  }

  lemma PromptsEnd(e: string)
    ensures |ReparsePrompt(e)| > |e| && ReparsePrompt(e)[|ReparsePrompt(e)| - |e|..] == e
    ensures |RepairPrompt(e)| > |e| && RepairPrompt(e)[|RepairPrompt(e)| - |e|..] == e
  {}

  predicate Parses(w: World, k: nat) {
    w.reply(k).Reply? && w.reply(k).parsed.Ok?
  }

  /** The conversation sent with attempt `k`, when all earlier ones failed. */
  function Conversation(w: World, user: string, k: nat): seq<Message> {
    if k == 0 then [User(user)] else
      var before := Conversation(w, user, k - 1);
      match AttemptOf(w, k - 1)
      case Failed(_, said, next) => before + [Assistant(said), User(next)]
      case _ => before
  }

  function AttemptEvents(w: World, user: string, k: nat): seq<Event> {
    [Generate(Conversation(w, user, k))]
    + if !Parses(w, k) then []
      else [Explain(w.reply(k).parsed.value.sql)]
           + if w.check(k).Passed? then [Execute(w.reply(k).parsed.value.sql)] else []
  }

  function EventsOf(w: World, user: string, n: nat): seq<Event> {
    if n == 0 then [] else EventsOf(w, user, n - 1) + AttemptEvents(w, user, n - 1)
  }

  function UsageOf(w: World, start: Usage, n: nat): Usage {
    if n == 0 then start else
      var before := UsageOf(w, start, n - 1);
      if w.reply(n - 1).Reply? then before.Plus(w.reply(n - 1).usage) else before
  }

  /** The last of the first `n` replies that could be read. */
  function LastGeneration(w: World, n: nat): Option<Generation> {
    if n == 0 then None
    else if Parses(w, n - 1) then Some(w.reply(n - 1).parsed.value)
    else LastGeneration(w, n - 1)
  }

  function Offered(assets: seq<string>, offered: seq<string>): seq<string> {
    if assets == [] then [] else (if assets[0] in offered then [assets[0]] else []) + Offered(assets[1..], offered)
  }

  predicate AllFail(w: World, n: nat) {
    forall k | 0 <= k < n :: AttemptOf(w, k).Failed?
  }

  /** The answer when attempt `k` is the first to run. */
  function SuccessAt(w: World, c: Context, k: nat, narrate: bool): Answer
    requires AttemptOf(w, k).Succeeded? && (narrate ==> w.narration.Some?)
  {
    var g := w.reply(k).parsed.value;
    Answer(g.plan, g.sql, AttemptOf(w, k).rows, Offered(g.usedAssets, c.offeredAssets), k + 1, k > 0, None,
           UsageOf(w, c.usage, k + 1), if narrate then w.narration.value.1 else NO_USAGE,
           if narrate && w.narration.value.0 != "" then Some(w.narration.value.0) else None)
  }

  /** The answer when all `n` attempts failed. */
  function Exhausted(w: World, c: Context, n: nat): Answer
    requires AllFail(w, n)
  {
    var last := LastGeneration(w, n);
    Answer(if last.Some? then last.value.plan else "", if last.Some? then last.value.sql else "", [],
           if last.Some? then last.value.usedAssets else [], n, n > 1,
           Some(if n > 0 then AttemptOf(w, n - 1).error else NO_ANSWER), UsageOf(w, c.usage, n), NO_USAGE, None)
  }

  function Start(w: World): seq<Event> {
    if w.shortlisted then [Shortlist] else []
  }

  function Tries(repairs: int): nat {
    if repairs < 0 then 0 else repairs + 1
  }

  /** How a call can end: the first attempt that runs, the first that crashes, or none. */
  predicate Ended(w: World, c: Context, repairs: int, narrate: bool, result: Result<Answer, Crash>, events: seq<Event>, n: nat) {
    n <= Tries(repairs) &&
    if n > 0 && AttemptOf(w, n - 1).Succeeded? then
      && AllFail(w, n - 1)
      && events == Start(w) + EventsOf(w, c.user, n) + (if narrate then [Narrate] else [])
      && result == if narrate && w.narration.None? then Err(Crash) else Ok(SuccessAt(w, c, n - 1, narrate))
    else if n > 0 && AttemptOf(w, n - 1).Crashed? then
      AllFail(w, n - 1) && events == Start(w) + EventsOf(w, c.user, n) && result == Err(Crash)
    else
      n == Tries(repairs) && AllFail(w, n) && events == Start(w) + EventsOf(w, c.user, n) && result == Ok(Exhausted(w, c, n))
  }

  lemma Unfold(w: World, c: Context, k: nat)
    ensures EventsOf(w, c.user, k + 1) == EventsOf(w, c.user, k) + AttemptEvents(w, c.user, k)
    ensures w.reply(k).Reply? ==> UsageOf(w, c.usage, k + 1) == UsageOf(w, c.usage, k).Plus(w.reply(k).usage)
    ensures LastGeneration(w, k + 1) == if Parses(w, k) then Some(w.reply(k).parsed.value) else LastGeneration(w, k)
    ensures !Parses(w, k) ==> AttemptEvents(w, c.user, k) == [Generate(Conversation(w, c.user, k))]
    ensures AttemptOf(w, k).Failed? ==>
      Conversation(w, c.user, k + 1) == Conversation(w, c.user, k) + [Assistant(AttemptOf(w, k).said), User(AttemptOf(w, k).next)]
  {
    assert EventsOf(w, c.user, k + 1) == EventsOf(w, c.user, k + 1 - 1) + AttemptEvents(w, c.user, k + 1 - 1);
  }

  lemma Begin(w: World, c: Context)
    ensures Conversation(w, c.user, 0) == [User(c.user)] && UsageOf(w, c.usage, 0) == c.usage
    ensures LastGeneration(w, 0) == None && EventsOf(w, c.user, 0) == []
  {}

  lemma EndsInCrash(w: World, c: Context, repairs: int, narrate: bool, k: nat)
    requires AllFail(w, k) && k < Tries(repairs) && AttemptOf(w, k).Crashed?
    ensures Ended(w, c, repairs, narrate, Err(Crash), Start(w) + EventsOf(w, c.user, k + 1), k + 1)
  {}

  lemma EndsInSuccess(w: World, c: Context, repairs: int, narrate: bool, result: Result<Answer, Crash>, events: seq<Event>, k: nat)
    requires AllFail(w, k) && k < Tries(repairs) && AttemptOf(w, k).Succeeded?
    requires events == Start(w) + EventsOf(w, c.user, k + 1) + if narrate then [Narrate] else []
    requires result == if narrate && w.narration.None? then Err(Crash) else Ok(SuccessAt(w, c, k, narrate))
    ensures Ended(w, c, repairs, narrate, result, events, k + 1)
  {}

  lemma EndsExhausted(w: World, c: Context, repairs: int, narrate: bool)
    requires AllFail(w, Tries(repairs))
    ensures Ended(w, c, repairs, narrate, Ok(Exhausted(w, c, Tries(repairs))), Start(w) + EventsOf(w, c.user, Tries(repairs)),
                  Tries(repairs))
  {}

  /** Generate, validate and execute once. */
  method TryOnce(w: World, user: string, k: nat, messages: seq<Message>)
      returns (attempt: Attempt, generation: Option<Generation>, spent: Usage, seen: seq<Event>)
    requires messages == Conversation(w, user, k)
    ensures attempt == AttemptOf(w, k) && seen == AttemptEvents(w, user, k)
    ensures generation == if Parses(w, k) then Some(w.reply(k).parsed.value) else None
    ensures w.reply(k).Reply? ==> spent == w.reply(k).usage
    ensures !attempt.Crashed? ==> w.reply(k).Reply?
    ensures attempt.Succeeded? ==> generation.Some?
  {
    hide Conversation, ReparsePrompt, RepairPrompt;
    attempt, generation, spent, seen := Crashed, None, NO_USAGE, [Generate(messages)];
    match w.reply(k) {
      case NoReply =>
      case Reply(raw, parsed, usage) =>
        spent := usage;
        if parsed.Err? {
          attempt := Failed(parsed.error, raw, ReparsePrompt(parsed.error));
        } else {
          generation := Some(parsed.value);
          var ran;
          attempt, ran := ValidateAndExecute(w, k, parsed.value.sql);
          seen := seen + ran;
        }
    }
  }

  method ValidateAndExecute(w: World, k: nat, sql: string) returns (attempt: Attempt, ran: seq<Event>)
    requires Parses(w, k) && w.reply(k).parsed.value.sql == sql
    ensures ran == [Explain(sql)] + if w.check(k).Passed? then [Execute(sql)] else []
    ensures attempt == AttemptOf(w, k)
  {
    ran := [Explain(sql)];
    match w.check(k) {
      case CheckCrashed => attempt := Crashed;
      case Rejected(e) => attempt := Failed(e, sql, RepairPrompt(e));
      case Passed =>
        ran := ran + [Execute(sql)];
        match w.execution(k) {
          case ExecutionFailed(e) => attempt := Failed(e, sql, RepairPrompt(e));
          case Rows(rows) => attempt := Succeeded(rows);
        }
    }
  }

  method Ask(w: World, repairs: int, narrate: bool)
      returns (result: Result<Answer, Crash>, events: seq<Event>, ghost n: nat)
    ensures w.context.None? ==> result == Err(Crash) && events == Start(w)
    ensures w.context.Some? ==> Ended(w, w.context.value, repairs, narrate, result, events, n)
  {
    hide Ended, Offered, EventsOf, UsageOf, LastGeneration, Conversation, Start, AttemptEvents, AttemptOf;
    n := 0;
    events := Start(w);
    if w.context.None? {
      return Err(Crash), events, n;
    }
    var c := w.context.value;
    Begin(w, c);
    var messages := [User(c.user)];
    var usage := c.usage;
    var attempts: seq<string> := [];
    var last: Option<Generation> := None;
    for k := 0 to Tries(repairs)
      invariant AllFail(w, k) && |attempts| == k
      invariant messages == Conversation(w, c.user, k)
      invariant usage == UsageOf(w, c.usage, k)
      invariant last == LastGeneration(w, k)
      invariant events == Start(w) + EventsOf(w, c.user, k)
      invariant k > 0 ==> attempts[k - 1] == AttemptOf(w, k - 1).error
    {
      n := k + 1;
      Unfold(w, c, k);
      var attempt, generation, spent, seen := TryOnce(w, c.user, k, messages);
      usage := usage.Plus(spent);
      last := if generation.Some? then generation else last;
      events := events + seen;
      assert events == Start(w) + EventsOf(w, c.user, k + 1);
      match attempt {
        case Crashed =>
          EndsInCrash(w, c, repairs, narrate, k);
          return Err(Crash), events, n;
        case Succeeded(rows) =>
          result, events := Succeed(w, c, repairs, narrate, k, generation.value, rows, usage, events);
          return;
        case Failed(error, said, next) =>
          attempts := attempts + [error];
          messages := messages + [Assistant(said), User(next)];
      }
    }
    n := Tries(repairs);
    result := Ok(Answer(if last.Some? then last.value.plan else "", if last.Some? then last.value.sql else "", [],
                        if last.Some? then last.value.usedAssets else [], |attempts|, |attempts| > 1,
                        Some(if attempts != [] then attempts[|attempts| - 1] else NO_ANSWER), usage, NO_USAGE, None));
    EndsExhausted(w, c, repairs, narrate);
  }

  /** Narrate on request, and cite only what was offered. */
  method Succeed(w: World, c: Context, repairs: int, narrate: bool, k: nat, g: Generation, rows: seq<seq<string>>,
                 usage: Usage, before: seq<Event>) returns (result: Result<Answer, Crash>, events: seq<Event>)
    requires AllFail(w, k) && k < Tries(repairs) && AttemptOf(w, k) == Succeeded(rows)
    requires g == w.reply(k).parsed.value && usage == UsageOf(w, c.usage, k + 1)
    requires before == Start(w) + EventsOf(w, c.user, k + 1)
    ensures Ended(w, c, repairs, narrate, result, events, k + 1)
  {
    hide Ended, Offered, EventsOf, UsageOf, Start;
    events := before;
    var narrated: Option<string>, narrationUsage := None, NO_USAGE;
    if narrate {
      events := events + [Narrate];
      if w.narration.None? {
        EndsInSuccess(w, c, repairs, narrate, Err(Crash), events, k);
        return Err(Crash), events;
      }
      narrationUsage := w.narration.value.1;
      narrated := if w.narration.value.0 != "" then Some(w.narration.value.0) else None;
    }
    var cited := Offered(g.usedAssets, c.offeredAssets);
    result := Ok(Answer(g.plan, g.sql, rows, cited, k + 1, k > 0, None, usage, narrationUsage, narrated));
    EndsInSuccess(w, c, repairs, narrate, result, events, k);
  }

  // ---------------------------------------------------------------- what a run keeps

  function Generates(events: seq<Event>): nat {
    if events == [] then 0
    else Generates(events[..|events| - 1]) + if events[|events| - 1].Generate? then 1 else 0
  }

  /** Paid calls of any kind. */
  function Calls(events: seq<Event>): nat {
    if events == [] then 0 else
      var last := events[|events| - 1];
      Calls(events[..|events| - 1]) + if last.Generate? || last.Shortlist? || last.Narrate? then 1 else 0
  }

  lemma {:induction false} CallsConcat(a: seq<Event>, b: seq<Event>)
    ensures Calls(a + b) == Calls(a) + Calls(b) && Generates(a + b) == Generates(a) + Generates(b)
  {
    if b == [] {
      assert a + b == a;
    } else {
      assert (a + b)[..|a + b| - 1] == a + b[..|b| - 1];
      CallsConcat(a, b[..|b| - 1]);
    }
  }

  lemma AttemptCallsOnce(w: World, user: string, k: nat)
    ensures Calls(AttemptEvents(w, user, k)) == 1 && Generates(AttemptEvents(w, user, k)) == 1
  {
    hide Conversation;
    var g, rest := [Generate(Conversation(w, user, k))], AttemptEvents(w, user, k)[1..];
    assert AttemptEvents(w, user, k) == g + rest;
    CallsConcat(g, rest);
    if |rest| == 2 {
      assert rest[..1][..0] == [];
      CallsConcat(rest[..1], rest[1..]);
      assert rest == rest[..1] + rest[1..];
    }
  }

  lemma NoEvents(w: World, user: string)
    ensures EventsOf(w, user, 0) == [] && Calls([]) == 0 && Generates([]) == 0
  {}

  lemma NextEvents(w: World, user: string, k: nat)
    ensures EventsOf(w, user, k + 1) == EventsOf(w, user, k) + AttemptEvents(w, user, k)
  {
    hide AttemptEvents;
    assert k + 1 - 1 == k;
  }

  lemma {:induction false} CallsOfEvents(w: World, user: string, n: nat)
    ensures Calls(EventsOf(w, user, n)) == n && Generates(EventsOf(w, user, n)) == n
  {
    hide EventsOf, AttemptEvents, Calls, Generates;
    if n == 0 {
      NoEvents(w, user);
    } else {
      CallsOfEvents(w, user, n - 1);
      NextEvents(w, user, n - 1);
      AttemptCallsOnce(w, user, n - 1);
      CallsConcat(EventsOf(w, user, n - 1), AttemptEvents(w, user, n - 1));
    }
  }

  /** User and assistant turns alternate, and the model always speaks next. */
  predicate Alternates(messages: seq<Message>) {
    |messages| % 2 == 1 && forall i | 0 <= i < |messages| :: messages[i].User? <==> i % 2 == 0
  }

  /** Each attempt sees everything before it, and ends with the error it has to repair. */
  lemma {:induction false} ConversationGrows(w: World, user: string, j: nat, k: nat)
    requires j <= k && AllFail(w, k)
    ensures Alternates(Conversation(w, user, k)) && |Conversation(w, user, k)| == 2 * k + 1
    ensures forall i | 0 <= i <= 2 * k :: Conversation(w, user, k)[i].User? <==> i % 2 == 0
    ensures Conversation(w, user, j) <= Conversation(w, user, k)
    ensures k > 0 ==> Conversation(w, user, k)[2 * k] == User(AttemptOf(w, k - 1).next)
  {
    hide AttemptOf;
    if j < k {
      ConversationGrows(w, user, j, k - 1);
    } else if k > 0 {
      ConversationGrows(w, user, j - 1, k - 1);
    }
  }

  /** A query runs only right after passing `EXPLAIN`, right after being generated. */
  ghost predicate Guarded(w: World, events: seq<Event>, i: nat)
    requires i < |events|
  {
    events[i].Execute? ==>
      var k := Generates(events[..i]) - 1;
      && i >= 2 && k >= 0
      && events[i - 1] == Explain(events[i].sql) && w.check(k).Passed?
      && events[i - 2].Generate? && Parses(w, k) && w.reply(k).parsed.value.sql == events[i].sql
  }

  lemma GuardedConcat(w: World, a: seq<Event>, b: seq<Event>, i: nat)
    requires i < |a| && Guarded(w, a, i)
    ensures Guarded(w, a + b, i)
  {
    assert (a + b)[..i] == a[..i];
  }

  lemma AttemptIsGuarded(w: World, user: string, before: seq<Event>, k: nat, i: nat)
    requires Generates(before) == k
    requires |before| <= i < |before| + |AttemptEvents(w, user, k)|
    ensures Guarded(w, before + AttemptEvents(w, user, k), i)
    ensures (before + AttemptEvents(w, user, k))[i].Generate? ==>
      (before + AttemptEvents(w, user, k))[i].messages == Conversation(w, user, k)
  {
    hide Conversation;
    var attempt := AttemptEvents(w, user, k);
    if i == |before| + 2 {
      assert (before + attempt)[..i] == before + attempt[..2];
      CallsConcat(before, attempt[..2]);
      assert attempt[..2][..1] == [attempt[0]];
      assert Generates([attempt[0]]) == 1;
    }
  }

  lemma NoneGenerated(start: seq<Event>)
    requires start == [] || start == [Shortlist]
    ensures Generates(start) == 0
  {}

  lemma {:induction false} EventsAreGuarded(w: World, user: string, start: seq<Event>, n: nat, i: nat)
    requires AllFail(w, if n == 0 then 0 else n - 1) && (start == [] || start == [Shortlist])
    requires i < |start + EventsOf(w, user, n)|
    ensures Guarded(w, start + EventsOf(w, user, n), i)
    ensures (start + EventsOf(w, user, n))[i].Generate? ==> Alternates((start + EventsOf(w, user, n))[i].messages)
  {
    hide AttemptOf, EventsOf, AttemptEvents, Guarded, Alternates, Conversation, Generates, Calls;
    NoEvents(w, user);
    if n == 0 {
      StartIsGuarded(w, start, i);
    } else {
      var before := start + EventsOf(w, user, n - 1);
      NextEvents(w, user, n - 1);
      assert before + AttemptEvents(w, user, n - 1) == start + EventsOf(w, user, n);
      if i < |before| {
        EventsAreGuarded(w, user, start, n - 1, i);
        GuardedConcat(w, before, AttemptEvents(w, user, n - 1), i);
      } else {
        NoneGenerated(start);
        CallsConcat(start, EventsOf(w, user, n - 1));
        CallsOfEvents(w, user, n - 1);
        AttemptIsGuarded(w, user, before, n - 1, i);
        ConversationGrows(w, user, n - 1, n - 1);
      }
    }
  }

  lemma StartIsGuarded(w: World, start: seq<Event>, i: nat)
    requires start == [Shortlist] && i == 0
    ensures Guarded(w, start, i) && !start[i].Generate? && start + [] == start
  {}

  lemma {:induction false} OfferedIsFilter(assets: seq<string>, offered: seq<string>, x: string)
    ensures x in Offered(assets, offered) <==> x in assets && x in offered
  {
    if assets != [] {
      OfferedIsFilter(assets[1..], offered, x);
      assert assets == [assets[0]] + assets[1..];
    }
  }

  /** The calls printed up front for one question. */
  function Quote(repairs: int, narrate: bool): int {
    1 + repairs + if narrate then 1 else 0
  }

  /** The calls the loop and the narration can make. */
  function MostCalls(repairs: int, narrate: bool): nat {
    Tries(repairs) + if narrate then 1 else 0
  }

  /** However the models and the database behave: at most the quoted calls and the shortlist, every
    * conversation well-formed, no query run unvalidated, and no token unaccounted for. */
  lemma EveryRunIsBounded(w: World, c: Context, repairs: int, narrate: bool, result: Result<Answer, Crash>,
                          events: seq<Event>, n: nat)
    requires Ended(w, c, repairs, narrate, result, events, n)
    ensures Calls(events) <= MostCalls(repairs, narrate) + if w.shortlisted then 1 else 0
    ensures repairs >= -1 ==> MostCalls(repairs, narrate) == Quote(repairs, narrate)
    ensures forall i: nat | i < |events| :: Guarded(w, events, i)
    ensures forall i: nat | i < |events| && events[i].Generate? :: Alternates(events[i].messages)
    ensures result.Ok? ==> result.value.attempts == Generates(events) && result.value.usage == UsageOf(w, c.usage, Generates(events))
  {
    hide AttemptOf, Conversation, Guarded, Alternates, UsageOf, EventsOf, LastGeneration, Offered;
    var core, tail := Start(w) + EventsOf(w, c.user, n), events[|Start(w) + EventsOf(w, c.user, n)|..];
    assert events == core + tail;
    assert tail == [] || (narrate && tail == [Narrate]);
    CallsConcat(core, tail);
    CallsConcat(Start(w), EventsOf(w, c.user, n));
    CallsOfEvents(w, c.user, n);
    forall i: nat | i < |events| ensures Guarded(w, events, i) && (events[i].Generate? ==> Alternates(events[i].messages)) {
      if i < |core| {
        EventsAreGuarded(w, c.user, Start(w), n, i);
        GuardedConcat(w, core, tail, i);
      } else {
        NarrationIsGuarded(w, events, i);
      }
    }
  }

  /** In every conversation sent, the user speaks first and last and in turn with the model. */
  lemma TurnsAlternate(w: World, c: Context, repairs: int, narrate: bool, result: Result<Answer, Crash>,
                       events: seq<Event>, n: nat, i: nat, j: nat)
    requires Ended(w, c, repairs, narrate, result, events, n)
    requires i < |events| && events[i].Generate? && j < |events[i].messages|
    ensures |events[i].messages| % 2 == 1 && (events[i].messages[j].User? <==> j % 2 == 0)
  {
    hide Ended;
    EveryRunIsBounded(w, c, repairs, narrate, result, events, n);
    assert Alternates(events[i].messages);
  }

  lemma NarrationIsGuarded(w: World, events: seq<Event>, i: nat)
    requires i < |events| && events[i].Narrate?
    ensures Guarded(w, events, i)
  {}

  lemma StartCalls(w: World)
    ensures Calls(Start(w)) == (if w.shortlisted then 1 else 0) && Generates(Start(w)) == 0
  {
    if w.shortlisted {
      assert Start(w)[..0] == [];
    }
  }

  /** Exactly which calls a run pays for. */
  lemma CallsOfRun(w: World, c: Context, repairs: int, narrate: bool, result: Result<Answer, Crash>, events: seq<Event>,
                   n: nat)
    requires Ended(w, c, repairs, narrate, result, events, n)
    ensures Calls(events)
      == n + (if w.shortlisted then 1 else 0) + (if narrate && n > 0 && AttemptOf(w, n - 1).Succeeded? then 1 else 0)
    ensures result.Ok? ==> result.value.attempts == n
  {
    hide AttemptOf, EventsOf, UsageOf, LastGeneration, Offered;
    var core := Start(w) + EventsOf(w, c.user, n);
    var tail := events[|core|..];
    assert events == core + tail && (tail == [] || tail == [Narrate]);
    StartCalls(w);
    CallsConcat(core, tail);
    CallsConcat(Start(w), EventsOf(w, c.user, n));
    CallsOfEvents(w, c.user, n);
    assert [Narrate][..0] == [];
  }

  /** Every attempt up to the last allowed one fails, and that one succeeds if it is to be narrated. */
  predicate UsesEveryCall(w: World, repairs: int, narrate: bool) {
    var tries := Tries(repairs);
    && (tries > 0 ==> AllFail(w, tries - 1))
    && (narrate ==> tries > 0 && AttemptOf(w, tries - 1).Succeeded?)
  }

  /** The quote has no line for shortlisting: a run exceeds it exactly when it shortlists and also uses
    * every call that is quoted. (A repair limit below -1, which no configuration allows, makes the quote
    * negative or zero while nothing is attempted.) */
  lemma QuoteIsExceededIff(w: World, c: Context, repairs: int, narrate: bool, result: Result<Answer, Crash>,
                           events: seq<Event>, n: nat)
    requires Ended(w, c, repairs, narrate, result, events, n)
    ensures repairs >= -1 ==> (Calls(events) > Quote(repairs, narrate) <==> w.shortlisted && UsesEveryCall(w, repairs, narrate))
    ensures repairs < -1 ==> (Calls(events) > Quote(repairs, narrate) <==> !narrate || repairs < -2 || w.shortlisted)
  {
    hide EventsOf, UsageOf, LastGeneration, Offered, Calls, Start;
    CallsOfRun(w, c, repairs, narrate, result, events, n);
    if n < Tries(repairs) {
      assert !AttemptOf(w, n - 1).Failed?;
    }
  }

  /** A model that shortlists, claims an asset nobody offered, and writes SQL that never validates. */
  function Stubborn(): World {
    World(true, Some(Context("question", [], NO_USAGE)),
          (k: nat) => Reply("", Ok(Generation("", "query", ["asset"])), NO_USAGE),
          (k: nat) => Rejected("no such table"), (k: nat) => Rows([]), None)
  }

  /** It costs one call more than quoted, however many repairs are allowed, and its answer cites the
    * asset. */
  lemma StubbornExceedsTheQuote(repairs: nat)
    ensures var w := Stubborn(); var c := w.context.value; var n := repairs + 1;
      && AllFail(w, n)
      && Ended(w, c, repairs, false, Ok(Exhausted(w, c, n)), Start(w) + EventsOf(w, c.user, n), n)
      && Calls(Start(w) + EventsOf(w, c.user, n)) == Quote(repairs, false) + 1
      && Exhausted(w, c, n).usedAssets == ["asset"] && c.offeredAssets == []
  {
    hide EventsOf, UsageOf, Offered, Calls, Start;
    var w, n := Stubborn(), repairs + 1;
    var c := w.context.value;
    EndsExhausted(w, c, repairs, false);
    CallsOfRun(w, c, repairs, false, Ok(Exhausted(w, c, n)), Start(w) + EventsOf(w, c.user, n), n);
    assert Parses(w, n - 1);
  }

  /** Some allowed attempt runs, and all before it fail. */
  ghost predicate Runs(w: World, repairs: int) {
    exists k: nat :: k < Tries(repairs) && AllFail(w, k) && AttemptOf(w, k).Succeeded?
  }

  /** A success cites only assets that were offered. An exhausted call repeats whatever the last
    * readable reply claimed: citations are sound exactly when some attempt runs or no unoffered asset
    * is named by that reply. */
  lemma CitationsAreOfferedIff(w: World, c: Context, repairs: int, narrate: bool, answer: Answer, events: seq<Event>, n: nat)
    requires Ended(w, c, repairs, narrate, Ok(answer), events, n)
    ensures (forall a | a in answer.usedAssets :: a in c.offeredAssets) <==>
      Runs(w, repairs) || LastGeneration(w, Tries(repairs)).None?
      || forall a | a in LastGeneration(w, Tries(repairs)).value.usedAssets :: a in c.offeredAssets
  {
    hide UsageOf, EventsOf, Offered;
    if n > 0 && AttemptOf(w, n - 1).Succeeded? {
      assert Runs(w, repairs);
      forall a | a in answer.usedAssets ensures a in c.offeredAssets {
        OfferedIsFilter(w.reply(n - 1).parsed.value.usedAssets, c.offeredAssets, a);
      }
    } else {
      assert forall k: nat | k < Tries(repairs) :: AttemptOf(w, k).Failed?;
    }
  }

  /** An answer without an error is the result of the query it shows; with one, no attempt ran. */
  lemma AnswerIsTheQuerysResult(w: World, c: Context, repairs: int, narrate: bool, answer: Answer, events: seq<Event>, n: nat)
    requires Ended(w, c, repairs, narrate, Ok(answer), events, n)
    ensures answer.error.None? ==>
      n > 0 && w.execution(n - 1) == Rows(answer.rows) && Execute(answer.sql) in events && AllFail(w, n - 1)
    ensures answer.error.Some? ==> answer.rows == [] && AllFail(w, n) && n == Tries(repairs)
  {
    hide UsageOf, Offered, Conversation;
    if answer.error.None? {
      var attempt := AttemptEvents(w, c.user, n - 1);
      assert attempt[2] == Execute(answer.sql);
      assert EventsOf(w, c.user, n) == EventsOf(w, c.user, n - 1) + attempt;
    }
  }

  /** The whole call over the world: an answer has no error exactly when some allowed attempt works after
    * ones that only drew complaints, and then it is that attempt's. */
  lemma AnswerOverWorld(w: World, c: Context, repairs: int, narrate: bool, answer: Answer, events: seq<Event>, n: nat)
    requires Ended(w, c, repairs, narrate, Ok(answer), events, n)
    ensures answer.attempts == n <= Tries(repairs) && (answer.repaired <==> n > 1)
    ensures answer.error.None? <==> exists k: nat ::
      k < Tries(repairs) && Works(w, k) && forall j: nat | j < k :: Complaint(w, j).Some?
    ensures answer.error.None? ==>
      && n > 0 && Works(w, n - 1)
      && var g := w.reply(n - 1).parsed.value;
      && answer.plan == g.plan && answer.sql == g.sql && Rows(answer.rows) == w.execution(n - 1)
      && (forall a :: a in answer.usedAssets <==> a in g.usedAssets && a in c.offeredAssets)
      && (narrate ==> w.narration.Some? && answer.narrationUsage == w.narration.value.1)
      && answer.narrated == (if narrate && w.narration.value.0 != "" then Some(w.narration.value.0) else None)
      && (!narrate ==> answer.narrationUsage == NO_USAGE)
  {
    hide UsageOf, EventsOf, Offered, AttemptOf, LastGeneration, Complaint, Works, Parses, Start;
    AttemptsAre(w);
    if n > 0 && AttemptOf(w, n - 1).Succeeded? {
      OfferedAre(w.reply(n - 1).parsed.value.usedAssets, c.offeredAssets);
      assert Works(w, n - 1) && forall j: nat | j < n - 1 :: Complaint(w, j).Some?;
    } else {
      assert forall j: nat | j < n :: Complaint(w, j).Some? && !Works(w, j);
    }
  }

  /** An exhausted call carries the last complaint, and repeats its last readable reply. */
  lemma ExhaustedOverWorld(w: World, c: Context, repairs: int, narrate: bool, answer: Answer, events: seq<Event>, n: nat)
    requires Ended(w, c, repairs, narrate, Ok(answer), events, n) && answer.error.Some?
    ensures n == Tries(repairs) && forall j: nat | j < n :: Complaint(w, j).Some?
    ensures answer.rows == [] && answer.narrated == None && answer.narrationUsage == NO_USAGE
    ensures answer.error == if n > 0 then Complaint(w, n - 1) else Some("the model produced no parseable answer")
    ensures forall k: nat | k < n && Parses(w, k) && (forall j: nat | k < j < n :: !Parses(w, j)) ::
      w.reply(k).parsed.value == Generation(answer.plan, answer.sql, answer.usedAssets)
    ensures (forall k: nat | k < n :: !Parses(w, k)) ==> answer.plan == answer.sql == "" && answer.usedAssets == []
  {
    hide UsageOf, EventsOf, Offered, AttemptOf, LastGeneration, Complaint, Works, Parses, Start;
    AttemptsAre(w);
    LastIsLast(w, n);
  }

  lemma AttemptsAre(w: World)
    ensures forall k: nat ::
      && (AttemptOf(w, k).Succeeded? <==> Works(w, k)) && (AttemptOf(w, k).Failed? <==> Complaint(w, k).Some?)
      && (Works(w, k) ==> w.reply(k).Reply? && w.reply(k).parsed.Ok? && Rows(AttemptOf(w, k).rows) == w.execution(k))
      && (Complaint(w, k).Some? ==> w.reply(k).Reply? && AttemptOf(w, k).error == Complaint(w, k).value)
  {}

  lemma OfferedAre(assets: seq<string>, offered: seq<string>)
    ensures forall a :: a in Offered(assets, offered) <==> a in assets && a in offered
  {
    forall a ensures a in Offered(assets, offered) <==> a in assets && a in offered {
      OfferedIsFilter(assets, offered, a);
    }
  }

  lemma {:induction false} LastIsLast(w: World, n: nat)
    ensures LastGeneration(w, n).None? <==> forall k: nat | k < n :: !Parses(w, k)
    ensures forall k: nat | k < n && Parses(w, k) && (forall j: nat | k < j < n :: !Parses(w, j)) ::
      LastGeneration(w, n) == Some(w.reply(k).parsed.value)
  {
    if n > 0 {
      LastIsLast(w, n - 1);
    }
  }

  /** Every attempt is paid for, on top of what compiling the context cost. */
  lemma {:induction false} AttemptsArePaid(w: World, start: Usage, n: nat, r: ModelRate)
    requires forall k: nat | k < n :: w.reply(k).Reply?
    ensures PriceAt(UsageOf(w, start, n), r)
      == PriceAt(start, r) + Sum<nat>((k: nat) => if w.reply(k).Reply? then PriceAt(w.reply(k).usage, r) else 0.0, seq(n, k => k))
  {
    hide PriceAt;
    if n > 0 {
      AttemptsArePaid(w, start, n - 1, r);
      PriceAtIsAdditive(UsageOf(w, start, n - 1), w.reply(n - 1).usage, r);
      assert seq(n, k => k) == seq(n - 1, k => k) + [n - 1];
      SumAppend<nat>((k: nat) => if w.reply(k).Reply? then PriceAt(w.reply(k).usage, r) else 0.0, seq(n - 1, k => k), n - 1);
    }
  }

  // ---------------------------------------------------------------- with the schema narrowed first

  /** Whether the strategy pays for a shortlisting call. */
  predicate Selecting(strategy: Selection.Strategy) {
    strategy.Llm? || strategy.LlmLexical?
  }

  /** The world as the loop meets it: the prompt is rendered from the selected tables, and the
    * shortlist's tokens come with the context. */
  ghost predicate Compiled(w: World, strategy: Selection.Strategy, shortlist: Selection.Shortlist) {
    && w.shortlisted == Selecting(strategy)
    && (w.context.None? <==> Selecting(strategy) && shortlist.Unreadable?)
    && (w.context.Some? ==> w.context.value.usage == if Selecting(strategy) then shortlist.usage else NO_USAGE)
  }

  /** A whole call: the schema is narrowed, then the question answered. Only a shortlisting strategy
    * adds a call, and its tokens are part of the answer's usage. */
  method AskNarrowed(question: set<Selection.Token>, tables: seq<Selection.Table>, strategy: Selection.Strategy,
                     maxTables: Option<int>, shortlist: Selection.Shortlist, render: seq<Selection.Name> -> string,
                     offered: seq<string>, models: World, repairs: int, narrate: bool)
      returns (result: Result<Answer, Crash>, events: seq<Event>, w: World, ghost n: nat)
    ensures w == models.(shortlisted := w.shortlisted, context := w.context) && Compiled(w, strategy, shortlist)
    ensures w.context.None? ==> result == Err(Crash) && Calls(events) == 1
    ensures w.context.Some? ==> Ended(w, w.context.value, repairs, narrate, result, events, n)
    ensures Calls(events) <= MostCalls(repairs, narrate) + if Selecting(strategy) then 1 else 0
    ensures result.Ok? ==>
      result.value.usage == UsageOf(models, if Selecting(strategy) then shortlist.usage else NO_USAGE, result.value.attempts)
  {
    hide Ended, UsageOf, Calls, MostCalls, Start, Selection.LexicalRank, Selection.InInputOrder, Selection.TopNames, Selection.Take;
    var selected, calls := Selection.SelectContext(question, tables, strategy, maxTables, Some(shortlist));
    var context := if selected.Err? then None else Some(Context(render(selected.value.tables), offered, selected.value.usage));
    w := models.(shortlisted := calls == 1, context := context);
    result, events, n := Ask(w, repairs, narrate);
    StartCalls(w);
    if context.Some? {
      EveryRunIsBounded(w, context.value, repairs, narrate, result, events, n);
      SameReplies(models, w, context.value.usage, Generates(events));
    } else {
      AtLeastNothing(repairs, narrate);
    }
  }

  lemma AtLeastNothing(repairs: int, narrate: bool)
    ensures 0 <= MostCalls(repairs, narrate)
  {}

  lemma {:induction false} SameReplies(a: World, b: World, start: Usage, n: nat)
    requires a.reply == b.reply
    ensures UsageOf(a, start, n) == UsageOf(b, start, n)
  {
    if n > 0 {
      SameReplies(a, b, start, n - 1);
    }
  }
}

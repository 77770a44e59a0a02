/** Coach proposals: exact find/replace edits to one project file, simulated before a report is
  * saved and applied to the working tree later. */
module CoachEdits {
  import opened Wrappers
  import opened Text

  datatype Edit = Edit(find: string, replace: string)

  datatype EditError = AnchorNotFound | AnchorAmbiguous(count: nat)

  function Line(s: string): string {
    if s != "" && s[|s| - 1] == '\n' then s else s + "\n"
  }

  /** One edit: an empty anchor appends after a blank line, any other must occur exactly once. */
  function ApplyOne(text: string, e: Edit): Result<string, EditError> {
    if e.find == "" then
      Ok(if text == "" then Line(e.replace) else Line(text) + "\n" + Line(e.replace))
    else
      var count := Count(text, e.find, 0);
      if count == 0 then Err(AnchorNotFound)
      else if count > 1 then Err(AnchorAmbiguous(count))
      else Ok(ReplaceFirst(text, e.find, e.replace))
  }

  /** An anchored edit changes the anchor and nothing else, and is refused unless the anchor has
    * a leftmost occurrence with none starting at or after its end. */
  lemma AnchoredEditIsLocal(text: string, e: Edit)
    requires e.find != ""
    ensures ApplyOne(text, e).Ok? <==> exists i: nat :: OnlyAt(text, e.find, i)
    ensures ApplyOne(text, e) == Err(AnchorNotFound) <==> forall i: nat :: !OccursAt(text, e.find, i)
    ensures forall i: nat | OnlyAt(text, e.find, i) ::
      text == text[..i] + e.find + text[i + |e.find|..]
      && ApplyOne(text, e) == Ok(text[..i] + e.replace + text[i + |e.find|..])
  {
    CountIsOne(text, e.find);
    forall i: nat | OnlyAt(text, e.find, i)
      ensures text == text[..i] + e.find + text[i + |e.find|..]
      ensures ApplyOne(text, e) == Ok(text[..i] + e.replace + text[i + |e.find|..])
    {
      OnlyAtCountsOne(text, e.find, i);
    }
  }

  /** An append keeps the whole old text, ends its last line and leaves one line blank, and ends the
    * file with a newline; nothing else is added. */
  lemma AppendKeepsOldText(text: string, e: Edit)
    requires e.find == ""
    ensures var gap := if text == "" then "" else if text[|text| - 1] == '\n' then "\n" else "\n\n";
      var end := if e.replace != "" && e.replace[|e.replace| - 1] == '\n' then "" else "\n";
      ApplyOne(text, e) == Ok(text + gap + e.replace + end)
  {
    var gap := if text == "" then "" else if text[|text| - 1] == '\n' then "\n" else "\n\n";
    var end := if e.replace != "" && e.replace[|e.replace| - 1] == '\n' then "" else "\n";
    assert text != "" ==> Line(text) + "\n" == text + gap;
    assert text == "" ==> text + gap == "";
    assert Line(e.replace) == e.replace + end;
    assert text + gap + e.replace + end == (text + gap) + Line(e.replace);
    assert text == "" ==> (text + gap) + Line(e.replace) == Line(e.replace);
  }

  /** Swapping find and replace undoes an edit, when the replacement is the only thing in the
    * result that the swapped edit can hit. */
  lemma SwappedEditUndoes(text: string, e: Edit, i: nat)
    requires e.find != "" && e.replace != "" && OnlyAt(text, e.find, i)
    requires ApplyOne(text, e).Ok? && OnlyAt(ApplyOne(text, e).value, e.replace, i)
    ensures ApplyOne(ApplyOne(text, e).value, Edit(e.replace, e.find)) == Ok(text)
  {
    AnchoredEditIsLocal(text, e);
    var after := ApplyOne(text, e).value;
    AnchoredEditIsLocal(after, Edit(e.replace, e.find));
    assert after[..i] == text[..i] && after[i + |e.replace|..] == text[i + |e.find|..];
  }

  // ---------------------------------------------------------------- a proposal's edits

  function Init<T>(s: seq<T>): seq<T>
    requires s != []
  {
    s[..|s| - 1]
  }

  function Last<T>(s: seq<T>): T
    requires s != []
  {
    s[|s| - 1]
  }

  /** All edits in order, or the 1-based number of the first that fails. */
  function ApplyAll(text: string, edits: seq<Edit>): Result<string, (nat, EditError)>
    decreases |edits|
  {
    if edits == [] then Ok(text) else
      var before := ApplyAll(text, Init(edits));
      if before.Err? then before else
        var after := ApplyOne(before.value, Last(edits));
        if after.Err? then Err((|edits|, after.error)) else Ok(after.value)
  }

  /** Success passes through one text for each edit, every one the result of its edit on the text before. */
  lemma {:induction false} AppliesInStages(text: string, edits: seq<Edit>, after: string)
    ensures ApplyAll(text, edits) == Ok(after)
      <==> exists stages: seq<string> :: (
             && |stages| == |edits| + 1 && stages[0] == text && stages[|edits|] == after
             && forall i | 0 <= i < |edits| :: ApplyOne(stages[i], edits[i]) == Ok(stages[i + 1]))
    decreases |edits|
  {
    hide ApplyOne;
    if ApplyAll(text, edits) == Ok(after) {
      var stages := StagesOf(text, edits);
    }
    if stages: seq<string> :| |stages| == |edits| + 1 && stages[0] == text && stages[|edits|] == after
                              && forall i | 0 <= i < |edits| :: ApplyOne(stages[i], edits[i]) == Ok(stages[i + 1])
    {
      StagesApply(text, edits, stages, |edits|);
      assert edits[..|edits|] == edits;
    }
  }

  lemma {:induction false} StagesOf(text: string, edits: seq<Edit>) returns (stages: seq<string>)
    requires ApplyAll(text, edits).Ok?
    ensures |stages| == |edits| + 1 && stages[0] == text && ApplyAll(text, edits) == Ok(stages[|edits|])
    ensures forall i | 0 <= i < |edits| :: ApplyOne(stages[i], edits[i]) == Ok(stages[i + 1])
    decreases |edits|
  {
    hide ApplyOne;
    stages := [text];
    if edits != [] {
      stages := StagesOf(text, Init(edits));
      stages := stages + [ApplyAll(text, edits).value];
    }
  }

  lemma {:induction false} StagesApply(text: string, edits: seq<Edit>, stages: seq<string>, n: nat)
    requires n <= |edits| && |stages| == |edits| + 1 && stages[0] == text
    requires forall i | 0 <= i < |edits| :: ApplyOne(stages[i], edits[i]) == Ok(stages[i + 1])
    ensures ApplyAll(text, edits[..n]) == Ok(stages[n])
  {
    hide ApplyOne;
    if n > 0 {
      StagesApply(text, edits, stages, n - 1);
      assert Init(edits[..n]) == edits[..n - 1];
    }
  }

  /** A failure carries the number, from one, of the edit that fails on what those before it made. */
  lemma {:induction false} FailureIsFirst(text: string, edits: seq<Edit>)
    requires ApplyAll(text, edits).Err?
    ensures var (n, why) := ApplyAll(text, edits).error;
      && 1 <= n <= |edits| && ApplyAll(text, edits[..n - 1]).Ok?
      && ApplyOne(ApplyAll(text, edits[..n - 1]).value, edits[n - 1]) == Err(why)
    decreases |edits|
  {
    hide ApplyOne;
    if ApplyAll(text, Init(edits)).Err? {
      FailureIsFirst(text, Init(edits));
      var n := ApplyAll(text, edits).error.0;
      assert Init(edits)[..n - 1] == edits[..n - 1];
    }
  }

  lemma {:induction false} FirstFailureStands(text: string, edits: seq<Edit>, n: nat)
    requires n <= |edits| && ApplyAll(text, edits[..n]).Err?
    ensures ApplyAll(text, edits) == ApplyAll(text, edits[..n])
    decreases |edits|
  {
    hide ApplyOne;
    if n == |edits| {
      assert edits[..n] == edits;
    } else {
      assert Init(edits)[..n] == edits[..n];
      FirstFailureStands(text, Init(edits), n);
    }
  }

  method ApplyEdits(text: string, edits: seq<Edit>) returns (r: Result<string, (nat, EditError)>)
    ensures r == ApplyAll(text, edits)
  {
    hide ApplyOne;
    var cur := text;
    for i := 0 to |edits|
      invariant ApplyAll(text, edits[..i]) == Ok(cur)
    {
      assert Init(edits[..i + 1]) == edits[..i];
      var after := ApplyOne(cur, edits[i]);
      if after.Err? {
        FirstFailureStands(text, edits, i + 1);
        return Err((i + 1, after.error));
      }
      cur := after.value;
    }
    assert edits[..|edits|] == edits;
    return Ok(cur);
  }

  /** The edits validation keeps, and the text they lead to. */
  datatype Simulation = Simulation(kept: seq<Edit>, text: string) {
    /** An edit is dropped when its anchor does not match once, or when it would break a guarded
      * file's schema. */
    function Step(e: Edit, guarded: bool, parses: string -> bool): Simulation {
      var after := ApplyOne(text, e);
      if after.Err? || (guarded && !Blank(after.value) && !parses(after.value)) then this
      else Simulation(kept + [e], after.value)
    }
  }

  function Simulate(text: string, edits: seq<Edit>, guarded: bool, parses: string -> bool): Simulation
    decreases |edits|
  {
    if edits == [] then Simulation([], text)
    else Simulate(text, Init(edits), guarded, parses).Step(Last(edits), guarded, parses)
  }

  method SimulateEdits(text: string, edits: seq<Edit>, guarded: bool, parses: string -> bool) returns (s: Simulation)
    ensures s == Simulate(text, edits, guarded, parses)
  {
    hide ApplyOne;
    var kept, cur := [], text;
    for i := 0 to |edits|
      invariant Simulation(kept, cur) == Simulate(text, edits[..i], guarded, parses)
    {
      assert Init(edits[..i + 1]) == edits[..i];
      var after := ApplyOne(cur, edits[i]);
      if after.Err? {
        continue;
      }
      if guarded && !Blank(after.value) && !parses(after.value) {
        continue;
      }
      cur := after.value;
      kept := kept + [edits[i]];
    }
    assert edits[..|edits|] == edits;
    return Simulation(kept, cur);
  }

  /** Simulation agrees with application, at every stage: each prefix of what validation keeps
    * applies without error, the whole of it gives exactly the simulated text, and a guarded file
    * parses after every single edit unless that leaves it blank. */
  lemma {:induction false} SimulationAgrees(text: string, edits: seq<Edit>, guarded: bool, parses: string -> bool)
    ensures var s := Simulate(text, edits, guarded, parses);
      && ApplyAll(text, s.kept) == Ok(s.text)
      && forall n | 0 < n <= |s.kept| ::
           var stage := ApplyAll(text, s.kept[..n]);
           stage.Ok? && (guarded ==> Blank(stage.value) || parses(stage.value))
    decreases |edits|
  {
    hide ApplyOne, Blank;
    if edits != [] {
      var before := Simulate(text, Init(edits), guarded, parses);
      SimulationAgrees(text, Init(edits), guarded, parses);
      var s := before.Step(Last(edits), guarded, parses);
      if s != before {
        assert Init(s.kept) == before.kept && s.kept[..|s.kept|] == s.kept;
        forall n | 0 < n < |s.kept| ensures s.kept[..n] == before.kept[..n] {}
      }
    }
  }

  /** And validation keeps as much as it can: the next edit is kept exactly when it still applies after
    * those kept so far and leaves a guarded file blank or loadable. */
  lemma KeepsWhatApplies(text: string, edits: seq<Edit>, guarded: bool, parses: string -> bool, i: nat)
    requires i < |edits|
    ensures var before, after := Simulate(text, edits[..i], guarded, parses).kept, Simulate(text, edits[..i + 1], guarded, parses).kept;
      var stage := ApplyAll(text, before + [edits[i]]);
      after == if stage.Ok? && (guarded ==> Blank(stage.value) || parses(stage.value)) then before + [edits[i]] else before
  {
    hide ApplyOne, Blank;
    var before := Simulate(text, edits[..i], guarded, parses);
    SimulationAgrees(text, edits[..i], guarded, parses);
    assert Init(edits[..i + 1]) == edits[..i] && Init(before.kept + [edits[i]]) == before.kept;
  }
}

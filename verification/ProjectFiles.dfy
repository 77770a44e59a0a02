/** The agent's project files and the only writer the Coach has to them. */
module ProjectFiles {
  import opened Wrappers
  import opened Text
  import opened CoachEdits

  /** A resolved path, relative to the project root. */
  datatype Path = Path(parts: seq<string>)

  /** Raw file contents. Text is read with newline translation and written as is. */
  type Files = map<Path, string>

  predicate Writable(p: Path) {
    (|p.parts| >= 2 && p.parts[0] in {"semantics", "examples", "trusted"}) || p.parts == ["instructions.md"]
  }

  predicate IsSemantics(p: Path) {
    p.parts != [] && p.parts[0] == "semantics"
  }

  function ReadText(files: Files, p: Path): string {
    if p in files then Universal(files[p]) else ""
  }

  datatype Proposal = Proposal(target: Path, edits: seq<Edit>, fingerprint: string)

  datatype ApplyError =
    | NoEdits
    | NotWritable
    | Drifted
    | EditFailed(number: nat, why: EditError)
    | SchemaBroken

  /** The two opaque judgements about text: does it load as table semantics, and its digest. */
  datatype Judge = Judge(parses: string -> bool, digest: string -> string) {
    function Fingerprint(text: string): string {
      if text == "" then "" else digest(text)
    }
  }

  // ---------------------------------------------------------------- applying

  /** The new text of the target, or why nothing is written. */
  function NewText(j: Judge, files: Files, p: Proposal, force: bool): Result<string, ApplyError> {
    var before := ReadText(files, p.target);
    if p.edits == [] then Err(NoEdits)
    else if !Writable(p.target) then Err(NotWritable)
    else if !force && p.fingerprint != "" && j.Fingerprint(before) != p.fingerprint then Err(Drifted)
    else match ApplyAll(before, p.edits)
      case Err((n, e)) => Err(EditFailed(n, e))
      case Ok(after) => if IsSemantics(p.target) && !j.parses(after) then Err(SchemaBroken) else Ok(after)
  }

  /** The Coach can write the context of the agent and nothing else: no benchmark, no manifest, no state. */
  lemma OnlyContextIsWritten(j: Judge, files: Files, p: Proposal, force: bool)
    ensures NewText(j, files, p, force).Ok? ==>
      p.target.parts == ["instructions.md"]
      || (|p.target.parts| >= 2 && (p.target.parts[0] == "semantics" || p.target.parts[0] == "examples" || p.target.parts[0] == "trusted"))
    ensures NewText(j, files, p, force) == Err(NotWritable) ==>
      p.target.parts != ["instructions.md"]
      && forall name, rest :: p.target.parts != ["semantics", name] + rest
           && p.target.parts != ["examples", name] + rest && p.target.parts != ["trusted", name] + rest
  {
    hide ApplyAll, ReadText;
  }

  /** When each refusal is given. What there is to read of an absent file is nothing, and nothing has no digest;
    * forcing, or a proposal without a fingerprint, skips the check for drift and no other. */
  lemma RefusedIff(j: Judge, files: Files, p: Proposal, force: bool)
    ensures var r := NewText(j, files, p, force);
      var before := if p.target in files then Universal(files[p.target]) else "";
      var drifted := !force && p.fingerprint != "" && p.fingerprint != if before == "" then "" else j.digest(before);
      var edited := ApplyAll(before, p.edits);
      && (r == Err(NoEdits) <==> p.edits == [])
      && (r == Err(NotWritable) <==> p.edits != [] && !Writable(p.target))
      && (r == Err(Drifted) <==> p.edits != [] && Writable(p.target) && drifted)
      && (r.Err? && r.error.EditFailed? <==> p.edits != [] && Writable(p.target) && !drifted && edited.Err?)
      && (r == Err(SchemaBroken) <==>
            p.edits != [] && Writable(p.target) && !drifted && edited.Ok? && p.target.parts[0] == "semantics" && !j.parses(edited.value))
      && (r.Ok? ==> edited == Ok(r.value))
    ensures NewText(j, files, p, true) == NewText(j, files, p.(fingerprint := ""), false)
  {
    hide ApplyAll, Universal;
  }

  class Project {
    var files: Files

    constructor (files: Files)
      ensures this.files == files
    {
      this.files := files;
    }

    /** Writes exactly the new text, or nothing at all. */
    method ApplyProposal(j: Judge, p: Proposal, force: bool) returns (r: Result<(), ApplyError>)
      modifies this
      ensures match NewText(j, old(files), p, force)
        case Ok(after) => r.Ok? && files == old(files)[p.target := after]
        case Err(e) => r == Err(e) && files == old(files)
    {
      if p.edits == [] {
        return Err(NoEdits);
      }
      if !Writable(p.target) {
        return Err(NotWritable);
      }
      var before := ReadText(files, p.target);
      if !force && p.fingerprint != "" && j.Fingerprint(before) != p.fingerprint {
        return Err(Drifted);
      }
      var after := ApplyEdits(before, p.edits);
      if after.Err? {
        return Err(EditFailed(after.error.0, after.error.1));
      }
      if IsSemantics(p.target) && !j.parses(after.value) {
        return Err(SchemaBroken);
      }
      files := files[p.target := after.value];
      return Ok(());
    }

    /** The target's text before an edit, or `None` when it may not be edited at all. */
    method Snapshot(target: Path) returns (s: Option<Option<string>>)
      ensures s == if Writable(target) then Some(TextBefore(files, target)) else None
    {
      if !Writable(target) {
        return None;
      }
      return Some(if target in files then Some(Universal(files[target])) else None);
    }

    /** Put a snapshot back: rewrite its text, or remove a file that was not there. */
    method Restore(target: Path, prior: Option<string>)
      modifies this
      ensures files == Restored(old(files), target, prior)
    {
      if prior.None? {
        files := files - {target};
      } else {
        files := files[target := prior.value];
      }
    }
  }

  function TextBefore(files: Files, target: Path): Option<string> {
    if target in files then Some(Universal(files[target])) else None
  }

  function Restored(files: Files, target: Path, prior: Option<string>): Files {
    if prior.None? then files - {target} else files[target := prior.value]
  }

  /** A rejected edit is rolled back to the text it found, touching no other file; the roll-back
    * is byte for byte exactly when the file held no carriage return. */
  lemma RollbackIsExactIff(files: Files, target: Path, edited: string)
    ensures var after := Restored(files[target := edited], target, TextBefore(files, target));
      && after - {target} == files - {target}
      && ReadText(after, target) == ReadText(files, target)
      && (target in after <==> target in files)
      && (after == files <==> target in files ==> '\r' !in files[target])
  {
    if target in files {
      UniversalIsIdentityIff(files[target]);
      UniversalIsIdentityIff(Universal(files[target]));
      var after := Restored(files[target := edited], target, TextBefore(files, target));
      assert after == files[target := Universal(files[target])];
      assert after[target] == Universal(files[target]);
      if '\r' !in files[target] {
        assert after == files;
      }
    } else {
      assert files[target := edited] - {target} == files;
    }
  }

  // ---------------------------------------------------------------- validating

  /** The files a Coach anchor is searched in: one level of yaml/sql under the writable
    * directories, and the prose file. */
  predicate Searched(p: Path) {
    (|p.parts| == 2 && p.parts[0] in {"semantics", "examples", "trusted"} && HasSuffix(p.parts[1]))
    || p.parts == ["instructions.md"]
  }

  predicate EndsWith(s: string, end: string) {
    |s| >= |end| && s[|s| - |end|..] == end
  }

  lemma EndsWithIff(s: string, end: string)
    ensures EndsWith(s, end) <==> exists stem: string :: s == stem + end
  {
    if EndsWith(s, end) {
      assert s == s[..|s| - |end|] + end;
    }
    if stem: string :| s == stem + end {
      assert s[|stem|..] == end;
    }
  }

  /** Only context files are searched: the prose file, and each directory's yaml and sql, one level deep. */
  lemma SearchedIff(p: Path)
    ensures Searched(p) <==>
      || p.parts == ["instructions.md"]
      || (|p.parts| == 2 && (p.parts[0] == "semantics" || p.parts[0] == "examples" || p.parts[0] == "trusted")
          && ((exists stem: string :: p.parts[1] == stem + ".yaml") || exists stem: string :: p.parts[1] == stem + ".sql"))
    ensures Searched(p) ==> Writable(p)
  {
    if |p.parts| == 2 {
      EndsWithIff(p.parts[1], ".yaml");
      EndsWithIff(p.parts[1], ".sql");
    }
    hide EndsWith;
  }

  predicate HasSuffix(name: string) {
    EndsWith(name, ".yaml") || EndsWith(name, ".sql")
  }

  /** What validation sees of a file: nothing, unless it is one of the searched files. */
  function SeenText(files: Files, p: Path): string {
    if Searched(p) then ReadText(files, p) else ""
  }

  predicate Owns(text: string, edits: seq<Edit>) {
    forall e | e in edits && e.find != "" :: Count(text, e.find, 0) == 1
  }

  function Owners(files: Files, edits: seq<Edit>): set<Path> {
    set p | p in files && Searched(p) && Owns(ReadText(files, p), edits)
  }

  /** A mislocated proposal moves to the one file that holds all its anchors, if there is one. */
  function Relocated(files: Files, p: Proposal): Path {
    if Owns(SeenText(files, p.target), p.edits) then p.target
    else if |Owners(files, p.edits)| == 1 then Only(Owners(files, p.edits))
    else p.target
  }

  function Only(s: set<Path>): Path
    requires |s| == 1
  {
    SingletonIsUnique(s);
    var p :| p in s;
    p
  }

  lemma SingletonIsUnique(s: set<Path>)
    requires |s| == 1
    ensures exists p :: p in s
    ensures forall p, q :: p in s && q in s ==> p == q
  {
    var p :| p in s;
    assert |s - {p}| == 0;
    assert s == {p};
  }

  function Validated(j: Judge, files: Files, p: Proposal): Proposal {
    var target := Relocated(files, p);
    var text := SeenText(files, target);
    Proposal(target, Simulate(text, p.edits, IsSemantics(target), j.parses).kept, j.Fingerprint(text))
  }

  /** Every anchor of the edits occurs once in what validation sees of the file. */
  ghost predicate AnchorsOnce(files: Files, q: Path, edits: seq<Edit>) {
    forall e | e in edits && e.find != "" :: (
      var seen := if Searched(q) && q in files then Universal(files[q]) else "";
      Count(seen, e.find, 0) == 1)
  }

  /** The one searched file with every anchor in it. */
  ghost predicate SoleHome(files: Files, q: Path, edits: seq<Edit>) {
    forall other | other in files && Searched(other) :: AnchorsOnce(files, other, edits) <==> other == q
  }

  /** A proposal moves exactly when its file does not hold its anchors and a single other one does, and then
    * it moves there. */
  lemma RelocatedIff(files: Files, p: Proposal)
    ensures forall q | !AnchorsOnce(files, p.target, p.edits) && q in files && Searched(q) && SoleHome(files, q, p.edits) ::
      Relocated(files, p) == q
    ensures Relocated(files, p) != p.target ==>
      && !AnchorsOnce(files, p.target, p.edits) && AnchorsOnce(files, Relocated(files, p), p.edits)
      && Relocated(files, p) in files && Searched(Relocated(files, p)) && SoleHome(files, Relocated(files, p), p.edits)
  {
    hide Universal, Searched, Count;
    var owners := Owners(files, p.edits);
    assert forall q :: AnchorsOnce(files, q, p.edits) <==> Owns(SeenText(files, q), p.edits);
    forall q | q in files && Searched(q) && SoleHome(files, q, p.edits) ensures owners == {q} {}
    if |owners| == 1 {
      SingletonIsUnique(owners);
      var home := Only(owners);
      forall other | other in files && Searched(other) ensures AnchorsOnce(files, other, p.edits) <==> other == home {
        assert other in owners <==> AnchorsOnce(files, other, p.edits);
      }
    }
  }

  /** The target moves to the single searched file that holds every anchor once, when the named one does
    * not; it is not moved otherwise. The edits are what simulation keeps there, and the fingerprint is
    * of the text seen there. */
  method ValidateProposal(j: Judge, project: Project, p: Proposal) returns (r: Proposal)
    ensures r == Validated(j, project.files, p)
    ensures forall q | !AnchorsOnce(project.files, p.target, p.edits)
                       && q in project.files && Searched(q) && SoleHome(project.files, q, p.edits) :: r.target == q
    ensures r.target != p.target ==>
      && !AnchorsOnce(project.files, p.target, p.edits) && AnchorsOnce(project.files, r.target, p.edits)
      && r.target in project.files && Searched(r.target) && SoleHome(project.files, r.target, p.edits)
    ensures var seen := if Searched(r.target) && r.target in project.files then Universal(project.files[r.target]) else "";
      && r.edits == Simulate(seen, p.edits, r.target.parts != [] && r.target.parts[0] == "semantics", j.parses).kept
      && r.fingerprint == if seen == "" then "" else j.digest(seen)
  {
    hide Universal, Searched, Simulate, Owns, AnchorsOnce, SoleHome, Count;
    RelocatedIff(project.files, p);
    var target := p.target;
    if !Owns(SeenText(project.files, target), p.edits) {
      var owners := Owners(project.files, p.edits);
      if |owners| == 1 {
        target := Only(owners);
      }
    }
    var text := SeenText(project.files, target);
    var s := SimulateEdits(text, p.edits, IsSemantics(target), j.parses);
    return Proposal(target, s.kept, j.Fingerprint(text));
  }

  /** A validated proposal whose target still reads as validation saw it applies exactly when it
    * kept an edit, its target may be written, and it does not leave a semantics file blank
    * without the schema accepting that; and then it writes the simulated text. */
  lemma ValidatedAppliesIff(j: Judge, seen: Files, now: Files, p: Proposal)
    requires var v := Validated(j, seen, p); ReadText(now, v.target) == SeenText(seen, v.target)
    ensures var v := Validated(j, seen, p);
      var simulated := Simulate(SeenText(seen, v.target), p.edits, IsSemantics(v.target), j.parses).text;
      && (NewText(j, now, v, false).Ok? <==>
            v.edits != [] && Writable(v.target)
            && !(IsSemantics(v.target) && Blank(simulated) && !j.parses(simulated)))
      && (NewText(j, now, v, false).Ok? ==> NewText(j, now, v, false).value == simulated)
  {
    var v := Validated(j, seen, p);
    SimulationAgrees(SeenText(seen, v.target), p.edits, IsSemantics(v.target), j.parses);
    assert v.edits[..|v.edits|] == v.edits;
  }

  /** So validation keeps, and application then refuses, every last edit that leaves a semantics file
    * blank, whatever the edits before it; unless the schema accepts a blank file. */
  lemma BlankingEditIsKeptButRefused(j: Judge, seen: Files, now: Files, p: Proposal)
    requires var target := Relocated(seen, p); IsSemantics(target) && Writable(target)
    requires ReadText(now, Relocated(seen, p)) == SeenText(seen, Relocated(seen, p)) && p.edits != []
    requires var before := Simulate(SeenText(seen, Relocated(seen, p)), Init(p.edits), true, j.parses).text;
      var after := ApplyOne(before, Last(p.edits));
      after.Ok? && Blank(after.value) && !j.parses(after.value)
    ensures var v := Validated(j, seen, p);
      v.edits != [] && Last(v.edits) == Last(p.edits) && NewText(j, now, v, false) == Err(SchemaBroken)
  {
    hide ApplyOne, Relocated, Blank, Writable;
    var text := SeenText(seen, Relocated(seen, p));
    var s := Simulate(text, Init(p.edits), true, j.parses);
    assert Simulate(text, p.edits, true, j.parses) == s.Step(Last(p.edits), true, j.parses);
    SimulationAgrees(text, p.edits, true, j.parses);
  }

  /** One such input: an edit that replaces a whole file by nothing. */
  lemma WholeFileIsBlanked(j: Judge, text: string)
    requires text != "" && '\r' !in text && !j.parses("")
    ensures var p := Path(["semantics", "orders.yaml"]);
      var files := map[p := text];
      var v := Validated(j, files, Proposal(p, [Edit(text, "")], ""));
      v.target == p && v.edits == [Edit(text, "")] && NewText(j, files, v, false) == Err(SchemaBroken)
  {
    hide ApplyOne, Count;
    var p := Path(["semantics", "orders.yaml"]);
    var files, e := map[p := text], Edit(text, "");
    UniversalIsIdentityIff(text);
    assert ".yaml" == "orders.yaml"[6..];
    assert ReadText(files, p) == text;
    assert OnlyAt(text, text, 0);
    OnlyAtCountsOne(text, text, 0);
    AnchoredEditIsLocal(text, e);
    assert text[..0] + "" + text[|text|..] == "";
    assert Owns(text, [e]);
    assert Simulate(text, [], true, j.parses) == Simulation([], text);
    BlankingEditIsKeptButRefused(j, files, files, Proposal(p, [e], ""));
  }

  // ---------------------------------------------------------------- drift

  /** What a digest is trusted for. */
  ghost predicate Collisionless(j: Judge) {
    (forall a, b :: j.digest(a) == j.digest(b) ==> a == b) && forall a :: j.digest(a) != ""
  }

  /** Drift is documented to be refused. A validated edit of a target that changed since escapes the
    * refusal exactly when validation saw no text there: the file was absent, empty or not searched. */
  lemma DriftEscapesIff(j: Judge, seen: Files, now: Files, p: Proposal)
    requires Collisionless(j)
    requires var v := Validated(j, seen, p);
      v.edits != [] && Writable(v.target) && ReadText(now, v.target) != SeenText(seen, v.target)
    ensures NewText(j, now, Validated(j, seen, p), false) != Err(Drifted) <==> SeenText(seen, Relocated(seen, p)) == ""
  {
    hide Relocated, Simulate, ApplyAll, Writable;
    var text := ReadText(now, Relocated(seen, p));
    assert text != "" ==> j.Fingerprint(text) == j.digest(text);
  }

  /** Such inputs: a line is appended to a prose file that did not exist then, and holds other lines now. */
  lemma AppendEscapesDrift(j: Judge, line: string, other: string)
    requires line != "" && line[|line| - 1] == '\n' && other != "" && other[|other| - 1] == '\n' && '\r' !in other
    ensures var target := Path(["instructions.md"]);
      var v := Validated(j, map[], Proposal(target, [Edit("", line)], ""));
      && v.target == target && v.edits == [Edit("", line)] && ReadText(map[target := other], target) != SeenText(map[], target)
      && NewText(j, map[target := other], v, false) == Ok(other + "\n" + line)
  {
    var target, e := Path(["instructions.md"]), Edit("", line);
    assert Relocated(map[], Proposal(target, [e], "")) == target;
    assert Init([e]) == [] && Simulate("", [], false, j.parses) == Simulation([], "");
    assert Simulate("", [e], false, j.parses) == Simulation([e], line);
    UniversalIsIdentityIff(other);
    assert ApplyAll(other, []) == Ok(other) && ApplyAll(other, [e]) == Ok(other + "\n" + line);
    hide Simulate, ApplyAll, Relocated, ApplyOne;
  }
}

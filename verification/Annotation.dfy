/** Drafted table annotations: contested columns lose confidence, uncertain drafts go to a
  * review queue, and what is left fills only blank descriptions. */
module Annotation {
  import opened Wrappers
  import opened Text
  import opened Collisions

  datatype ColumnDraft = ColumnDraft(name: Phrase, description: string, synonyms: seq<Phrase>, confidence: real)

  datatype Draft = Draft(description: string, synonyms: seq<Phrase>, confidence: real, columns: seq<ColumnDraft>) {
    predicate DistinctNames() {
      forall i, j | 0 <= i < j < |columns| :: columns[i].name != columns[j].name
    }
  }

  /** A table's own metadata; `numericText` marks a text column whose values are numbers. */
  datatype TableColumn = TableColumn(name: Phrase, description: Option<string>, synonyms: seq<Phrase>, numericText: bool)

  datatype Table = Table(description: Option<string>, synonyms: seq<Phrase>, columns: seq<TableColumn>) {
    predicate DistinctNames() {
      forall i, j | 0 <= i < j < |columns| :: columns[i].name != columns[j].name
    }
  }

  datatype Decision =
    | DescribeColumn(name: Phrase, suggestion: string, confidence: real)
    | DescribeTable(suggestion: string, confidence: real)

  predicate HasNote(description: Option<string>) {
    description.Some? && !Blank(description.value)
  }

  /** A description counts when something in it is not whitespace. */
  lemma HasNoteIff(description: Option<string>)
    ensures HasNote(description) <==>
      description.Some? && exists k: nat :: k < |description.value| && !IsSpace(description.value[k])
  {
    hide Strip, IsSpace;
    if description.Some? {
      var i, j := StripIs(description.value);
    }
  }

  // ---------------------------------------------------------------- synonyms

  predicate HasKey(s: seq<Phrase>, lower: Phrase -> Phrase, x: Phrase) {
    exists y | y in s :: lower(y) == lower(x)
  }

  /** First occurrences only, comparing lower-cased. */
  function Dedup(s: seq<Phrase>, lower: Phrase -> Phrase): seq<Phrase> {
    if s == [] then [] else
      var init := Dedup(s[..|s| - 1], lower);
      if HasKey(init, lower, s[|s| - 1]) then init else init + [s[|s| - 1]]
  }

  method Union(existing: seq<Phrase>, drafted: seq<Phrase>, lower: Phrase -> Phrase) returns (out: seq<Phrase>)
    ensures out == Dedup(existing + drafted, lower)
  {
    var source := existing + drafted;
    var seen: set<Phrase> := {};
    out := [];
    for i := 0 to |source|
      invariant out == Dedup(source[..i], lower)
      invariant seen == set x | x in out :: lower(x)
    {
      assert source[..i + 1][..i] == source[..i];
      var key := lower(source[i]);
      if key !in seen {
        seen := seen + {key};
        out := out + [source[i]];
      }
    }
    assert source[..|source|] == source;
  }

  lemma {:induction false} DedupKeepsKeys(s: seq<Phrase>, lower: Phrase -> Phrase)
    ensures forall x | x in s :: HasKey(Dedup(s, lower), lower, x)
    ensures forall x | x in Dedup(s, lower) :: x in s
    ensures forall i, j | 0 <= i < j < |Dedup(s, lower)| :: lower(Dedup(s, lower)[i]) != lower(Dedup(s, lower)[j])
  {
    if s != [] {
      var init, last := s[..|s| - 1], s[|s| - 1];
      DedupKeepsKeys(init, lower);
      assert s == init + [last];
      var d := Dedup(init, lower);
      forall x | x in s ensures HasKey(Dedup(s, lower), lower, x) {
        if x in init {
          var y :| y in d && lower(y) == lower(x);
          assert y in Dedup(s, lower);
        } else if !HasKey(d, lower, last) {
          assert last in Dedup(s, lower);
        }
      }
    }
  }

  /** A word is kept exactly when no word before it has its key, so it is the first spelling that stays. */
  lemma DedupKeepsFirst(s: seq<Phrase>, lower: Phrase -> Phrase, k: nat)
    requires k < |s|
    ensures Dedup(s[..k + 1], lower)
      == Dedup(s[..k], lower) + if exists j :: 0 <= j < k && lower(s[j]) == lower(s[k]) then [] else [s[k]]
  {
    assert s[..k + 1][..k] == s[..k];
    KeySeen(s, lower, k);
    assert HasKey(Dedup(s[..k], lower), lower, s[k]) ==> Dedup(s[..k + 1], lower) == Dedup(s[..k], lower) + [];
  }

  lemma KeySeen(s: seq<Phrase>, lower: Phrase -> Phrase, k: nat)
    requires k < |s|
    ensures HasKey(Dedup(s[..k], lower), lower, s[k]) <==> exists j :: 0 <= j < k && lower(s[j]) == lower(s[k])
  {
    KeyOfDedup(s[..k], lower, s[k]);
    hide Dedup;
    if HasKey(s[..k], lower, s[k]) {
      var y :| y in s[..k] && lower(y) == lower(s[k]);
      var j :| 0 <= j < k && s[j] == y;
    }
    if j :| 0 <= j < k && lower(s[j]) == lower(s[k]) {
      assert s[j] in s[..k];
    }
  }

  lemma {:induction false} KeyOfDedup(s: seq<Phrase>, lower: Phrase -> Phrase, x: Phrase)
    ensures HasKey(Dedup(s, lower), lower, x) <==> HasKey(s, lower, x)
  {
    if s != [] {
      var init, last := s[..|s| - 1], s[|s| - 1];
      KeyOfDedup(init, lower, x);
      KeyAppend(init, last, lower, x);
      KeyAppend(Dedup(init, lower), last, lower, x);
      assert s == init + [last];
      if HasKey(Dedup(init, lower), lower, last) && lower(last) == lower(x) {
        assert HasKey(Dedup(init, lower), lower, x);
      }
    }
  }

  lemma KeyAppend(s: seq<Phrase>, y: Phrase, lower: Phrase -> Phrase, x: Phrase)
    ensures HasKey(s + [y], lower, x) <==> HasKey(s, lower, x) || lower(y) == lower(x)
  {
    assert forall z :: z in s + [y] <==> z in s || z == y;
  }

  lemma {:induction false} DedupOfDistinct(s: seq<Phrase>, lower: Phrase -> Phrase)
    requires forall i, j | 0 <= i < j < |s| :: lower(s[i]) != lower(s[j])
    ensures Dedup(s, lower) == s
  {
    if s != [] {
      var init, last := s[..|s| - 1], s[|s| - 1];
      DedupOfDistinct(init, lower);
      assert s == init + [last];
      assert forall i | 0 <= i < |init| :: init[i] == s[i] && lower(s[i]) != lower(last);
    }
  }

  lemma {:induction false} DedupAbsorbs(s: seq<Phrase>, more: seq<Phrase>, lower: Phrase -> Phrase)
    requires Dedup(s, lower) == s && forall x | x in more :: HasKey(s, lower, x)
    ensures Dedup(s + more, lower) == s
  {
    if more == [] {
      assert s + more == s;
    } else {
      var init := more[..|more| - 1];
      assert (s + more)[..|s + more| - 1] == s + init;
      DedupAbsorbs(s, init, lower);
      assert HasKey(s, lower, more[|more| - 1]);
    }
  }

  lemma {:induction false} DedupExtends(s: seq<Phrase>, more: seq<Phrase>, lower: Phrase -> Phrase)
    ensures Dedup(s, lower) <= Dedup(s + more, lower)
  {
    if more == [] {
      assert s + more == s;
    } else {
      assert (s + more)[..|s + more| - 1] == s + more[..|more| - 1];
      DedupExtends(s, more[..|more| - 1], lower);
    }
  }

  /** Synonym union keeps what was there, in front, loses no word, and settles at once: taking the
    * same draft again changes nothing. */
  lemma UnionSettles(existing: seq<Phrase>, drafted: seq<Phrase>, lower: Phrase -> Phrase)
    ensures var u := Dedup(existing + drafted, lower);
      && Dedup(existing, lower) <= u
      && (forall x | x in existing + drafted :: HasKey(u, lower, x))
      && Dedup(u + drafted, lower) == u
  {
    var u := Dedup(existing + drafted, lower);
    DedupExtends(existing, drafted, lower);
    DedupKeepsKeys(existing + drafted, lower);
    DedupOfDistinct(u, lower);
    assert forall x | x in drafted :: x in existing + drafted;
    DedupAbsorbs(u, drafted, lower);
  }

  // ---------------------------------------------------------------- flagging

  const COLLISION_CONFIDENCE_CAP := 0.5

  function VocabularyOf(d: Draft, words: Phrase -> set<Token>, topical: set<Token>): Vocabulary {
    Vocabulary(seq(|d.columns|, i requires 0 <= i < |d.columns| => Column(d.columns[i].name, d.columns[i].synonyms)),
               words, topical)
  }

  /** Some word of column `i` is contested by another column. */
  ghost predicate IsContested(v: Vocabulary, i: nat)
    requires i < |v.columns|
  {
    exists t, a: nat, b: nat :: a < b < |v.columns| && (a == i || b == i) && v.Contested(t, a, b)
  }

  function Capped(c: ColumnDraft): ColumnDraft {
    c.(confidence := if c.confidence <= COLLISION_CONFIDENCE_CAP then c.confidence else COLLISION_CONFIDENCE_CAP)
  }

  /** Exactly the contested columns have their confidence capped; nothing else changes. */
  ghost function Flagged(d: Draft, words: Phrase -> set<Token>, topical: set<Token>): Draft {
    var v := VocabularyOf(d, words, topical);
    d.(columns := seq(|d.columns|, i requires 0 <= i < |d.columns| =>
      if IsContested(v, i) then Capped(d.columns[i]) else d.columns[i]))
  }

  method FlagCollisions(d: Draft, words: Phrase -> set<Token>, topical: set<Token>)
      returns (flagged: Draft, collisions: seq<Collision>)
    requires d.DistinctNames()
    ensures VocabularyOf(d, words, topical).Reported(collisions, |d.columns|, 0)
    ensures flagged == Flagged(d, words, topical)
    ensures |flagged.columns| == |d.columns| && flagged == d.(columns := flagged.columns)
    ensures forall i: nat | i < |d.columns| ::
      && flagged.columns[i] == d.columns[i].(confidence := flagged.columns[i].confidence)
      && flagged.columns[i].confidence
         == if IsContested(VocabularyOf(d, words, topical), i) && d.columns[i].confidence > 0.5 then 0.5 else d.columns[i].confidence
  {
    hide IsContested, TokensOf, Vocabulary.Contested, Vocabulary.Reported;
    var v := VocabularyOf(d, words, topical);
    collisions := DetectCollisions(v);
    var contested := set c, name | c in collisions && name in c.columns :: name;
    flagged := d.(columns := seq(|d.columns|, i requires 0 <= i < |d.columns| =>
      if d.columns[i].name in contested then Capped(d.columns[i]) else d.columns[i]));
    forall i: nat | i < |d.columns|
      ensures flagged.columns[i] == Flagged(d, words, topical).columns[i]
    {
      ContestedNames(v, collisions, i);
    }
    assert flagged.columns == Flagged(d, words, topical).columns;
  }

  lemma ContestedNames(v: Vocabulary, collisions: seq<Collision>, i: nat)
    requires v.DistinctNames() && v.Reported(collisions, |v.columns|, 0) && i < |v.columns|
    ensures (exists c | c in collisions :: v.columns[i].name in c.columns) <==> IsContested(v, i)
  {
    if c :| c in collisions && v.columns[i].name in c.columns {
      assert v.Explained(c, |v.columns|, 0);
      var a: nat, b: nat :| a < b < |v.columns| && v.Contested(c.token, a, b) && c == v.CollisionOf(c.token, a, b);
      assert a == i || b == i;
    }
    if IsContested(v, i) {
      var t, a: nat, b: nat :| a < b < |v.columns| && (a == i || b == i) && v.Contested(t, a, b);
      assert v.CollisionOf(t, a, b) in collisions;
    }
  }

  // ---------------------------------------------------------------- reconciling

  /** A dictionary keyed by name: the last entry wins. */
  function Lookup<T>(s: seq<T>, name: T -> Phrase, wanted: Phrase): Option<T> {
    if s == [] then None
    else if name(s[|s| - 1]) == wanted then Some(s[|s| - 1])
    else Lookup(s[..|s| - 1], name, wanted)
  }

  lemma {:induction false} LookupFinds<T>(s: seq<T>, name: T -> Phrase, wanted: Phrase)
    ensures var r := Lookup(s, name, wanted);
      if r.Some? then r.value in s && name(r.value) == wanted else forall x | x in s :: name(x) != wanted
    ensures forall i | 0 <= i < |s| && name(s[i]) == wanted && (forall j | i < j < |s| :: name(s[j]) != wanted) ::
      Lookup(s, name, wanted) == Some(s[i])
  {
    if s != [] {
      LookupFinds(s[..|s| - 1], name, wanted);
      assert s == s[..|s| - 1] + [s[|s| - 1]];
    }
  }

  function DraftName(c: ColumnDraft): Phrase { c.name }
  function ColumnName(c: TableColumn): Phrase { c.name }

  predicate Noted(t: Table, name: Phrase) {
    var c := Lookup(t.columns, ColumnName, name);
    c.Some? && HasNote(c.value.description)
  }

  predicate NumericText(t: Table, name: Phrase) {
    var c := Lookup(t.columns, ColumnName, name);
    c.Some? && c.value.numericText
  }

  predicate Withheld(t: Table, c: ColumnDraft, threshold: real) {
    !Noted(t, c.name) && (c.confidence < threshold || Blank(c.description) || NumericText(t, c.name))
  }

  /** The draft keeps its description only when it is to be written. */
  function SafeColumn(t: Table, c: ColumnDraft, threshold: real): (safe: ColumnDraft)
    ensures safe == c.(description := safe.description)
  {
    if Blank(c.description) || Noted(t, c.name) || Withheld(t, c, threshold) then c.(description := "") else c
  }

  function SafeDraft(t: Table, d: Draft, threshold: real): Draft {
    d.(columns := seq(|d.columns|, i requires 0 <= i < |d.columns| => SafeColumn(t, d.columns[i], threshold)),
       description := if HasNote(t.description) || d.confidence < threshold then "" else d.description)
  }

  function ColumnDecisions(t: Table, columns: seq<ColumnDraft>, threshold: real): seq<Decision> {
    if columns == [] then [] else
      var last := columns[|columns| - 1];
      ColumnDecisions(t, columns[..|columns| - 1], threshold)
      + if Withheld(t, last, threshold) then [DescribeColumn(last.name, Strip(last.description), last.confidence)] else []
  }

  function TableDecision(t: Table, d: Draft, threshold: real): seq<Decision> {
    if !HasNote(t.description) && d.confidence < threshold then [DescribeTable(d.description, d.confidence)] else []
  }

  function Decisions(t: Table, d: Draft, threshold: real): seq<Decision> {
    ColumnDecisions(t, d.columns, threshold) + TableDecision(t, d, threshold)
  }

  /** How often the review queue asks about a column. */
  function Queued(decisions: seq<Decision>, name: Phrase): nat {
    if decisions == [] then 0 else
      var last := decisions[|decisions| - 1];
      Queued(decisions[..|decisions| - 1], name) + if last.DescribeColumn? && last.name == name then 1 else 0
  }

  method ReconcileAnnotation(t: Table, d: Draft, threshold: real) returns (safe: Draft, decisions: seq<Decision>)
    ensures safe == SafeDraft(t, d, threshold)
    ensures decisions == Decisions(t, d, threshold)
  {
    hide Lookup, Blank, Strip;
    decisions := [];
    var columns: seq<ColumnDraft> := [];
    for i := 0 to |d.columns|
      invariant |columns| == i && forall k | 0 <= k < i :: columns[k] == SafeColumn(t, d.columns[k], threshold)
      invariant decisions == ColumnDecisions(t, d.columns[..i], threshold)
    {
      assert d.columns[..i + 1][..i] == d.columns[..i];
      var c := d.columns[i];
      var current := Lookup(t.columns, ColumnName, c.name);
      var hasNote := current.Some? && HasNote(current.value.description);
      var numeric := current.Some? && current.value.numericText;
      var withhold := !hasNote && (c.confidence < threshold || Blank(c.description) || numeric);
      if withhold {
        decisions := decisions + [DescribeColumn(c.name, Strip(c.description), c.confidence)];
      }
      var keep := !Blank(c.description) && !hasNote && !withhold;
      columns := columns + [if keep then c else c.(description := "")];
    }
    assert d.columns[..|d.columns|] == d.columns;
    var description := d.description;
    if HasNote(t.description) || d.confidence < threshold {
      description := "";
      if !HasNote(t.description) && d.confidence < threshold {
        decisions := decisions + [DescribeTable(d.description, d.confidence)];
      }
    }
    safe := d.(columns := columns, description := description);
    assert safe.columns == SafeDraft(t, d, threshold).columns;
  }

  // ---------------------------------------------------------------- merging

  /** Fill-only: a note is never overwritten, and a blank draft writes nothing. */
  function FillDescription(existing: Option<string>, draft: string): Option<string> {
    if HasNote(existing) || Blank(draft) then existing else Some(Strip(draft))
  }

  function MergedColumn(c: TableColumn, d: Draft, lower: Phrase -> Phrase): TableColumn {
    match Lookup(d.columns, DraftName, c.name)
    case None => c
    case Some(drafted) =>
      c.(description := FillDescription(c.description, drafted.description),
         synonyms := Dedup(c.synonyms + drafted.synonyms, lower))
  }

  function Merged(t: Table, d: Draft, lower: Phrase -> Phrase): Table {
    Table(FillDescription(t.description, d.description), Dedup(t.synonyms + d.synonyms, lower),
          seq(|t.columns|, i requires 0 <= i < |t.columns| => MergedColumn(t.columns[i], d, lower)))
  }

  method MergeAnnotation(t: Table, d: Draft, lower: Phrase -> Phrase) returns (out: Table)
    ensures out == Merged(t, d, lower)
  {
    hide Lookup, Dedup, HasNote, Blank, Strip;
    var synonyms := Union(t.synonyms, d.synonyms, lower);
    var columns: seq<TableColumn> := [];
    for i := 0 to |t.columns|
      invariant |columns| == i && forall k | 0 <= k < i :: columns[k] == MergedColumn(t.columns[k], d, lower)
    {
      var c := t.columns[i];
      var drafted := Lookup(d.columns, DraftName, c.name);
      if drafted.Some? {
        var merged := Union(c.synonyms, drafted.value.synonyms, lower);
        c := c.(description := FillDescription(c.description, drafted.value.description), synonyms := merged);
      }
      columns := columns + [c];
    }
    out := Table(FillDescription(t.description, d.description), synonyms, columns);
    assert out.columns == Merged(t, d, lower).columns;
  }

  /** The in-memory form: a blank slot with a blank draft becomes empty. */
  function Filled(existing: Option<string>, draft: string): Option<string> {
    if HasNote(existing) then existing
    else if Blank(draft) then None
    else Some(Strip(draft))
  }

  function AppliedColumn(c: TableColumn, d: Draft, lower: Phrase -> Phrase): TableColumn {
    match Lookup(d.columns, DraftName, c.name)
    case None => c
    case Some(drafted) =>
      c.(description := Filled(c.description, drafted.description),
         synonyms := Dedup(c.synonyms + drafted.synonyms, lower))
  }

  function Applied(t: Table, d: Draft, lower: Phrase -> Phrase): Table {
    Table(Filled(t.description, d.description), Dedup(t.synonyms + d.synonyms, lower),
          seq(|t.columns|, i requires 0 <= i < |t.columns| => AppliedColumn(t.columns[i], d, lower)))
  }

  /** The two writers agree exactly when no blank description meets a blank draft. */
  predicate LeavesBlank(existing: Option<string>, draft: string) {
    existing.Some? && Blank(existing.value) && Blank(draft)
  }

  lemma ApplyAgreesWithMergeIff(t: Table, d: Draft, lower: Phrase -> Phrase)
    ensures Applied(t, d, lower) == Merged(t, d, lower) <==>
      !LeavesBlank(t.description, d.description)
      && forall c | c in t.columns && Lookup(d.columns, DraftName, c.name).Some? ::
           !LeavesBlank(c.description, Lookup(d.columns, DraftName, c.name).value.description)
  {
    hide Lookup, Dedup, Strip;
    var applied, merged := Applied(t, d, lower), Merged(t, d, lower);
    assert forall i | 0 <= i < |t.columns| :: applied.columns[i] == AppliedColumn(t.columns[i], d, lower);
    assert forall i | 0 <= i < |t.columns| :: merged.columns[i] == MergedColumn(t.columns[i], d, lower);
    if applied == merged {
      forall c | c in t.columns && Lookup(d.columns, DraftName, c.name).Some?
        ensures !LeavesBlank(c.description, Lookup(d.columns, DraftName, c.name).value.description)
      {
        var i :| 0 <= i < |t.columns| && t.columns[i] == c;
        assert applied.columns[i] == merged.columns[i];
      }
    }
  }

  // ---------------------------------------------------------------- the fate of a column

  function Annotate(t: Table, d: Draft, threshold: real, lower: Phrase -> Phrase): Table {
    Merged(t, SafeDraft(t, d, threshold), lower)
  }

  lemma {:induction false} QueuedIfWithheld(t: Table, columns: seq<ColumnDraft>, threshold: real, name: Phrase)
    requires forall i, j | 0 <= i < j < |columns| :: columns[i].name != columns[j].name
    ensures var c := Lookup(columns, DraftName, name);
      && Queued(ColumnDecisions(t, columns, threshold), name)
         == (if c.Some? && Withheld(t, c.value, threshold) then 1 else 0)
      && (c.Some? && Withheld(t, c.value, threshold) ==>
         DescribeColumn(name, Strip(c.value.description), c.value.confidence) in ColumnDecisions(t, columns, threshold))
  {
    hide Withheld, Strip, Queued;
    NoneQueued(name);
    if columns != [] {
      var init, last := columns[..|columns| - 1], columns[|columns| - 1];
      QueuedIfWithheld(t, init, threshold, name);
      LookupFinds(init, DraftName, name);
      var before := ColumnDecisions(t, init, threshold);
      if Withheld(t, last, threshold) {
        QueuedAppend(before, DescribeColumn(last.name, Strip(last.description), last.confidence), name);
      } else {
        assert before + [] == before;
      }
    }
  }

  lemma NoneQueued(name: Phrase)
    ensures Queued([], name) == 0
  {}

  lemma QueuedAppend(before: seq<Decision>, entry: Decision, name: Phrase)
    ensures Queued(before + [entry], name)
      == Queued(before, name) + if entry.DescribeColumn? && entry.name == name then 1 else 0
    ensures forall x :: x in before + [entry] <==> x in before || x == entry
  {
    assert (before + [entry])[..|before|] == before;
  }

  lemma SafeLookup(t: Table, d: Draft, threshold: real, name: Phrase)
    requires d.DistinctNames()
    ensures var c, safe := Lookup(d.columns, DraftName, name), Lookup(SafeDraft(t, d, threshold).columns, DraftName, name);
      safe == if c.Some? then Some(SafeColumn(t, c.value, threshold)) else None
  {
    var s := SafeDraft(t, d, threshold).columns;
    LookupFinds(d.columns, DraftName, name);
    LookupFinds(s, DraftName, name);
    hide Lookup, SafeColumn;
    assert forall i | 0 <= i < |s| :: s[i] == SafeColumn(t, d.columns[i], threshold);
    assert forall i | 0 <= i < |s| :: d.columns[i] in d.columns && s[i] in s;
  }

  lemma QueuedByColumns(t: Table, d: Draft, threshold: real, name: Phrase)
    ensures Queued(Decisions(t, d, threshold), name) == Queued(ColumnDecisions(t, d.columns, threshold), name)
  {
    var columns, table := ColumnDecisions(t, d.columns, threshold), TableDecision(t, d, threshold);
    if table == [] {
      assert columns + table == columns;
    } else {
      assert (columns + table)[..|columns|] == columns;
    }
  }

  lemma ColumnLookup(t: Table, i: nat)
    requires t.DistinctNames() && i < |t.columns|
    ensures Lookup(t.columns, ColumnName, t.columns[i].name) == Some(t.columns[i])
  {
    hide Lookup;
    LookupFinds(t.columns, ColumnName, t.columns[i].name);
    assert t.columns[i] in t.columns;
  }

  lemma DraftLookup(d: Draft, j: nat)
    requires d.DistinctNames() && j < |d.columns|
    ensures Lookup(d.columns, DraftName, d.columns[j].name) == Some(d.columns[j])
  {
    hide Lookup;
    LookupFinds(d.columns, DraftName, d.columns[j].name);
    assert d.columns[j] in d.columns;
  }

  /** Every drafted column of the table keeps its note, or is filled by a confident draft, or is
    * put to a human exactly once. Undrafted columns are left alone. */
  lemma ColumnFate(t: Table, d: Draft, threshold: real, lower: Phrase -> Phrase, i: nat)
    requires t.DistinctNames() && d.DistinctNames() && i < |t.columns|
    ensures
      var c, after := t.columns[i], Annotate(t, d, threshold, lower).columns[i];
      var asked := Queued(Decisions(t, d, threshold), c.name);
      match Lookup(d.columns, DraftName, c.name)
      case None => after == c && asked == 0
      case Some(drafted) =>
        && after == c.(description := after.description, synonyms := Dedup(c.synonyms + drafted.synonyms, lower))
        && if HasNote(c.description) then
             after.description == c.description && asked == 0
           else if drafted.confidence >= threshold && !Blank(drafted.description) && !c.numericText then
             after.description == Some(Strip(drafted.description)) && asked == 0
           else
             && after.description == c.description && asked == 1
             && DescribeColumn(c.name, Strip(drafted.description), drafted.confidence) in Decisions(t, d, threshold)
  {
    hide Lookup, Dedup, ColumnDecisions, Queued;
    var c := t.columns[i];
    ColumnLookup(t, i);
    SafeLookup(t, d, threshold, c.name);
    QueuedByColumns(t, d, threshold, c.name);
    QueuedIfWithheld(t, d.columns, threshold, c.name);
    LookupFinds(d.columns, DraftName, c.name);
  }

  /** The table's own description: a note stays; a confident draft fills a blank, if there is anything in it;
    * an unsure one is put to a human, once and last. Its synonyms are always taken in. */
  lemma TableFate(t: Table, d: Draft, threshold: real, lower: Phrase -> Phrase)
    ensures var after, asked := Annotate(t, d, threshold, lower), Decisions(t, d, threshold)[|ColumnDecisions(t, d.columns, threshold)|..];
      && Decisions(t, d, threshold) == ColumnDecisions(t, d.columns, threshold) + asked
      && after.synonyms == Dedup(t.synonyms + d.synonyms, lower) && |after.columns| == |t.columns|
      && if HasNote(t.description) then after.description == t.description && asked == []
         else if d.confidence < threshold then
           after.description == t.description && asked == [DescribeTable(d.description, d.confidence)]
         else asked == [] && after.description == if Blank(d.description) then t.description else Some(Strip(d.description))
    ensures forall x | x in ColumnDecisions(t, d.columns, threshold) :: x.DescribeColumn?
  {
    hide Dedup, Strip, ColumnDecisions;
    var columns := ColumnDecisions(t, d.columns, threshold);
    assert Decisions(t, d, threshold)[|columns|..] == TableDecision(t, d, threshold);
    OnlyColumns(t, d.columns, threshold);
    NothingIsBlank();
  }

  lemma NothingIsBlank()
    ensures Blank("")
  {}

  lemma {:induction false} OnlyColumns(t: Table, columns: seq<ColumnDraft>, threshold: real)
    ensures forall x | x in ColumnDecisions(t, columns, threshold) :: x.DescribeColumn?
  {
    hide Withheld, Strip;
    if columns != [] {
      OnlyColumns(t, columns[..|columns| - 1], threshold);
    }
  }

  /** Above one half, no contested draft is ever written: an un-described contested column stays
    * as it was, and a human is asked about it exactly once. */
  lemma ContestedIsQueued(t: Table, d: Draft, words: Phrase -> set<Token>, topical: set<Token>, threshold: real,
                          lower: Phrase -> Phrase, i: nat, j: nat)
    requires t.DistinctNames() && d.DistinctNames() && i < |t.columns| && j < |d.columns|
    requires d.columns[j].name == t.columns[i].name && IsContested(VocabularyOf(d, words, topical), j)
    requires !HasNote(t.columns[i].description)
    ensures var flagged := Flagged(d, words, topical);
      var wrote := Annotate(t, flagged, threshold, lower).columns[i].description != t.columns[i].description;
      var asked := Queued(Decisions(t, flagged, threshold), t.columns[i].name);
      && asked == (if wrote then 0 else 1)
      && (threshold > 0.5 ==> !wrote)
  {
    hide IsContested, VocabularyOf, Annotate, Decisions, Queued, Lookup, Strip;
    var flagged := Flagged(d, words, topical);
    assert forall k | 0 <= k < |d.columns| :: flagged.columns[k].name == d.columns[k].name;
    ColumnFate(t, flagged, threshold, lower, i);
    DraftLookup(flagged, j);
    StripIsIdempotent(d.columns[j].description);
    assert flagged.columns[j] == Capped(d.columns[j]);
  }

  // ---------------------------------------------------------------- many runs

  datatype Round = Round(draft: Draft, threshold: real)

  function Rounds(t: Table, rounds: seq<Round>, lower: Phrase -> Phrase): Table {
    if rounds == [] then t else
      var last := rounds[|rounds| - 1];
      Annotate(Rounds(t, rounds[..|rounds| - 1], lower), last.draft, last.threshold, lower)
  }

  /** Runs are made one after the other. */
  lemma {:induction false} RoundsCompose(t: Table, first: seq<Round>, more: seq<Round>, lower: Phrase -> Phrase)
    ensures Rounds(t, first + more, lower) == Rounds(Rounds(t, first, lower), more, lower)
    ensures forall r :: Rounds(t, [r], lower) == Annotate(t, r.draft, r.threshold, lower)
    decreases |more|
  {
    hide Annotate;
    assert forall r: Round :: [r][..0] == [];
    if more == [] {
      assert first + more == first;
    } else {
      var init := more[..|more| - 1];
      assert (first + more)[..|first + more| - 1] == first + init;
      RoundsCompose(t, first, init, lower);
    }
  }

  /** What an author wrote on a description stays, and what they wrote as synonyms is not lost. */
  ghost predicate Preserves(before: Option<string>, synonyms: seq<Phrase>, after: Option<string>, more: seq<Phrase>,
                            lower: Phrase -> Phrase) {
    && (HasNote(before) ==> after == before)
    && forall x | x in synonyms :: HasKey(more, lower, x)
  }

  lemma FillPreserves(description: Option<string>, synonyms: seq<Phrase>, draft: string, drafted: seq<Phrase>,
                      lower: Phrase -> Phrase)
    ensures Preserves(description, synonyms, FillDescription(description, draft), Dedup(synonyms + drafted, lower), lower)
  {
    UnionSettles(synonyms, drafted, lower);
    assert forall x | x in synonyms :: x in synonyms + drafted;
  }

  lemma PreservesIsTransitive(a: Option<string>, s: seq<Phrase>, b: Option<string>, t: seq<Phrase>, c: Option<string>,
                              u: seq<Phrase>, lower: Phrase -> Phrase)
    requires Preserves(a, s, b, t, lower) && Preserves(b, t, c, u, lower)
    ensures Preserves(a, s, c, u, lower)
  {
    forall x | x in s ensures HasKey(u, lower, x) {
      var y :| y in t && lower(y) == lower(x);
      assert HasKey(u, lower, y);
    }
  }

  /** Over any sequence of annotation runs, whatever the model drafts. */
  lemma {:induction false} AuthorsAreTrusted(t: Table, rounds: seq<Round>, lower: Phrase -> Phrase)
    ensures var after := Rounds(t, rounds, lower);
      && |after.columns| == |t.columns|
      && Preserves(t.description, t.synonyms, after.description, after.synonyms, lower)
      && forall i | 0 <= i < |t.columns| ::
           && after.columns[i].name == t.columns[i].name
           && Preserves(t.columns[i].description, t.columns[i].synonyms,
                        after.columns[i].description, after.columns[i].synonyms, lower)
  {
    hide Preserves, Dedup, Lookup;
    if rounds == [] {
      Itself(t.description, t.synonyms, lower);
      forall i | 0 <= i < |t.columns|
        ensures Preserves(t.columns[i].description, t.columns[i].synonyms,
                          t.columns[i].description, t.columns[i].synonyms, lower)
      {
        Itself(t.columns[i].description, t.columns[i].synonyms, lower);
      }
    } else {
      var last, mid := rounds[|rounds| - 1], Rounds(t, rounds[..|rounds| - 1], lower);
      AuthorsAreTrusted(t, rounds[..|rounds| - 1], lower);
      var d := SafeDraft(mid, last.draft, last.threshold);
      var after := Merged(mid, d, lower);
      FillPreserves(mid.description, mid.synonyms, d.description, d.synonyms, lower);
      PreservesIsTransitive(t.description, t.synonyms, mid.description, mid.synonyms, after.description, after.synonyms, lower);
      forall i | 0 <= i < |t.columns|
        ensures Preserves(t.columns[i].description, t.columns[i].synonyms,
                          after.columns[i].description, after.columns[i].synonyms, lower)
      {
        MergePreserves(mid.columns[i], d, lower);
        PreservesIsTransitive(t.columns[i].description, t.columns[i].synonyms, mid.columns[i].description,
                              mid.columns[i].synonyms, after.columns[i].description, after.columns[i].synonyms, lower);
      }
    }
  }

  lemma Itself(description: Option<string>, synonyms: seq<Phrase>, lower: Phrase -> Phrase)
    ensures Preserves(description, synonyms, description, synonyms, lower)
  {
    assert forall x | x in synonyms :: HasKey(synonyms, lower, x);
  }

  lemma MergePreserves(c: TableColumn, d: Draft, lower: Phrase -> Phrase)
    ensures var after := MergedColumn(c, d, lower);
      Preserves(c.description, c.synonyms, after.description, after.synonyms, lower)
  {
    match Lookup(d.columns, DraftName, c.name)
    case None => Itself(c.description, c.synonyms, lower);
    case Some(drafted) => FillPreserves(c.description, c.synonyms, drafted.description, drafted.synonyms, lower);
  }

  /** Annotating again with the same draft writes nothing more and asks the same questions. */
  lemma AnnotatingAgainChangesNothing(t: Table, d: Draft, threshold: real, lower: Phrase -> Phrase)
    requires t.DistinctNames() && d.DistinctNames()
    ensures var once := Annotate(t, d, threshold, lower);
      Annotate(once, d, threshold, lower) == once && Decisions(once, d, threshold) == Decisions(t, d, threshold)
  {
    var once := Annotate(t, d, threshold, lower);
    var twice := Annotate(once, d, threshold, lower);
    forall i: nat | i < |t.columns| ensures once.columns[i].name == t.columns[i].name && twice.columns[i] == once.columns[i] {
      ColumnFate(t, d, threshold, lower, i);
      assert once.columns[i].name == t.columns[i].name;
      RefillIsNoop(t, d, threshold, lower, i);
    }
    assert twice.columns == once.columns;
    UnionSettles(t.synonyms, d.synonyms, lower);
    StripIsIdempotent(d.description);
    forall c | c in d.columns ensures Withheld(once, c, threshold) == Withheld(t, c, threshold) {
      StillWithheld(t, d, threshold, lower, c);
    }
    SameDecisions(t, once, d.columns, threshold);
  }

  lemma RefillIsNoop(t: Table, d: Draft, threshold: real, lower: Phrase -> Phrase, i: nat)
    requires t.DistinctNames() && d.DistinctNames() && i < |t.columns|
    ensures var once := Annotate(t, d, threshold, lower);
      i < |once.columns| && Annotate(once, d, threshold, lower).columns[i] == once.columns[i]
  {
    hide Lookup, Dedup, Decisions, Queued, Strip;
    var once := Annotate(t, d, threshold, lower);
    assert forall k | 0 <= k < |t.columns| :: once.columns[k] == MergedColumn(t.columns[k], SafeDraft(t, d, threshold), lower);
    ColumnFate(t, d, threshold, lower, i);
    ColumnFate(once, d, threshold, lower, i);
    match Lookup(d.columns, DraftName, t.columns[i].name)
    case None =>
    case Some(drafted) =>
      UnionSettles(t.columns[i].synonyms, drafted.synonyms, lower);
      StripIsIdempotent(drafted.description);
  }

  lemma StillWithheld(t: Table, d: Draft, threshold: real, lower: Phrase -> Phrase, c: ColumnDraft)
    requires t.DistinctNames() && d.DistinctNames() && c in d.columns
    ensures Withheld(Annotate(t, d, threshold, lower), c, threshold) == Withheld(t, c, threshold)
  {
    hide Lookup, Dedup, Decisions, Queued, Strip;
    var once := Annotate(t, d, threshold, lower);
    assert forall k | 0 <= k < |t.columns| :: once.columns[k] == MergedColumn(t.columns[k], SafeDraft(t, d, threshold), lower);
    var j :| 0 <= j < |d.columns| && d.columns[j] == c;
    DraftLookup(d, j);
    LookupFinds(t.columns, ColumnName, c.name);
    LookupFinds(once.columns, ColumnName, c.name);
    if i: nat :| i < |t.columns| && t.columns[i].name == c.name {
      ColumnFate(t, d, threshold, lower, i);
      ColumnLookup(t, i);
      ColumnLookup(once, i);
      StripIsIdempotent(c.description);
    }
  }

  lemma {:induction false} SameDecisions(t: Table, u: Table, columns: seq<ColumnDraft>, threshold: real)
    requires forall c | c in columns :: Withheld(t, c, threshold) == Withheld(u, c, threshold)
    ensures ColumnDecisions(t, columns, threshold) == ColumnDecisions(u, columns, threshold)
  {
    hide Withheld, Strip;
    if columns != [] {
      SameDecisions(t, u, columns[..|columns| - 1], threshold);
    }
  }
}

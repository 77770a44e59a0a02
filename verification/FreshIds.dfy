/** Fresh ids for synthesized questions, and the links between phrasing variants. */
module FreshIds {
  import opened Permutations
  import opened Wrappers

  /** Ids are only compared; the wrapper keeps their text out of the set reasoning. */
  datatype Id = Id(text: string)

  // ---------------------------------------------------------------- decimal suffixes

  function Digit(d: nat): char
    requires d < 10
  {
    ('0' as int + d) as char
  }

  function Decimal(n: nat): string {
    if n < 10 then [Digit(n)] else Decimal(n / 10) + [Digit(n % 10)]
  }

  lemma {:induction false} DecimalIsInjective(a: nat, b: nat)
    requires Decimal(a) == Decimal(b)
    ensures a == b
  {
    var s := Decimal(a);
    assert s[|s| - 1] == Digit(a % 10) == Digit(b % 10);
    DecimalIsNonEmpty(a / 10);
    DecimalIsNonEmpty(b / 10);
    if a >= 10 && b >= 10 {
      assert s[..|s| - 1] == Decimal(a / 10) == Decimal(b / 10);
      DecimalIsInjective(a / 10, b / 10);
    }
  }

  lemma DecimalIsNonEmpty(n: nat)
    ensures Decimal(n) != ""
  {}

  function Value(digits: string): int {
    if digits == "" then 0 else 10 * Value(digits[..|digits| - 1]) + (digits[|digits| - 1] as int - '0' as int)
  }

  /** The suffix is the number in decimal digits, without a leading zero. */
  lemma {:induction false} DecimalReadsBack(n: nat)
    ensures Value(Decimal(n)) == n && (n > 0 ==> Decimal(n)[0] != '0')
    ensures forall i | 0 <= i < |Decimal(n)| :: '0' <= Decimal(n)[i] <= '9'
  {
    if n >= 10 {
      DecimalReadsBack(n / 10);
      assert Decimal(n)[..|Decimal(n)| - 1] == Decimal(n / 10);
    } else {
      assert Decimal(n)[..0] == "";
    }
  }

  /** The candidates in the order they are tried: the base, then `base_2`, `base_3`, and so on. */
  function Candidate(base: string, i: nat): Id
    requires i >= 1
  {
    if i == 1 then Id(base) else Id(base + "_" + Decimal(i))
  }

  lemma CandidatesDiffer(base: string, i: nat, j: nat)
    requires 1 <= i < j
    ensures Candidate(base, i) != Candidate(base, j)
  {
    var prefix := base + "_";
    if i > 1 && Candidate(base, i) == Candidate(base, j) {
      assert (prefix + Decimal(i))[|prefix|..] == Decimal(i);
      assert (prefix + Decimal(j))[|prefix|..] == Decimal(j);
      DecimalIsInjective(i, j);
    }
  }

  /** The candidates before the `i`-th. */
  function Tried(base: string, i: nat): (s: set<Id>)
    requires i >= 1
    ensures forall id :: id in s <==> exists j: nat :: 1 <= j < i && id == Candidate(base, j)
  {
    if i == 1 then {} else Tried(base, i - 1) + {Candidate(base, i - 1)}
  }

  lemma {:induction false} TriedCount(base: string, i: nat)
    requires i >= 1
    ensures |Tried(base, i)| == i - 1
  {
    if i > 1 {
      TriedCount(base, i - 1);
      forall j: nat | 1 <= j < i - 1 ensures Candidate(base, j) != Candidate(base, i - 1) {
        CandidatesDiffer(base, j, i - 1);
      }
    }
  }

  /** If every candidate tried so far is taken, at least as many ids are taken as were tried. */
  lemma Pigeonhole(base: string, i: nat, taken: set<Id>)
    requires i >= 1 && Tried(base, i) <= taken
    ensures i - 1 <= |taken|
  {
    TriedCount(base, i);
    SubsetSize(Tried(base, i), taken);
  }

  /** The first candidate not taken; there always is one. */
  ghost predicate IsFirstFree(base: string, taken: set<Id>, id: Id) {
    exists i: nat :: i >= 1 && id == Candidate(base, i) && id !in taken && Tried(base, i) <= taken
  }

  lemma FirstFreeIsUnique(base: string, taken: set<Id>, a: Id, b: Id)
    requires IsFirstFree(base, taken, a) && IsFirstFree(base, taken, b)
    ensures a == b
  {
    hide Candidate;
    var i: nat :| i >= 1 && a == Candidate(base, i) && a !in taken && Tried(base, i) <= taken;
    var j: nat :| j >= 1 && b == Candidate(base, j) && b !in taken && Tried(base, j) <= taken;
    var triedI, triedJ := Tried(base, i), Tried(base, j);
    assert i < j ==> a in triedJ;
    assert j < i ==> b in triedI;
  }

  /** What is tried: the base as it is, and then an underscore and the decimal number. */
  lemma FirstFreeIs(base: string, taken: set<Id>, id: Id)
    requires IsFirstFree(base, taken, id)
    ensures Id(base) !in taken ==> id == Id(base)
    ensures Id(base) in taken ==> exists i: nat ::
      i >= 2 && id == Id(base + "_" + Decimal(i)) && forall j: nat | 2 <= j < i :: Id(base + "_" + Decimal(j)) in taken
  {
    hide Decimal, Tried;
    var i: nat :| i >= 1 && id == Candidate(base, i) && id !in taken && Tried(base, i) <= taken;
    forall j: nat | 1 <= j < i ensures Candidate(base, j) in taken {
      assert Candidate(base, j) in Tried(base, i);
    }
    if i > 1 {
      assert Candidate(base, 1) in taken;
      forall j: nat | 2 <= j < i ensures Id(base + "_" + Decimal(j)) in taken {
        assert Candidate(base, j) in taken;
      }
    }
  }

  method FreshId(base: string, taken: set<Id>) returns (id: Id, nowTaken: set<Id>)
    ensures IsFirstFree(base, taken, id) && id !in taken
    ensures nowTaken == taken + {id}
  {
    hide Decimal, Tried;
    id := Candidate(base, 1);
    NothingTried(base);
    var i: nat := 2;
    while id in taken
      invariant i >= 2 && id == Candidate(base, i - 1) && Tried(base, i - 1) <= taken
      decreases |taken| + 2 - i
    {
      TryNext(base, i - 1);
      Pigeonhole(base, i, taken);
      id := Id(base + "_" + Decimal(i));
      i := i + 1;
    }
    nowTaken := taken + {id};
  }

  lemma NothingTried(base: string)
    ensures Tried(base, 1) == {}
  {}

  lemma TryNext(base: string, i: nat)
    requires i >= 1
    ensures Tried(base, i + 1) == Tried(base, i) + {Candidate(base, i)}
  {
    assert i + 1 - 1 == i;
  }

  // ---------------------------------------------------------------- grounding

  datatype Evidence = Evidence(rows: seq<seq<string>>)

  /** A drafted question with its slug, and what running its gold SQL gave. */
  datatype Draft = Draft(slug: string, goldSql: string, canonical: bool, group: Option<Id>, grounded: Result<Evidence, string>)

  datatype Survivor = Survivor(id: Id, draft: Draft, variantOf: Option<Id>)

  datatype Dropped = Dropped(draft: Draft, reason: string)

  /** The drafts whose gold SQL gave evidence, in order. */
  function Grounded(drafts: seq<Draft>): seq<Draft> {
    if drafts == [] then [] else
      var last := drafts[|drafts| - 1];
      Grounded(drafts[..|drafts| - 1]) + if last.grounded.Ok? then [last] else []
  }

  function Ungrounded(drafts: seq<Draft>): seq<Dropped> {
    if drafts == [] then [] else
      var last := drafts[|drafts| - 1];
      Ungrounded(drafts[..|drafts| - 1]) + if last.grounded.Err? then [Dropped(last, last.grounded.error)] else []
  }

  /** Every draft survives or is dropped with its reason, and both lists keep the order. */
  lemma {:induction false} GroundingSplits(drafts: seq<Draft>)
    ensures |Grounded(drafts)| + |Ungrounded(drafts)| == |drafts|
    ensures forall d :: d in Grounded(drafts) <==> d in drafts && d.grounded.Ok?
    ensures forall d, reason :: Dropped(d, reason) in Ungrounded(drafts) <==> d in drafts && d.grounded == Err(reason)
  {
    if drafts != [] {
      var init, last := drafts[..|drafts| - 1], drafts[|drafts| - 1];
      GroundingSplits(init);
      assert drafts == init + [last];
    }
  }

  lemma {:induction false} GroundingKeepsOrder(drafts: seq<Draft>, more: seq<Draft>)
    ensures Grounded(drafts + more) == Grounded(drafts) + Grounded(more)
    ensures Ungrounded(drafts + more) == Ungrounded(drafts) + Ungrounded(more)
  {
    if more == [] {
      assert drafts + more == drafts;
    } else {
      var init := more[..|more| - 1];
      assert (drafts + more)[..|drafts + more| - 1] == drafts + init;
      GroundingKeepsOrder(drafts, init);
    }
  }

  /** The first of the first `n` survivors in the group. */
  function FirstOf(survivors: seq<Survivor>, group: Id, n: nat): (first: Option<nat>)
    requires n <= |survivors|
    ensures first.Some? ==> first.value < n && survivors[first.value].draft.group == Some(group)
    ensures first.Some? ==> forall j | 0 <= j < first.value :: survivors[j].draft.group != Some(group)
    ensures first.None? ==> forall j | 0 <= j < n :: survivors[j].draft.group != Some(group)
  {
    if n == 0 then None
    else if FirstOf(survivors, group, n - 1).Some? then FirstOf(survivors, group, n - 1)
    else if survivors[n - 1].draft.group == Some(group) then Some(n - 1)
    else None
  }

  /** A non-canonical survivor points to the first survivor of its group, unless it is that one. */
  function LinkOf(survivors: seq<Survivor>, k: nat): Option<Id>
    requires k < |survivors|
  {
    var d := survivors[k].draft;
    if d.group.None? || d.canonical then None else
      match FirstOf(survivors, d.group.value, k)
      case None => None
      case Some(j) => Some(survivors[j].id)
  }

  predicate Linked(survivors: seq<Survivor>) {
    forall k: nat | k < |survivors| :: survivors[k].variantOf == LinkOf(survivors, k)
  }

  predicate DistinctIds(survivors: seq<Survivor>) {
    forall i, j | 0 <= i < j < |survivors| :: survivors[i].id != survivors[j].id
  }

  ghost predicate Tracks(roots: map<Id, Id>, survivors: seq<Survivor>) {
    forall g :: g in roots <==> FirstOf(survivors, g, |survivors|).Some?
  }

  ghost predicate RootsAreFirst(roots: map<Id, Id>, survivors: seq<Survivor>) {
    forall g | g in roots && FirstOf(survivors, g, |survivors|).Some? ::
      roots[g] == survivors[FirstOf(survivors, g, |survivors|).value].id
  }

  lemma {:induction false} FirstOfPrefix(survivors: seq<Survivor>, more: seq<Survivor>, g: Id, n: nat)
    requires n <= |survivors|
    ensures FirstOf(survivors + more, g, n) == FirstOf(survivors, g, n)
  {
    if n > 0 {
      FirstOfPrefix(survivors, more, g, n - 1);
    }
  }

  lemma LinksKeep(survivors: seq<Survivor>, s: Survivor)
    requires Linked(survivors) && s.variantOf == LinkOf(survivors + [s], |survivors|)
    ensures Linked(survivors + [s])
  {
    hide FirstOf;
    var all := survivors + [s];
    forall k: nat | k < |all| ensures all[k].variantOf == LinkOf(all, k) {
      if k < |survivors| && survivors[k].draft.group.Some? {
        FirstOfPrefix(survivors, [s], survivors[k].draft.group.value, k);
      }
    }
  }

  lemma RootsKeep(roots: map<Id, Id>, survivors: seq<Survivor>, s: Survivor)
    requires Tracks(roots, survivors) && RootsAreFirst(roots, survivors)
    ensures var next := if s.draft.group.Some? && s.draft.group.value !in roots then roots[s.draft.group.value := s.id] else roots;
      Tracks(next, survivors + [s]) && RootsAreFirst(next, survivors + [s])
  {
    var all := survivors + [s];
    forall g ensures FirstOf(all, g, |survivors|) == FirstOf(survivors, g, |survivors|) {
      FirstOfPrefix(survivors, [s], g, |survivors|);
    }
    assert all[|survivors|] == s && all[..|survivors|] == survivors;
  }

  /** Every id is the first free one after those reserved and those given before it. */
  ghost predicate FreshlyNamed(survivors: seq<Survivor>, reserved: set<Id>) {
    forall k: nat | k < |survivors| ::
      IsFirstFree("q_" + survivors[k].draft.slug, reserved + IdsOf(survivors[..k]), survivors[k].id)
  }

  function IdsOf(survivors: seq<Survivor>): set<Id> {
    set s | s in survivors :: s.id
  }

  method GroundCandidates(drafts: seq<Draft>, reserved: set<Id>) returns (survivors: seq<Survivor>, dropped: seq<Dropped>)
    ensures SurvivorsOf(survivors, Grounded(drafts))
    ensures dropped == Ungrounded(drafts)
    ensures DistinctIds(survivors) && forall s | s in survivors :: s.id !in reserved
    ensures FreshlyNamed(survivors, reserved)
    ensures Linked(survivors)
  {
    hide IsFirstFree, FirstOf, LinkOf, Linked, Tracks, RootsAreFirst, IdsOf, DistinctIds;
    survivors, dropped := [], [];
    var taken := reserved;
    var roots: map<Id, Id> := map[];
    Empty();
    for i := 0 to |drafts|
      invariant |survivors| == |Grounded(drafts[..i])|
      invariant forall k: nat | k < |survivors| :: survivors[k].draft == Grounded(drafts[..i])[k]
      invariant dropped == Ungrounded(drafts[..i])
      invariant FreshlyNamed(survivors, reserved) && taken == reserved + IdsOf(survivors)
      invariant Linked(survivors) && Tracks(roots, survivors) && RootsAreFirst(roots, survivors)
    {
      var d := drafts[i];
      assert drafts[..i + 1][..i] == drafts[..i];
      if d.grounded.Err? {
        dropped := dropped + [Dropped(d, d.grounded.error)];
        continue;
      }
      var id;
      id, taken := FreshId("q_" + d.slug, taken);
      var s := Survivor(id, d, None);
      ghost var before := roots;
      if d.group.Some? {
        if d.canonical || d.group.value !in roots {
          if d.group.value !in roots {
            roots := roots[d.group.value := id];
          }
        } else if !d.canonical {
          s := s.(variantOf := Some(roots[d.group.value]));
        }
      }
      LinkIsRoot(before, survivors, s);
      LinksKeep(survivors, s);
      RootsKeep(before, survivors, s);
      NamesKeep(survivors, s, reserved);
      survivors := survivors + [s];
    }
    assert drafts[..|drafts|] == drafts;
    NamesAreFresh(survivors, reserved);
  }

  lemma NamesKeep(survivors: seq<Survivor>, s: Survivor, reserved: set<Id>)
    requires FreshlyNamed(survivors, reserved)
    requires IsFirstFree("q_" + s.draft.slug, reserved + IdsOf(survivors), s.id)
    ensures FreshlyNamed(survivors + [s], reserved) && IdsOf(survivors + [s]) == IdsOf(survivors) + {s.id}
  {
    hide IsFirstFree, IdsOf;
    var all := survivors + [s];
    assert all[..|survivors|] == survivors;
    forall k: nat | k < |survivors| ensures all[..k] == survivors[..k] {}
    hide FreshlyNamed;
    IdsOfAppend(survivors, s);
  }

  lemma IdsOfAppend(survivors: seq<Survivor>, s: Survivor)
    ensures IdsOf(survivors + [s]) == IdsOf(survivors) + {s.id}
  {}

  /** Ids found free one after the other are new and distinct. */
  lemma NamesAreFresh(survivors: seq<Survivor>, reserved: set<Id>)
    requires FreshlyNamed(survivors, reserved)
    ensures DistinctIds(survivors) && forall s | s in survivors :: s.id !in reserved
  {
    hide Candidate, Tried;
    forall i, j | 0 <= i < j < |survivors| ensures survivors[i].id != survivors[j].id {
      assert survivors[..j][i] in survivors[..j];
    }
  }

  lemma Empty()
    ensures IdsOf([]) == {}
    ensures Linked([]) && Tracks(map[], []) && RootsAreFirst(map[], [])
  {}

  lemma LinkIsRoot(roots: map<Id, Id>, survivors: seq<Survivor>, s: Survivor)
    requires Tracks(roots, survivors) && RootsAreFirst(roots, survivors)
    ensures LinkOf(survivors + [s], |survivors|)
      == if s.draft.group.Some? && !s.draft.canonical && s.draft.group.value in roots then Some(roots[s.draft.group.value]) else None
  {
    hide FirstOf;
    if s.draft.group.Some? {
      FirstOfPrefix(survivors, [s], s.draft.group.value, |survivors|);
    }
  }

  // ---------------------------------------------------------------- the links form a forest

  /** Survivor `k` is linked to survivor `j`. */
  predicate Points(survivors: seq<Survivor>, k: nat, j: nat)
    requires k < |survivors| && j < |survivors|
  {
    survivors[k].variantOf == Some(survivors[j].id)
  }

  /** A survivor is linked exactly when it is not canonical and its group has an earlier survivor. */
  lemma LinkedIff(survivors: seq<Survivor>, k: nat)
    requires Linked(survivors) && k < |survivors|
    ensures survivors[k].variantOf.Some? <==>
      && survivors[k].draft.group.Some? && !survivors[k].draft.canonical
      && exists j :: 0 <= j < k && survivors[j].draft.group == survivors[k].draft.group
  {
    hide FirstOf;
  }

  /** Every link goes to one earlier survivor of the same group, which links nowhere itself. */
  lemma LinksAreADepthOneForest(survivors: seq<Survivor>, k: nat)
    requires Linked(survivors) && DistinctIds(survivors) && k < |survivors| && survivors[k].variantOf.Some?
    ensures exists j: nat :: (
      && j < k && survivors[k].variantOf == Some(survivors[j].id)
      && survivors[j].variantOf.None? && survivors[j].draft.group == survivors[k].draft.group
      && forall i: nat | i < |survivors| && survivors[k].variantOf == Some(survivors[i].id) :: i == j)
  {
    var j := FirstOf(survivors, survivors[k].draft.group.value, k).value;
    assert FirstOf(survivors, survivors[k].draft.group.value, j).None?;
    assert survivors[j].variantOf.None? && survivors[k].variantOf == Some(survivors[j].id);
  }

  /** Some group opens with a non-canonical draft and has another one later. */
  predicate Misled(drafts: seq<Draft>, j: nat, k: nat)
    requires j < k < |drafts|
  {
    && drafts[j].group.Some? && drafts[k].group == drafts[j].group
    && !drafts[j].canonical && !drafts[k].canonical
    && forall i | 0 <= i < j :: drafts[i].group != drafts[j].group
  }

  predicate SurvivorsOf(survivors: seq<Survivor>, drafts: seq<Draft>) {
    |survivors| == |drafts| && forall k: nat | k < |drafts| :: survivors[k].draft == drafts[k]
  }

  /** A variant is documented to name its canonical question. It does exactly when, among the drafts that
    * are grounded, no group opens with a non-canonical one and has another later: drafting the
    * canonical question later, or failing to ground it, makes one variant point to another. */
  lemma VariantsNameCanonicalIff(drafts: seq<Draft>, survivors: seq<Survivor>)
    requires SurvivorsOf(survivors, Grounded(drafts)) && Linked(survivors) && DistinctIds(survivors)
    ensures var g := Grounded(drafts);
      (forall j: nat, k: nat | j < |survivors| && k < |survivors| && Points(survivors, k, j) :: survivors[j].draft.canonical)
      <==> !(exists j: nat, k: nat | j < k < |g| :: Misled(g, j, k))
  {
    hide Linked, DistinctIds, Misled, Points;
    var g := Grounded(drafts);
    forall j: nat, k: nat | j < |survivors| && k < |survivors| && Points(survivors, k, j)
      ensures j < k && (survivors[j].draft.canonical || Misled(g, j, k))
    {
      PointsToFirst(survivors, g, k, j);
    }
    forall j: nat, k: nat | j < k < |g| && Misled(g, j, k)
      ensures Points(survivors, k, j) && !survivors[j].draft.canonical
    {
      MisledPoints(survivors, g, j, k);
    }
  }

  lemma PointsToFirst(survivors: seq<Survivor>, drafts: seq<Draft>, k: nat, j: nat)
    requires SurvivorsOf(survivors, drafts) && Linked(survivors) && DistinctIds(survivors)
    requires k < |survivors| && j < |survivors| && Points(survivors, k, j)
    ensures j < k && (survivors[j].draft.canonical || Misled(drafts, j, k))
  {
    LinksAreADepthOneForest(survivors, k);
    assert Points(survivors, k, FirstOf(survivors, survivors[k].draft.group.value, k).value);
  }

  lemma MisledPoints(survivors: seq<Survivor>, drafts: seq<Draft>, j: nat, k: nat)
    requires SurvivorsOf(survivors, drafts) && Linked(survivors) && j < k < |drafts| && Misled(drafts, j, k)
    ensures Points(survivors, k, j) && !survivors[j].draft.canonical
  {
    hide FirstOf, Linked;
    assert survivors[j].draft == drafts[j] && survivors[k].draft == drafts[k];
    var group := survivors[k].draft.group.value;
    forall i | 0 <= i < j ensures survivors[i].draft.group != Some(group) {
      assert survivors[i].draft == drafts[i];
    }
    FirstIs(survivors, group, k, j);
    LinkAt(survivors, k);
  }

  lemma FirstIs(survivors: seq<Survivor>, group: Id, k: nat, j: nat)
    requires j < k <= |survivors| && survivors[j].draft.group == Some(group)
    requires forall i | 0 <= i < j :: survivors[i].draft.group != Some(group)
    ensures FirstOf(survivors, group, k) == Some(j)
  {
    hide FirstOf;
    var first := FirstOf(survivors, group, k);
    assert first.Some? ==> first.value >= j;
  }

  lemma LinkAt(survivors: seq<Survivor>, k: nat)
    requires Linked(survivors) && k < |survivors|
    ensures survivors[k].variantOf == LinkOf(survivors, k)
  {}

  /** Two variants before their canonical question, which is drafted last. */
  function LateCanonical(group: Id): seq<Draft> {
    var draft := (slug: string, canonical: bool) => Draft(slug, "query", canonical, Some(group), Ok(Evidence([])));
    [draft("a", false), draft("b", false), draft("c", true)]
  }

  /** All are grounded, and however they are named, the second names the first: not a canonical question. */
  lemma LateCanonicalMisleads(group: Id, survivors: seq<Survivor>)
    requires SurvivorsOf(survivors, Grounded(LateCanonical(group))) && Linked(survivors)
    ensures |survivors| == 3 && Points(survivors, 1, 0) && !survivors[0].draft.canonical
    ensures Misled(LateCanonical(group), 0, 1) && LateCanonical(group)[2].canonical
  {
    var d := LateCanonical(group);
    assert d[..2][..1] == [d[0]] && d[..2] == [d[0], d[1]] && [d[0]][..0] == [];
    assert Grounded([d[0]]) == [d[0]] && Grounded([d[0], d[1]]) == [d[0], d[1]];
    assert Grounded(d) == d;
    MisledPoints(survivors, d, 0, 1);
  }
}

/** Narrowing the schema to the tables a question needs. */
module Selection {
  import opened Cost
  import opened Permutations
  import opened Sorting
  import opened Wrappers

  datatype Name = Name(text: string)

  datatype Token = Token(word: string)

  /** A declared table with the tokens of its name, description, synonyms and columns. */
  datatype Table = Table(name: Name, vocabulary: set<Token>)

  datatype Strategy = IncludeAll | Lexical | Llm | LlmLexical

  datatype Note = NeedsClient | UnknownTable(name: Name) | MatchedNone

  datatype Selection = Selection(strategy: Strategy, tables: seq<Name>, notes: seq<Note>, usage: Usage, fellBack: bool)

  /** The shortlisting call: the tables it names, or an unreadable answer. */
  datatype Shortlist = Named(names: seq<Name>, usage: Usage) | Unreadable

  datatype Crash = Crash

  const DEFAULT_SELECT_CAP := 10

  /** A missing cap and a zero cap both mean the default. */
  function CapOf(maxTables: Option<int>): int {
    if maxTables.None? || maxTables.value == 0 then DEFAULT_SELECT_CAP else maxTables.value
  }

  /** `s[:n]`: a negative bound drops from the end. */
  function Take<T>(s: seq<T>, n: int): seq<T> {
    if n >= |s| then s else if n >= 0 then s[..n] else if |s| + n >= 0 then s[..|s| + n] else []
  }

  // ---------------------------------------------------------------- lexical rank

  /** A table's score, with its place in the declared order (which the sort does not look at). */
  datatype Entry = Entry(name: Name, score: nat, place: nat)

  function ScoreOf(question: set<Token>, t: Table): nat {
    |question * t.vocabulary|
  }

  function EntryOf(question: set<Token>, tables: seq<Table>, i: nat): Entry
    requires i < |tables|
  {
    Entry(tables[i].name, ScoreOf(question, tables[i]), i)
  }

  function Entries(question: set<Token>, tables: seq<Table>): seq<Entry> {
    seq(|tables|, i requires 0 <= i < |tables| => EntryOf(question, tables, i))
  }

  predicate HigherScore(a: Entry, b: Entry) {
    a.score >= b.score
  }

  function LexicalRank(question: set<Token>, tables: seq<Table>): seq<Entry> {
    Sort(Entries(question, tables), HigherScore)
  }

  /** Higher scores first, and among equal scores the declared order. */
  predicate Ahead(a: Entry, b: Entry) {
    a.score > b.score || (a.score == b.score && a.place <= b.place)
  }

  lemma {:induction false} StableInsert(x: Entry, s: seq<Entry>)
    requires Sorted(s, Ahead) && forall e | e in s :: x.place < e.place
    ensures Sorted(Insert(x, s, HigherScore), Ahead)
  {
    if s == [] || HigherScore(x, s[0]) {
      SortedCons(x, s, Ahead);
    } else {
      var rest := Insert(x, s[1..], HigherScore);
      assert Sorted(s[1..], Ahead);
      StableInsert(x, s[1..]);
      assert rest[0] == x || rest[0] == s[1];
      SortedCons(s[0], rest, Ahead);
    }
  }

  lemma {:induction false} SortIsStable(s: seq<Entry>)
    requires forall i, j | 0 <= i < j < |s| :: s[i].place < s[j].place
    ensures Sorted(Sort(s, HigherScore), Ahead)
  {
    if s != [] {
      SortIsStable(s[1..]);
      SortIsPermutation(s[1..], HigherScore);
      forall e | e in Sort(s[1..], HigherScore) ensures s[0].place < e.place {
        assert e in multiset(s[1..]);
      }
      StableInsert(s[0], Sort(s[1..], HigherScore));
    }
  }

  /** The tables that outrank table `i`: a higher score, or the same score and declared earlier. */
  function Rivals(question: set<Token>, tables: seq<Table>, i: nat): set<nat>
    requires i < |tables|
  {
    set j: nat | j < |tables| && j != i && Ahead(EntryOf(question, tables, j), EntryOf(question, tables, i))
  }

  predicate DistinctNames(tables: seq<Table>) {
    forall i, j | 0 <= i < j < |tables| :: tables[i].name != tables[j].name
  }

  /** The ranking holds each entry once. */
  lemma RankedOnce(question: set<Token>, tables: seq<Table>)
    ensures var r := LexicalRank(question, tables);
      && |r| == |tables|
      && (forall p | 0 <= p < |r| :: r[p].place < |tables| && r[p] == EntryOf(question, tables, r[p].place))
      && (forall i: nat | i < |tables| :: EntryOf(question, tables, i) in r)
      && forall p, q | 0 <= p < q < |r| :: r[p].place != r[q].place
  {
    hide Sort, ScoreOf;
    var entries, r := Entries(question, tables), LexicalRank(question, tables);
    SortIsPermutation(entries, HigherScore);
    forall p | 0 <= p < |r| ensures r[p].place < |tables| && r[p] == EntryOf(question, tables, r[p].place) {
      assert r[p] in multiset(r);
      assert r[p] in entries;
    }
    forall i: nat | i < |tables| ensures EntryOf(question, tables, i) in r {
      assert entries[i] in multiset(entries);
    }
    forall p, q | 0 <= p < q < |r| ensures r[p].place != r[q].place {
      if r[p].place == r[q].place {
        Twice(r, p, q);
        var i, j := TwoOf(entries, r[p]);
      }
    }
  }

  /** Where a table stands in the ranking is how many outrank it. */
  lemma StandingIsRivals(question: set<Token>, tables: seq<Table>, p: nat)
    requires p < |LexicalRank(question, tables)| && LexicalRank(question, tables)[p].place < |tables|
    ensures |Rivals(question, tables, LexicalRank(question, tables)[p].place)| == p
  {
    hide Sort, ScoreOf;
    var entries, r := Entries(question, tables), LexicalRank(question, tables);
    RankedOnce(question, tables);
    SortIsStable(entries);
    var i := r[p].place;
    var ahead := set q: nat | q < p :: r[q].place;
    forall j: nat ensures j in Rivals(question, tables, i) <==> j in ahead {
      if j in Rivals(question, tables, i) {
        assert EntryOf(question, tables, j) in r;
        var q: nat :| q < |r| && r[q] == EntryOf(question, tables, j);
        assert q != p;
      }
      if q: nat :| q < p && r[q].place == j {
        assert Ahead(r[q], r[p]);
      }
    }
    assert Rivals(question, tables, i) == ahead;
    PlacesCount(r, p);
  }

  lemma {:induction false} PlacesCount(r: seq<Entry>, p: nat)
    requires p <= |r| && forall a, b | 0 <= a < b < |r| :: r[a].place != r[b].place
    ensures |set q: nat | q < p :: r[q].place| == p
  {
    var places := set q: nat | q < p :: r[q].place;
    if p == 0 {
      assert places == {};
    } else {
      PlacesCount(r, p - 1);
      var fewer := set q: nat | q < p - 1 :: r[q].place;
      assert places == fewer + {r[p - 1].place};
    }
  }

  // ---------------------------------------------------------------- selecting

  function NamesOf(tables: seq<Table>): seq<Name> {
    seq(|tables|, i requires 0 <= i < |tables| => tables[i].name)
  }

  /** The chosen names in the declared order. */
  function InInputOrder(all: seq<Name>, picked: set<Name>): (r: seq<Name>)
    ensures forall x :: x in r <==> x in all && x in picked
    ensures |r| <= |all|
  {
    if all == [] then [] else (if all[0] in picked then [all[0]] else []) + InInputOrder(all[1..], picked)
  }

  function AsSet(names: seq<Name>): (s: set<Name>)
    ensures forall x :: x in s <==> x in names
  {
    set x | x in names
  }

  function TopNames(ranked: seq<Entry>, cap: int): set<Name> {
    set e | e in Take(ranked, cap) && e.score > 0 :: e.name
  }

  /** The names the answer gives that exist, and a note for each that does not. */
  method KeepKnown(names: seq<Name>, valid: set<Name>) returns (kept: seq<Name>, notes: seq<Note>)
    ensures forall x :: x in kept <==> x in names && x in valid
    ensures forall x :: UnknownTable(x) in notes <==> x in names && x !in valid
    ensures |kept| + |notes| == |names| && forall n | n in notes :: n.UnknownTable?
  {
    kept, notes := [], [];
    for i := 0 to |names|
      invariant forall x :: x in kept <==> x in names[..i] && x in valid
      invariant forall x :: UnknownTable(x) in notes <==> x in names[..i] && x !in valid
      invariant |kept| + |notes| == i && forall n | n in notes :: n.UnknownTable?
    {
      assert names[..i + 1] == names[..i] + [names[i]];
      if names[i] in valid {
        kept := kept + [names[i]];
      } else {
        notes := notes + [UnknownTable(names[i])];
      }
    }
    assert names[..|names|] == names;
  }

  /** What a selection may be, for each strategy that actually runs. */
  ghost predicate Selected(question: set<Token>, tables: seq<Table>, cap: int, effective: Strategy, client: Option<Shortlist>,
                           s: Selection, calls: nat) {
    var all := NamesOf(tables);
    s.strategy == (if s.fellBack then IncludeAll else effective) &&
    match effective
    case IncludeAll => s.tables == all && !s.fellBack && calls == 0 && s.usage == NO_USAGE
    case Lexical =>
      var lexical := InInputOrder(all, TopNames(LexicalRank(question, tables), cap));
      && calls == 0 && s.usage == NO_USAGE && (s.fellBack <==> lexical == [])
      && s.tables == (if s.fellBack then all else lexical)
    case _ =>
      && calls == 1 && client.Some? && client.value.Named? && s.usage == client.value.usage
      && var named := InInputOrder(all, AsSet(client.value.names));
      && (s.fellBack <==> named == [])
      && s.tables == (if s.fellBack then all else Take(named, cap))
  }

  method SelectContext(question: set<Token>, tables: seq<Table>, strategy: Strategy, maxTables: Option<int>,
                       client: Option<Shortlist>) returns (result: Result<Selection, Crash>, calls: nat)
    ensures var effective := if (strategy.Llm? || strategy.LlmLexical?) && client.None? then Lexical else strategy;
      && (result.Err? <==> (effective.Llm? || effective.LlmLexical?) && client.value.Unreadable?)
      && (result.Ok? ==> Selected(question, tables, CapOf(maxTables), effective, client, result.value, calls))
      && (result.Err? ==> calls == 1)
      && (result.Ok? ==>
            && (NeedsClient in result.value.notes <==> effective != strategy)
            && (MatchedNone in result.value.notes <==> result.value.fellBack)
            && forall x :: UnknownTable(x) in result.value.notes <==>
                 effective in {Llm, LlmLexical} && x in client.value.names && x !in NamesOf(tables))
  {
    hide LexicalRank, TopNames, InInputOrder, AsSet, Take;
    var all := NamesOf(tables);
    var notes: seq<Note>, effective := [], strategy;
    calls := 0;
    if (strategy.Llm? || strategy.LlmLexical?) && client.None? {
      notes := notes + [NeedsClient];
      effective := Lexical;
    }
    if effective.IncludeAll? {
      return Ok(Selection(IncludeAll, all, notes, NO_USAGE, false)), calls;
    }
    var cap := CapOf(maxTables);
    var ranked := LexicalRank(question, tables);
    if effective.Lexical? {
      var lexical := InInputOrder(all, TopNames(ranked, cap));
      result := Ok(if lexical == [] then FallbackAll(all, notes, NO_USAGE)
                   else Selection(Lexical, lexical, notes, NO_USAGE, false));
      return;
    }
    calls := calls + 1;
    match client.value {
      case Unreadable => return Err(Crash), calls;
      case Named(names, usage) =>
        var kept, unknown := KeepKnown(names, AsSet(all));
        notes := notes + unknown;
        KnownInOrder(all, kept, names);
        result := Ok(if kept != [] then Selection(effective, Take(InInputOrder(all, AsSet(kept)), cap), notes, usage, false)
                     else FallbackAll(all, notes, usage));
    }
  }

  lemma KnownInOrder(all: seq<Name>, kept: seq<Name>, names: seq<Name>)
    requires forall x :: x in kept <==> x in names && x in AsSet(all)
    ensures InInputOrder(all, AsSet(kept)) == InInputOrder(all, AsSet(names))
    ensures InInputOrder(all, AsSet(names)) == [] <==> kept == []
  {
    SameOrder(all, AsSet(kept), AsSet(names));
    var ordered := InInputOrder(all, AsSet(names));
    assert forall x | x in ordered :: x in kept;
    assert forall x | x in kept :: x in ordered;
    assert ordered != [] ==> ordered[0] in ordered;
    assert kept != [] ==> kept[0] in kept;
  }

  function FallbackAll(all: seq<Name>, notes: seq<Note>, usage: Usage): Selection {
    Selection(IncludeAll, all, notes + [MatchedNone], usage, true)
  }

  lemma {:induction false} SameOrder(all: seq<Name>, a: set<Name>, b: set<Name>)
    requires forall x | x in all :: x in a <==> x in b
    ensures InInputOrder(all, a) == InInputOrder(all, b)
  {
    if all != [] {
      SameOrder(all[1..], a, b);
    }
  }

  // ---------------------------------------------------------------- what selecting keeps

  /** `part` lists some of `whole`, in its order. */
  ghost predicate Subsequence(part: seq<Name>, whole: seq<Name>) {
    part == InInputOrder(whole, AsSet(part))
  }

  lemma {:induction false} InOrderOfAll(all: seq<Name>, picked: set<Name>)
    requires forall x | x in all :: x in picked
    ensures InInputOrder(all, picked) == all
  {
    if all != [] {
      InOrderOfAll(all[1..], picked);
    }
  }

  lemma {:induction false} PrefixInOrder(all: seq<Name>, picked: set<Name>, k: nat)
    requires Distinct(all) && k <= |InInputOrder(all, picked)|
    ensures Subsequence(InInputOrder(all, picked)[..k], all)
  {
    hide Subsequence, AsSet, InInputOrder, Distinct;
    FirstInOrder(all, picked);
    if all == [] {
      assert InInputOrder(all, picked)[..k] == [];
    } else {
      var rest := InInputOrder(all[1..], picked);
      DistinctTail(all);
      var j := if all[0] !in picked then k else if k > 0 then k - 1 else 0;
      PrefixInOrder(all[1..], picked, j);
      HeadInOrder(all, rest[..j]);
      if all[0] in picked && k > 0 {
        assert InInputOrder(all, picked)[..k] == [all[0]] + rest[..j];
      } else {
        assert InInputOrder(all, picked)[..k] == rest[..j];
      }
    }
  }

  lemma DistinctTail(all: seq<Name>)
    requires all != [] && Distinct(all)
    ensures Distinct(all[1..]) && all[0] !in all[1..]
  {
    assert all == [all[0]] + all[1..];
    ConsDistinct(all[0], all[1..]);
  }

  lemma FirstInOrder(all: seq<Name>, picked: set<Name>)
    ensures all == [] ==> InInputOrder(all, picked) == [] && Subsequence([], all)
    ensures all != [] && all[0] in picked ==> InInputOrder(all, picked) == [all[0]] + InInputOrder(all[1..], picked)
    ensures all != [] && all[0] !in picked ==> InInputOrder(all, picked) == InInputOrder(all[1..], picked)
  {}

  /** A part of the tail is a part of the whole, and so it is with the head in front of it. */
  lemma HeadInOrder(all: seq<Name>, part: seq<Name>)
    requires all != [] && all[0] !in all[1..] && Subsequence(part, all[1..])
    ensures Subsequence(part, all) && Subsequence([all[0]] + part, all)
  {
    var whole := [all[0]] + part;
    assert forall x :: x in whole <==> x == all[0] || x in part;
    assert forall x | x in part :: x in all[1..];
    SameOrder(all[1..], AsSet(whole), AsSet(part));
  }

  lemma {:induction false} AtMostPicked(all: seq<Name>, picked: set<Name>)
    requires Distinct(all)
    ensures |InInputOrder(all, picked)| <= |picked|
  {
    if all != [] {
      if all[0] in picked {
        AtMostPicked(all[1..], picked - {all[0]});
        SameOrder(all[1..], picked, picked - {all[0]});
      } else {
        AtMostPicked(all[1..], picked);
      }
    }
  }

  lemma {:induction false} TopNamesCount(ranked: seq<Entry>)
    ensures |set e | e in ranked && e.score > 0 :: e.name| <= |ranked|
  {
    var names := set e | e in ranked && e.score > 0 :: e.name;
    if ranked == [] {
      assert names == {};
    } else {
      var init, last := ranked[..|ranked| - 1], ranked[|ranked| - 1];
      TopNamesCount(init);
      assert ranked == init + [last];
      var fewer := set e | e in init && e.score > 0 :: e.name;
      assert names <= fewer + {last.name};
      SubsetSize(names, fewer + {last.name});
    }
  }

  /** How many of the `n` ranked tables a cap lets through. */
  function Room(cap: int, n: nat): int {
    if cap >= 0 then cap else n + cap
  }

  /** Every selection lists declared tables in the declared order, and a narrowed one with a
    * positive cap no more than the cap. */
  lemma SelectionIsASubsequence(question: set<Token>, tables: seq<Table>, cap: int, effective: Strategy,
                                client: Option<Shortlist>, s: Selection, calls: nat)
    requires DistinctNames(tables) && Selected(question, tables, cap, effective, client, s, calls)
    ensures Subsequence(s.tables, NamesOf(tables))
    ensures !effective.IncludeAll? && !s.fellBack && cap >= 0 ==> |s.tables| <= cap
  {
    hide LexicalRank;
    var all := NamesOf(tables);
    if effective.IncludeAll? || s.fellBack {
      InOrderOfAll(all, AsSet(all));
    } else if effective.Lexical? {
      var top := TopNames(LexicalRank(question, tables), cap);
      PrefixInOrder(all, top, |InInputOrder(all, top)|);
      assert s.tables[..|s.tables|] == s.tables;
      AtMostPicked(all, top);
      TopNamesCount(Take(LexicalRank(question, tables), cap));
    } else {
      var named := InInputOrder(all, AsSet(client.value.names));
      PrefixInOrder(all, AsSet(client.value.names), |Take(named, cap)|);
      assert s.tables == named[..|Take(named, cap)|];
    }
  }

  /** The schema is never emptied when the cap is positive or missing. With a negative one it is
    * exactly when a model names no more known tables than the cap takes off the end. */
  lemma SelectionIsEmptyIff(question: set<Token>, tables: seq<Table>, cap: int, effective: Strategy,
                            client: Option<Shortlist>, s: Selection, calls: nat)
    requires tables != [] && cap != 0 && Selected(question, tables, cap, effective, client, s, calls)
    ensures s.tables == [] <==>
      (effective.Llm? || effective.LlmLexical?) && 0 < |InInputOrder(NamesOf(tables), AsSet(client.value.names))| <= -cap
  {
    hide LexicalRank, TopNames, InInputOrder, AsSet;
  }

  /** One such input: a cap of minus one, and a model that names the only table there is. */
  lemma NegativeCapEmpties(orders: Name)
    ensures Selected({}, [Table(orders, {})], CapOf(Some(-1)), Llm, Some(Named([orders], NO_USAGE)),
                     Selection(Llm, [], [], NO_USAGE, false), 1)
  {
    var named := InInputOrder([orders], AsSet([orders]));
    assert NamesOf([Table(orders, {})]) == [orders];
    assert [orders][1..] == [] && named == [orders];
  }

  /** Lexical selection keeps exactly the tables that match at all and are outranked by too few to
    * push them out. */
  lemma LexicalKeepsIff(question: set<Token>, tables: seq<Table>, cap: int, client: Option<Shortlist>, s: Selection,
                        calls: nat, i: nat)
    requires DistinctNames(tables) && i < |tables|
    requires Selected(question, tables, cap, Lexical, client, s, calls) && !s.fellBack
    ensures tables[i].name in s.tables <==>
      ScoreOf(question, tables[i]) > 0 && |Rivals(question, tables, i)| < Room(cap, |tables|)
  {
    hide Rivals, ScoreOf, LexicalRank, Take, Room;
    var ranked := LexicalRank(question, tables);
    RankedOnce(question, tables);
    var p :| 0 <= p < |ranked| && ranked[p] == EntryOf(question, tables, i);
    StandingIsRivals(question, tables, p);
    assert NamesOf(tables)[i] in NamesOf(tables);
    TakeHas(ranked, cap, p);
    assert forall q | 0 <= q < |ranked| && ranked[q].name == tables[i].name :: ranked[q].place == i;
  }

  lemma TakeHas(ranked: seq<Entry>, cap: int, p: nat)
    requires p < |ranked| && forall a, b | 0 <= a < b < |ranked| :: ranked[a].place != ranked[b].place
    ensures ranked[p] in Take(ranked, cap) <==> p < Room(cap, |ranked|)
    ensures forall e | e in Take(ranked, cap) :: e in ranked
  {
    var top := Take(ranked, cap);
    assert forall q | 0 <= q < |top| :: top[q] == ranked[q];
    if p < Room(cap, |ranked|) {
      assert top[p] in top;
    }
  }

  /** So no dropped table scores higher than a kept one. */
  lemma KeptDominatesDropped(question: set<Token>, tables: seq<Table>, cap: int, client: Option<Shortlist>, s: Selection,
                             calls: nat, kept: nat, dropped: nat)
    requires DistinctNames(tables) && kept < |tables| && dropped < |tables|
    requires Selected(question, tables, cap, Lexical, client, s, calls) && !s.fellBack
    requires tables[kept].name in s.tables && tables[dropped].name !in s.tables
    ensures ScoreOf(question, tables[kept]) >= ScoreOf(question, tables[dropped])
  {
    hide ScoreOf;
    LexicalKeepsIff(question, tables, cap, client, s, calls, kept);
    LexicalKeepsIff(question, tables, cap, client, s, calls, dropped);
    var a, b := Rivals(question, tables, dropped), Rivals(question, tables, kept);
    if ScoreOf(question, tables[kept]) < ScoreOf(question, tables[dropped]) {
      SubsetSize(a, b);
    }
  }

  /** Over the caller's limit: no limit, or zero, means ten tables; a negative one drops that many ranked
    * tables from the end. A table is kept exactly when it shares a word with the question and fewer
    * tables than that share more, or as many and are declared earlier. */
  lemma LexicalKeepsBest(question: set<Token>, tables: seq<Table>, maxTables: Option<int>, client: Option<Shortlist>,
                         s: Selection, calls: nat, i: nat)
    requires DistinctNames(tables) && i < |tables|
    requires Selected(question, tables, CapOf(maxTables), Lexical, client, s, calls) && !s.fellBack
    ensures var room := if maxTables.None? || maxTables.value == 0 then 10
                        else if maxTables.value > 0 then maxTables.value else |tables| + maxTables.value;
      var shared := |question * tables[i].vocabulary|;
      var better := set j: nat | j < |tables|
                                 && (|question * tables[j].vocabulary| > shared
                                     || (|question * tables[j].vocabulary| == shared && j < i));
      tables[i].name in s.tables <==> question * tables[i].vocabulary != {} && |better| < room
  {
    hide Selected;
    LexicalKeepsIff(question, tables, CapOf(maxTables), client, s, calls, i);
    var shared := |question * tables[i].vocabulary|;
    assert Rivals(question, tables, i)
        == set j: nat | j < |tables|
                        && (|question * tables[j].vocabulary| > shared
                            || (|question * tables[j].vocabulary| == shared && j < i));
  }

  /** A model's shortlist keeps the known tables it names, cut off at the limit. */
  lemma NamedAreCut(question: set<Token>, tables: seq<Table>, maxTables: Option<int>, effective: Strategy, client: Option<Shortlist>,
                    s: Selection, calls: nat)
    requires (effective.Llm? || effective.LlmLexical?) && Selected(question, tables, CapOf(maxTables), effective, client, s, calls)
    requires !s.fellBack
    ensures var named := InInputOrder(NamesOf(tables), AsSet(client.value.names));
      var room := if maxTables.None? || maxTables.value == 0 then 10
                  else if maxTables.value > 0 then maxTables.value else |named| + maxTables.value;
      s.tables <= named && (if 0 <= room <= |named| then |s.tables| == room else s.tables == if room < 0 then [] else named)
  {
    hide InInputOrder, AsSet;
  }

  /** The names of `part` are at increasing places of `whole`. */
  ghost predicate PlacedAt(part: seq<Name>, whole: seq<Name>, m: seq<nat>) {
    && |m| == |part| && (forall i | 0 <= i < |m| :: m[i] < |whole| && part[i] == whole[m[i]])
    && forall i, j | 0 <= i < j < |m| :: m[i] < m[j]
  }

  /** Listing in the declared order means at increasing places. */
  lemma {:induction false} InOrderPlaces(all: seq<Name>, picked: set<Name>) returns (m: seq<nat>)
    ensures PlacedAt(InInputOrder(all, picked), all, m)
  {
    hide PlacedAt;
    if all == [] {
      m := [];
      NonePlaced(all);
    } else {
      var rest := InOrderPlaces(all[1..], picked);
      var part := InInputOrder(all[1..], picked);
      ShiftedArePlaced(part, all, rest);
      assert InInputOrder(all, picked) == if all[0] in picked then [all[0]] + part else [] + part;
      assert [] + part == part;
      m := if all[0] in picked then [0] + Shifted(rest) else Shifted(rest);
    }
  }

  lemma NonePlaced(whole: seq<Name>)
    ensures PlacedAt([], whole, [])
  {}

  function Shifted(m: seq<nat>): (r: seq<nat>)
    ensures |r| == |m| && forall i | 0 <= i < |m| :: r[i] == m[i] + 1
  {
    seq(|m|, i requires 0 <= i < |m| => m[i] + 1)
  }

  lemma ShiftedArePlaced(part: seq<Name>, whole: seq<Name>, m: seq<nat>)
    requires whole != [] && PlacedAt(part, whole[1..], m)
    ensures PlacedAt(part, whole, Shifted(m)) && PlacedAt([whole[0]] + part, whole, [0] + Shifted(m))
  {
    var next := [0] + Shifted(m);
    forall i, j | 0 <= i < j < |next| ensures next[i] < next[j] {
      assert i > 0 ==> m[i - 1] < m[j - 1];
    }
  }
}

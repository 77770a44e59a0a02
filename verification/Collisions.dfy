/** Synonym collisions: words that two columns of a table both answer to. */
module Collisions {
  import opened Permutations

  /** Column names, synonyms and words are only compared and split into words. */
  datatype Phrase = Phrase(text: string)

  datatype Token = Token(word: string)

  datatype Column = Column(name: Phrase, synonyms: seq<Phrase>)

  datatype Collision = Collision(token: Token, columns: set<Phrase>)

  /** Columns shared by this many columns or more are table vocabulary, not a contest. */
  const GENERIC_TOKEN_MIN_DEGREE := 3

  /** The content words of the phrases, given those of each. */
  function TokensOf(words: Phrase -> set<Token>, phrases: seq<Phrase>): set<Token> {
    if phrases == [] then {} else words(phrases[0]) + TokensOf(words, phrases[1..])
  }

  lemma {:induction false} InTokens(words: Phrase -> set<Token>, phrases: seq<Phrase>, t: Token)
    ensures t in TokensOf(words, phrases) <==> exists p :: p in phrases && t in words(p)
  {
    if phrases != [] {
      InTokens(words, phrases[1..], t);
      assert phrases == [phrases[0]] + phrases[1..];
    }
  }

  /** A table's columns with the splitter and the table's own topical words. */
  datatype Vocabulary = Vocabulary(columns: seq<Column>, words: Phrase -> set<Token>, topical: set<Token>) {
    predicate DistinctNames() {
      forall i, j | 0 <= i < j < |columns| :: columns[i].name != columns[j].name
    }

    function SynonymTokens(i: nat): set<Token>
      requires i < |columns|
    {
      TokensOf(words, columns[i].synonyms)
    }

    function AllTokens(i: nat): set<Token>
      requires i < |columns|
    {
      TokensOf(words, [columns[i].name] + columns[i].synonyms)
    }

    lemma SynonymsAreTokens(i: nat)
      requires i < |columns|
      ensures SynonymTokens(i) <= AllTokens(i)
    {
      assert ([columns[i].name] + columns[i].synonyms)[1..] == columns[i].synonyms;
    }

    /** The columns, among the first `n`, whose vocabulary has the token. */
    function Holders(t: Token, n: nat): set<nat>
      requires n <= |columns|
    {
      set i: nat | i < n && t in AllTokens(i)
    }

    lemma NoHolders(t: Token)
      ensures |Holders(t, 0)| == 0
    {
      assert Holders(t, 0) == {};
    }

    lemma HoldersNext(t: Token, n: nat)
      requires n < |columns|
      ensures |Holders(t, n + 1)| == |Holders(t, n)| + if t in AllTokens(n) then 1 else 0
    {
      assert Holders(t, n + 1) == Holders(t, n) + if t in AllTokens(n) then {n} else {};
    }

    /** The documented meaning: a non-topical synonym of one of the two columns that is in the
      * vocabulary of the other, and of no third column. */
    predicate Contested(t: Token, i: nat, j: nat)
      requires i < |columns| && j < |columns|
    {
      && t !in topical
      && ((t in SynonymTokens(i) && t in AllTokens(j)) || (t in SynonymTokens(j) && t in AllTokens(i)))
      && forall k: nat | k < |columns| && k != i && k != j :: t !in AllTokens(k)
    }

    /** A token belongs to a column when it is a word of its name or of one of its synonyms. */
    lemma TokensAre(t: Token, i: nat)
      requires i < |columns|
      ensures t in SynonymTokens(i) <==> exists s :: s in columns[i].synonyms && t in words(s)
      ensures t in AllTokens(i) <==> t in words(columns[i].name) || exists s :: s in columns[i].synonyms && t in words(s)
    {
      InTokens(words, columns[i].synonyms, t);
      assert ([columns[i].name] + columns[i].synonyms)[1..] == columns[i].synonyms;
    }

    /** What the detector computes for a pair. */
    function SharedTokens(i: nat, j: nat): set<Token>
      requires i < |columns| && j < |columns|
    {
      (SynonymTokens(i) * AllTokens(j) + SynonymTokens(j) * AllTokens(i)) - topical
    }

    /** Below the generic degree there is no room for a third holder. */
    lemma DegreeRulesOutThird(t: Token, i: nat, j: nat)
      requires i < j < |columns|
      ensures Contested(t, i, j) <==>
        t in SharedTokens(i, j) && |Holders(t, |columns|)| < GENERIC_TOKEN_MIN_DEGREE
    {
      SynonymsAreTokens(i);
      SynonymsAreTokens(j);
      if t in SharedTokens(i, j) {
        TwoHolders(t, i, j);
      }
    }

    lemma TwoHolders(t: Token, i: nat, j: nat)
      requires i < j < |columns| && t in AllTokens(i) && t in AllTokens(j)
      ensures |Holders(t, |columns|)| < 3 <==>
        forall k: nat | k < |columns| && k != i && k != j :: t !in AllTokens(k)
    {
      hide AllTokens;
      var h := Holders(t, |columns|);
      assert i in h && j in h;
      if k: nat :| k < |columns| && k != i && k != j && t in AllTokens(k) {
        SubsetSize({i, j, k}, h);
      } else {
        assert h == {i, j};
      }
    }

    function CollisionOf(t: Token, i: nat, j: nat): Collision
      requires i < |columns| && j < |columns|
    {
      Collision(t, {columns[i].name, columns[j].name})
    }

    /** A collision the documented meaning accounts for, at a pair before row `i`, column `j`. */
    ghost predicate Explained(c: Collision, i: nat, j: nat) {
      exists a: nat, b: nat ::
        a < b < |columns| && (a < i || (a == i && b < j)) && Contested(c.token, a, b) && c == CollisionOf(c.token, a, b)
    }

    /** What has been reported is all explained, no token twice, and covers every pair before
      * row `i`, column `j`. */
    ghost predicate Reported(out: seq<Collision>, i: nat, j: nat) {
      && (forall c | c in out :: Explained(c, i, j))
      && (forall t, a: nat, b: nat | a < b < |columns| && (a < i || (a == i && b < j)) && Contested(t, a, b) ::
            CollisionOf(t, a, b) in out)
      && forall x, y | 0 <= x < y < |out| :: out[x].token != out[y].token
    }

    /** A token is contested by one pair only. */
    lemma OnePairPerToken(t: Token, i: nat, j: nat, a: nat, b: nat)
      requires i < j < |columns| && a < b < |columns| && Contested(t, i, j) && Contested(t, a, b)
      ensures i == a && j == b
    {
      SynonymsAreTokens(i);
      SynonymsAreTokens(j);
      SynonymsAreTokens(a);
      SynonymsAreTokens(b);
      assert t in AllTokens(i) && t in AllTokens(j) && t in AllTokens(a) && t in AllTokens(b);
    }

    /** Tokens of the pair (i, j) that are reported, given the degrees. */
    lemma NewCollision(out: seq<Collision>, i: nat, j: nat, done: set<Token>, t: Token)
      requires i < j < |columns| && Contested(t, i, j) && t !in done
      requires forall c | c in out :: Explained(c, i, j) || (c.token in done && c == CollisionOf(c.token, i, j))
      ensures forall c | c in out :: c.token != t
    {
      forall c | c in out ensures c.token != t {
        if Explained(c, i, j) && c.token == t {
          var a: nat, b: nat :| a < b < |columns| && (a < i || (a == i && b < j))
                                && Contested(c.token, a, b) && c == CollisionOf(c.token, a, b);
          OnePairPerToken(t, i, j, a, b);
          assert false;
        }
      }
    }
  }

  /** What the detector reports: exactly the contested words, each for one pair, once. */
  lemma ReportedIffContested(v: Vocabulary, out: seq<Collision>, t: Token, i: nat, j: nat)
    requires v.DistinctNames() && v.Reported(out, |v.columns|, 0) && i < j < |v.columns|
    ensures v.CollisionOf(t, i, j) in out <==> v.Contested(t, i, j)
    ensures v.Contested(t, i, j) ==> forall c | c in out && c.token == t :: c == v.CollisionOf(t, i, j)
  {
    var n := |v.columns|;
    forall c | c in out && c.token == t
      ensures c == v.CollisionOf(t, i, j) ==> v.Contested(t, i, j)
      ensures v.Contested(t, i, j) ==> c == v.CollisionOf(t, i, j)
    {
      assert v.Explained(c, n, 0);
      var a: nat, b: nat :| a < b < n && v.Contested(t, a, b) && c == v.CollisionOf(t, a, b);
      if c == v.CollisionOf(t, i, j) {
        SamePair(v, i, j, a, b);
      }
      if v.Contested(t, i, j) {
        v.OnePairPerToken(t, i, j, a, b);
      }
    }
  }

  lemma SamePair(v: Vocabulary, i: nat, j: nat, a: nat, b: nat)
    requires v.DistinctNames() && i < j < |v.columns| && a < b < |v.columns|
    requires {v.columns[i].name, v.columns[j].name} == {v.columns[a].name, v.columns[b].name}
    ensures i == a && j == b
  {
    assert v.columns[i].name in {v.columns[a].name, v.columns[b].name};
    assert v.columns[j].name in {v.columns[a].name, v.columns[b].name};
  }

  /** How many columns' vocabulary each token is in. */
  method Degrees(v: Vocabulary) returns (degree: map<Token, nat>)
    ensures forall i: nat, t | i < |v.columns| && t in v.AllTokens(i) :: t in degree
    ensures forall t | t in degree :: degree[t] == |v.Holders(t, |v.columns|)|
  {
    hide Vocabulary.Holders, Vocabulary.AllTokens;
    degree := map[];
    forall t ensures |v.Holders(t, 0)| == 0 {
      v.NoHolders(t);
    }
    for i := 0 to |v.columns|
      invariant forall k: nat, t | k < i && t in v.AllTokens(k) :: t in degree
      invariant forall t | t in degree :: degree[t] == |v.Holders(t, i)|
      invariant forall t | t !in degree :: |v.Holders(t, i)| == 0
    {
      var rest := v.AllTokens(i);
      while rest != {}
        invariant rest <= v.AllTokens(i)
        invariant forall k: nat, t | k < i && t in v.AllTokens(k) :: t in degree
        invariant forall t | t in v.AllTokens(i) && t !in rest :: t in degree
        invariant forall t | t in degree ::
          degree[t] == |v.Holders(t, i)| + if t in v.AllTokens(i) && t !in rest then 1 else 0
        invariant forall t | t !in degree :: |v.Holders(t, i)| == 0
      {
        var t :| t in rest;
        rest := rest - {t};
        degree := degree[t := (if t in degree then degree[t] else 0) + 1];
      }
      forall t ensures |v.Holders(t, i + 1)| == |v.Holders(t, i)| + if t in v.AllTokens(i) then 1 else 0 {
        v.HoldersNext(t, i);
      }
    }
  }

  /** The detector, for any order in which a pair's shared tokens are visited. */
  method DetectCollisions(v: Vocabulary) returns (out: seq<Collision>)
    requires v.DistinctNames()
    ensures v.Reported(out, |v.columns|, 0)
  {
    var degree := Degrees(v);
    out := [];
    var n := |v.columns|;
    for i := 0 to n
      invariant v.Reported(out, i, 0)
    {
      for j := i + 1 to n
        invariant v.Reported(out, i, j)
      {
        out := DetectPair(v, degree, i, j, out);
      }
    }
  }

  method DetectPair(v: Vocabulary, degree: map<Token, nat>, i: nat, j: nat, before: seq<Collision>) returns (out: seq<Collision>)
    requires i < j < |v.columns| && v.Reported(before, i, j)
    requires forall k: nat, t | k < |v.columns| && t in v.AllTokens(k) :: t in degree
    requires forall t | t in degree :: degree[t] == |v.Holders(t, |v.columns|)|
    ensures v.Reported(out, i, j + 1)
  {
    out := before;
    var shared := v.SharedTokens(i, j);
    var rest := shared;
    while rest != {}
      invariant rest <= shared && before <= out
      invariant forall c | c in out ::
        v.Explained(c, i, j)
        || (c.token in shared - rest && c == v.CollisionOf(c.token, i, j) && v.Contested(c.token, i, j))
      invariant forall t | t in shared - rest && v.Contested(t, i, j) :: v.CollisionOf(t, i, j) in out
      invariant forall x, y | 0 <= x < y < |out| :: out[x].token != out[y].token
    {
      var t :| t in rest;
      v.DegreeRulesOutThird(t, i, j);
      v.SynonymsAreTokens(i);
      v.SynonymsAreTokens(j);
      if degree[t] < GENERIC_TOKEN_MIN_DEGREE {
        v.NewCollision(out, i, j, shared - rest, t);
        if v.CollisionOf(t, i, j) !in out {
          out := out + [v.CollisionOf(t, i, j)];
        }
      }
      rest := rest - {t};
    }
  }
}

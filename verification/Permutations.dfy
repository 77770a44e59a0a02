/** Sequences compared as multisets: what survives mapping, counting and removing one element. */
module Permutations {

  predicate Distinct<T(==)>(s: seq<T>) {
    forall i, j | 0 <= i < j < |s| :: s[i] != s[j]
  }

  /** `[f(x) for x in s]`. */
  function Map<T, U>(f: T --> U, s: seq<T>): (r: seq<U>)
    requires forall x | x in s :: f.requires(x)
    ensures |r| == |s| && forall i | 0 <= i < |s| :: r[i] == f(s[i])
  {
    seq(|s|, i requires 0 <= i < |s| => f(s[i]))
  }

  function Without<T>(s: seq<T>, i: nat): seq<T>
    requires i < |s|
  {
    s[..i] + s[i + 1..]
  }

  lemma WithoutIsMultisetMinus<T>(s: seq<T>, i: nat)
    requires i < |s|
    ensures multiset(s) == multiset(Without(s, i)) + multiset{s[i]}
    ensures forall x | x in Without(s, i) :: x in s
  {
    assert s == s[..i] + [s[i]] + s[i + 1..];
  }

  lemma MapSplit<T, U>(f: T --> U, s: seq<T>, i: nat)
    requires i < |s| && forall x | x in s :: f.requires(x)
    ensures forall x | x in Without(s, i) :: f.requires(x)
    ensures multiset(Map(f, s)) == multiset(Map(f, Without(s, i))) + multiset{f(s[i])}
  {
    WithoutIsMultisetMinus(s, i);
    WithoutIsMultisetMinus(Map(f, s), i);
    assert Without(Map(f, s), i) == Map(f, Without(s, i));
  }

  /** Mapping keeps permutations: equal multisets have equal images. */
  lemma {:induction false} MapKeepsPermutation<T, U>(f: T --> U, a: seq<T>, b: seq<T>)
    requires multiset(a) == multiset(b)
    requires forall x | x in a :: f.requires(x)
    requires forall x | x in b :: f.requires(x)
    ensures multiset(Map(f, a)) == multiset(Map(f, b))
    decreases |a|
  {
    if a == [] {
      assert |multiset(b)| == 0;
    } else {
      assert a[0] in multiset(b);
      var j := IndexOf(b, a[0]);
      WithoutIsMultisetMinus(a, 0);
      WithoutIsMultisetMinus(b, j);
      MapSplit(f, a, 0);
      MapSplit(f, b, j);
      assert multiset(Without(a, 0)) == multiset(a) - multiset{a[0]};
      assert multiset(Without(b, j)) == multiset(b) - multiset{a[0]};
      MapKeepsPermutation(f, Without(a, 0), Without(b, j));
    }
  }

  lemma IndexOf<T>(b: seq<T>, x: T) returns (j: nat)
    requires x in b
    ensures j < |b| && b[j] == x
  {
    assert x in b;
    j :| 0 <= j < |b| && b[j] == x;
  }

  lemma SubsetSize<T>(a: set<T>, b: set<T>)
    requires a <= b
    ensures |a| <= |b|
  {
    assert b == a + (b - a);
  }

  lemma TwoOf<T>(s: seq<T>, x: T) returns (i: nat, j: nat)
    requires multiset(s)[x] >= 2
    ensures i < j < |s| && s[i] == x && s[j] == x
  {
    assert x in s;
    var k := IndexOf(s, x);
    WithoutIsMultisetMinus(s, k);
    assert x in Without(s, k);
    var l := IndexOf(Without(s, k), x);
    i, j := if l < k then l else k, if l < k then k else l + 1;
  }

  lemma Twice<T>(s: seq<T>, i: nat, j: nat)
    requires i < j < |s| && s[i] == s[j]
    ensures multiset(s)[s[i]] >= 2
  {
    assert s == s[..j] + [s[j]] + s[j + 1..];
    assert s[i] in s[..j];
  }

  lemma ConsDistinct<T>(x: T, rest: seq<T>)
    ensures Distinct([x] + rest) <==> Distinct(rest) && x !in rest
  {
    var all := [x] + rest;
    assert all[1..] == rest;
    if Distinct(all) {
      forall i, j | 0 <= i < j < |rest| ensures rest[i] != rest[j] {
        assert all[i + 1] == rest[i] && all[j + 1] == rest[j];
      }
      forall j | 0 <= j < |rest| ensures rest[j] != x {
        assert all[j + 1] == rest[j] && all[0] == x;
      }
    }
  }

  /** Every element of `a` is paired with its own place in `b`. */
  predicate Pairs<T(==)>(a: seq<T>, b: seq<T>, m: seq<nat>) {
    && |m| == |a| == |b| && Distinct(m)
    && forall i | 0 <= i < |m| :: m[i] < |b| && a[i] == b[m[i]]
  }

  lemma {:induction false} PairedAreEqual<T>(a: seq<T>, b: seq<T>, m: seq<nat>)
    requires Pairs(a, b, m)
    ensures multiset(a) == multiset(b)
    decreases |a|
  {
    if a != [] {
      var j := m[0];
      var rest := seq(|m| - 1, i requires 0 <= i < |m| - 1 => if m[i + 1] < j then m[i + 1] else m[i + 1] - 1);
      forall i | 0 <= i < |rest| ensures m[i + 1] != j && rest[i] < |b| - 1 && a[1..][i] == Without(b, j)[rest[i]] {
        assert m[i + 1] != m[0];
      }
      PairedAreEqual(a[1..], Without(b, j), rest);
      WithoutIsMultisetMinus(b, j);
      assert a == [a[0]] + a[1..];
    }
  }

  lemma {:induction false} EqualArePaired<T>(a: seq<T>, b: seq<T>) returns (m: seq<nat>)
    requires multiset(a) == multiset(b)
    ensures Pairs(a, b, m)
    decreases |a|
  {
    hide Pairs;
    if a == [] {
      assert |multiset(b)| == 0;
      m := [];
      NoPairs(a, b);
    } else {
      assert a[0] in multiset(b);
      var j := IndexOf(b, a[0]);
      WithoutIsMultisetMinus(a, 0);
      WithoutIsMultisetMinus(b, j);
      assert a[1..] == Without(a, 0) && multiset(Without(a, 0)) == multiset(a) - multiset{a[0]};
      assert multiset(Without(b, j)) == multiset(b) - multiset{a[0]};
      m := EqualArePaired(a[1..], Without(b, j));
      m := PairFirst(a, b, j, m);
    }
  }

  lemma NoPairs<T>(a: seq<T>, b: seq<T>)
    requires a == [] && b == []
    ensures Pairs(a, b, [])
  {}

  lemma PairFirst<T>(a: seq<T>, b: seq<T>, j: nat, rest: seq<nat>) returns (m: seq<nat>)
    requires a != [] && j < |b| && b[j] == a[0] && Pairs(a[1..], Without(b, j), rest)
    ensures Pairs(a, b, m)
  {
    m := [j] + seq(|rest|, i requires 0 <= i < |rest| => if rest[i] < j then rest[i] else rest[i] + 1);
    forall i | 0 < i < |m| ensures m[i] < |b| && a[i] == b[m[i]] && m[i] != j {
      assert a[i] == a[1..][i - 1] == Without(b, j)[rest[i - 1]];
    }
    forall i, k | 0 <= i < k < |m| ensures m[i] != m[k] {
      assert i > 0 ==> rest[i - 1] != rest[k - 1];
    }
  }
}

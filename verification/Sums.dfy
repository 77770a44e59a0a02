/** Sums of reals over sequences. */
module Sums {
  import opened Permutations

  function Sum<T>(f: T -> real, s: seq<T>): real {
    if s == [] then 0.0 else f(s[0]) + Sum(f, s[1..])
  }

  lemma {:induction false} SumConcat<T>(f: T -> real, a: seq<T>, b: seq<T>)
    ensures Sum(f, a + b) == Sum(f, a) + Sum(f, b)
  {
    if a == [] {
      assert a + b == b;
    } else {
      assert (a + b)[1..] == a[1..] + b;
      SumConcat(f, a[1..], b);
    }
  }

  lemma SumAppend<T>(f: T -> real, s: seq<T>, x: T)
    ensures Sum(f, s + [x]) == Sum(f, s) + f(x)
  {
    SumConcat(f, s, [x]);
  }

  lemma {:induction false} SumUpdate<T>(f: T -> real, s: seq<T>, i: nat, x: T)
    requires i < |s|
    ensures Sum(f, s[i := x]) == Sum(f, s) - f(s[i]) + f(x)
  {
    if i == 0 {
      assert s[i := x][1..] == s[1..];
    } else {
      assert s[i := x][1..] == s[1..][i - 1 := x];
      SumUpdate(f, s[1..], i - 1, x);
    }
  }

  lemma {:induction false} SumAtMost<T>(f: T -> real, s: seq<T>, most: real)
    requires forall x | x in s :: f(x) <= most
    ensures Sum(f, s) <= |s| as real * most
  {
    if s != [] {
      SumAtMost(f, s[1..], most);
      assert (|s| - 1) as real * most == |s| as real * most - most;
    }
  }

  lemma {:induction false} SumConstant<T>(f: T -> real, s: seq<T>, c: real)
    requires forall x | x in s :: f(x) == c
    ensures Sum(f, s) == |s| as real * c
  {
    if s != [] {
      SumConstant(f, s[1..], c);
      assert (|s| - 1) as real * c == |s| as real * c - c;
    }
  }

  lemma SumCons<T>(f: T -> real, x: T, s: seq<T>)
    ensures Sum(f, [x] + s) == f(x) + Sum(f, s)
  {
    assert ([x] + s)[1..] == s;
  }

  lemma SumWithout<T>(f: T -> real, s: seq<T>, i: nat)
    requires i < |s|
    ensures Sum(f, s) == f(s[i]) + Sum(f, Without(s, i))
  {
    hide Sum;
    assert s == s[..i] + ([s[i]] + s[i + 1..]);
    SumConcat(f, s[..i], [s[i]] + s[i + 1..]);
    SumCons(f, s[i], s[i + 1..]);
    SumConcat(f, s[..i], s[i + 1..]);
  }

  lemma {:induction false} SumOfPermutation<T>(f: T -> real, a: seq<T>, b: seq<T>)
    requires multiset(a) == multiset(b)
    ensures Sum(f, a) == Sum(f, b)
    decreases |a|
  {
    if a == [] {
      assert |multiset(b)| == 0;
    } else {
      assert a[0] in multiset(b);
      var j := IndexOf(b, a[0]);
      WithoutIsMultisetMinus(a, 0);
      WithoutIsMultisetMinus(b, j);
      assert multiset(Without(a, 0)) == multiset(a) - multiset{a[0]};
      assert multiset(Without(b, j)) == multiset(b) - multiset{a[0]};
      SumWithout(f, a, 0);
      SumWithout(f, b, j);
      SumOfPermutation(f, Without(a, 0), Without(b, j));
    }
  }
}

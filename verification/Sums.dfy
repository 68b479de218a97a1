/** Totals over the elements of a sequence, as numbers and as multisets. */
module Sums {
  function Sum<T>(f: T -> nat, s: seq<T>): nat {
    if s == [] then 0 else Sum(f, s[..|s| - 1]) + f(s[|s| - 1])
  }

  lemma {:induction false} SumUpdate<T>(f: T -> nat, s: seq<T>, i: nat, x: T)
    requires i < |s|
    ensures Sum(f, s[i := x]) + f(s[i]) == Sum(f, s) + f(x)
  {
    var n := |s| - 1;
    if i < n {
      SumUpdate(f, s[..n], i, x);
      assert s[i := x][..n] == s[..n][i := x];
    } else {
      assert s[i := x][..n] == s[..n];
    }
  }

  lemma {:induction false} SumConcat<T>(f: T -> nat, s: seq<T>, t: seq<T>)
    ensures Sum(f, s + t) == Sum(f, s) + Sum(f, t)
  {
    if t == [] {
      assert s + t == s;
    } else {
      var n := |t| - 1;
      SumConcat(f, s, t[..n]);
      assert (s + t)[..|s| + n] == s + t[..n];
    }
  }

  lemma SumOfOne<T>(f: T -> nat, x: T)
    ensures Sum(f, [x]) == f(x)
  {
    assert [x][..0] == [];
    assert Sum(f, [x]) == Sum(f, [x][..0]) + f(x);
  }

  lemma {:induction false} SumCovers<T>(f: T -> nat, s: seq<T>, i: nat)
    requires i < |s|
    ensures f(s[i]) <= Sum(f, s)
  {
    if i < |s| - 1 {
      SumCovers(f, s[..|s| - 1], i);
    }
  }

  lemma {:induction false} SumOfNone<T>(f: T -> nat, s: seq<T>)
    requires forall i :: 0 <= i < |s| ==> f(s[i]) == 0
    ensures Sum(f, s) == 0
  {
    if s != [] {
      SumOfNone(f, s[..|s| - 1]);
    }
  }

  ghost function Union<T, U>(f: T -> multiset<U>, s: seq<T>): multiset<U> {
    if s == [] then multiset{} else Union(f, s[..|s| - 1]) + f(s[|s| - 1])
  }

  lemma {:induction false} UnionUpdate<T, U>(f: T -> multiset<U>, s: seq<T>, i: nat, x: T)
    requires i < |s|
    ensures Union(f, s[i := x]) + f(s[i]) == Union(f, s) + f(x)
  {
    var n := |s| - 1;
    if i < n {
      UnionUpdate(f, s[..n], i, x);
      assert s[i := x][..n] == s[..n][i := x];
      var now, was := Union(f, s[..n][i := x]), Union(f, s[..n]);
      assert (now + f(s[n])) + f(s[i]) == (now + f(s[i])) + f(s[n]);
      assert (was + f(s[n])) + f(x) == (was + f(x)) + f(s[n]);
      assert Union(f, s[i := x]) == now + f(s[n]);
    } else {
      assert s[i := x][..n] == s[..n];
    }
  }

  lemma {:induction false} UnionConcat<T, U>(f: T -> multiset<U>, s: seq<T>, t: seq<T>)
    ensures Union(f, s + t) == Union(f, s) + Union(f, t)
  {
    if t == [] {
      assert s + t == s;
    } else {
      var n := |t| - 1;
      UnionConcat(f, s, t[..n]);
      assert (s + t)[..|s| + n] == s + t[..n];
    }
  }

  lemma UnionOfOne<T, U>(f: T -> multiset<U>, x: T)
    ensures Union(f, [x]) == f(x)
  {
    assert [x][..0] == [];
    assert Union(f, [x]) == Union(f, [x][..0]) + f(x);
  }

  lemma {:induction false} UnionOfNone<T, U>(f: T -> multiset<U>, s: seq<T>)
    requires forall i :: 0 <= i < |s| ==> f(s[i]) == multiset{}
    ensures Union(f, s) == multiset{}
  {
    if s != [] {
      UnionOfNone(f, s[..|s| - 1]);
    }
  }

  lemma Cancel<U>(a: multiset<U>, b: multiset<U>, c: multiset<U>, d: multiset<U>, e: multiset<U>, t: multiset<U>)
    requires a + t == b + c && c + d == t + e
    ensures a + d == b + e
  {
    forall x: U ensures (a + d)[x] == (b + e)[x] {
      assert (a + t)[x] == (b + c)[x] && (c + d)[x] == (t + e)[x];
    }
  }

  lemma CancelSame<U>(a: multiset<U>, b: multiset<U>, t: multiset<U>)
    requires a + t == b + t
    ensures a == b
  {
    forall x: U ensures a[x] == b[x] {
      assert (a + t)[x] == (b + t)[x];
    }
  }
}

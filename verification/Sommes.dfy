/** Sums over sequences: what SQL's SUM computes over the rows of a table. */
module Sommes {

  /** SUM(f(row)) over the rows of s, in row order. */
  function Somme<T>(f: T -> real, s: seq<T>): real {
    if s == [] then 0.0 else Somme(f, s[..|s| - 1]) + f(s[|s| - 1])
  }

  lemma SommeAjout<T>(f: T -> real, s: seq<T>, x: T)
    ensures Somme(f, s + [x]) == Somme(f, s) + f(x)
  {
    assert (s + [x])[..|s|] == s;
  }

  lemma {:induction false} SommeConcat<T>(f: T -> real, a: seq<T>, b: seq<T>)
    ensures Somme(f, a + b) == Somme(f, a) + Somme(f, b)
  {
    if b == [] {
      assert a + b == a;
    } else {
      var b' := b[..|b| - 1];
      assert a + b == (a + b') + [b[|b| - 1]];
      SommeAjout(f, a + b', b[|b| - 1]);
      SommeConcat(f, a, b');
    }
  }

  lemma {:induction false} SommeMaj<T>(f: T -> real, s: seq<T>, i: nat, x: T)
    requires i < |s|
    ensures Somme(f, s[i := x]) == Somme(f, s) - f(s[i]) + f(x)
  {
    var n := |s| - 1;
    if i == n {
      assert s[i := x][..n] == s[..n];
    } else {
      assert s[i := x][..n] == s[..n][i := x];
      SommeMaj(f, s[..n], i, x);
    }
  }

  lemma {:induction false} SommeNulle<T>(f: T -> real, s: seq<T>)
    requires forall k :: 0 <= k < |s| ==> f(s[k]) == 0.0
    ensures Somme(f, s) == 0.0
  {
    if s != [] { SommeNulle(f, s[..|s| - 1]); }
  }

  /** A sum of non-negative terms bounds each of them from above. */
  lemma {:induction false} SommePositive<T>(f: T -> real, s: seq<T>)
    requires forall k :: 0 <= k < |s| ==> f(s[k]) >= 0.0
    ensures Somme(f, s) >= 0.0
    ensures forall k :: 0 <= k < |s| ==> f(s[k]) <= Somme(f, s)
  {
    if s != [] { SommePositive(f, s[..|s| - 1]); }
  }

  /** The order of the rows does not matter. */
  lemma {:induction false} SommePermutation<T>(f: T -> real, a: seq<T>, b: seq<T>)
    requires multiset(a) == multiset(b)
    ensures Somme(f, a) == Somme(f, b)
    decreases |a|
  {
    if a == [] {
      assert |multiset(a)| == |multiset(b)|;
    } else {
      var x, a' := a[|a| - 1], a[..|a| - 1];
      assert a == a' + [x];
      assert x in multiset(b);
      var i :| 0 <= i < |b| && b[i] == x;
      var b' := b[..i] + b[i + 1..];
      assert b == b[..i] + [x] + b[i + 1..];
      assert multiset(a) == multiset(a') + multiset{x};
      assert multiset(b) == multiset(b') + multiset{x};
      assert multiset(a') == multiset(a) - multiset{x};
      assert multiset(b') == multiset(b) - multiset{x};
      SommePermutation(f, a', b');
      SommeConcat(f, b[..i], b[i + 1..]);
      SommeConcat(f, b[..i] + [x], b[i + 1..]);
      SommeAjout(f, b[..i], x);
    }
  }
}

/** Sums over sequences. Floats are modelled as reals, so a sum does not depend on the order of its
    terms (`SumPermutation`). */
module Sums {

  function Abs(x: real): real {
    if x < 0.0 then -x else x
  }

  function Sum<T>(f: T -> real, s: seq<T>): real {
    if s == [] then 0.0 else Sum(f, s[..|s| - 1]) + f(s[|s| - 1])
  }

  lemma SumAppend<T>(f: T -> real, s: seq<T>, x: T)
    ensures Sum(f, s + [x]) == Sum(f, s) + f(x)
  {
    assert (s + [x])[..|s|] == s;
  }

  lemma {:induction false} SumConcat<T>(f: T -> real, a: seq<T>, b: seq<T>)
    ensures Sum(f, a + b) == Sum(f, a) + Sum(f, b)
  {
    if b == [] {
      assert a + b == a;
    } else {
      var front := b[..|b| - 1];
      assert a + b == (a + front) + [b[|b| - 1]];
      SumAppend(f, a + front, b[|b| - 1]);
      SumConcat(f, a, front);
    }
  }

  lemma {:induction false} SumPermutation<T>(f: T -> real, a: seq<T>, b: seq<T>)
    requires multiset(a) == multiset(b)
    ensures Sum(f, a) == Sum(f, b)
  {
    assert |a| == |multiset(a)| && |b| == |multiset(b)|;
    if a != [] {
      var n := |a| - 1;
      var x := a[n];
      assert x in multiset(b);
      var i :| 0 <= i < |b| && b[i] == x;
      assert a == a[..n] + [x];
      assert b == b[..i] + [x] + b[i + 1..];
      var rest := b[..i] + b[i + 1..];
      assert multiset(a[..n]) == multiset(a) - multiset{x};
      assert multiset(rest) == multiset(b) - multiset{x};
      SumPermutation(f, a[..n], rest);
      SumConcat(f, b[..i], b[i + 1..]);
      SumConcat(f, b[..i] + [x], b[i + 1..]);
      SumAppend(f, b[..i], x);
    }
  }

  lemma {:induction false} SumCongruence<T>(f: T -> real, g: T -> real, s: seq<T>)
    requires forall x :: x in s ==> f(x) == g(x)
    ensures Sum(f, s) == Sum(g, s)
  {
    if s != [] { SumCongruence(f, g, s[..|s| - 1]); }
  }

  ghost predicate Distinct<T>(s: seq<T>) {
    forall i, j :: 0 <= i < j < |s| ==> s[i] != s[j]
  }

  /** Changing the term of one key changes the sum by the difference of the two terms. */
  lemma {:induction false} SumChangeOne<T>(f: T -> real, g: T -> real, s: seq<T>, k: T)
    requires Distinct(s) && k in s
    requires forall x :: x in s && x != k ==> f(x) == g(x)
    ensures Sum(g, s) == Sum(f, s) - f(k) + g(k)
  {
    var n := |s| - 1;
    if s[n] == k {
      SumCongruence(f, g, s[..n]);
    } else {
      SumChangeOne(f, g, s[..n], k);
    }
  }

  lemma {:induction false} SumAdd<T>(f: T -> real, g: T -> real, h: T -> real, s: seq<T>)
    requires forall x :: x in s ==> h(x) == f(x) + g(x)
    ensures Sum(h, s) == Sum(f, s) + Sum(g, s)
  {
    if s != [] { SumAdd(f, g, h, s[..|s| - 1]); }
  }

  lemma {:induction false} SumAbsBound<T>(f: T -> real, g: T -> real, s: seq<T>)
    requires forall x :: x in s ==> g(x) == Abs(f(x))
    ensures Abs(Sum(f, s)) <= Sum(g, s)
  {
    if s != [] { SumAbsBound(f, g, s[..|s| - 1]); }
  }

  /** A term is at most the sum when no term is negative. */
  lemma {:induction false} SumBoundsTerm<T>(f: T -> real, s: seq<T>, k: T)
    requires forall x :: x in s ==> f(x) >= 0.0
    ensures Sum(f, s) >= 0.0 && (k in s ==> f(k) <= Sum(f, s))
  {
    if s != [] {
      var n := |s| - 1;
      SumBoundsTerm(f, s[..n], k);
      assert s == s[..n] + [s[n]];
    }
  }

  predicate IsRatio(r: real, a: real, b: real) {
    r * b == a
  }

  lemma Ratio(a: real, b: real)
    requires b > 0.0
    ensures IsRatio(a / b, a, b)
    ensures (a >= 0.0 <==> a / b >= 0.0) && (a <= 0.0 <==> a / b <= 0.0)
    ensures (a <= b <==> a / b <= 1.0) && (a >= b <==> a / b >= 1.0)
  {
  }

  /** Sequences without repetition and with the same elements are permutations of one another. */
  lemma {:induction false} DistinctSameElements<T>(a: seq<T>, b: seq<T>)
    requires Distinct(a) && Distinct(b)
    requires forall x :: x in a <==> x in b
    ensures multiset(a) == multiset(b)
  {
    forall x ensures multiset(a)[x] == multiset(b)[x] {
      DistinctCount(a, x);
      DistinctCount(b, x);
    }
  }

  lemma {:induction false} DistinctCount<T>(s: seq<T>, x: T)
    requires Distinct(s)
    ensures multiset(s)[x] == if x in s then 1 else 0
  {
    if s != [] {
      var n := |s| - 1;
      DistinctCount(s[..n], x);
      assert s == s[..n] + [s[n]];
    }
  }

  // ----- Insertion-ordered dictionaries keyed by strings

  /** A Python dict: the keys in the order of their first insertion, and the entries. */
  datatype Dict<V> = Dict(keys: seq<string>, entries: map<string, V>) {

    ghost predicate Valid() {
      Distinct(keys) && forall k :: k in keys <==> k in entries
    }

    function Put(k: string, v: V): (d: Dict<V>)
      ensures Valid() ==> d.Valid()
      ensures d.entries == entries[k := v]
    {
      Dict(if k in entries then keys else keys + [k], entries[k := v])
    }

    function GetOr(k: string, default: V): V {
      if k in entries then entries[k] else default
    }
  }

  /** `sum(g(v) for v in d.values())` */
  function Terms<V>(g: V -> real, entries: map<string, V>): string -> real {
    (k: string) => if k in entries then g(entries[k]) else 0.0
  }

  function Total<V>(g: V -> real, d: Dict<V>): real {
    Sum(Terms(g, d.entries), d.keys)
  }

  lemma TermAt<V>(g: V -> real, entries: map<string, V>, k: string)
    ensures Terms(g, entries)(k) == if k in entries then g(entries[k]) else 0.0
  {
  }

  lemma TotalPut<V>(g: V -> real, d: Dict<V>, k: string, v: V)
    requires d.Valid()
    ensures Total(g, d.Put(k, v)) == Total(g, d) - Terms(g, d.entries)(k) + g(v)
  {
    var f, h := Terms(g, d.entries), Terms(g, d.Put(k, v).entries);
    if k in d.entries {
      SumChangeOne(f, h, d.keys, k);
    } else {
      SumAppend(h, d.keys, k);
      SumCongruence(f, h, d.keys);
    }
  }
}

/** Stable sorting. Python's `sorted`/`list.sort` and JavaScript's `Array.prototype.sort` are both
    specified as stable sorts; `StableSortUnique` shows that this fixes their result, so the
    insertion sort below stands for either of them. */
module Sorting {

  ghost predicate TotalPreorder<T(!new)>(le: (T, T) -> bool) {
    && (forall x, y :: le(x, y) || le(y, x))
    && (forall x, y, z :: le(x, y) && le(y, z) ==> le(x, z))
  }

  lemma Transitive<T(!new)>(le: (T, T) -> bool, x: T, y: T, z: T)
    requires TotalPreorder(le) && le(x, y) && le(y, z)
    ensures le(x, z)
  {
  }

  lemma Reflexive<T(!new)>(le: (T, T) -> bool, x: T)
    requires TotalPreorder(le)
    ensures le(x, x)
  {
  }

  ghost predicate AntiSymmetric<T(!new)>(le: (T, T) -> bool) {
    forall x, y :: le(x, y) && le(y, x) ==> x == y
  }

  ghost predicate SortedBy<T>(le: (T, T) -> bool, s: seq<T>) {
    forall i, j :: 0 <= i < j < |s| ==> le(s[i], s[j])
  }

  predicate Tie<T>(le: (T, T) -> bool, x: T, y: T) {
    le(x, y) && le(y, x)
  }

  /** The elements of `s` that tie with `c`, in the order in which they stand in `s`. */
  function Ties<T>(le: (T, T) -> bool, c: T, s: seq<T>): seq<T> {
    if s == [] then []
    else (if Tie(le, c, s[0]) then [s[0]] else []) + Ties(le, c, s[1..])
  }

  function Insert<T>(le: (T, T) -> bool, x: T, s: seq<T>): (r: seq<T>)
    ensures multiset(r) == multiset(s) + multiset{x}
  {
    if s == [] then [x]
    else if le(x, s[0]) then
      assert [x] + s == [x] + ([s[0]] + s[1..]);
      [x] + s
    else
      assert s == [s[0]] + s[1..];
      [s[0]] + Insert(le, x, s[1..])
  }

  function StableSort<T>(le: (T, T) -> bool, s: seq<T>): (r: seq<T>)
    ensures multiset(r) == multiset(s) && |r| == |s|
  {
    if s == [] then []
    else
      assert s == [s[0]] + s[1..];
      var r := Insert(le, s[0], StableSort(le, s[1..]));
      assert |multiset(r)| == |multiset(s)|;
      r
  }

  lemma {:induction false} InsertSorted<T(!new)>(le: (T, T) -> bool, x: T, s: seq<T>)
    requires TotalPreorder(le) && SortedBy(le, s)
    ensures SortedBy(le, Insert(le, x, s))
  {
    if s != [] && !le(x, s[0]) {
      var rest := Insert(le, x, s[1..]);
      InsertSorted(le, x, s[1..]);
      forall y | y in rest ensures le(s[0], y) {
        assert y in multiset(rest);
        assert y == x || y in s[1..];
      }
    }
  }

  function IfTie<T>(le: (T, T) -> bool, c: T, x: T): seq<T> {
    if Tie(le, c, x) then [x] else []
  }

  lemma TiesCons<T>(le: (T, T) -> bool, c: T, x: T, s: seq<T>)
    ensures Ties(le, c, [x] + s) == IfTie(le, c, x) + Ties(le, c, s)
  {
    assert ([x] + s)[1..] == s;
  }

  lemma SwapEmpty<T>(g: seq<T>, h: seq<T>, s: seq<T>)
    requires g == [] || h == []
    ensures g + (h + s) == h + (g + s)
  {
  }

  lemma {:induction false} InsertTies<T(!new)>(le: (T, T) -> bool, x: T, s: seq<T>, c: T)
    requires TotalPreorder(le)
    ensures Ties(le, c, Insert(le, x, s)) == Ties(le, c, [x] + s)
  {
    hide TotalPreorder;
    if s != [] && !le(x, s[0]) {
      InsertTies(le, x, s[1..], c);
      InsertPast(le, x, s, c);
    }
  }

  lemma InsertStep<T>(le: (T, T) -> bool, x: T, s: seq<T>)
    requires s != [] && !le(x, s[0])
    ensures Insert(le, x, s) == [s[0]] + Insert(le, x, s[1..])
  {
  }

  /** x and the head that it is inserted after do not tie, so at most one of them ties with c. */
  lemma InsertPast<T(!new)>(le: (T, T) -> bool, x: T, s: seq<T>, c: T)
    requires TotalPreorder(le) && s != [] && !le(x, s[0])
    requires Ties(le, c, Insert(le, x, s[1..])) == Ties(le, c, [x] + s[1..])
    ensures Ties(le, c, Insert(le, x, s)) == Ties(le, c, [x] + s)
  {
    hide TotalPreorder, Ties, Insert;
    if Tie(le, c, x) && Tie(le, c, s[0]) { Transitive(le, x, c, s[0]); }
    InsertStep(le, x, s);
    var rest := Ties(le, c, s[1..]);
    assert Ties(le, c, Insert(le, x, s)) == IfTie(le, c, s[0]) + (IfTie(le, c, x) + rest) by {
      TiesCons(le, c, s[0], Insert(le, x, s[1..]));
      TiesCons(le, c, x, s[1..]);
    }
    assert Ties(le, c, [x] + s) == IfTie(le, c, x) + (IfTie(le, c, s[0]) + rest) by {
      assert s == [s[0]] + s[1..];
      TiesCons(le, c, x, s);
      TiesCons(le, c, s[0], s[1..]);
    }
    SwapEmpty(IfTie(le, c, s[0]), IfTie(le, c, x), rest);
  }

  /** What a stable sort promises: sorted, a permutation, and ties keep their order. */
  ghost predicate IsStableSortOf<T(!new)>(le: (T, T) -> bool, r: seq<T>, s: seq<T>) {
    SortedBy(le, r) && multiset(r) == multiset(s) && (forall c :: Ties(le, c, r) == Ties(le, c, s))
  }

  lemma {:induction false} StableSortCorrect<T(!new)>(le: (T, T) -> bool, s: seq<T>)
    requires TotalPreorder(le)
    ensures IsStableSortOf(le, StableSort(le, s), s)
  {
    if s != [] {
      var rest := StableSort(le, s[1..]);
      StableSortCorrect(le, s[1..]);
      InsertSorted(le, s[0], rest);
      forall c ensures Ties(le, c, StableSort(le, s)) == Ties(le, c, s) {
        InsertTies(le, s[0], rest, c);
        assert ([s[0]] + rest)[1..] == rest;
        assert Ties(le, c, rest) == Ties(le, c, s[1..]);
      }
    }
  }

  lemma {:induction false} TiesMember<T>(le: (T, T) -> bool, c: T, s: seq<T>, i: nat)
    requires i < |s| && Tie(le, c, s[i])
    ensures Ties(le, c, s) != []
  {
    if i > 0 { TiesMember(le, c, s[1..], i - 1); }
  }

  lemma {:induction false} TiesAreTies<T>(le: (T, T) -> bool, c: T, s: seq<T>)
    ensures forall y :: y in Ties(le, c, s) ==> y in s && Tie(le, c, y)
  {
    if s != [] { TiesAreTies(le, c, s[1..]); }
  }

  /** A stable sort has only one possible result. */
  lemma {:induction false} StableSortUnique<T(!new)>(le: (T, T) -> bool, a: seq<T>, b: seq<T>)
    requires TotalPreorder(le) && SortedBy(le, a) && SortedBy(le, b)
    requires |a| == |b|
    requires forall c :: Ties(le, c, a) == Ties(le, c, b)
    ensures a == b
  {
    if a != [] {
      // The heads tie with one another, hence are the heads of the same list of ties.
      TiesMember(le, a[0], a, 0);
      TiesMember(le, b[0], b, 0);
      TiesAreTies(le, a[0], b);
      TiesAreTies(le, b[0], a);
      var y := Ties(le, a[0], b)[0];
      var z := Ties(le, b[0], a)[0];
      assert y in b && Tie(le, a[0], y);
      assert z in a && Tie(le, b[0], z);
      assert le(b[0], y) && le(a[0], z);
      assert Tie(le, a[0], b[0]);
      assert Ties(le, a[0], a)[0] == a[0];
      assert Ties(le, a[0], b)[0] == b[0];
      forall c ensures Ties(le, c, a[1..]) == Ties(le, c, b[1..]) {
        var h := if Tie(le, c, a[0]) then [a[0]] else [];
        assert Ties(le, c, a) == h + Ties(le, c, a[1..]);
        assert Ties(le, c, b) == h + Ties(le, c, b[1..]);
        assert (h + Ties(le, c, a[1..]))[|h|..] == Ties(le, c, a[1..]);
        assert (h + Ties(le, c, b[1..]))[|h|..] == Ties(le, c, b[1..]);
      }
      StableSortUnique(le, a[1..], b[1..]);
    }
  }

  lemma {:induction false} FirstTie<T>(le: (T, T) -> bool, c: T, s: seq<T>) returns (i: nat)
    requires Ties(le, c, s) != []
    ensures i < |s| && s[i] == Ties(le, c, s)[0] && forall j :: 0 <= j < i ==> !Tie(le, c, s[j])
  {
    if Tie(le, c, s[0]) {
      i := 0;
    } else {
      i := FirstTie(le, c, s[1..]);
      i := i + 1;
    }
  }

  /** The head of a stable sort is the earliest of the least elements. */
  lemma StableSortHead<T(!new)>(le: (T, T) -> bool, s: seq<T>) returns (i: nat)
    requires TotalPreorder(le) && s != []
    ensures i < |s| && StableSort(le, s)[0] == s[i]
    ensures forall j :: 0 <= j < |s| ==> le(s[i], s[j])
    ensures forall j :: 0 <= j < i ==> !le(s[j], s[i])
  {
    var r := StableSort(le, s);
    StableSortCorrect(le, s);
    TiesMember(le, r[0], r, 0);
    assert Ties(le, r[0], r)[0] == r[0];
    i := FirstTie(le, r[0], s);
    forall j | 0 <= j < |s| ensures le(s[i], s[j]) {
      assert s[j] in multiset(r);
      assert s[j] in r;
    }
  }

  lemma SortedIsFixpoint<T(!new)>(le: (T, T) -> bool, s: seq<T>)
    requires TotalPreorder(le)
    ensures SortedBy(le, s) <==> StableSort(le, s) == s
  {
    StableSortCorrect(le, s);
    if SortedBy(le, s) { StableSortUnique(le, StableSort(le, s), s); }
  }

  lemma SortedHead<T>(le: (T, T) -> bool, s: seq<T>, x: T)
    requires SortedBy(le, s) && x in s && le(x, x)
    ensures le(s[0], x)
  {
    var i :| 0 <= i < |s| && s[i] == x;
  }

  /** Without ties between different elements, any sorted permutation is the sort. */
  lemma {:induction false} SortedPermutationsEqual<T(!new)>(le: (T, T) -> bool, a: seq<T>, b: seq<T>)
    requires TotalPreorder(le)
    requires forall x, y :: x in a && y in a && Tie(le, x, y) ==> x == y
    requires SortedBy(le, a) && SortedBy(le, b) && multiset(a) == multiset(b)
    ensures a == b
  {
    hide TotalPreorder;
    assert |a| == |multiset(a)| && |b| == |multiset(b)|;
    if a != [] {
      SameHead(le, a, b);
      SameRest(a, b);
      forall z | z in a[1..] ensures z in a {}
      SortedPermutationsEqual(le, a[1..], b[1..]);
      assert a == [a[0]] + a[1..] && b == [a[0]] + b[1..];
    }
  }

  lemma SameRest<T>(a: seq<T>, b: seq<T>)
    requires a != [] && b != [] && a[0] == b[0] && multiset(a) == multiset(b)
    ensures multiset(a[1..]) == multiset(b[1..])
  {
    assert a == [a[0]] + a[1..] && b == [b[0]] + b[1..];
    assert multiset(a[1..]) == multiset(a) - multiset{a[0]};
    assert multiset(b[1..]) == multiset(b) - multiset{b[0]};
  }

  lemma SameHead<T(!new)>(le: (T, T) -> bool, a: seq<T>, b: seq<T>)
    requires TotalPreorder(le) && a != [] && b != []
    requires forall x, y :: x in a && y in a && Tie(le, x, y) ==> x == y
    requires SortedBy(le, a) && SortedBy(le, b) && multiset(a) == multiset(b)
    ensures a[0] == b[0]
  {
    hide TotalPreorder, SortedBy;
    var x, y := a[0], b[0];
    assert x in b && y in a by { assert x in multiset(b) && y in multiset(a); }
    Reflexive(le, x);
    Reflexive(le, y);
    SortedHead(le, b, x);
    SortedHead(le, a, y);
    assert Tie(le, x, y);
  }

  // ----- Strings in code point order, and sorted sets of strings

  predicate StringLeq(a: string, b: string) {
    a == [] || (b != [] && (a[0] < b[0] || (a[0] == b[0] && StringLeq(a[1..], b[1..]))))
  }

  lemma {:induction false} StringLeqTotal(a: string, b: string)
    ensures StringLeq(a, b) || StringLeq(b, a)
    ensures StringLeq(a, b) && StringLeq(b, a) ==> a == b
  {
    if a != [] && b != [] && a[0] == b[0] {
      StringLeqTotal(a[1..], b[1..]);
      assert a == [a[0]] + a[1..] && b == [b[0]] + b[1..];
    }
  }

  lemma {:induction false} StringLeqTransitive(a: string, b: string, c: string)
    requires StringLeq(a, b) && StringLeq(b, c)
    ensures StringLeq(a, c)
  {
    if a != [] && a[0] == b[0] == c[0] { StringLeqTransitive(a[1..], b[1..], c[1..]); }
  }

  lemma StringOrder()
    ensures TotalPreorder(StringLeq) && AntiSymmetric(StringLeq)
  {
    forall a, b ensures StringLeq(a, b) || StringLeq(b, a) { StringLeqTotal(a, b); }
    forall a, b, c | StringLeq(a, b) && StringLeq(b, c) ensures StringLeq(a, c) {
      StringLeqTransitive(a, b, c);
    }
    forall a, b | StringLeq(a, b) && StringLeq(b, a) ensures a == b { StringLeqTotal(a, b); }
  }

  /** A prefix comes first; otherwise the first difference decides. */
  lemma {:induction false} StringLeqMeans(a: string, b: string)
    ensures StringLeq(a, b) <==> a <= b || exists k :: 0 <= k < |a| && k < |b| && a[..k] == b[..k] && a[k] < b[k]
  {
    if a != [] && b != [] {
      if a[0] == b[0] {
        StringLeqMeans(a[1..], b[1..]);
        assert a == [a[0]] + a[1..] && b == [b[0]] + b[1..];
        assert a <= b <==> a[1..] <= b[1..];
        FirstDifferenceShifts(a, b);
      } else {
        assert a[..0] == b[..0];
        assert forall k :: 0 < k <= |a| && k <= |b| ==> a[..k][0] == a[0] && b[..k][0] == b[0];
      }
    }
  }

  lemma FirstDifferenceShifts(a: string, b: string)
    requires a != [] && b != [] && a[0] == b[0]
    ensures (exists k :: 0 <= k < |a| && k < |b| && a[..k] == b[..k] && a[k] < b[k]) <==>
      var x, y := a[1..], b[1..]; exists k :: 0 <= k < |x| && k < |y| && x[..k] == y[..k] && x[k] < y[k]
  {
    var x, y := a[1..], b[1..];
    if k :| 0 <= k < |a| && k < |b| && a[..k] == b[..k] && a[k] < b[k] {
      assert a[..k][1..] == x[..k - 1] && b[..k][1..] == y[..k - 1];
      assert x[k - 1] < y[k - 1];
    }
    if k :| 0 <= k < |x| && k < |y| && x[..k] == y[..k] && x[k] < y[k] {
      assert a[..k + 1] == [a[0]] + x[..k] && b[..k + 1] == [b[0]] + y[..k];
      assert a[k + 1] < b[k + 1];
    }
  }

  predicate IsLeast(x: string, s: set<string>) {
    x in s && forall y :: y in s ==> StringLeq(x, y)
  }

  lemma {:induction false} LeastExists(s: set<string>)
    requires s != {}
    ensures exists x :: IsLeast(x, s)
  {
    var z :| z in s;
    StringLeqTotal(z, z);
    if s == {z} {
      assert IsLeast(z, s);
    } else {
      LeastExists(s - {z});
      var x :| IsLeast(x, s - {z});
      StringLeqTotal(x, z);
      var least := if StringLeq(x, z) then x else z;
      forall y | y in s ensures StringLeq(least, y) {
        if y != z && least == z { StringLeqTransitive(z, x, y); }
      }
      assert IsLeast(least, s);
    }
  }

  ghost predicate StrictlyAscending(s: seq<string>) {
    forall i, j :: 0 <= i < j < |s| ==> StringLeq(s[i], s[j]) && s[i] != s[j]
  }

  /** `sorted(s)` for a set of strings. */
  function SortedSet(s: set<string>): (r: seq<string>)
    ensures StrictlyAscending(r)
    ensures forall x :: x in r <==> x in s
    ensures |r| == |s|
  {
    if s == {} then []
    else
      hide StringLeq;
      LeastExists(s);
      StringOrder();
      var x :| IsLeast(x, s);
      [x] + SortedSet(s - {x})
  }

  /** A strictly ascending sequence is determined by its elements. */
  lemma {:induction false} AscendingUnique(a: seq<string>, b: seq<string>)
    requires StrictlyAscending(a) && StrictlyAscending(b)
    requires forall x :: x in a <==> x in b
    ensures a == b
  {
    StringOrder();
    assert (a != [] ==> a[0] in b) && (b != [] ==> b[0] in a);
    if a != [] {
      assert a[0] == b[0];
      forall x ensures x in a[1..] <==> x in b[1..] {
        if x in a[1..] { assert x in a && x != a[0]; }
        if x in b[1..] { assert x in b && x != b[0]; }
      }
      AscendingUnique(a[1..], b[1..]);
    }
  }
}

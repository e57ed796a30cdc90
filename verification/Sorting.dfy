/** Stable sorting, and why sorting by a key that tells elements apart has one result only. */
module Sorting {
  ghost predicate Preorder<T(!new)>(le: (T, T) -> bool) {
    && (forall a, b :: le(a, b) || le(b, a))
    && (forall a, b, c :: le(a, b) && le(b, c) ==> le(a, c))
  }

  ghost predicate Sorted<T(!new)>(s: seq<T>, le: (T, T) -> bool) {
    forall i, j :: 0 <= i < j < |s| ==> le(s[i], s[j])
  }

  function Insert<T>(s: seq<T>, x: T, le: (T, T) -> bool): (r: seq<T>)
    ensures |r| == |s| + 1
  {
    if s == [] || le(s[|s| - 1], x) then s + [x] else Insert(s[..|s| - 1], x, le) + [s[|s| - 1]]
  }

  /** Each element goes after those that may come before it: equal elements keep their order. */
  function Sort<T>(s: seq<T>, le: (T, T) -> bool): (r: seq<T>)
    ensures |r| == |s|
  {
    if s == [] then [] else Insert(Sort(s[..|s| - 1], le), s[|s| - 1], le)
  }

  lemma {:induction false} InsertPermutes<T>(s: seq<T>, x: T, le: (T, T) -> bool)
    ensures multiset(Insert(s, x, le)) == multiset(s) + multiset{x}
    decreases |s|
  {
    if s != [] && !le(s[|s| - 1], x) {
      InsertPermutes(s[..|s| - 1], x, le);
      assert s == s[..|s| - 1] + [s[|s| - 1]];
    }
  }

  lemma {:induction false} SortPermutes<T>(s: seq<T>, le: (T, T) -> bool)
    ensures multiset(Sort(s, le)) == multiset(s)
    decreases |s|
  {
    if s != [] {
      SortPermutes(s[..|s| - 1], le);
      InsertPermutes(Sort(s[..|s| - 1], le), s[|s| - 1], le);
      assert s == s[..|s| - 1] + [s[|s| - 1]];
    }
  }

  lemma SameElements<T>(a: seq<T>, b: seq<T>)
    requires multiset(a) == multiset(b)
    ensures forall x :: x in a <==> x in b
  {
    assert forall x :: x in a <==> x in multiset(a);
    assert forall x :: x in b <==> x in multiset(b);
  }

  lemma TwiceIn<T>(s: seq<T>, i: nat, j: nat)
    requires i < j < |s| && s[i] == s[j]
    ensures multiset(s)[s[i]] >= 2
  {
    assert s == s[..j] + [s[j]] + s[j + 1..];
    assert s[i] in s[..j];
  }

  lemma SnocSorted<T(!new)>(s: seq<T>, x: T, le: (T, T) -> bool)
    requires Sorted(s, le) && forall y :: y in s ==> le(y, x)
    ensures Sorted(s + [x], le)
  {
  }

  lemma {:induction false} InsertSorted<T(!new)>(s: seq<T>, x: T, le: (T, T) -> bool)
    requires Preorder(le) && Sorted(s, le)
    ensures Sorted(Insert(s, x, le), le)
    decreases |s|
  {
    if s == [] || le(s[|s| - 1], x) {
      assert forall y :: y in s ==> le(y, x);
      SnocSorted(s, x, le);
    } else {
      var front, last := s[..|s| - 1], s[|s| - 1];
      InsertSorted(front, x, le);
      InsertPermutes(front, x, le);
      SameElements(Insert(front, x, le), front + [x]);
      SnocSorted(Insert(front, x, le), last, le);
    }
  }

  lemma {:induction false} SortSorted<T(!new)>(s: seq<T>, le: (T, T) -> bool)
    requires Preorder(le)
    ensures Sorted(Sort(s, le), le)
    decreases |s|
  {
    if s != [] {
      SortSorted(s[..|s| - 1], le);
      InsertSorted(Sort(s[..|s| - 1], le), s[|s| - 1], le);
    }
  }

  function Alike<T>(s: seq<T>, x: T, le: (T, T) -> bool): seq<T> {
    if s == [] then []
    else
      var last := s[|s| - 1];
      Alike(s[..|s| - 1], x, le) + if le(last, x) && le(x, last) then [last] else []
  }

  lemma AlikeSnoc<T>(s: seq<T>, y: T, x: T, le: (T, T) -> bool)
    ensures Alike(s + [y], x, le) == Alike(s, x, le) + if le(y, x) && le(x, y) then [y] else []
  {
    assert (s + [y])[..|s|] == s;
  }

  lemma {:induction false} InsertStable<T(!new)>(s: seq<T>, y: T, x: T, le: (T, T) -> bool)
    requires Preorder(le)
    ensures Alike(Insert(s, y, le), x, le) == Alike(s + [y], x, le)
    decreases |s|
  {
    if s != [] && !le(s[|s| - 1], y) {
      var front, last := s[..|s| - 1], s[|s| - 1];
      InsertStable(front, y, x, le);
      AlikeSnoc(front, y, x, le);
      AlikeSnoc(Insert(front, y, le), last, x, le);
      AlikeSnoc(s, y, x, le);
      assert !(le(last, x) && le(x, last) && le(y, x) && le(x, y));
    }
  }

  /** Elements the order does not tell apart come out in the order they went in. */
  lemma {:induction false} SortStable<T(!new)>(s: seq<T>, x: T, le: (T, T) -> bool)
    requires Preorder(le)
    ensures Alike(Sort(s, le), x, le) == Alike(s, x, le)
    decreases |s|
  {
    if s != [] {
      var front, last := s[..|s| - 1], s[|s| - 1];
      SortStable(front, x, le);
      InsertStable(Sort(front, le), last, x, le);
      AlikeSnoc(Sort(front, le), last, x, le);
    }
  }

  /** No two different elements are alike to the order. */
  ghost predicate TellsApart<T(!new)>(s: seq<T>, le: (T, T) -> bool) {
    forall x, y :: x in s && y in s && le(x, y) && le(y, x) ==> x == y
  }

  lemma LastIsGreatest<T(!new)>(s: seq<T>, x: T, le: (T, T) -> bool)
    requires Sorted(s, le) && Preorder(le) && x in s
    ensures le(x, s[|s| - 1])
  {
    var i :| 0 <= i < |s| && s[i] == x;
  }

  lemma SameLast<T(!new)>(a: seq<T>, b: seq<T>, le: (T, T) -> bool)
    requires Sorted(a, le) && Sorted(b, le) && Preorder(le) && TellsApart(a, le)
    requires a != [] && b != [] && forall x :: x in a <==> x in b
    ensures a[|a| - 1] == b[|b| - 1]
  {
    LastIsGreatest(a, b[|b| - 1], le);
    LastIsGreatest(b, a[|a| - 1], le);
  }

  lemma WithoutLast<T>(a: seq<T>, b: seq<T>)
    requires multiset(a) == multiset(b) && |a| == |b| > 0 && a[|a| - 1] == b[|b| - 1]
    ensures multiset(a[..|a| - 1]) == multiset(b[..|b| - 1])
    ensures a == a[..|a| - 1] + [a[|a| - 1]] && b == b[..|b| - 1] + [b[|b| - 1]]
  {
    var x := a[|a| - 1];
    assert a == a[..|a| - 1] + [x] && b == b[..|b| - 1] + [x];
    assert multiset(a[..|a| - 1]) == multiset(a) - multiset{x};
    assert multiset(b[..|b| - 1]) == multiset(b) - multiset{x};
  }

  lemma FrontSorted<T(!new)>(s: seq<T>, le: (T, T) -> bool)
    requires s != [] && Sorted(s, le) && TellsApart(s, le)
    ensures Sorted(s[..|s| - 1], le) && TellsApart(s[..|s| - 1], le)
  {
  }

  /** Any two sorted arrangements are the same when the order tells all elements apart. */
  lemma {:induction false} OneArrangement<T(!new)>(a: seq<T>, b: seq<T>, le: (T, T) -> bool)
    requires Preorder(le) && Sorted(a, le) && Sorted(b, le) && TellsApart(a, le)
    requires multiset(a) == multiset(b)
    ensures a == b
    decreases |a|
  {
    hide Sorted, TellsApart, Preorder;
    assert |a| == |multiset(a)| == |multiset(b)| == |b|;
    SameElements(a, b);
    if a != [] {
      SameLast(a, b, le);
      WithoutLast(a, b);
      FrontSorted(a, le);
      SortedFront(b, le);
      OneArrangement(a[..|a| - 1], b[..|b| - 1], le);
    }
  }

  lemma SortedFront<T(!new)>(s: seq<T>, le: (T, T) -> bool)
    requires s != [] && Sorted(s, le)
    ensures Sorted(s[..|s| - 1], le)
  {
  }

  /** A sorted sequence is what sorting it gives. */
  lemma {:induction false} SortOfSorted<T(!new)>(s: seq<T>, le: (T, T) -> bool)
    requires Sorted(s, le)
    ensures Sort(s, le) == s
    decreases |s|
  {
    if s != [] {
      var front := s[..|s| - 1];
      SortOfSorted(front, le);
      assert s == front + [s[|s| - 1]];
    }
  }
}

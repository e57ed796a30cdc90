/** The process tree: spans hung under their parents, sorted, and walked to show them. */
module SpanTree {
  import opened Common
  import opened Text
  import opened Sorting
  import opened Spans

  const MAX_TREE_DEPTH: nat := 1000

  /** The last span with this id. */
  function LastWith(spans: seq<Span>, id: string): (r: Option<nat>)
    ensures r.Some? ==> r.value < |spans| && spans[r.value].id == id
    ensures r.Some? ==> forall k :: r.value < k < |spans| ==> spans[k].id != id
    ensures r.None? ==> forall s :: s in spans ==> s.id != id
  {
    if spans == [] then None
    else if spans[|spans| - 1].id == id then Some(|spans| - 1)
    else
      assert spans == spans[..|spans| - 1] + [spans[|spans| - 1]];
      LastWith(spans[..|spans| - 1], id)
  }

  /** Nodes are span indices; the root is the index after the last. */
  function Root(spans: seq<Span>): nat {
    |spans|
  }

  /** Where span i hangs: under its parent, or under the root when that is missing, unknown or the span itself. */
  function ParentOf(spans: seq<Span>, i: nat): (p: nat)
    requires i < |spans|
    ensures p <= |spans| && p != i
    ensures p < |spans| ==> spans[i].parent != "" && spans[p].id == spans[i].parent
    ensures p < |spans| ==> forall k :: p < k < |spans| ==> spans[k].id != spans[i].parent
    ensures p == |spans| && spans[i].parent != "" ==> forall k :: 0 <= k < |spans| && spans[k].id == spans[i].parent ==> k <= i
    ensures p == |spans| && spans[i].parent != "" && spans[i].id != spans[i].parent ==> forall s :: s in spans ==> s.id != spans[i].parent
  {
    var id := spans[i].parent;
    if id == "" then Root(spans)
    else match LastWith(spans, id)
      case Some(k) => if k == i then Root(spans) else k
      case None => Root(spans)
  }

  /** The spans among the first k that hang under x, in input order. */
  function ChildrenOf(spans: seq<Span>, x: nat, k: nat): (r: seq<nat>)
    requires k <= |spans|
    ensures forall i: nat :: i in r <==> i < k && ParentOf(spans, i) == x
    ensures forall a, b :: 0 <= a < b < |r| ==> r[a] < r[b]
  {
    if k == 0 then []
    else
      var front := ChildrenOf(spans, x, k - 1);
      assert forall a :: 0 <= a < |front| ==> front[a] in front;
      if ParentOf(spans, k - 1) == x then front + [k - 1] else front
  }

  ghost predicate NoTwice(s: seq<nat>) {
    forall a, b :: 0 <= a < b < |s| ==> s[a] != s[b]
  }

  /** Every span is in exactly one child list, its parent's, and there once. */
  ghost predicate Hangs(spans: seq<Span>, kids: seq<seq<nat>>) {
    && |kids| == |spans| + 1
    && forall x :: 0 <= x < |kids| ==> HangsAt(spans, x, kids[x])
  }

  ghost predicate HangsAt(spans: seq<Span>, x: nat, list: seq<nat>) {
    NoTwice(list) && forall i: nat :: i in list <==> i < |spans| && ParentOf(spans, i) == x
  }

  // ------------------------------------------------------------------ sorting

  predicate TimeOrder(spans: seq<Span>, a: nat, b: nat) {
    a >= |spans| || (b < |spans| && NotAfter(spans[a], spans[b]))
  }

  function ByTime(spans: seq<Span>): (nat, nat) -> bool {
    (a: nat, b: nat) => TimeOrder(spans, a, b)
  }

  lemma ByTimeIsPreorder(spans: seq<Span>)
    ensures Preorder(ByTime(spans))
  {
    forall a: nat, b: nat ensures TimeOrder(spans, a, b) || TimeOrder(spans, b, a) {
      if a < |spans| && b < |spans| { StrLeTotal(spans[a].id, spans[b].id); }
    }
    forall a: nat, b: nat, c: nat | TimeOrder(spans, a, b) && TimeOrder(spans, b, c) ensures TimeOrder(spans, a, c) {
      if a < |spans| && spans[a].start == spans[b].start == spans[c].start {
        StrLeTransitive(spans[a].id, spans[b].id, spans[c].id);
      }
    }
  }

  function Chronological(spans: seq<Span>, list: seq<nat>): (r: seq<nat>)
    ensures |r| == |list|
  {
    Sort(list, ByTime(spans))
  }

  lemma ChronologicalTwice(spans: seq<Span>, list: seq<nat>)
    ensures Chronological(spans, Chronological(spans, list)) == Chronological(spans, list)
    ensures Sorted(Chronological(spans, list), ByTime(spans))
  {
    hide Sort, Preorder, Sorted;
    ByTimeIsPreorder(spans);
    SortSorted(list, ByTime(spans));
    SortOfSorted(Chronological(spans, list), ByTime(spans));
  }

  /** A sorted list of spans goes by start time, and by id where that is the same. */
  lemma ChronologicalGoesByTime(spans: seq<Span>, list: seq<nat>)
    requires forall i :: i in list ==> i < |spans|
    ensures var r := Chronological(spans, list);
            forall a, b :: 0 <= a < b < |r| && r[a] < |spans| && r[b] < |spans| ==>
              spans[r[a]].start < spans[r[b]].start ||
              (spans[r[a]].start == spans[r[b]].start && StrLe(spans[r[a]].id, spans[r[b]].id))
  {
    ChronologicalTwice(spans, list);
    hide Chronological, StrLe;
    var r := Chronological(spans, list);
    forall a, b | 0 <= a < b < |r| && r[a] < |spans| && r[b] < |spans|
      ensures spans[r[a]].start < spans[r[b]].start ||
              (spans[r[a]].start == spans[r[b]].start && StrLe(spans[r[a]].id, spans[r[b]].id))
    {
      assert ByTime(spans)(r[a], r[b]);
    }
  }

  lemma ChronologicalMembers(spans: seq<Span>, list: seq<nat>)
    ensures forall i :: i in Chronological(spans, list) <==> i in list
    ensures NoTwice(list) ==> NoTwice(Chronological(spans, list))
  {
    hide Sort;
    var r := Chronological(spans, list);
    SortPermutes(list, ByTime(spans));
    SameElements(r, list);
    if NoTwice(list) {
      forall a, b | 0 <= a < b < |r| ensures r[a] != r[b] {
        if r[a] == r[b] {
          TwiceIn(r, a, b);
          OnceCounts(list, r[a]);
          assert false;
        }
      }
    }
  }

  lemma OnceCounts(s: seq<nat>, x: nat)
    requires NoTwice(s)
    ensures multiset(s)[x] == if x in s then 1 else 0
  {
    if x in s {
      var a :| 0 <= a < |s| && s[a] == x;
      assert s == s[..a] + [s[a]] + s[a + 1..];
      assert x !in s[..a] && x !in s[a + 1..];
    }
  }

  lemma HangsSorted(spans: seq<Span>, x: nat, list: seq<nat>)
    requires HangsAt(spans, x, list)
    ensures HangsAt(spans, x, Chronological(spans, list))
  {
    ChronologicalMembers(spans, list);
  }

  /** y is below x, at most f levels down. */
  predicate Under(kids: seq<seq<nat>>, x: nat, y: nat, f: nat)
    decreases f
  {
    f > 0 && x < |kids| && exists c :: c in kids[x] && (c == y || Under(kids, c, y, f - 1))
  }

  /** A list is as it was hung, or sorted. */
  ghost predicate AsHungOrSorted(spans: seq<Span>, hung: seq<seq<nat>>, kids: seq<seq<nat>>) {
    && |kids| == |hung|
    && forall y :: 0 <= y < |kids| ==> kids[y] == hung[y] || kids[y] == Chronological(spans, hung[y])
  }

  predicate AllBelow(cs: seq<nat>, n: nat) {
    forall m :: 0 <= m < |cs| ==> cs[m] < n
  }

  ghost predicate InRange(hung: seq<seq<nat>>) {
    forall x :: 0 <= x < |hung| ==> AllBelow(hung[x], |hung|)
  }

  /** Sorts the list of x and of everything below it down to the depth cap, and no other. */
  method SortTree(spans: seq<Span>, kids: array<seq<nat>>, x: nat, depth: nat, ghost hung: seq<seq<nat>>)
    requires x < kids.Length && AsHungOrSorted(spans, hung, kids[..]) && InRange(hung)
    modifies kids
    ensures forall y :: 0 <= y < kids.Length ==>
      kids[y] == if depth < MAX_TREE_DEPTH && (y == x || Under(hung, x, y, MAX_TREE_DEPTH - depth - 1))
                 then Chronological(spans, hung[y]) else old(kids[y])
    decreases MAX_TREE_DEPTH - depth
  {
    hide Chronological, Under, UnderSome, AsHungOrSorted, InRange;
    if depth >= MAX_TREE_DEPTH {
      return;
    }
    EitherAt(spans, hung, kids[..], x);
    var sorted := Chronological(spans, kids[x]);
    SortedAlike(spans, hung, kids[x], x);
    kids[x] := sorted;
    ghost var f := MAX_TREE_DEPTH - depth - 1;
    assert sorted[..0] == [];
    assert forall y :: !UnderSome(hung, [], y, f) by { UnderNone(hung, f); }
    for m := 0 to |sorted|
      invariant forall y :: 0 <= y < kids.Length ==>
        kids[y] == if y == x || UnderSome(hung, sorted[..m], y, f) then Chronological(spans, hung[y]) else old(kids[y])
    {
      var c := sorted[m];
      assert sorted[..m + 1] == sorted[..m] + [c];
      assert c in sorted;
      StillEither(spans, hung, old(kids[..]), kids[..]);
      forall y ensures UnderSome(hung, sorted[..m + 1], y, f)
        <==> UnderSome(hung, sorted[..m], y, f) || (f > 0 && (c == y || Under(hung, c, y, f - 1)))
      {
        UnderSomeSnoc(hung, sorted[..m], c, y, f);
      }
      SortTree(spans, kids, c, depth + 1, hung);
    }
    assert sorted[..|sorted|] == sorted;
    forall y ensures UnderSome(hung, sorted, y, f) <==> Under(hung, x, y, f) {
      UnderIsUnderSome(hung, x, sorted, y, f);
    }
  }

  lemma EitherAt(spans: seq<Span>, hung: seq<seq<nat>>, kids: seq<seq<nat>>, x: nat)
    requires AsHungOrSorted(spans, hung, kids) && x < |kids|
    ensures |kids| == |hung| && (kids[x] == hung[x] || kids[x] == Chronological(spans, hung[x]))
  {
  }

  lemma SortedAlike(spans: seq<Span>, hung: seq<seq<nat>>, list: seq<nat>, x: nat)
    requires x < |hung| && InRange(hung) && (list == hung[x] || list == Chronological(spans, hung[x]))
    ensures Chronological(spans, list) == Chronological(spans, hung[x])
    ensures forall c :: c in Chronological(spans, list) <==> c in hung[x]
    ensures forall c :: c in Chronological(spans, list) ==> c < |hung|
  {
    hide Chronological;
    ChronologicalTwice(spans, hung[x]);
    ChronologicalMembers(spans, hung[x]);
    assert AllBelow(hung[x], |hung|);
  }

  lemma StillEither(spans: seq<Span>, hung: seq<seq<nat>>, was: seq<seq<nat>>, kids: seq<seq<nat>>)
    requires AsHungOrSorted(spans, hung, was) && |kids| == |was|
    requires forall y :: 0 <= y < |kids| ==> kids[y] == was[y] || (y < |hung| && kids[y] == Chronological(spans, hung[y]))
    ensures AsHungOrSorted(spans, hung, kids)
  {
  }

  lemma UnderNone(kids: seq<seq<nat>>, f: nat)
    ensures forall y :: !UnderSome(kids, [], y, f)
  {
  }

  lemma UnderSomeSnoc(kids: seq<seq<nat>>, cs: seq<nat>, c: nat, y: nat, f: nat)
    ensures UnderSome(kids, cs + [c], y, f) <==> UnderSome(kids, cs, y, f) || (f > 0 && (c == y || Under(kids, c, y, f - 1)))
  {
    hide Under;
    assert forall d :: d in cs + [c] <==> d in cs || d == c;
    if UnderSome(kids, cs, y, f) {
      var d :| d in cs && (d == y || Under(kids, d, y, f - 1));
      assert d in cs + [c];
    } else if f > 0 && (c == y || Under(kids, c, y, f - 1)) {
      assert c in cs + [c];
    }
  }

  lemma UnderIsUnderSome(kids: seq<seq<nat>>, x: nat, cs: seq<nat>, y: nat, f: nat)
    requires x < |kids| && forall c :: c in cs <==> c in kids[x]
    ensures UnderSome(kids, cs, y, f) <==> Under(kids, x, y, f)
  {
  }

  /** y is one of cs, or below one of them, f levels counting their own. */
  ghost predicate UnderSome(kids: seq<seq<nat>>, cs: seq<nat>, y: nat, f: nat) {
    f > 0 && exists c :: c in cs && (c == y || Under(kids, c, y, f - 1))
  }

  // ----------------------------------------------------------------- building

  method IndexById(spans: seq<Span>) returns (byID: map<string, nat>)
    ensures forall id :: id in byID <==> id != "" && LastWith(spans, id).Some?
    ensures forall id :: id in byID ==> LastWith(spans, id) == Some(byID[id])
  {
    byID := map[];
    for i := 0 to |spans|
      invariant forall id :: id in byID <==> id != "" && LastWith(spans[..i], id).Some?
      invariant forall id :: id in byID ==> LastWith(spans[..i], id) == Some(byID[id])
    {
      assert spans[..i + 1][..i] == spans[..i];
      if spans[i].id != "" {
        byID := byID[spans[i].id := i];
      }
    }
    assert spans[..|spans|] == spans;
  }

  /** The child lists as hung, before sorting. */
  function Hung(spans: seq<Span>): (r: seq<seq<nat>>)
    ensures |r| == |spans| + 1
  {
    seq(|spans| + 1, x requires 0 <= x <= |spans| => ChildrenOf(spans, x, |spans|))
  }

  /** Built, each span hangs where it should; lists within the depth cap are in order of time. */
  method BuildSpanTree(spans: seq<Span>) returns (kids: array<seq<nat>>)
    ensures fresh(kids) && Hangs(spans, kids[..])
    ensures forall y :: 0 <= y <= |spans| ==>
      kids[y] == if y == Root(spans) || Under(Hung(spans), Root(spans), y, MAX_TREE_DEPTH - 1)
                 then Chronological(spans, ChildrenOf(spans, y, |spans|)) else ChildrenOf(spans, y, |spans|)
  {
    hide LastWith, Chronological, Under, HangsAt, ChildrenOf;
    kids := HangAll(spans);
    ghost var hung := Hung(spans);
    HungHangs(spans);
    SortTree(spans, kids, |spans|, 0, hung);
    forall x | 0 <= x < kids.Length ensures HangsAt(spans, x, kids[x]) {
      HangsSorted(spans, x, hung[x]);
    }
  }

  lemma HungHangs(spans: seq<Span>)
    ensures forall x :: 0 <= x <= |spans| ==> HangsAt(spans, x, Hung(spans)[x])
    ensures InRange(Hung(spans)) && AsHungOrSorted(spans, Hung(spans), Hung(spans))
  {
    hide ParentOf, Chronological;
    forall x, m | 0 <= x <= |spans| && 0 <= m < |Hung(spans)[x]| ensures Hung(spans)[x][m] < |spans| {
      assert Hung(spans)[x][m] in Hung(spans)[x];
    }
  }

  method HangAll(spans: seq<Span>) returns (kids: array<seq<nat>>)
    ensures fresh(kids) && kids[..] == Hung(spans)
  {
    hide LastWith, ParentOf, ChildrenOf;
    var byID := IndexById(spans);
    kids := new seq<nat>[|spans| + 1](_ => []);
    NoChildren(spans);
    for i := 0 to |spans|
      invariant forall x :: 0 <= x < kids.Length ==> kids[x] == ChildrenOf(spans, x, i)
    {
      var parent := spans[i].parent;
      var p := |spans|;
      if parent != "" && parent in byID && byID[parent] != i {
        p := byID[parent];
      }
      ParentIs(spans, byID, i);
      forall x ensures ChildrenOf(spans, x, i + 1) == ChildrenOf(spans, x, i) + if p == x then [i] else [] {
        ChildrenNext(spans, x, i);
      }
      kids[p] := kids[p] + [i];
    }
  }

  lemma NoChildren(spans: seq<Span>)
    ensures forall x :: ChildrenOf(spans, x, 0) == []
  {
  }

  lemma ChildrenNext(spans: seq<Span>, x: nat, i: nat)
    requires i < |spans|
    ensures ChildrenOf(spans, x, i + 1) == ChildrenOf(spans, x, i) + if ParentOf(spans, i) == x then [i] else []
  {
  }

  lemma ParentIs(spans: seq<Span>, byID: map<string, nat>, i: nat)
    requires i < |spans|
    requires forall id :: id in byID <==> id != "" && LastWith(spans, id).Some?
    requires forall id :: id in byID ==> LastWith(spans, id) == Some(byID[id])
    ensures ParentOf(spans, i) == if spans[i].parent in byID && byID[spans[i].parent] != i then byID[spans[i].parent] else |spans|
  {
    hide LastWith;
  }

  // -------------------------------------------------------------- list lengths

  /** The lengths of the child lists of the nodes before x, with k spans hung. */
  function SumKids(spans: seq<Span>, x: nat, k: nat): nat
    requires k <= |spans|
  {
    if x == 0 then 0 else SumKids(spans, x - 1, k) + |ChildrenOf(spans, x - 1, k)|
  }

  lemma {:induction false} SumKidsNext(spans: seq<Span>, x: nat, k: nat)
    requires k < |spans|
    ensures SumKids(spans, x, k + 1) == SumKids(spans, x, k) + if ParentOf(spans, k) < x then 1 else 0
  {
    hide ParentOf, ChildrenOf;
    if x > 0 {
      SumKidsNext(spans, x - 1, k);
      ChildrenNext(spans, x - 1, k);
    }
  }

  lemma {:induction false} SumKidsNone(spans: seq<Span>, x: nat)
    ensures SumKids(spans, x, 0) == 0
  {
    if x > 0 { SumKidsNone(spans, x - 1); }
  }

  /** All child lists together are as long as there are spans. */
  lemma {:induction false} ListsHoldEverySpan(spans: seq<Span>, k: nat)
    requires k <= |spans|
    ensures SumKids(spans, |spans| + 1, k) == k
  {
    hide ParentOf, SumKids;
    if k == 0 {
      SumKidsNone(spans, |spans| + 1);
    } else {
      ListsHoldEverySpan(spans, k - 1);
      SumKidsNext(spans, |spans| + 1, k - 1);
    }
  }
}

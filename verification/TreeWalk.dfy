/** Walking the process tree: who is shown, how often, and how the two displays come out. */
module TreeWalk {
  import opened Common
  import opened Spans
  import opened SpanTree

  /** cs and what hangs below them, parents first, at most f levels. */
  function Walk(kids: seq<seq<nat>>, cs: seq<nat>, f: nat): seq<nat>
    decreases f, |cs|
  {
    if f == 0 || cs == [] then []
    else [cs[0]] + (if cs[0] < |kids| then Walk(kids, kids[cs[0]], f - 1) else []) + Walk(kids, cs[1..], f)
  }

  /** k steps up from i, as long as that does not go past the root. */
  function Climb(spans: seq<Span>, i: nat, k: nat): Option<nat> {
    if k == 0 then Some(i)
    else match Climb(spans, i, k - 1)
      case Some(j) => if j < |spans| then Some(ParentOf(spans, j)) else None
      case None => None
  }

  function One(b: bool): nat {
    if b then 1 else 0
  }

  /** How many of the first f nodes of the chain up from i are x. */
  function Visits(spans: seq<Span>, i: nat, x: nat, f: nat): nat {
    if f == 0 then 0 else Visits(spans, i, x, f - 1) + One(Climb(spans, i, f - 1) == Some(x))
  }

  function VisitsAll(spans: seq<Span>, i: nat, cs: seq<nat>, f: nat): nat {
    if cs == [] then 0 else Visits(spans, i, cs[0], f) + VisitsAll(spans, i, cs[1..], f)
  }

  /** How many of cs is the k-th node of the chain up from i. */
  function Among(spans: seq<Span>, i: nat, cs: seq<nat>, k: nat): nat {
    if cs == [] then 0 else One(Climb(spans, i, k) == Some(cs[0])) + Among(spans, i, cs[1..], k)
  }

  lemma {:induction false} VisitsAllNext(spans: seq<Span>, i: nat, cs: seq<nat>, f: nat)
    ensures VisitsAll(spans, i, cs, f + 1) == VisitsAll(spans, i, cs, f) + Among(spans, i, cs, f)
    decreases |cs|
  {
    hide Climb;
    if cs != [] { VisitsAllNext(spans, i, cs[1..], f); }
  }

  lemma {:induction false} VisitsAllNone(spans: seq<Span>, i: nat, cs: seq<nat>)
    ensures VisitsAll(spans, i, cs, 0) == 0
    decreases |cs|
  {
    if cs != [] { VisitsAllNone(spans, i, cs[1..]); }
  }

  lemma {:induction false} AmongDistinct(spans: seq<Span>, i: nat, cs: seq<nat>, k: nat)
    requires NoTwice(cs)
    ensures Among(spans, i, cs, k) == One(Climb(spans, i, k).Some? && Climb(spans, i, k).value in cs)
    decreases |cs|
  {
    hide Climb;
    if cs != [] {
      assert cs == [cs[0]] + cs[1..];
      AmongDistinct(spans, i, cs[1..], k);
      assert cs[0] !in cs[1..];
    }
  }

  /** The chain is at x one step later exactly when it is at one of x's children now. */
  lemma AmongChildren(spans: seq<Span>, kids: seq<seq<nat>>, i: nat, x: nat, k: nat)
    requires Hangs(spans, kids) && x < |kids|
    ensures Among(spans, i, kids[x], k) == One(Climb(spans, i, k + 1) == Some(x))
  {
    hide ParentOf;
    assert HangsAt(spans, x, kids[x]);
    AmongDistinct(spans, i, kids[x], k);
  }

  lemma {:induction false} VisitsBelow(spans: seq<Span>, kids: seq<seq<nat>>, i: nat, x: nat, f: nat)
    requires Hangs(spans, kids) && x < |kids|
    ensures Visits(spans, i, x, f + 1) == One(i == x) + VisitsAll(spans, i, kids[x], f)
  {
    hide Hangs;
    if f == 0 {
      VisitsAllNone(spans, i, kids[x]);
      assert Visits(spans, i, x, 1) == Visits(spans, i, x, 0) + One(Climb(spans, i, 0) == Some(x));
    } else {
      VisitsBelow(spans, kids, i, x, f - 1);
      VisitsAllNext(spans, i, kids[x], f - 1);
      AmongChildren(spans, kids, i, x, f - 1);
    }
  }

  lemma WalkFirst(kids: seq<seq<nat>>, cs: seq<nat>, f: nat)
    requires f > 0 && cs != [] && cs[0] < |kids|
    ensures Walk(kids, cs, f) == [cs[0]] + Walk(kids, kids[cs[0]], f - 1) + Walk(kids, cs[1..], f)
  {
  }

  /** In a walk each node turns up once for every time its chain of parents meets the nodes walked from. */
  lemma {:induction false} WalkCounts(spans: seq<Span>, kids: seq<seq<nat>>, cs: seq<nat>, f: nat, i: nat)
    requires Hangs(spans, kids) && AllBelow(cs, |kids|)
    ensures multiset(Walk(kids, cs, f))[i] == VisitsAll(spans, i, cs, f)
    decreases f, |cs|
  {
    hide Visits, Climb, Hangs, VisitsAll, Walk;
    if f == 0 || cs == [] {
      VisitsAllNone(spans, i, cs);
      NoWalk(spans, kids, cs, f, i);
    } else {
      var c := cs[0];
      KidsInRange(spans, kids, Root(spans));
      KidsInRange(spans, kids, c);
      WalkCounts(spans, kids, kids[c], f - 1, i);
      WalkCounts(spans, kids, cs[1..], f, i);
      VisitsBelow(spans, kids, i, c, f - 1);
      VisitsAllFirst(spans, i, cs, f);
      WalkFirst(kids, cs, f);
      CountsAdd(c, Walk(kids, kids[c], f - 1), Walk(kids, cs[1..], f), i);
    }
  }

  lemma NoWalk(spans: seq<Span>, kids: seq<seq<nat>>, cs: seq<nat>, f: nat, i: nat)
    requires f == 0 || cs == []
    ensures Walk(kids, cs, f) == [] && (cs == [] ==> VisitsAll(spans, i, cs, f) == 0)
  {
  }

  lemma VisitsAllFirst(spans: seq<Span>, i: nat, cs: seq<nat>, f: nat)
    requires cs != []
    ensures VisitsAll(spans, i, cs, f) == Visits(spans, i, cs[0], f) + VisitsAll(spans, i, cs[1..], f)
  {
  }

  lemma KidsInRange(spans: seq<Span>, kids: seq<seq<nat>>, c: nat)
    requires Hangs(spans, kids) && c <= |spans|
    ensures |kids| == |spans| + 1 && AllBelow(kids[c], |kids|)
  {
    assert HangsAt(spans, c, kids[c]);
    assert forall m :: 0 <= m < |kids[c]| ==> kids[c][m] in kids[c];
  }

  lemma CountsAdd(c: nat, a: seq<nat>, b: seq<nat>, i: nat)
    ensures multiset([c] + a + b)[i] == One(i == c) + multiset(a)[i] + multiset(b)[i]
  {
    assert multiset([c] + a + b) == multiset{c} + multiset(a) + multiset(b);
  }

  // ------------------------------------------------------------- reachability

  lemma {:induction false} NothingPastRoot(spans: seq<Span>, i: nat, k: nat, m: nat)
    requires Climb(spans, i, k) == Some(Root(spans)) && k < m
    ensures Climb(spans, i, m) == None
    decreases m
  {
    if k < m - 1 { NothingPastRoot(spans, i, k, m - 1); }
  }

  /** The chain of parents of i gets to the root within f steps. */
  predicate Rooted(spans: seq<Span>, i: nat, f: nat) {
    exists k: nat :: k <= f && Climb(spans, i, k) == Some(Root(spans))
  }

  lemma {:induction false} RootVisitedOnce(spans: seq<Span>, i: nat, f: nat)
    ensures Visits(spans, i, Root(spans), f + 1) == One(Rooted(spans, i, f))
  {
    hide Climb;
    assert Visits(spans, i, Root(spans), f + 1)
        == Visits(spans, i, Root(spans), f) + One(Climb(spans, i, f) == Some(Root(spans)));
    if f == 0 {
      assert Visits(spans, i, Root(spans), 0) == 0;
    } else {
      RootVisitedOnce(spans, i, f - 1);
      if Rooted(spans, i, f - 1) {
        var k: nat :| k <= f - 1 && Climb(spans, i, k) == Some(Root(spans));
        NothingPastRoot(spans, i, k, f);
      }
    }
  }

  /** From the root each span comes up once if its chain of parents gets there in time, and never otherwise. */
  lemma ShownOnceIffRooted(spans: seq<Span>, kids: seq<seq<nat>>, f: nat, i: nat)
    requires Hangs(spans, kids) && i < |spans|
    ensures multiset(Walk(kids, kids[Root(spans)], f))[i] == One(Rooted(spans, i, f))
  {
    hide Walk, Visits, VisitsAll, Rooted, Climb, Hangs;
    KidsInRange(spans, kids, Root(spans));
    WalkCounts(spans, kids, kids[Root(spans)], f, i);
    VisitsBelow(spans, kids, i, Root(spans), f);
    RootVisitedOnce(spans, i, f);
  }

  lemma {:induction false} ClimbAgain(spans: seq<Span>, i: nat, a: nat, b: nat)
    requires Climb(spans, i, a).Some?
    ensures Climb(spans, i, a + b) == Climb(spans, Climb(spans, i, a).value, b)
    decreases b
  {
    hide ParentOf;
    if b > 0 {
      ClimbAgain(spans, i, a, b - 1);
      assert a + b - 1 == a + (b - 1);
    }
  }

  /** Spans whose parents go round in a circle are never shown. */
  lemma CircleIsHidden(spans: seq<Span>, kids: seq<seq<nat>>, f: nat, i: nat, k: nat)
    requires Hangs(spans, kids) && i < |spans| && k > 0 && Climb(spans, i, k) == Some(i)
    ensures i !in Walk(kids, kids[Root(spans)], f)
  {
    hide Climb, Walk, Hangs;
    ShownOnceIffRooted(spans, kids, f, i);
    if Rooted(spans, i, f) {
      var m: nat :| m <= f && Climb(spans, i, m) == Some(Root(spans));
      ClimbAgain(spans, i, k, m);
      NothingPastRoot(spans, i, m, k + m);
      assert false;
    }
  }

  // -------------------------------------------------------------- depth bound

  function Chain(spans: seq<Span>, i: nat, k: nat): set<nat>
    requires forall m :: 0 <= m < k ==> Climb(spans, i, m).Some?
  {
    set m | 0 <= m < k :: Climb(spans, i, m).value
  }

  lemma {:induction false} EarlierSteps(spans: seq<Span>, i: nat, k: nat, m: nat)
    requires Climb(spans, i, k) == Some(Root(spans)) && m < k
    ensures Climb(spans, i, m).Some? && Climb(spans, i, m).value < |spans|
    decreases k - m
  {
    if m + 1 < k { EarlierSteps(spans, i, k, m + 1); }
    assert Climb(spans, i, m + 1).Some?;
  }

  lemma NoNodeTwice(spans: seq<Span>, i: nat, k: nat, a: nat, b: nat)
    requires Climb(spans, i, k) == Some(Root(spans)) && a < b < k
    ensures Climb(spans, i, a) != Climb(spans, i, b)
  {
    hide Climb;
    if Climb(spans, i, a) == Climb(spans, i, b) {
      EarlierSteps(spans, i, k, a);
      EarlierSteps(spans, i, k, b);
      ClimbAgain(spans, i, b, k - b);
      ClimbAgain(spans, i, a, k - b);
      NothingPastRoot(spans, i, a + (k - b), k);
      assert false;
    }
  }

  lemma {:induction false} ChainSize(spans: seq<Span>, i: nat, k: nat, m: nat)
    requires Climb(spans, i, k) == Some(Root(spans)) && m <= k
    ensures forall j :: 0 <= j < m ==> Climb(spans, i, j).Some? && Climb(spans, i, j).value < |spans|
    ensures |Chain(spans, i, m)| == m
    decreases m
  {
    hide Climb, Chain;
    forall j | 0 <= j < m ensures Climb(spans, i, j).Some? && Climb(spans, i, j).value < |spans| {
      EarlierSteps(spans, i, k, j);
    }
    if m > 0 {
      ChainSize(spans, i, k, m - 1);
      forall j | 0 <= j < m - 1 ensures Climb(spans, i, j) != Climb(spans, i, m - 1) {
        NoNodeTwice(spans, i, k, j, m - 1);
      }
      ChainNext(spans, i, m);
    } else {
      NoChain(spans, i);
    }
  }

  lemma NoChain(spans: seq<Span>, i: nat)
    ensures Chain(spans, i, 0) == {}
  {
  }

  lemma ChainNext(spans: seq<Span>, i: nat, m: nat)
    requires m > 0 && forall j :: 0 <= j < m ==> Climb(spans, i, j).Some?
    requires forall j :: 0 <= j < m - 1 ==> Climb(spans, i, j) != Climb(spans, i, m - 1)
    ensures |Chain(spans, i, m)| == |Chain(spans, i, m - 1)| + 1
  {
    hide Climb;
    var last := Climb(spans, i, m - 1).value;
    assert last !in Chain(spans, i, m - 1);
    assert Chain(spans, i, m) == Chain(spans, i, m - 1) + {last};
  }

  lemma {:induction false} SmallSet(s: set<nat>, n: nat)
    requires forall x :: x in s ==> x < n
    ensures |s| <= n
  {
    if n == 0 {
      assert s == {};
    } else {
      SmallSet(s - {n - 1}, n - 1);
    }
  }

  /** A chain to the root is no longer than there are spans: the depth cap hides nothing from a thousand spans or fewer. */
  lemma RootedSoon(spans: seq<Span>, i: nat, f: nat)
    requires Rooted(spans, i, f)
    ensures Rooted(spans, i, |spans|)
  {
    var k: nat :| k <= f && Climb(spans, i, k) == Some(Root(spans));
    hide Climb;
    ChainSize(spans, i, k, k);
    SmallSet(Chain(spans, i, k), |spans|);
  }

  // --------------------------------------------------------------------- JSON

  datatype JsonNode = JsonNode(node: nat, children: seq<JsonNode>)

  function Doc(kids: seq<seq<nat>>, x: nat, f: nat): JsonNode
    requires x < |kids| && InRange(kids)
    decreases f, 1
  {
    JsonNode(x, if f == 0 then [] else Docs(kids, kids[x], f - 1))
  }

  function Docs(kids: seq<seq<nat>>, cs: seq<nat>, f: nat): (r: seq<JsonNode>)
    requires InRange(kids) && AllBelow(cs, |kids|)
    decreases f, 2, |cs|
  {
    if cs == [] then [] else Docs(kids, cs[..|cs| - 1], f) + [Doc(kids, cs[|cs| - 1], f)]
  }

  method ToJsonNode(kids: array<seq<nat>>, x: nat, depth: nat) returns (jn: JsonNode)
    requires x < kids.Length && InRange(kids[..]) && depth <= MAX_TREE_DEPTH
    ensures jn == Doc(kids[..], x, 1000 - depth)
    decreases MAX_TREE_DEPTH - depth
  {
    var children: seq<JsonNode> := [];
    if depth < MAX_TREE_DEPTH {
      var cs := kids[x];
      assert cs == kids[..][x];
      for m := 0 to |cs|
        invariant children == Docs(kids[..], cs[..m], MAX_TREE_DEPTH - depth - 1)
      {
        var child := ToJsonNode(kids, cs[m], depth + 1);
        assert cs[..m + 1][..m] == cs[..m];
        children := children + [child];
      }
      assert cs[..|cs|] == cs;
    }
    return JsonNode(x, children);
  }

  function Flatten(jn: JsonNode): seq<nat> {
    [jn.node] + FlattenAll(jn.children)
  }

  function FlattenAll(js: seq<JsonNode>): seq<nat> {
    if js == [] then [] else Flatten(js[0]) + FlattenAll(js[1..])
  }

  lemma {:induction false} FlattenAppend(a: seq<JsonNode>, b: JsonNode)
    ensures FlattenAll(a + [b]) == FlattenAll(a) + Flatten(b)
    decreases |a|
  {
    if a == [] {
      assert FlattenAll([b]) == Flatten(b) + FlattenAll([]);
    } else {
      assert (a + [b])[1..] == a[1..] + [b];
      FlattenAppend(a[1..], b);
    }
  }

  lemma {:induction false} WalkAppend(kids: seq<seq<nat>>, a: seq<nat>, c: nat, f: nat)
    requires f > 0 && c < |kids|
    ensures Walk(kids, a + [c], f) == Walk(kids, a, f) + ([c] + Walk(kids, kids[c], f - 1))
    decreases |a|
  {
    if a == [] {
      assert [c][1..] == [] && [] + [c] == [c];
      assert Walk(kids, [c], f) == [c] + Walk(kids, kids[c], f - 1) + Walk(kids, [], f);
    } else {
      assert (a + [c])[1..] == a[1..] + [c];
      WalkAppend(kids, a[1..], c, f);
    }
  }

  /** The JSON document holds the walk, parents before children: each rooted span once, none twice. */
  lemma {:induction false} DocIsWalk(kids: seq<seq<nat>>, x: nat, f: nat)
    requires x < |kids| && InRange(kids)
    ensures Flatten(Doc(kids, x, f)) == [x] + Walk(kids, kids[x], f)
    decreases f, 1
  {
    hide Walk, FlattenAll, Docs;
    if f > 0 {
      DocsAreWalk(kids, kids[x], f - 1);
    } else {
      NothingBelow(kids, kids[x]);
    }
  }

  lemma NothingBelow(kids: seq<seq<nat>>, cs: seq<nat>)
    ensures Walk(kids, cs, 0) == [] == FlattenAll([])
  {
  }

  lemma {:induction false} DocsAreWalk(kids: seq<seq<nat>>, cs: seq<nat>, f: nat)
    requires InRange(kids) && AllBelow(cs, |kids|)
    ensures FlattenAll(Docs(kids, cs, f)) == Walk(kids, cs, f + 1)
    decreases f, 2, |cs|
  {
    hide Flatten, Doc;
    if cs != [] {
      var front, last := cs[..|cs| - 1], cs[|cs| - 1];
      assert cs == front + [last];
      DocsAreWalk(kids, front, f);
      DocIsWalk(kids, last, f);
      FlattenAppend(Docs(kids, front, f), Doc(kids, last, f));
      WalkAppend(kids, front, last, f + 1);
    }
  }

  // --------------------------------------------------------------- rendering

  /** A line of the drawing: where it is indented under, whether it is the last there, and what it shows. */
  datatype Line = Entry(prefix: seq<bool>, last: bool, node: nat) | Truncated(prefix: seq<bool>)

  function Lines(kids: seq<seq<nat>>, cs: seq<nat>, m: nat, prefix: seq<bool>, f: nat): seq<Line>
    requires m <= |cs|
    decreases f, |cs| - m
  {
    if f == 0 then [Truncated(prefix)]
    else if m == |cs| then []
    else
      var last := m == |cs| - 1;
      [Entry(prefix, last, cs[m])]
      + (if cs[m] < |kids| then Lines(kids, kids[cs[m]], 0, prefix + [last], f - 1) else [])
      + Lines(kids, cs, m + 1, prefix, f)
  }

  method RenderChildren(kids: array<seq<nat>>, cs: seq<nat>, prefix: seq<bool>, depth: nat) returns (out: seq<Line>)
    requires InRange(kids[..]) && AllBelow(cs, kids.Length) && depth <= MAX_TREE_DEPTH
    ensures out == Lines(kids[..], cs, 0, prefix, 1000 - depth)
    decreases MAX_TREE_DEPTH - depth
  {
    hide Lines;
    LinesFirst(kids[..], cs, 0, prefix, MAX_TREE_DEPTH - depth);
    if depth >= MAX_TREE_DEPTH {
      return [Truncated(prefix)];
    }
    out := [];
    var f := MAX_TREE_DEPTH - depth;
    ghost var all := Lines(kids[..], cs, 0, prefix, f);
    Assoc<Line>([], [], all);
    for m := 0 to |cs|
      invariant out + Lines(kids[..], cs, m, prefix, f) == all
    {
      var last := m == |cs| - 1;
      var c := cs[m];
      assert kids[c] == kids[..][c];
      LinesFirst(kids[..], cs, m, prefix, f);
      var below := RenderChildren(kids, kids[c], prefix + [last], depth + 1);
      RenderStep(out, Entry(prefix, last, c), below, Lines(kids[..], cs, m + 1, prefix, f));
      out := out + [Entry(prefix, last, c)] + below;
    }
    LinesFirst(kids[..], cs, |cs|, prefix, f);
    Assoc(out, [], []);
  }

  lemma RenderStep(out: seq<Line>, entry: Line, below: seq<Line>, rest: seq<Line>)
    ensures out + [entry] + below + rest == out + ([entry] + below + rest)
  {
  }

  function Shown(lines: seq<Line>): seq<nat> {
    if lines == [] then []
    else (if lines[0].Entry? then [lines[0].node] else []) + Shown(lines[1..])
  }

  lemma ShownCons(l: Line, rest: seq<Line>)
    ensures Shown([l] + rest) == (if l.Entry? then [l.node] else []) + Shown(rest)
  {
    assert ([l] + rest)[1..] == rest;
  }

  lemma {:induction false} ShownAppend(a: seq<Line>, b: seq<Line>)
    ensures Shown(a + b) == Shown(a) + Shown(b)
    decreases |a|
  {
    hide Shown;
    if a == [] {
      assert a + b == b;
      ShownNothing();
    } else {
      FirstThenRest(a, b);
      ShownAppend(a[1..], b);
      ShownCons(a[0], a[1..]);
      ShownCons(a[0], a[1..] + b);
    }
  }

  lemma ShownNothing()
    ensures Shown([]) == []
  {
  }

  lemma FirstThenRest(a: seq<Line>, b: seq<Line>)
    requires a != []
    ensures a == [a[0]] + a[1..] && a + b == [a[0]] + (a[1..] + b)
  {
  }

  /** The drawing shows the walk as well, down to the same depth. */
  lemma {:induction false} LinesShowWalk(kids: seq<seq<nat>>, cs: seq<nat>, m: nat, prefix: seq<bool>, f: nat)
    requires m <= |cs|
    ensures Shown(Lines(kids, cs, m, prefix, f)) == Walk(kids, cs[m..], f)
    decreases f, |cs| - m
  {
    hide Walk, Lines, Shown;
    LinesFirst(kids, cs, m, prefix, f);
    if f > 0 && m < |cs| {
      var last, c := m == |cs| - 1, cs[m];
      var below := if c < |kids| then Lines(kids, kids[c], 0, prefix + [last], f - 1) else [];
      var rest := Lines(kids, cs, m + 1, prefix, f);
      LinesShowWalk(kids, cs, m + 1, prefix, f);
      if c < |kids| {
        LinesShowWalk(kids, kids[c], 0, prefix + [last], f - 1);
        FromStart(kids[c]);
      }
      WalkFrom(kids, cs, m, f);
      ShownPieces(prefix, last, c, below, rest);
    }
  }

  lemma FromStart(s: seq<nat>)
    ensures s[0..] == s
  {
  }

  lemma LinesFirst(kids: seq<seq<nat>>, cs: seq<nat>, m: nat, prefix: seq<bool>, f: nat)
    requires m <= |cs|
    ensures f == 0 ==> Lines(kids, cs, m, prefix, f) == [Truncated(prefix)]
    ensures f > 0 && m == |cs| ==> Lines(kids, cs, m, prefix, f) == []
    ensures f == 0 || m == |cs| ==> Shown(Lines(kids, cs, m, prefix, f)) == [] == Walk(kids, cs[m..], f)
    ensures f > 0 && m < |cs| ==>
      var last := m == |cs| - 1;
      Lines(kids, cs, m, prefix, f) == [Entry(prefix, last, cs[m])]
        + (if cs[m] < |kids| then Lines(kids, kids[cs[m]], 0, prefix + [last], f - 1) else [])
        + Lines(kids, cs, m + 1, prefix, f)
  {
    if f == 0 {
      assert Shown([Truncated(prefix)]) == [] + Shown([]);
    }
  }

  lemma WalkFrom(kids: seq<seq<nat>>, cs: seq<nat>, m: nat, f: nat)
    requires m < |cs| && f > 0
    ensures Walk(kids, cs[m..], f)
         == [cs[m]] + (if cs[m] < |kids| then Walk(kids, kids[cs[m]], f - 1) else []) + Walk(kids, cs[m + 1..], f)
  {
    assert cs[m..][1..] == cs[m + 1..];
  }

  lemma ShownPieces(prefix: seq<bool>, last: bool, c: nat, below: seq<Line>, rest: seq<Line>)
    ensures Shown([Entry(prefix, last, c)] + below + rest) == [c] + Shown(below) + Shown(rest)
    ensures Shown([]) == []
  {
    ShownAppend([Entry(prefix, last, c)] + below, rest);
    ShownAppend([Entry(prefix, last, c)], below);
    assert Shown([Entry(prefix, last, c)]) == [c] + Shown([]);
  }

  // ------------------------------------------------------------ what is where

  /** A path goes down from a list: first by an index into the list, then by one into the list of that child, and on. */
  predicate Leads(kids: seq<seq<nat>>, cs: seq<nat>, path: seq<nat>)
    requires InRange(kids) && AllBelow(cs, |kids|)
    decreases |path|
  {
    path == [] || (path[0] < |cs| && Leads(kids, kids[cs[path[0]]], path[1..]))
  }

  function End(kids: seq<seq<nat>>, cs: seq<nat>, path: seq<nat>): nat
    requires InRange(kids) && AllBelow(cs, |kids|) && Leads(kids, cs, path) && path != []
    decreases |path|
  {
    if |path| == 1 then cs[path[0]] else End(kids, kids[cs[path[0]]], path[1..])
  }

  /** For each step of a path, whether it goes to the last of a list. */
  function Lasts(kids: seq<seq<nat>>, cs: seq<nat>, path: seq<nat>): (r: seq<bool>)
    requires InRange(kids) && AllBelow(cs, |kids|) && Leads(kids, cs, path)
    ensures |r| == |path|
    decreases |path|
  {
    if path == [] then [] else [path[0] == |cs| - 1] + Lasts(kids, kids[cs[path[0]]], path[1..])
  }

  /** The node of a document to which a path of child positions goes. */
  function At(jn: JsonNode, path: seq<nat>): Option<JsonNode>
    decreases |path|
  {
    if path == [] then Some(jn)
    else if path[0] < |jn.children| then At(jn.children[path[0]], path[1..])
    else None
  }

  lemma {:induction false} DocsInOrder(kids: seq<seq<nat>>, cs: seq<nat>, f: nat)
    requires InRange(kids) && AllBelow(cs, |kids|)
    ensures |Docs(kids, cs, f)| == |cs| && forall m :: 0 <= m < |cs| ==> Docs(kids, cs, f)[m] == Doc(kids, cs[m], f)
    decreases |cs|
  {
    hide Doc;
    if cs != [] { DocsInOrder(kids, cs[..|cs| - 1], f); }
  }

  /** In the document each path down the lists, as far as the depth cap, leads to the span it leads to there; no other does. */
  lemma {:induction false} DocNests(kids: seq<seq<nat>>, x: nat, f: nat, path: seq<nat>)
    requires x < |kids| && InRange(kids)
    ensures At(Doc(kids, x, f), path).Some? <==> |path| <= f && Leads(kids, kids[x], path)
    ensures At(Doc(kids, x, f), path).Some? ==>
      At(Doc(kids, x, f), path).value.node == if path == [] then x else End(kids, kids[x], path)
    decreases |path|
  {
    hide Docs;
    if path != [] && f > 0 {
      DocsInOrder(kids, kids[x], f - 1);
      if path[0] < |kids[x]| {
        DocNests(kids, kids[x][path[0]], f - 1, path[1..]);
      }
    }
  }

  /** Every span in the document is nested in its parent. */
  lemma {:induction false} NestedInParent(spans: seq<Span>, kids: seq<seq<nat>>, x: nat, f: nat, path: seq<nat>)
    requires Hangs(spans, kids) && InRange(kids) && x < |kids| && path != []
    requires At(Doc(kids, x, f), path).Some?
    ensures At(Doc(kids, x, f), path[..|path| - 1]).Some? && At(Doc(kids, x, f), path).value.node < |spans|
    ensures ParentOf(spans, At(Doc(kids, x, f), path).value.node) == At(Doc(kids, x, f), path[..|path| - 1]).value.node
    decreases |path|
  {
    hide Docs, ParentOf;
    DocNests(kids, x, f, path);
    DocsInOrder(kids, kids[x], f - 1);
    var c := kids[x][path[0]];
    assert c in kids[x] && HangsAt(spans, x, kids[x]);
    if |path| > 1 {
      NestedInParent(spans, kids, c, f - 1, path[1..]);
      assert path[1..][..|path| - 2] == path[..|path| - 1][1..];
    }
  }

  /** Each line of the drawing stands for a path: the indentation tells which steps of it went to the last of a list. */
  lemma {:induction false} LinesHang(kids: seq<seq<nat>>, cs: seq<nat>, m: nat, prefix: seq<bool>, f: nat, line: Line)
    returns (path: seq<nat>)
    requires InRange(kids) && AllBelow(cs, |kids|) && m <= |cs| && line in Lines(kids, cs, m, prefix, f)
    ensures |path| <= f && Leads(kids, cs, path) && (path != [] ==> path[0] >= m)
    ensures line.Entry? ==> path != [] && line.node == End(kids, cs, path)
    ensures line.Entry? ==> line.prefix + [line.last] == prefix + Lasts(kids, cs, path)
    ensures line.Truncated? ==> |path| == f && line.prefix == prefix + Lasts(kids, cs, path)
    decreases f, |cs| - m
  {
    hide Lines;
    LinesFirst(kids, cs, m, prefix, f);
    if f == 0 {
      path := [];
    } else if m < |cs| {
      var last, c := m == |cs| - 1, cs[m];
      if line == Entry(prefix, last, c) {
        path := [m];
        StepThen(kids, cs, m, []);
        OneStep(prefix, last);
      } else if line in Lines(kids, cs, m + 1, prefix, f) {
        path := LinesHang(kids, cs, m + 1, prefix, f, line);
      } else {
        var below := LinesHang(kids, kids[c], 0, prefix + [last], f - 1, line);
        path := [m] + below;
        StepThen(kids, cs, m, below);
        LastsSplit(prefix, last, Lasts(kids, kids[c], below));
      }
    }
  }

  lemma OneStep(prefix: seq<bool>, last: bool)
    ensures prefix + ([last] + []) == prefix + [last]
  {
  }

  lemma StepThen(kids: seq<seq<nat>>, cs: seq<nat>, m: nat, below: seq<nat>)
    requires InRange(kids) && AllBelow(cs, |kids|) && m < |cs| && Leads(kids, kids[cs[m]], below)
    ensures Leads(kids, cs, [m] + below)
    ensures Lasts(kids, cs, [m] + below) == [m == |cs| - 1] + Lasts(kids, kids[cs[m]], below)
    ensures End(kids, cs, [m] + below) == if below == [] then cs[m] else End(kids, kids[cs[m]], below)
  {
    assert ([m] + below)[1..] == below;
  }

  /** And each path has its line: the span it leads to, and past the depth cap the mark that something was cut. */
  lemma {:induction false} EveryPathIsDrawn(kids: seq<seq<nat>>, cs: seq<nat>, m: nat, prefix: seq<bool>, f: nat, path: seq<nat>)
    requires InRange(kids) && AllBelow(cs, |kids|) && m <= |cs|
    requires |path| <= f && Leads(kids, cs, path) && (path != [] ==> path[0] >= m)
    ensures |path| == f ==> Truncated(prefix + Lasts(kids, cs, path)) in Lines(kids, cs, m, prefix, f)
    ensures path != [] ==>
      var lasts := Lasts(kids, cs, path);
      Entry(prefix + lasts[..|path| - 1], lasts[|path| - 1], End(kids, cs, path)) in Lines(kids, cs, m, prefix, f)
    decreases f, |cs| - m
  {
    hide Lines;
    LinesFirst(kids, cs, m, prefix, f);
    if path == [] {
      assert prefix + Lasts(kids, cs, path) == prefix;
    } else if path[0] > m {
      EveryPathIsDrawn(kids, cs, m + 1, prefix, f, path);
    } else {
      var c, last := cs[m], m == |cs| - 1;
      var below := Lasts(kids, kids[c], path[1..]);
      EveryPathIsDrawn(kids, kids[c], 0, prefix + [last], f - 1, path[1..]);
      LastsSplit(prefix, last, below);
      assert Lasts(kids, cs, path) == [last] + below;
      assert End(kids, cs, path) == if |path| == 1 then c else End(kids, kids[c], path[1..]);
    }
  }

  lemma LastsSplit(prefix: seq<bool>, last: bool, lasts: seq<bool>)
    ensures prefix + ([last] + lasts) == prefix + [last] + lasts
    ensures lasts != [] ==>
      && prefix + ([last] + lasts)[..|lasts|] == prefix + [last] + lasts[..|lasts| - 1]
      && ([last] + lasts)[|lasts|] == lasts[|lasts| - 1]
    ensures prefix + ([last] + lasts)[..0] == prefix
  {
    if lasts != [] {
      assert ([last] + lasts)[..|lasts|] == [last] + lasts[..|lasts| - 1];
    }
  }

  /** x comes before place k of s. */
  predicate Before(s: seq<nat>, x: nat, k: nat)
    requires k <= |s|
  {
    x in s[..k]
  }

  lemma BeforeLater(front: seq<nat>, s: seq<nat>, back: seq<nat>, x: nat, k: nat)
    requires k < |s|
    ensures (front + s + back)[|front| + k] == s[k]
    ensures Before(s, x, k) ==> Before(front + s + back, x, |front| + k)
    ensures x in front ==> Before(front + s + back, x, |front| + k)
  {
    var all := front + s + back;
    assert all[..|front| + k] == front + s[..k];
  }

  /** In a walk every span comes after its parent, those that it starts from aside. */
  lemma {:induction false} ParentsFirst(spans: seq<Span>, kids: seq<seq<nat>>, cs: seq<nat>, f: nat, k: nat)
    requires Hangs(spans, kids) && k < |Walk(kids, cs, f)| && Walk(kids, cs, f)[k] < |spans|
    ensures Walk(kids, cs, f)[k] in cs || Before(Walk(kids, cs, f), ParentOf(spans, Walk(kids, cs, f)[k]), k)
    decreases f, |cs|
  {
    hide ParentOf, Walk, Before, Hangs;
    if f == 0 || cs == [] {
      NoWalk(spans, kids, cs, f, 0);
    } else {
      var c := cs[0];
      var below := if c < |kids| then Walk(kids, kids[c], f - 1) else [];
      var rest := Walk(kids, cs[1..], f);
      var i := Walk(kids, cs, f)[k];
      WalkParts(kids, cs, f);
      if 0 < k <= |below| {
        BeforeLater([c], below, rest, ParentOf(spans, i), k - 1);
        ParentsFirst(spans, kids, kids[c], f - 1, k - 1);
        if i in kids[c] { ListedUnder(spans, kids, c, i); }
      } else if k > 0 {
        BeforeLater([c] + below, rest, [], ParentOf(spans, i), k - 1 - |below|);
        assert [c] + below + rest + [] == [c] + below + rest;
        ParentsFirst(spans, kids, cs[1..], f, k - 1 - |below|);
      }
    }
  }

  lemma ListedUnder(spans: seq<Span>, kids: seq<seq<nat>>, c: nat, i: nat)
    requires Hangs(spans, kids) && c < |kids| && i in kids[c]
    ensures i < |spans| && ParentOf(spans, i) == c
  {
    assert HangsAt(spans, c, kids[c]);
  }

  lemma WalkParts(kids: seq<seq<nat>>, cs: seq<nat>, f: nat)
    requires f > 0 && cs != []
    ensures Walk(kids, cs, f)
         == [cs[0]] + (if cs[0] < |kids| then Walk(kids, kids[cs[0]], f - 1) else []) + Walk(kids, cs[1..], f)
    ensures Walk(kids, cs, f)[0] == cs[0]
  {
  }

  /** And those it starts from come in their order. */
  lemma {:induction false} InListOrder(kids: seq<seq<nat>>, cs: seq<nat>, f: nat, m: nat, n: nat) returns (j: nat, k: nat)
    requires f > 0 && m < n < |cs|
    ensures j < k < |Walk(kids, cs, f)| && Walk(kids, cs, f)[j] == cs[m] && Walk(kids, cs, f)[k] == cs[n]
    decreases n
  {
    hide Walk;
    var below := if cs[0] < |kids| then Walk(kids, kids[cs[0]], f - 1) else [];
    var rest := Walk(kids, cs[1..], f);
    WalkParts(kids, cs, f);
    WalkParts(kids, cs[1..], f);
    if m > 0 {
      j, k := InListOrder(kids, cs[1..], f, m - 1, n - 1);
      j, k := j + 1 + |below|, k + 1 + |below|;
    } else if n > 1 {
      j, k := InListOrder(kids, cs[1..], f, 0, n - 1);
      j, k := 0, k + 1 + |below|;
    } else {
      assert rest[0] == cs[1];
      j, k := 0, 1 + |below|;
    }
  }
}

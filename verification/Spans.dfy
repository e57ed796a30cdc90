/** Captured command spans and their order in time. */
module Spans {
  import opened Text
  import opened Sorting

  datatype Span = Span(id: string, parent: string, cmd: string, start: int, end: int, exit: int, depth: int)

  predicate Valid(s: Span) {
    s.id != "" && s.start > 0 && s.end >= s.start && s.depth >= 0
  }

  /** By start time, ties by id. */
  predicate NotAfter(a: Span, b: Span) {
    if a.start != b.start then a.start < b.start else StrLe(a.id, b.id)
  }

  const CHRON: (Span, Span) -> bool := (a, b) => NotAfter(a, b)

  lemma ChronIsPreorder()
    ensures Preorder(CHRON)
  {
    forall a: Span, b: Span ensures NotAfter(a, b) || NotAfter(b, a) {
      StrLeTotal(a.id, b.id);
    }
    forall a: Span, b: Span, c: Span | NotAfter(a, b) && NotAfter(b, c) ensures NotAfter(a, c) {
      if a.start == b.start == c.start { StrLeTransitive(a.id, b.id, c.id); }
    }
  }

  function OnlyValid(spans: seq<Span>): seq<Span> {
    if spans == [] then []
    else
      var last := spans[|spans| - 1];
      OnlyValid(spans[..|spans| - 1]) + if Valid(last) then [last] else []
  }

  lemma {:induction false} OnlyValidCounts(spans: seq<Span>, s: Span)
    ensures multiset(OnlyValid(spans))[s] == if Valid(s) then multiset(spans)[s] else 0
    decreases |spans|
  {
    if spans != [] {
      OnlyValidCounts(spans[..|spans| - 1], s);
      assert spans == spans[..|spans| - 1] + [spans[|spans| - 1]];
    }
  }

  /** The usable spans in order of time; the input is left alone. */
  method ValidSorted(spans: seq<Span>) returns (out: seq<Span>)
    ensures out == Sort(OnlyValid(spans), CHRON)
    ensures InTime(out)
    ensures forall s :: s in out <==> s in spans && s.id != "" && s.start > 0 && s.end >= s.start && s.depth >= 0
    ensures forall s :: multiset(out)[s] == if Valid(s) then multiset(spans)[s] else 0
    ensures forall i, j :: 0 <= i < j < |out| && out[i].start == out[j].start ==> StrLe(out[i].id, out[j].id)
  {
    out := [];
    for i := 0 to |spans|
      invariant out == OnlyValid(spans[..i])
      invariant forall s :: s in out <==> s in spans[..i] && Valid(s)
    {
      assert spans[..i + 1][..i] == spans[..i] && spans[..i + 1] == spans[..i] + [spans[i]];
      if Valid(spans[i]) {
        out := out + [spans[i]];
      }
    }
    assert spans[..|spans|] == spans;
    ghost var kept := out;
    forall s ensures multiset(kept)[s] == if Valid(s) then multiset(spans)[s] else 0 {
      OnlyValidCounts(spans, s);
    }
    out := Sort(out, CHRON);
    SortedInTime(kept);
    SortPermutes(kept, CHRON);
    SameElements(out, kept);
  }

  predicate InTime(spans: seq<Span>) {
    forall i, j :: 0 <= i < j < |spans| ==> spans[i].start <= spans[j].start
  }

  lemma SortedInTime(spans: seq<Span>)
    ensures InTime(Sort(spans, CHRON))
    ensures var r := Sort(spans, CHRON);
            forall i, j :: 0 <= i < j < |r| && r[i].start == r[j].start ==> StrLe(r[i].id, r[j].id)
  {
    hide Sort, Preorder;
    ChronIsPreorder();
    SortSorted(spans, CHRON);
    var r := Sort(spans, CHRON);
    forall i, j | 0 <= i < j < |r|
      ensures r[i].start <= r[j].start && (r[i].start == r[j].start ==> StrLe(r[i].id, r[j].id))
    {
      assert CHRON(r[i], r[j]);
    }
  }
}

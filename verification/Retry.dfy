/** Retry loops: the same command again and again, each time soon after the last. */
module Retry {
  import opened Common
  import opened Text
  import opened Sorting
  import opened Spans

  function NormalizeCmd(cmd: string): string {
    Join(Fields(cmd), " ")
  }

  /** Two commands are taken for the same exactly when they have the same words, and the form shown is stable. */
  lemma SameNormSameWords(a: string, b: string)
    ensures NormalizeCmd(a) == NormalizeCmd(b) <==> Fields(a) == Fields(b)
    ensures NormalizeCmd(NormalizeCmd(a)) == NormalizeCmd(a)
  {
    FieldsOfJoin(Fields(a));
    FieldsOfJoin(Fields(b));
  }

  // ------------------------------------------------------------------- groups

  datatype Group = Group(norm: string, spans: seq<Span>)

  /** The spans of one command, in the order of the input. */
  function OfNorm(spans: seq<Span>, norm: string): seq<Span> {
    if spans == [] then []
    else
      var last := spans[|spans| - 1];
      OfNorm(spans[..|spans| - 1], norm) + if NormalizeCmd(last.cmd) == norm then [last] else []
  }

  lemma OfNormSnoc(spans: seq<Span>, i: nat, norm: string)
    requires i < |spans|
    ensures OfNorm(spans[..i + 1], norm)
         == OfNorm(spans[..i], norm) + if NormalizeCmd(spans[i].cmd) == norm then [spans[i]] else []
  {
    assert spans[..i + 1][..i] == spans[..i];
  }

  lemma {:induction false} OfNormMembers(spans: seq<Span>, norm: string)
    ensures forall s :: s in OfNorm(spans, norm) <==> s in spans && NormalizeCmd(s.cmd) == norm
    decreases |spans|
  {
    hide NormalizeCmd;
    if spans != [] {
      OfNormMembers(spans[..|spans| - 1], norm);
      assert spans == spans[..|spans| - 1] + [spans[|spans| - 1]];
    }
  }

  lemma {:induction false} OfNormInTime(spans: seq<Span>, norm: string)
    requires InTime(spans)
    ensures InTime(OfNorm(spans, norm))
    decreases |spans|
  {
    hide NormalizeCmd;
    if spans != [] {
      var front, last := spans[..|spans| - 1], spans[|spans| - 1];
      OfNormInTime(front, norm);
      OfNormMembers(front, norm);
      forall s | s in OfNorm(front, norm) ensures s.start <= last.start {
        var k :| 0 <= k < |front| && front[k] == s;
        assert spans[k] == s;
      }
    }
  }

  /** One group a command, holding all of that command's spans, and no command left out. */
  ghost predicate Grouped(groups: seq<Group>, spans: seq<Span>) {
    && (forall g :: g in groups ==> g.spans == OfNorm(spans, g.norm) && g.spans != [])
    && (forall i, j :: 0 <= i < j < |groups| ==> groups[i].norm != groups[j].norm)
    && (forall s :: s in spans ==> exists g :: g in groups && g.norm == NormalizeCmd(s.cmd))
  }

  const BY_NORM: (Group, Group) -> bool := (a: Group, b: Group) => StrLe(a.norm, b.norm)

  lemma NormIsPreorder()
    ensures Preorder(BY_NORM)
  {
    forall a: Group, b: Group ensures StrLe(a.norm, b.norm) || StrLe(b.norm, a.norm) {
      StrLeTotal(a.norm, b.norm);
    }
    forall a: Group, b: Group, c: Group | StrLe(a.norm, b.norm) && StrLe(b.norm, c.norm) ensures StrLe(a.norm, c.norm) {
      StrLeTransitive(a.norm, b.norm, c.norm);
    }
  }

  ghost predicate Indexed(idx: map<string, nat>, groups: seq<Group>) {
    && (forall n :: n in idx ==> idx[n] < |groups| && groups[idx[n]].norm == n)
    && (forall i :: 0 <= i < |groups| ==> groups[i].norm in idx && idx[groups[i].norm] == i)
  }

  ghost predicate GroupsOf(groups: seq<Group>, idx: map<string, nat>, spans: seq<Span>) {
    && (forall i :: 0 <= i < |groups| ==> groups[i].spans == OfNorm(spans, groups[i].norm) && groups[i].spans != [])
    && (forall s :: s in spans ==> NormalizeCmd(s.cmd) in idx)
  }

  lemma NoneOfNorm(spans: seq<Span>, norm: string)
    requires forall s :: s in spans ==> NormalizeCmd(s.cmd) != norm
    ensures OfNorm(spans, norm) == []
  {
    OfNormMembers(spans, norm);
    assert forall s :: s !in OfNorm(spans, norm);
  }

  method GroupByNormalized(spans: seq<Span>) returns (groups: seq<Group>)
    ensures Grouped(groups, spans) && Sorted(groups, BY_NORM)
  {
    hide NormalizeCmd, OfNorm, Sort, Preorder;
    var idx: map<string, nat> := map[];
    groups := [];
    for k := 0 to |spans|
      invariant Indexed(idx, groups) && GroupsOf(groups, idx, spans[..k])
    {
      var n := NormalizeCmd(spans[k].cmd);
      forall m ensures OfNorm(spans[..k + 1], m) == OfNorm(spans[..k], m) + if n == m then [spans[k]] else [] {
        OfNormSnoc(spans, k, m);
      }
      assert spans[..k + 1] == spans[..k] + [spans[k]];
      if n !in idx {
        NoneOfNorm(spans[..k], n);
        idx := idx[n := |groups|];
        groups := groups + [Group(n, [spans[k]])];
      } else {
        var i := idx[n];
        groups := groups[i := Group(n, groups[i].spans + [spans[k]])];
      }
    }
    assert spans[..|spans|] == spans;
    ghost var made := groups;
    groups := Sort(groups, BY_NORM);
    NormIsPreorder();
    SortSorted(made, BY_NORM);
    SortPermutes(made, BY_NORM);
    RegroupedSame(made, groups, idx, spans);
  }

  lemma RegroupedSame(made: seq<Group>, groups: seq<Group>, idx: map<string, nat>, spans: seq<Span>)
    requires Indexed(idx, made) && GroupsOf(made, idx, spans) && multiset(groups) == multiset(made)
    ensures Grouped(groups, spans)
  {
    hide NormalizeCmd, OfNorm;
    SameElements(groups, made);
    forall i, j | 0 <= i < j < |groups| ensures groups[i].norm != groups[j].norm {
      if groups[i].norm == groups[j].norm {
        var n := groups[i].norm;
        assert groups[i] in made && groups[j] in made;
        assert groups[i] == made[idx[n]] == groups[j];
        TwiceIn(groups, i, j);
        OnceIn(made, idx, idx[n]);
        assert false;
      }
    }
    forall s | s in spans ensures exists g :: g in groups && g.norm == NormalizeCmd(s.cmd) {
      assert made[idx[NormalizeCmd(s.cmd)]] in groups;
    }
  }

  lemma OnceIn(made: seq<Group>, idx: map<string, nat>, i: nat)
    requires Indexed(idx, made) && i < |made|
    ensures multiset(made)[made[i]] <= 1
  {
    assert made == made[..i] + [made[i]] + made[i + 1..];
    assert made[i] !in made[..i] && made[i] !in made[i + 1..];
  }

  // --------------------------------------------------------------------- runs

  /** Where the run that goes on at j ends. */
  function RunEnd(gs: seq<Span>, j: nat, window: int): (r: nat)
    requires 0 < j <= |gs|
    ensures j <= r <= |gs| && (r < |gs| ==> gs[r].start - gs[r - 1].start > window)
    ensures forall k :: j <= k < r ==> gs[k].start - gs[k - 1].start <= window
    decreases |gs| - j
  {
    if j == |gs| || gs[j].start - gs[j - 1].start > window then j else RunEnd(gs, j + 1, window)
  }

  function RunsFrom(gs: seq<Span>, i: nat, window: int): seq<seq<Span>>
    requires i <= |gs|
    decreases |gs| - i
  {
    if i == |gs| then []
    else
      var j := RunEnd(gs, i + 1, window);
      [gs[i..j]] + RunsFrom(gs, j, window)
  }

  function Runs(gs: seq<Span>, window: int): seq<seq<Span>> {
    RunsFrom(gs, 0, window)
  }

  predicate Close(run: seq<Span>, window: int) {
    forall k :: 0 <= k < |run| - 1 ==> run[k + 1].start - run[k].start <= window
  }

  predicate Apart(a: seq<Span>, b: seq<Span>, window: int) {
    a != [] && b != [] && b[0].start - a[|a| - 1].start > window
  }

  /** A way of cutting gs into runs: all of it, each run close together, neighbours too far apart to be one. */
  ghost predicate CutsInto(gs: seq<Span>, runs: seq<seq<Span>>, window: int) {
    && Concat(runs) == gs
    && (forall r :: r in runs ==> r != [] && Close(r, window))
    && (forall k :: 0 <= k < |runs| - 1 ==> Apart(runs[k], runs[k + 1], window))
  }

  lemma CloseSlice(gs: seq<Span>, i: nat, j: nat, window: int)
    requires i < j <= |gs| && forall k :: i + 1 <= k < j ==> gs[k].start - gs[k - 1].start <= window
    ensures Close(gs[i..j], window)
  {
    forall k | 0 <= k < j - i - 1 ensures gs[i..j][k + 1].start - gs[i..j][k].start <= window {
      assert gs[(i + k + 1)].start - gs[(i + k + 1) - 1].start <= window;
    }
  }

  lemma CutCons(run: seq<Span>, rest: seq<Span>, runs: seq<seq<Span>>, window: int)
    requires CutsInto(rest, runs, window) && run != [] && Close(run, window)
    requires runs != [] ==> Apart(run, runs[0], window)
    ensures CutsInto(run + rest, [run] + runs, window)
  {
    hide Close, Apart;
    var all := [run] + runs;
    assert all[1..] == runs;
    forall k | 0 <= k < |all| - 1 ensures Apart(all[k], all[k + 1], window) {
      assert all[k + 1] == runs[k];
      if k > 0 { assert all[k] == runs[k - 1] && Apart(runs[k - 1], runs[(k - 1) + 1], window); }
    }
  }

  lemma {:induction false} RunsCut(gs: seq<Span>, i: nat, window: int)
    requires i <= |gs|
    ensures CutsInto(gs[i..], RunsFrom(gs, i, window), window)
    ensures i < |gs| ==> RunsFrom(gs, i, window) != []
    ensures RunsFrom(gs, i, window) != [] ==> i < |gs| && RunsFrom(gs, i, window)[0] != [] && RunsFrom(gs, i, window)[0][0] == gs[i]
    decreases |gs| - i
  {
    if i < |gs| {
      var j := RunEnd(gs, i + 1, window);
      RunsCut(gs, j, window);
      CloseSlice(gs, i, j, window);
      JoinSlices(gs, i, j);
      hide Close, CutsInto;
      CutCons(gs[i..j], gs[j..], RunsFrom(gs, j, window), window);
    }
  }

  lemma JoinSlices(gs: seq<Span>, i: nat, j: nat)
    requires i < j <= |gs|
    ensures gs[i..] == gs[i..j] + gs[j..] && gs[i..j][0] == gs[i] && gs[i..j][j - i - 1] == gs[j - 1]
  {
  }

  lemma CutTail(gs: seq<Span>, runs: seq<seq<Span>>, window: int)
    requires CutsInto(gs, runs, window) && runs != []
    ensures runs[0] <= gs && runs[0] != [] && Close(runs[0], window)
    ensures gs == runs[0] + gs[|runs[0]|..]
    ensures CutsInto(gs[|runs[0]|..], runs[1..], window)
    ensures |runs[0]| < |gs| ==> gs[|runs[0]|].start - gs[|runs[0]| - 1].start > window
  {
    hide Close;
    var tail := runs[1..];
    assert runs[0] in runs;
    assert gs == runs[0] + Concat(tail) && gs[|runs[0]|..] == Concat(tail);
    forall k | 0 <= k < |tail| - 1 ensures Apart(tail[k], tail[k + 1], window) {
      assert tail[k] == runs[k + 1] && Apart(runs[k + 1], runs[(k + 1) + 1], window);
    }
    assert forall r :: r in tail ==> r in runs;
    if tail != [] {
      assert Apart(runs[0], runs[0 + 1], window);
      assert Concat(tail) == tail[0] + Concat(tail[1..]);
      assert gs[|runs[0]|] == tail[0][0];
    }
  }

  lemma CloseStep(run: seq<Span>, window: int, k: nat)
    requires Close(run, window) && 0 < k < |run|
    ensures run[k].start - run[k - 1].start <= window
  {
    assert run[(k - 1) + 1].start - run[k - 1].start <= window;
  }

  /** The runs are the maximal ones: there is only one way of cutting. */
  lemma {:induction false} OneCut(gs: seq<Span>, a: seq<seq<Span>>, b: seq<seq<Span>>, window: int)
    requires CutsInto(gs, a, window) && CutsInto(gs, b, window)
    ensures a == b
    decreases |gs|
  {
    hide CutsInto, Close;
    if a == [] || b == [] {
      EmptyCut(gs, a, window);
      EmptyCut(gs, b, window);
    } else {
      CutTail(gs, a, window);
      CutTail(gs, b, window);
      FirstRunsAgree(gs, |a[0]|, b[0], window);
      FirstRunsAgree(gs, |b[0]|, a[0], window);
      OneCut(gs[|a[0]|..], a[1..], b[1..], window);
      assert a == [a[0]] + a[1..] && b == [b[0]] + b[1..];
    }
  }

  lemma FirstRunsAgree(gs: seq<Span>, m: nat, run: seq<Span>, window: int)
    requires 0 < m <= |gs| && run <= gs && Close(run, window)
    requires m < |gs| ==> gs[m].start - gs[m - 1].start > window
    ensures |run| <= m
  {
    if m < |run| {
      CloseStep(run, window, m);
      assert false;
    }
  }

  lemma EmptyCut(gs: seq<Span>, runs: seq<seq<Span>>, window: int)
    requires CutsInto(gs, runs, window)
    ensures runs == [] <==> gs == []
  {
    if runs != [] {
      assert runs[0] in runs;
    }
  }

  /** No stretch of close neighbours reaches over the end of a run. */
  lemma {:induction false} StretchInOneRun(gs: seq<Span>, runs: seq<seq<Span>>, window: int, p: nat, q: nat) returns (k: nat)
    requires CutsInto(gs, runs, window) && p < q <= |gs| && Close(gs[p..q], window)
    ensures k < |runs| && |Concat(runs[..k])| <= p && q <= |Concat(runs[..k + 1])|
    decreases |runs|
  {
    hide CutsInto;
    EmptyCut(gs, runs, window);
    CutTail(gs, runs, window);
    var n := |runs[0]|;
    if p < n {
      if n < q {
        CloseStep(gs[p..q], window, n - p);
        assert false;
      }
      k := 0;
      assert runs[..1] == [runs[0]] && Concat([runs[0]]) == runs[0] + Concat<Span>([]);
    } else {
      assert gs[n..][p - n..q - n] == gs[p..q];
      k := StretchInOneRun(gs[n..], runs[1..], window, p - n, q - n);
      assert runs[..k + 1] == [runs[0]] + runs[1..][..k] && runs[..k + 2] == [runs[0]] + runs[1..][..k + 1];
      k := k + 1;
    }
  }

  // ------------------------------------------------------------------ reports

  datatype RetryLoop = RetryLoop(
    norm: string, sample: string, count: nat, failures: nat, first: int, last: int, exits: seq<int>, ids: seq<string>)

  function Failures(run: seq<Span>): nat {
    if run == [] then 0 else Failures(run[..|run| - 1]) + if run[|run| - 1].exit != 0 then 1 else 0
  }

  function Report(norm: string, run: seq<Span>): RetryLoop
    requires run != []
  {
    RetryLoop(norm, run[0].cmd, |run|, Failures(run), run[0].start, run[|run| - 1].start,
              seq(|run|, k requires 0 <= k < |run| => run[k].exit), seq(|run|, k requires 0 <= k < |run| => run[k].id))
  }

  method BuildRetryLoop(norm: string, run: seq<Span>) returns (rl: RetryLoop)
    requires run != []
    ensures rl == Report(norm, run)
  {
    var failures, exits, ids := 0, [], [];
    for k := 0 to |run|
      invariant failures == Failures(run[..k])
      invariant |exits| == |ids| == k && forall j :: 0 <= j < k ==> exits[j] == run[j].exit && ids[j] == run[j].id
    {
      assert run[..k + 1][..k] == run[..k];
      if run[k].exit != 0 { failures := failures + 1; }
      exits, ids := exits + [run[k].exit], ids + [run[k].id];
    }
    assert run[..|run|] == run;
    return RetryLoop(norm, run[0].cmd, |run|, failures, run[0].start, run[|run| - 1].start, exits, ids);
  }

  /** The reports of the runs that are long enough. */
  function LongRuns(norm: string, runs: seq<seq<Span>>, threshold: int): seq<RetryLoop> {
    if runs == [] then []
    else
      var last := runs[|runs| - 1];
      LongRuns(norm, runs[..|runs| - 1], threshold) + if last != [] && |last| >= threshold then [Report(norm, last)] else []
  }

  function AllReports(groups: seq<Group>, threshold: int, window: int): seq<RetryLoop> {
    if groups == [] then []
    else
      var g := groups[|groups| - 1];
      AllReports(groups[..|groups| - 1], threshold, window) + LongRuns(g.norm, Runs(g.spans, window), threshold)
  }

  predicate EarlierLoop(a: RetryLoop, b: RetryLoop) {
    if a.first != b.first then a.first < b.first else StrLe(a.norm, b.norm)
  }

  const BY_START: (RetryLoop, RetryLoop) -> bool := (a: RetryLoop, b: RetryLoop) => EarlierLoop(a, b)

  /** Exactly the maximal runs that are long enough, in order of start and command. */
  method DetectRetryLoops(spans: seq<Span>, threshold: int, window: int) returns (loops: seq<RetryLoop>, ghost groups: seq<Group>)
    ensures Grouped(groups, spans) && loops == Sort(AllReports(groups, threshold, window), BY_START)
    ensures Sorted(loops, BY_START)
    ensures forall i, j :: 0 <= i < j < |loops| ==>
      loops[i].first < loops[j].first || (loops[i].first == loops[j].first && StrLe(loops[i].norm, loops[j].norm))
    ensures |loops| == |AllReports(groups, threshold, window)|
    ensures forall rl :: rl in loops <==> Deserved(rl, spans, threshold, window)
  {
    hide OfNorm, NormalizeCmd, Sort, Preorder, Report, Grouped, Deserved, Sorted;
    var gs := GroupByNormalized(spans);
    groups := gs;
    loops := [];
    for n := 0 to |gs|
      invariant loops == AllReports(gs[..n], threshold, window)
    {
      var found := ScanGroup(gs[n], threshold, window);
      assert gs[..n + 1][..n] == gs[..n];
      loops := loops + found;
    }
    assert gs[..|gs|] == gs;
    ghost var all := loops;
    loops := Sort(loops, BY_START);
    StartIsPreorder();
    SortSorted(all, BY_START);
    SortPermutes(all, BY_START);
    SameElements(loops, all);
    SortedByStart(loops);
    forall rl ensures rl in all <==> Deserved(rl, spans, threshold, window) {
      ReportsAreDeserved(groups, spans, threshold, window, rl);
    }
  }

  lemma SortedByStart(loops: seq<RetryLoop>)
    requires Sorted(loops, BY_START)
    ensures forall i, j :: 0 <= i < j < |loops| ==>
      loops[i].first < loops[j].first || (loops[i].first == loops[j].first && StrLe(loops[i].norm, loops[j].norm))
  {
    hide StrLe;
    forall i, j | 0 <= i < j < |loops|
      ensures loops[i].first < loops[j].first || (loops[i].first == loops[j].first && StrLe(loops[i].norm, loops[j].norm))
    {
      assert BY_START(loops[i], loops[j]);
    }
  }

  method FindRunEnd(gs: seq<Span>, i: nat, window: int) returns (j: nat)
    requires i < |gs|
    ensures i < j <= |gs| && j == RunEnd(gs, i + 1, window)
  {
    j := i + 1;
    while j < |gs| && gs[j].start - gs[j - 1].start <= window
      invariant i < j <= |gs| && RunEnd(gs, i + 1, window) == RunEnd(gs, j, window)
    {
      j := j + 1;
    }
  }

  lemma LongRunsSnoc(norm: string, runs: seq<seq<Span>>, run: seq<Span>, threshold: int)
    requires run != []
    ensures LongRuns(norm, runs + [run], threshold)
         == LongRuns(norm, runs, threshold) + if |run| >= threshold then [Report(norm, run)] else []
  {
    hide Report;
    assert (runs + [run])[..|runs|] == runs;
  }

  lemma RunsUnfold(gs: seq<Span>, i: nat, window: int, done: seq<seq<Span>>, all: seq<seq<Span>>)
    requires i < |gs| && done + RunsFrom(gs, i, window) == all
    ensures var j := RunEnd(gs, i + 1, window); (done + [gs[i..j]]) + RunsFrom(gs, j, window) == all
  {
    var j := RunEnd(gs, i + 1, window);
    Assoc(done, [gs[i..j]], RunsFrom(gs, j, window));
  }

  method ScanGroup(g: Group, threshold: int, window: int) returns (loops: seq<RetryLoop>)
    ensures loops == LongRuns(g.norm, Runs(g.spans, window), threshold)
  {
    hide Report, LongRuns, RunEnd, RunsFrom;
    var gs := g.spans;
    loops := [];
    ghost var done: seq<seq<Span>> := [];
    NoRuns(g.norm, threshold, gs, window);
    Assoc([], done, RunsFrom(gs, 0, window));
    var i := 0;
    while i < |gs|
      invariant 0 <= i <= |gs|
      invariant done + RunsFrom(gs, i, window) == Runs(gs, window)
      invariant loops == LongRuns(g.norm, done, threshold)
    {
      var j := FindRunEnd(gs, i, window);
      var run := gs[i..j];
      RunsUnfold(gs, i, window, done, Runs(gs, window));
      LongRunsSnoc(g.norm, done, run, threshold);
      done := done + [run];
      if |run| >= threshold {
        var rl := BuildRetryLoop(g.norm, run);
        loops := loops + [rl];
      }
      i := j;
    }
    Assoc(done, [], []);
  }

  lemma NoRuns(norm: string, threshold: int, gs: seq<Span>, window: int)
    ensures LongRuns(norm, [], threshold) == [] && RunsFrom(gs, |gs|, window) == []
  {
  }

  // ------------------------------------------------------ what gets reported

  /** rl reports one of the maximal runs of some command, and that run is long enough. */
  ghost predicate Deserved(rl: RetryLoop, spans: seq<Span>, threshold: int, window: int) {
    exists run :: run in Runs(OfNorm(spans, rl.norm), window) && run != [] && |run| >= threshold && rl == Report(rl.norm, run)
  }

  lemma {:induction false} LongRunsMembers(norm: string, runs: seq<seq<Span>>, threshold: int, rl: RetryLoop)
    ensures rl in LongRuns(norm, runs, threshold)
      <==> exists run :: run in runs && run != [] && |run| >= threshold && rl == Report(norm, run)
    decreases |runs|
  {
    hide Report;
    if runs != [] {
      var front, last := runs[..|runs| - 1], runs[|runs| - 1];
      LongRunsMembers(norm, front, threshold, rl);
      assert runs == front + [last];
      if exists run :: run in front && run != [] && |run| >= threshold && rl == Report(norm, run) {
        var run :| run in front && run != [] && |run| >= threshold && rl == Report(norm, run);
        assert run in runs;
      }
    }
  }

  lemma {:induction false} AllReportsMembers(groups: seq<Group>, threshold: int, window: int, rl: RetryLoop)
    ensures rl in AllReports(groups, threshold, window)
      <==> exists g :: g in groups && rl in LongRuns(g.norm, Runs(g.spans, window), threshold)
    decreases |groups|
  {
    hide LongRuns, Runs;
    if groups != [] {
      var front, last := groups[..|groups| - 1], groups[|groups| - 1];
      AllReportsMembers(front, threshold, window, rl);
      assert groups == front + [last];
    }
  }

  lemma GroupFor(groups: seq<Group>, spans: seq<Span>, norm: string)
    requires Grouped(groups, spans) && OfNorm(spans, norm) != []
    ensures Group(norm, OfNorm(spans, norm)) in groups
  {
    OfNormMembers(spans, norm);
    var s := OfNorm(spans, norm)[0];
    assert s in OfNorm(spans, norm);
    hide NormalizeCmd, OfNorm;
    var g :| g in groups && g.norm == NormalizeCmd(s.cmd);
    assert g == Group(norm, OfNorm(spans, norm));
  }

  /** Exactly the long maximal runs are reported. */
  lemma ReportsAreDeserved(groups: seq<Group>, spans: seq<Span>, threshold: int, window: int, rl: RetryLoop)
    requires Grouped(groups, spans)
    ensures rl in AllReports(groups, threshold, window) <==> Deserved(rl, spans, threshold, window)
  {
    hide Report, LongRuns, RunsFrom, OfNorm, NormalizeCmd, AllReports;
    AllReportsMembers(groups, threshold, window, rl);
    if rl in AllReports(groups, threshold, window) {
      var g :| g in groups && rl in LongRuns(g.norm, Runs(g.spans, window), threshold);
      LongRunsMembers(g.norm, Runs(g.spans, window), threshold, rl);
      ReportNames(rl, g.norm, Runs(g.spans, window), threshold);
      assert g.spans == OfNorm(spans, g.norm);
    }
    if Deserved(rl, spans, threshold, window) {
      var gs := OfNorm(spans, rl.norm);
      LongRunsMembers(rl.norm, Runs(gs, window), threshold, rl);
      NoRuns(rl.norm, threshold, gs, window);
      assert gs != [];
      GroupFor(groups, spans, rl.norm);
      assert Group(rl.norm, gs).spans == gs;
    }
  }

  lemma ReportNames(rl: RetryLoop, norm: string, runs: seq<seq<Span>>, threshold: int)
    requires exists run :: run in runs && run != [] && |run| >= threshold && rl == Report(norm, run)
    ensures rl.norm == norm
  {
  }

  lemma {:induction false} FirstsRise(gs: seq<Span>, i: nat, window: int, run: seq<Span>)
    requires InTime(gs) && i <= |gs| && window >= 0 && run in RunsFrom(gs, i, window)
    ensures i < |gs| && run != [] && gs[i].start <= run[0].start
    ensures run[0].start == gs[i].start ==> run == gs[i..RunEnd(gs, i + 1, window)]
    decreases |gs| - i
  {
    var j := RunEnd(gs, i + 1, window);
    if run != gs[i..j] {
      FirstsRise(gs, j, window, run);
      assert gs[i].start <= gs[j - 1].start;
    }
  }

  lemma {:induction false} SameFirstSameRun(gs: seq<Span>, i: nat, window: int, a: seq<Span>, b: seq<Span>)
    requires InTime(gs) && i <= |gs| && window >= 0
    requires a in RunsFrom(gs, i, window) && b in RunsFrom(gs, i, window)
    ensures a != [] && b != [] && (a[0].start == b[0].start ==> a == b)
    decreases |gs| - i
  {
    FirstsRise(gs, i, window, a);
    FirstsRise(gs, i, window, b);
    var head := gs[i..RunEnd(gs, i + 1, window)];
    if a != head && b != head {
      SameFirstSameRun(gs, RunEnd(gs, i + 1, window), window, a, b);
    }
  }

  lemma SameKeySameReport(spans: seq<Span>, threshold: int, window: int, a: RetryLoop, b: RetryLoop)
    requires InTime(spans) && window >= 0 && a.norm == b.norm && a.first == b.first
    requires Deserved(a, spans, threshold, window) && Deserved(b, spans, threshold, window)
    ensures a == b
  {
    hide OfNorm, NormalizeCmd, RunsFrom;
    var gs := OfNorm(spans, a.norm);
    OfNormInTime(spans, a.norm);
    var r :| r in Runs(gs, window) && r != [] && |r| >= threshold && a == Report(a.norm, r);
    var s :| s in Runs(gs, window) && s != [] && |s| >= threshold && b == Report(b.norm, s);
    SameFirstSameRun(gs, 0, window, r, s);
  }

  lemma StartIsPreorder()
    ensures Preorder(BY_START)
  {
    forall a: RetryLoop, b: RetryLoop ensures EarlierLoop(a, b) || EarlierLoop(b, a) {
      StrLeTotal(a.norm, b.norm);
    }
    forall a: RetryLoop, b: RetryLoop, c: RetryLoop | EarlierLoop(a, b) && EarlierLoop(b, c) ensures EarlierLoop(a, c) {
      if a.first == b.first == c.first { StrLeTransitive(a.norm, b.norm, c.norm); }
    }
  }

  /** The order of the report is settled: any sort by start and command, stable or not, gives the same list. */
  lemma OrderIsSettled(groups: seq<Group>, spans: seq<Span>, threshold: int, window: int, other: seq<RetryLoop>)
    requires Grouped(groups, spans) && InTime(spans) && window >= 0
    requires Sorted(other, BY_START) && multiset(other) == multiset(AllReports(groups, threshold, window))
    ensures other == Sort(AllReports(groups, threshold, window), BY_START)
  {
    hide AllReports, Deserved, Grouped, Preorder, Sort;
    var all := AllReports(groups, threshold, window);
    StartIsPreorder();
    SortSorted(all, BY_START);
    SortPermutes(all, BY_START);
    SameElements(other, all);
    forall x, y | x in other && y in other && BY_START(x, y) && BY_START(y, x) ensures x == y {
      StrLeTotal(x.norm, y.norm);
      ReportsAreDeserved(groups, spans, threshold, window, x);
      ReportsAreDeserved(groups, spans, threshold, window, y);
      SameKeySameReport(spans, threshold, window, x, y);
    }
    OneArrangement(other, Sort(all, BY_START), BY_START);
  }

  // ---------------------------------------------------------- what reports say

  /** The failures of a run are its exit codes other than 0. */
  lemma {:induction false} FailuresAreNonZero(norm: string, run: seq<Span>)
    requires run != []
    ensures Report(norm, run).failures + multiset(Report(norm, run).exits)[0] == |run|
  {
    var exits := Report(norm, run).exits;
    CountFailures(run, exits);
  }

  lemma {:induction false} CountFailures(run: seq<Span>, exits: seq<int>)
    requires |exits| == |run| && forall k :: 0 <= k < |run| ==> exits[k] == run[k].exit
    ensures Failures(run) + multiset(exits)[0] == |run|
    decreases |run|
  {
    if run != [] {
      var n := |run| - 1;
      CountFailures(run[..n], exits[..n]);
      assert exits == exits[..n] + [exits[n]];
    }
  }

  /** A report spans its run: nothing in it starts before `first` or after `last`, both of which are starts of the run. */
  lemma ReportSpansRun(norm: string, run: seq<Span>, k: nat)
    requires run != [] && InTime(run) && k < |run|
    ensures var rl := Report(norm, run);
            && rl.first <= run[k].start <= rl.last && rl.count == |rl.exits| == |rl.ids| == |run|
            && rl.exits[k] == run[k].exit && rl.ids[k] == run[k].id
    ensures Report(norm, run).norm == norm && exists s :: s in run && s.start == Report(norm, run).first && s.cmd == Report(norm, run).sample
    ensures exists s :: s in run && s.start == Report(norm, run).last
  {
    assert run[0] in run && run[|run| - 1] in run;
  }

  /** Spans of one command keep their number and, one part of the input after the other, their order. */
  lemma {:induction false} OfNormAppend(a: seq<Span>, b: seq<Span>, norm: string)
    ensures OfNorm(a + b, norm) == OfNorm(a, norm) + OfNorm(b, norm)
    ensures |b| == 1 ==> OfNorm(b, norm) == if NormalizeCmd(b[0].cmd) == norm then b else []
    decreases |b|
  {
    hide NormalizeCmd;
    if b == [] {
      assert a + b == a;
    } else {
      var front, last := b[..|b| - 1], b[|b| - 1];
      assert (a + b)[..|a + b| - 1] == a + front;
      OfNormAppend(a, front, norm);
    }
  }

  /** Two invocations are one run when the second starts no later than the window after the first. */
  lemma TwoInvocations(a: Span, b: Span, window: int)
    ensures Runs([a, b], window) == if b.start - a.start <= window then [[a, b]] else [[a], [b]]
  {
    var gs := [a, b];
    assert gs[0..1] == [a] && gs[1..2] == [b] && gs[0..2] == gs;
    assert RunsFrom(gs, 2, window) == [];
    assert RunEnd(gs, 2, window) == 2;
    assert RunsFrom(gs, 1, window) == [[b]] + [];
  }

  /** A run of exactly `threshold` invocations is reported, and one of fewer is not. */
  lemma ThresholdIsEnough(spans: seq<Span>, norm: string, window: int, rl: RetryLoop)
    requires spans != [] && forall k :: 0 <= k < |spans| ==> NormalizeCmd(spans[k].cmd) == norm
    requires forall k :: 0 <= k < |spans| - 1 ==> spans[k + 1].start - spans[k].start <= window
    ensures Deserved(Report(norm, spans), spans, |spans|, window)
    ensures !Deserved(rl, spans, |spans| + 1, window)
  {
    hide NormalizeCmd, OfNorm, RunsFrom, Failures;
    AllOfNorm(spans, norm);
    OneRun(spans, window);
    assert Report(norm, spans).norm == norm && spans in Runs(OfNorm(spans, norm), window);
    if rl.norm != norm {
      NoneOfNorm(spans, rl.norm);
      NoRuns(norm, 0, [], window);
    }
  }

  lemma {:induction false} AllOfNorm(spans: seq<Span>, norm: string)
    requires forall k :: 0 <= k < |spans| ==> NormalizeCmd(spans[k].cmd) == norm
    ensures OfNorm(spans, norm) == spans
    decreases |spans|
  {
    hide NormalizeCmd;
    if spans != [] {
      AllOfNorm(spans[..|spans| - 1], norm);
    }
  }

  lemma OneRun(gs: seq<Span>, window: int)
    requires gs != [] && forall k :: 0 <= k < |gs| - 1 ==> gs[k + 1].start - gs[k].start <= window
    ensures Runs(gs, window) == [gs]
  {
    forall k | 1 <= k < |gs| ensures gs[k].start - gs[k - 1].start <= window {
      assert gs[(k - 1) + 1].start - gs[k - 1].start <= window;
    }
    assert RunEnd(gs, 1, window) == |gs|;
    assert gs[0..|gs|] == gs && RunsFrom(gs, |gs|, window) == [];
  }
}

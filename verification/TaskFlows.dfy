/** A task flow drives the milestones of a graph to completion, one at a time. */
module TaskFlows {
  import opened DependencyGraph
  import opened Milestones

  datatype FlowStatus = Pending | Running | Completed | Failed

  /** Everything a flow and its milestones record. */
  datatype Snapshot = Snapshot(graph: Graph, statuses: map<string, MilestoneStatus>, progresses: map<string, real>,
                               current: string, status: FlowStatus, overall: real)

  // ----- What one call does -----

  ghost predicate StartStep(s: Snapshot, s': Snapshot, ok: bool)
    requires s.statuses.Keys == s.graph.Keys
  {
    if s.status != FlowStatus.Pending || !Orderable(s.graph) || s.graph == map[] then
      !ok && s' == s
    else
      ok && exists id :: Begins(s, id) && s' == Enter(s, id, s.overall).(status := Running)
  }

  /** A milestone without dependencies. */
  ghost predicate Begins(s: Snapshot, id: string) {
    id in s.graph && s.graph[id] == []
  }

  ghost predicate Moves(s: Snapshot, s': Snapshot, id: string) {
    Ready(s, id) && s' == Enter(s, id, MeanOf(s.progresses))
  }

  function CompleteCurrent(s: Snapshot): Snapshot {
    if s.current in s.graph then
      s.(statuses := s.statuses[s.current := MilestoneStatus.Completed], progresses := s.progresses[s.current := 1.0])
    else s
  }

  /** Pending, with every known dependency completed. */
  ghost predicate Ready(s: Snapshot, id: string) {
    && id in s.graph && id in s.statuses && s.statuses[id] == MilestoneStatus.Pending
    && forall dep :: dep in s.graph[id] && dep in s.statuses ==> s.statuses[dep] == MilestoneStatus.Completed
  }

  function Enter(s: Snapshot, id: string, overall: real): Snapshot {
    s.(current := id, statuses := s.statuses[id := InProgress], overall := overall)
  }

  ghost predicate AdvanceStep(s: Snapshot, s': Snapshot, ok: bool) {
    var done := CompleteCurrent(s);
    if !Orderable(s.graph) then
      !ok && s' == done.(status := FlowStatus.Failed)
    else if exists id :: Ready(done, id) then
      ok && exists id :: Moves(done, s', id)
    else
      ok && s' == done.(current := "", status := FlowStatus.Completed, overall := MeanOf(done.progresses))
  }

  lemma StartRefused(s: Snapshot)
    requires s.statuses.Keys == s.graph.Keys
    ensures s.status != FlowStatus.Pending || !Orderable(s.graph) || s.graph == map[] ==> StartStep(s, s, false)
  {
  }

  lemma StartBegins(s: Snapshot, s': Snapshot, id: string)
    requires s.statuses.Keys == s.graph.Keys
    requires s.status == FlowStatus.Pending && Orderable(s.graph) && s.graph != map[]
    requires Begins(s, id) && s' == Enter(s.(status := Running), id, s.overall)
    ensures StartStep(s, s', true)
  {
    hide Orderable;
  }

  lemma SameGraph(s: Snapshot)
    ensures CompleteCurrent(s).graph == s.graph
  {
  }

  lemma AdvanceFails(s: Snapshot, s': Snapshot)
    requires !Orderable(s.graph) && s' == CompleteCurrent(s).(status := FlowStatus.Failed)
    ensures AdvanceStep(s, s', false)
  {
    hide Orderable;
  }

  lemma AdvanceMoves(s: Snapshot, s': Snapshot, id: string)
    requires Orderable(s.graph) && Ready(CompleteCurrent(s), id)
    requires s' == Enter(CompleteCurrent(s), id, MeanOf(CompleteCurrent(s).progresses))
    ensures AdvanceStep(s, s', true)
  {
    hide Orderable, Ready;
    assert Moves(CompleteCurrent(s), s', id);
  }

  lemma AdvanceEnds(s: Snapshot, s': Snapshot)
    requires Orderable(s.graph) && forall id :: !Ready(CompleteCurrent(s), id)
    requires s' == CompleteCurrent(s).(current := "", status := FlowStatus.Completed,
                                       overall := MeanOf(CompleteCurrent(s).progresses))
    ensures AdvanceStep(s, s', true)
  {
    hide Orderable, Ready;
  }

  /** What `StartStep` says of a flow, in the statuses themselves. */
  lemma StartMeans(s: Snapshot, s': Snapshot, ok: bool)
    requires s.statuses.Keys == s.graph.Keys && StartStep(s, s', ok)
    ensures ok <==> s.status == FlowStatus.Pending && Orderable(s.graph) && s.graph != map[]
    ensures !ok ==> s' == s
    ensures ok ==>
              && s'.status == FlowStatus.Running && s'.current in s.graph && s.graph[s'.current] == []
              && s'.statuses == s.statuses[s'.current := InProgress] && s'.progresses == s.progresses
  {
    hide Orderable;
  }

  /** What `AdvanceStep` says of a flow that fails, of one that ends, and of one that goes on. */
  lemma AdvanceMeans(s: Snapshot, s': Snapshot, ok: bool)
    requires AdvanceStep(s, s', ok)
    ensures ok <==> Orderable(s.graph)
    ensures !ok ==> s'.status == FlowStatus.Failed && s'.current == s.current && s'.overall == s.overall
    ensures ok ==>
              || (&& s'.status == FlowStatus.Completed && s'.current == ""
                  && forall id :: !Ready(CompleteCurrent(s), id))
              || (&& s'.status == s.status && s'.current in s.graph && Ready(CompleteCurrent(s), s'.current)
                  && s'.current in s'.statuses && s'.statuses[s'.current] == InProgress)
    ensures s.current in s.graph && s'.current != s.current ==>
              && s.current in s'.statuses && s'.statuses[s.current] == MilestoneStatus.Completed
              && s.current in s'.progresses && s'.progresses[s.current] == 1.0
  {
    hide Orderable;
  }

  class TaskFlow {
    var dag: MilestoneDAG?
    var currentMilestone: string
    var status: FlowStatus
    var overallProgress: real

    ghost function Now(): Snapshot
      requires dag != null
      reads this, dag, dag.milestones.Values
    {
      Snapshot(dag.Deps(), Statuses(dag.milestones), dag.Progresses(), currentMilestone, status, overallProgress)
    }

    lemma SameKeys()
      requires dag != null
      ensures Now().statuses.Keys == Now().graph.Keys
    {
    }

    constructor (dag: MilestoneDAG?)
      ensures this.dag == dag && currentMilestone == "" && status == FlowStatus.Pending && overallProgress == 0.0
    {
      this.dag := dag;
      currentMilestone, status, overallProgress := "", FlowStatus.Pending, 0.0;
    }

    method SetStatus(s: FlowStatus)
      modifies `status
      ensures status == s
      ensures dag != null ==> Now() == old(Now()).(status := s)
    {
      hide Statuses, MilestoneDAG.Deps, MilestoneDAG.Progresses;
      status := s;
    }

    method SetCurrent(id: string)
      modifies `currentMilestone
      ensures dag != null ==> Now() == old(Now()).(current := id)
    {
      hide Statuses, MilestoneDAG.Deps, MilestoneDAG.Progresses;
      currentMilestone := id;
    }

    method UpdateProgress()
      modifies `overallProgress
      ensures dag == null ==> overallProgress == old(overallProgress)
      ensures dag != null ==> Now() == old(Now()).(overall := MeanOf(old(Now()).progresses))
    {
      hide Statuses, MeanOf, MilestoneDAG.Deps, MilestoneDAG.Progresses;
      if dag == null { return; }
      overallProgress := dag.CalculateOverallProgress();
    }

    method Start() returns (ok: bool)
      requires dag != null && dag.Valid()
      modifies this, dag.milestones.Values
      ensures dag == old(dag) && dag.milestones == old(dag.milestones)
      ensures StartStep(old(Now()), Now(), ok)
      ensures ok <==> old(status) == FlowStatus.Pending && Orderable(old(dag.Deps())) && old(dag.Deps()) != map[]
      ensures status == if ok then FlowStatus.Running else old(status)
    {
      hide StartStep, Orderable, Statuses, MilestoneDAG.Deps, MilestoneDAG.Progresses;
      ghost var before := Now();
      SameKeys();
      ok := Begin();
      StartMeans(before, Now(), ok);
    }

    /** The body of `Start`. */
    method Begin() returns (ok: bool)
      requires dag != null && dag.Valid()
      modifies this, dag.milestones.Values
      ensures dag == old(dag) && dag.milestones == old(dag.milestones)
      ensures StartStep(old(Now()), Now(), ok)
    {
      hide Orderable, IsTopological, MeanOf, StartStep, Begins, Statuses, MilestoneDAG.Deps, MilestoneDAG.Progresses;
      ghost var before := Now();
      SameKeys();
      StartRefused(before);
      if status != FlowStatus.Pending { return false; }
      var sorted, order := dag.GetExecutionOrder();
      if !sorted { return false; }
      OrderCoversGraph(before.graph, order);
      if |order| == 0 { return false; }
      FirstBegins(before, order);
      SetStatus(Running);
      EnterMilestone(order[0]);
      StartBegins(before, Now(), order[0].id);
      return true;
    }

    method AdvanceToNext() returns (ok: bool)
      requires dag != null ==> dag.Valid()
      modifies this, if dag == null then {} else dag.milestones.Values
      ensures dag == old(dag)
      ensures dag == null ==> !ok && currentMilestone == old(currentMilestone) && status == old(status)
      ensures dag != null ==> dag.milestones == old(dag.milestones) && AdvanceStep(old(Now()), Now(), ok)
      // An order that cannot be found fails the flow.
      ensures dag != null ==> (ok <==> Orderable(old(dag.Deps())))
      ensures dag != null && !ok ==> status == FlowStatus.Failed && currentMilestone == old(currentMilestone)
    {
      hide AdvanceStep, Orderable, Statuses, MilestoneDAG.Deps, MilestoneDAG.Progresses;
      if dag == null { return false; }
      ghost var before := Now();
      ok := Advance();
      AdvanceMeans(before, Now(), ok);
    }

    /** `AdvanceToNext` on a flow that has a graph. */
    method Advance() returns (ok: bool)
      requires dag != null && dag.Valid()
      modifies `currentMilestone, `status, `overallProgress, dag.milestones.Values
      ensures AdvanceStep(old(Now()), Now(), ok)
    {
      hide Orderable, IsTopological, MeanOf, CompleteCurrent, Ready, AdvanceStep, Statuses;
      hide MilestoneDAG.Deps, MilestoneDAG.Progresses;
      ghost var before := Now();
      FinishCurrent();
      ghost var done := Now();
      SameGraph(before);
      var sorted, order := dag.GetExecutionOrder();
      if !sorted {
        SetStatus(FlowStatus.Failed);
        AdvanceFails(before, Now());
        return false;
      }
      MoveOn(order, before);
      return true;
    }

    /** The rest of `AdvanceToNext`, along the order that was found. */
    method MoveOn(order: seq<Milestone>, ghost before: Snapshot)
      requires dag != null && dag.Valid() && Now() == CompleteCurrent(before)
      requires Orderable(before.graph) && IsTopological(before.graph, Ids(order))
      requires forall m :: m in order ==> m.id in dag.milestones && dag.milestones[m.id] == m
      modifies `currentMilestone, `status, `overallProgress, dag.milestones.Values
      ensures AdvanceStep(before, Now(), true)
    {
      hide Orderable, IsTopological, MeanOf, CompleteCurrent, Ready, AdvanceStep, Statuses;
      hide MilestoneDAG.Deps, MilestoneDAG.Progresses;
      ghost var done := Now();
      SameGraph(before);
      var m := NextReady(order);
      if m != null {
        EnterMilestone(m);
        UpdateProgress();
        AdvanceMoves(before, Now(), m.id);
        return;
      }
      NoneReady(done, order);
      SetStatus(FlowStatus.Completed);
      SetCurrent("");
      UpdateProgress();
      AdvanceEnds(before, Now());
    }

    /** The search loop of `AdvanceToNext`: the first ready milestone of the order, if there is one. */
    method NextReady(order: seq<Milestone>) returns (next: Milestone?)
      requires dag != null
      requires forall m :: m in order ==> m.id in dag.milestones && dag.milestones[m.id] == m
      ensures next == null ==> forall k :: 0 <= k < |order| ==> !Ready(Now(), order[k].id)
      ensures next != null ==>
                exists k :: 0 <= k < |order| && order[k] == next && Ready(Now(), next.id)
                            && forall j :: 0 <= j < k ==> !Ready(Now(), order[j].id)
    {
      for i := 0 to |order|
        invariant forall k :: 0 <= k < i ==> !Ready(Now(), order[k].id)
      {
        var m := order[i];
        var blocked := m.IsBlocked(dag.milestones);
        if m.status == MilestoneStatus.Pending && !blocked {
          return m;
        }
      }
      return null;
    }

    /** Make a milestone the current one, in progress. */
    method EnterMilestone(m: Milestone)
      requires dag != null && dag.Valid() && m.id in dag.milestones && dag.milestones[m.id] == m
      modifies `currentMilestone, m`status
      ensures Now() == Enter(old(Now()), m.id, overallProgress)
    {
      ghost var before := Now();
      currentMilestone := m.id;
      m.SetStatus(InProgress);
      assert Statuses(dag.milestones) == before.statuses[m.id := InProgress];
      assert dag.Deps() == before.graph && dag.Progresses() == before.progresses;
    }

    /** The first lines of `AdvanceToNext`. */
    method FinishCurrent()
      requires dag != null && dag.Valid()
      modifies dag.milestones.Values
      ensures Now() == CompleteCurrent(old(Now()))
    {
      if currentMilestone in dag.milestones {
        ghost var before := Now();
        var current := dag.milestones[currentMilestone];
        current.SetStatus(MilestoneStatus.Completed);
        var _ := current.SetProgress(1.0);
        assert Statuses(dag.milestones) == before.statuses[currentMilestone := MilestoneStatus.Completed];
        assert dag.Progresses() == before.progresses[currentMilestone := 1.0];
        assert dag.Deps() == before.graph;
      }
    }
  }

  ghost function Statuses(milestones: map<string, Milestone>): map<string, MilestoneStatus>
    reads milestones.Values
  {
    map id | id in milestones :: milestones[id].status
  }

  lemma OrderCoversGraph(g: Graph, order: seq<Milestone>)
    requires IsTopological(g, Ids(order))
    ensures forall id :: id in g ==> exists k :: 0 <= k < |order| && order[k].id == id
    ensures |order| == 0 <==> g == map[]
  {
    forall id | id in g
      ensures exists k :: 0 <= k < |order| && order[k].id == id
    {
      var k :| 0 <= k < |order| && Ids(order)[k] == id;
      assert order[k].id == id;
    }
    if |order| > 0 { assert Ids(order)[0] in g; }
  }

  lemma NoneReady(s: Snapshot, order: seq<Milestone>)
    requires IsTopological(s.graph, Ids(order))
    requires forall k :: 0 <= k < |order| ==> !Ready(s, order[k].id)
    ensures forall id :: !Ready(s, id)
  {
    hide IsTopological;
    OrderCoversGraph(s.graph, order);
  }

  lemma FirstBegins(s: Snapshot, order: seq<Milestone>)
    requires IsTopological(s.graph, Ids(order)) && order != []
    ensures Begins(s, order[0].id)
  {
    var ids := Ids(order);
    assert ids[0] in ids;
    if s.graph[ids[0]] != [] {
      assert Edge(s.graph, ids[0], s.graph[ids[0]][0]);
    }
  }

  // ----- Whole runs -----

  /** A flow that can start: known, acyclic dependencies and untouched milestones. */
  ghost predicate FreshFlow(s: Snapshot) {
    && s.status == FlowStatus.Pending && Orderable(s.graph) && s.graph != map[]
    && s.statuses.Keys == s.graph.Keys && s.progresses.Keys == s.graph.Keys
    && forall id :: id in s.graph ==> s.statuses[id] == MilestoneStatus.Pending && s.progresses[id] == 0.0
  }

  ghost function Done(s: Snapshot): set<string> {
    set id | id in s.statuses && s.statuses[id] == MilestoneStatus.Completed
  }

  ghost predicate Consistent(s: Snapshot) {
    && Orderable(s.graph)
    && s.statuses.Keys == s.graph.Keys && s.progresses.Keys == s.graph.Keys
    && forall id :: id in s.graph ==>
         s.progresses[id] == if s.statuses[id] == MilestoneStatus.Completed then 1.0 else 0.0
  }

  /** Every milestone is pending or completed. */
  ghost predicate NoneInProgress(s: Snapshot) {
    forall id :: id in s.graph && id in s.statuses ==>
      s.statuses[id] == MilestoneStatus.Pending || s.statuses[id] == MilestoneStatus.Completed
  }

  /** Nothing has been started before what it depends on was completed. */
  ghost predicate InOrder(s: Snapshot) {
    forall id, dep ::
      id in s.statuses && s.statuses[id] != MilestoneStatus.Pending && Edge(s.graph, id, dep) ==> dep in Done(s)
  }

  /** Running with `k` milestones completed: exactly one, the current one, is in progress. */
  ghost predicate RunningWith(s: Snapshot, k: nat) {
    && Consistent(s) && InOrder(s)
    && s.status == Running && s.current in s.graph && |Done(s)| == k
    && (forall id :: id in s.graph ==> (s.statuses[id] == InProgress <==> id == s.current))
    && (forall id :: id in s.graph ==> s.statuses[id] != MilestoneStatus.Failed)
  }

  ghost predicate AllCompleted(s: Snapshot) {
    && s.status == FlowStatus.Completed && s.current == "" && s.overall == 1.0
    && s.statuses.Keys == s.graph.Keys
    && forall id :: id in s.graph ==> s.statuses[id] == MilestoneStatus.Completed
  }

  lemma StartRuns(s: Snapshot, s': Snapshot, ok: bool)
    requires FreshFlow(s) && StartStep(s, s', ok)
    ensures ok && RunningWith(s', 0) && s'.graph == s.graph
  {
    assert Done(s') == {};
  }

  /** While something is pending, something is ready. */
  lemma SomethingIsReady(s: Snapshot)
    requires Consistent(s)
    requires NoneInProgress(s)
    requires Done(s) != s.graph.Keys
    ensures exists id :: Ready(s, id)
  {
    var waiting := s.graph.Keys - Done(s);
    if !exists id :: Ready(s, id) {
      forall a | a in waiting
        ensures DependsInto(s.graph, waiting, a)
      {
        assert !Ready(s, a);
        var dep :| dep in s.graph[a] && dep in s.statuses && s.statuses[dep] != MilestoneStatus.Completed;
        assert Edge(s.graph, a, dep);
      }
      assert Done(s) <= s.graph.Keys;
      var x :| x in s.graph.Keys && x !in Done(s);
      assert x in waiting;
      TrappedMeansCyclic(s.graph, waiting);
    }
  }

  /** The sum of a nought-or-one table counts its ones. */
  lemma {:induction false} SumCounts(table: map<string, real>, ones: set<string>)
    requires ones <= table.Keys
    requires forall id :: id in table ==> table[id] == if id in ones then 1.0 else 0.0
    ensures Sum(table) == |ones| as real
    decreases table.Keys
  {
    if table == map[] {
      assert ones == {};
    } else {
      var id :| id in table;
      SumWithout(table, id);
      SumCounts(table - {id}, ones - {id});
    }
  }

  lemma MeanCounts(s: Snapshot)
    requires Consistent(s) && s.graph != map[]
    ensures MeanOf(s.progresses) == |Done(s)| as real / |s.graph| as real
  {
    SumCounts(s.progresses, Done(s));
    assert |s.progresses| == |s.progresses.Keys| == |s.graph.Keys| == |s.graph|;
  }

  lemma CompleteIsConsistent(s: Snapshot, k: nat)
    requires RunningWith(s, k)
    ensures var d := CompleteCurrent(s);
            Consistent(d) && InOrder(d) && NoneInProgress(d) && Done(d) == Done(s) + {s.current} && |Done(d)| == k + 1
  {
    hide Orderable;
    CompleteDone(s, k);
    CompleteInOrder(s, k);
  }

  lemma CompleteDone(s: Snapshot, k: nat)
    requires RunningWith(s, k)
    ensures var d := CompleteCurrent(s);
            NoneInProgress(d) && Done(d) == Done(s) + {s.current} && |Done(d)| == k + 1
  {
    hide Orderable, InOrder;
    assert Done(CompleteCurrent(s)) == Done(s) + {s.current};
  }

  lemma CompleteInOrder(s: Snapshot, k: nat)
    requires RunningWith(s, k)
    ensures InOrder(CompleteCurrent(s))
  {
    hide Orderable;
    CompleteDone(s, k);
  }

  /** One call: either the next milestone is in progress, or all are completed. */
  lemma AdvanceRuns(s: Snapshot, s': Snapshot, ok: bool, k: nat)
    requires RunningWith(s, k) && AdvanceStep(s, s', ok)
    ensures ok && s'.graph == s.graph && k < |s.graph|
    ensures k + 1 < |s.graph| ==> RunningWith(s', k + 1) && s'.overall == (k + 1) as real / |s.graph| as real
    ensures k + 1 == |s.graph| ==> AllCompleted(s')
  {
    hide Orderable, MeanOf, InOrder, Consistent, Done, Ready;
    var d := CompleteCurrent(s);
    CompleteIsConsistent(s, k);
    ConsistentFacts(d);
    MeanCounts(d);
    DoneIsBounded(d);
    if k + 1 < |s.graph| {
      SomethingIsReady(d);
      var id :| Moves(d, s', id);
      EnterRuns(d, id, k + 1, MeanOf(d.progresses));
    } else {
      EndCompletes(d);
    }
  }

  lemma ConsistentFacts(d: Snapshot)
    requires Consistent(d)
    ensures Orderable(d.graph) && d.statuses.Keys == d.graph.Keys
  {
  }

  lemma DoneIsBounded(d: Snapshot)
    requires Consistent(d)
    ensures Done(d) <= d.graph.Keys && |Done(d)| <= |d.graph|
  {
    assert d.graph.Keys == Done(d) + (d.graph.Keys - Done(d)) && |d.graph| == |d.graph.Keys|;
  }

  /** With as many completed as there are milestones, none is ready and the mean is 1. */
  lemma EndCompletes(d: Snapshot)
    requires Consistent(d) && |Done(d)| == |d.graph| && d.graph != map[]
    ensures forall id :: !Ready(d, id)
    ensures forall id :: id in d.graph ==> d.statuses[id] == MilestoneStatus.Completed
    ensures MeanOf(d.progresses) == 1.0
  {
    hide MeanOf, Orderable;
    MeanCounts(d);
    DoneIsBounded(d);
    assert |d.graph| == |d.graph.Keys|;
    SubsetOfSameSize(Done(d), d.graph.Keys);
    assert forall id :: id in d.graph ==> id in Done(d);
    QuotientOfSame(|d.graph| as real);
  }

  lemma QuotientOfSame(x: real)
    requires x > 0.0
    ensures x / x == 1.0
  {
  }

  lemma EnterRuns(d: Snapshot, id: string, k: nat, overall: real)
    requires Consistent(d) && InOrder(d) && |Done(d)| == k && d.status == Running && Ready(d, id)
    requires NoneInProgress(d)
    ensures RunningWith(Enter(d, id, overall), k)
  {
    var e := Enter(d, id, overall);
    assert Done(e) == Done(d);
    assert AllKnown(d.graph);
  }

  /** A run: `Start`, then one `AdvanceToNext` after another. */
  ghost predicate IsRun(run: seq<Snapshot>, oks: seq<bool>) {
    && |run| == |oks| + 1 && |oks| > 0
    && FreshFlow(run[0]) && StartStep(run[0], run[1], oks[0])
    && forall i :: 1 <= i < |oks| ==> AdvanceStep(run[i], run[i + 1], oks[i])
  }

  /**
   Every run over n milestones: after `Start` and each of the first n - 1 calls exactly one
   milestone is in progress, the current one, and all it depends on is completed; the n-th
   call ends the flow with everything completed and progress 1.
   */
  lemma {:induction false} RunsFinish(run: seq<Snapshot>, oks: seq<bool>, i: nat)
    requires IsRun(run, oks) && 1 <= i < |run| && i <= |run[0].graph| + 1
    ensures oks[i - 1] && run[i].graph == run[0].graph
    ensures i <= |run[0].graph| ==> RunningWith(run[i], i - 1)
    ensures 2 <= i <= |run[0].graph| ==> run[i].overall == (i - 1) as real / |run[0].graph| as real
    ensures i == |run[0].graph| + 1 ==> AllCompleted(run[i])
    decreases i
  {
    hide RunningWith, AdvanceStep, AllCompleted, FreshFlow, StartStep;
    if i == 1 {
      StartRuns(run[0], run[1], oks[0]);
      NotEmpty(run[0]);
    } else {
      RunsFinish(run, oks, i - 1);
      AdvanceRuns(run[i - 1], run[i], oks[i - 1], i - 2);
    }
  }

  lemma NotEmpty(s: Snapshot)
    requires FreshFlow(s)
    ensures |s.graph| >= 1
  {
  }
}

/** Milestones and the graph of their dependencies. Timestamps are left out. */
module Milestones {
  import opened Sequences
  import opened DependencyGraph

  datatype MilestoneStatus = Pending | InProgress | Completed | Failed

  class Milestone {
    const id: string
    var status: MilestoneStatus
    var progress: real
    var dependencies: seq<string>

    constructor (id: string)
      ensures this.id == id && status == Pending && progress == 0.0 && dependencies == []
    {
      this.id := id;
      status, progress, dependencies := Pending, 0.0, [];
    }

    method SetStatus(s: MilestoneStatus)
      modifies `status
      ensures status == s
    {
      status := s;
    }

    method SetProgress(p: real) returns (ok: bool)
      modifies `progress
      ensures ok <==> 0.0 <= p <= 1.0
      ensures progress == if ok then p else old(progress)
    {
      if p < 0.0 || p > 1.0 { return false; }
      progress := p;
      return true;
    }

    /** Adding a dependency twice changes nothing. */
    method AddDependency(depID: string)
      modifies `dependencies
      ensures dependencies == if depID in old(dependencies) then old(dependencies) else old(dependencies) + [depID]
    {
      for i := 0 to |dependencies|
        invariant dependencies == old(dependencies)
        invariant depID !in dependencies[..i]
      {
        if dependencies[i] == depID { return; }
      }
      dependencies := dependencies + [depID];
    }

    /** Blocked by a known dependency that is not completed; an unknown one does not block. */
    method IsBlocked(milestones: map<string, Milestone>) returns (blocked: bool)
      ensures blocked <==> exists dep :: dep in dependencies && dep in milestones && milestones[dep].status != Completed
    {
      for i := 0 to |dependencies|
        invariant forall dep :: dep in dependencies[..i] && dep in milestones ==> milestones[dep].status == Completed
      {
        if dependencies[i] in milestones && milestones[dependencies[i]].status != Completed {
          return true;
        }
      }
      return false;
    }
  }

  /** The map that one depth-first search shares between all its calls. */
  class VisitedMap {
    var seen: set<string>

    constructor ()
      ensures seen == {}
    {
      seen := {};
    }
  }

  /** Occurrences of one id in a dependency list. */
  function Occurrences(deps: seq<string>, id: string): nat {
    if deps == [] then 0 else (if deps[0] == id then 1 else 0) + Occurrences(deps[1..], id)
  }

  /** Entries of a dependency list that are not done yet, repetitions counted. */
  function Unmet(deps: seq<string>, done: set<string>): nat {
    if deps == [] then 0 else (if deps[0] in done then 0 else 1) + Unmet(deps[1..], done)
  }

  lemma {:induction false} UnmetIsZero(deps: seq<string>, done: set<string>)
    ensures Unmet(deps, done) == 0 <==> forall d :: d in deps ==> d in done
  {
    if deps != [] {
      UnmetIsZero(deps[1..], done);
      assert forall d :: d in deps <==> d == deps[0] || d in deps[1..];
    }
  }

  lemma {:induction false} UnmetAfter(deps: seq<string>, done: set<string>, id: string)
    requires id !in done
    ensures Unmet(deps, done) == Unmet(deps, done + {id}) + Occurrences(deps, id)
    ensures Occurrences(deps, id) == 0 <==> id !in deps
  {
    if deps != [] {
      UnmetAfter(deps[1..], done, id);
      assert forall d :: d in deps <==> d == deps[0] || d in deps[1..];
    }
  }

  lemma OccurrencesNext(deps: seq<string>, j: nat, id: string)
    requires j < |deps|
    ensures Occurrences(deps[j..], id) == (if deps[j] == id then 1 else 0) + Occurrences(deps[j + 1..], id)
    ensures id in deps[..j + 1] <==> id in deps[..j] || deps[j] == id
  {
    assert deps[j..][1..] == deps[j + 1..];
    assert deps[..j + 1] == deps[..j] + [deps[j]];
  }

  lemma OccurrencesEnd(deps: seq<string>, id: string)
    ensures deps[0..] == deps == deps[..|deps|] && deps[..0] == []
    ensures Occurrences(deps[|deps|..], id) == 0
  {
  }

  lemma {:induction false} NothingUnmet(deps: seq<string>)
    ensures Unmet(deps, {}) == |deps|
  {
    if deps != [] { NothingUnmet(deps[1..]); }
  }

  /** The in-degree table agrees with what is done. */
  ghost predicate DegreesFit(g: Graph, inDegree: map<string, int>, done: set<string>) {
    inDegree.Keys == g.Keys && forall id :: id in g ==> inDegree[id] == Unmet(g[id], done)
  }

  /** Part-way through a release: the ids still in `rest` have not been updated. */
  ghost predicate PartlyReleased(g: Graph, inDegree: map<string, int>, done: set<string>, id: string,
                                 rest: set<string>) {
    && inDegree.Keys == g.Keys
    && forall o :: o in g ==> inDegree[o] == Unmet(g[o], if o in rest then done else done + {id})
  }

  /** The queue so far: `queue0`, and the dependents of `id` that have become ready. */
  ghost predicate PartlyQueued(g: Graph, inDegree: map<string, int>, queue0: seq<string>, queue: seq<string>,
                               id: string, rest: set<string>) {
    && inDegree.Keys == g.Keys
    && forall o :: o in queue <==> o in queue0 || (o in g && o !in rest && id in g[o] && inDegree[o] == 0)
  }

  lemma NoneReleased(g: Graph, inDegree: map<string, int>, queue: seq<string>, done: set<string>, id: string)
    requires DegreesFit(g, inDegree, done)
    ensures PartlyReleased(g, inDegree, done, id, g.Keys) && PartlyQueued(g, inDegree, queue, queue, id, g.Keys)
  {
    hide Unmet;
  }

  lemma ReleaseNext(g: Graph, inDegree: map<string, int>, queue0: seq<string>, queue: seq<string>, done: set<string>,
      id: string, rest: set<string>, o: string)
    requires PartlyReleased(g, inDegree, done, id, rest) && PartlyQueued(g, inDegree, queue0, queue, id, rest)
    requires o in g && o in rest
    ensures o in inDegree && inDegree[o] == Unmet(g[o], done)
    ensures var degrees := inDegree[o := Unmet(g[o], done + {id})];
            var longer := if id in g[o] && degrees[o] == 0 then queue + [o] else queue;
            && PartlyReleased(g, degrees, done, id, rest - {o})
            && PartlyQueued(g, degrees, queue0, longer, id, rest - {o})
  {
    hide Unmet;
    assert forall x :: x in queue + [o] <==> x in queue || x == o;
  }

  lemma AllReleased(g: Graph, inDegree: map<string, int>, queue0: seq<string>, queue: seq<string>, done: set<string>,
      id: string)
    requires PartlyReleased(g, inDegree, done, id, {}) && PartlyQueued(g, inDegree, queue0, queue, id, {})
    ensures DegreesFit(g, inDegree, done + {id})
    ensures forall o :: o in queue <==> o in queue0 || (o in g && id in g[o] && inDegree[o] == 0)
  {
    hide Unmet;
  }

  /** The queue holds exactly the ready ids that are not done. */
  ghost predicate QueueFits(g: Graph, inDegree: map<string, int>, done: set<string>, queue: seq<string>) {
    && inDegree.Keys == g.Keys
    && (forall id :: id in queue ==> id in g)
    && (forall id :: id in g ==> (inDegree[id] == 0 <==> id in done || id in queue))
  }

  /** What is left over when the queue runs dry is trapped. */
  lemma LeftOverIsTrapped(g: Graph, inDegree: map<string, int>, done: set<string>)
    requires DegreesFit(g, inDegree, done) && QueueFits(g, inDegree, done, [])
    requires done < g.Keys
    ensures !Orderable(g)
  {
    var left := g.Keys - done;
    if AllKnown(g) {
      forall a | a in left
        ensures DependsInto(g, left, a)
      {
        UnmetIsZero(g[a], done);
        var d :| d in g[a] && d !in done;
        assert Edge(g, a, d);
      }
      var x :| x in g.Keys && x !in done;
      assert x in left;
      TrappedMeansCyclic(g, left);
    }
  }

  /** The sum of a table's values, in no particular order. */
  ghost function Sum(table: map<string, real>): real {
    if table == map[] then 0.0 else
      var id :| id in table;
      table[id] + Sum(table - {id})
  }

  lemma {:induction false} SumWithout(table: map<string, real>, id: string)
    requires id in table
    ensures Sum(table) == table[id] + Sum(table - {id})
    decreases table.Keys
  {
    var first :| first in table && Sum(table) == table[first] + Sum(table - {first});
    if first != id {
      SumWithout(table - {first}, id);
      SumWithout(table - {id}, first);
      assert table - {first} - {id} == table - {id} - {first};
    }
  }

  class MilestoneDAG {
    var milestones: map<string, Milestone>

    /** Milestones are filed under their own ids. */
    ghost predicate Valid()
      reads this
    {
      forall id :: id in milestones ==> milestones[id].id == id
    }

    ghost function Deps(): Graph
      reads this, milestones.Values
    {
      map id | id in milestones :: milestones[id].dependencies
    }

    ghost function Progresses(): map<string, real>
      reads this, milestones.Values
    {
      map id | id in milestones :: milestones[id].progress
    }

    lemma KeysOfDeps()
      requires Valid()
      ensures Deps().Keys == milestones.Keys
      ensures forall id :: id in milestones ==> milestones[id].id == id
    {
    }

    constructor ()
      ensures Valid() && milestones == map[]
    {
      milestones := map[];
    }

    method AddMilestone(m: Milestone) returns (ok: bool)
      requires Valid()
      modifies this
      ensures Valid()
      ensures ok <==> m.id !in old(milestones)
      ensures milestones == if ok then old(milestones)[m.id := m] else old(milestones)
    {
      if m.id in milestones { return false; }
      milestones := milestones[m.id := m];
      return true;
    }

    /** True exactly when making `fromID` depend on `toID` would close a cycle; see `GuardIsExact`. */
    method HasCycle(fromID: string, toID: string) returns (found: bool)
      ensures found <==> Reach(Deps(), toID, fromID)
    {
      var visited := new VisitedMap();
      found := Dfs(toID, fromID, visited, Deps());
      if !found {
        ClosedSetHidesRest(Deps(), visited.seen, toID, fromID);
      }
    }

    /** New marks are closed under dependencies when a search comes back empty-handed. */
    method Dfs(current: string, target: string, visited: VisitedMap, ghost g: Graph) returns (found: bool)
      requires g == Deps() && target !in visited.seen
      modifies visited
      ensures old(visited.seen) <= visited.seen && target !in visited.seen
      ensures found ==> Reach(g, current, target)
      ensures !found ==> current in visited.seen
      ensures !found ==>
                forall a, b :: a in visited.seen && a !in old(visited.seen) && Edge(g, a, b) ==> b in visited.seen
      decreases milestones.Keys - visited.seen
    {
      if current == target {
        ReachSelf(g, current);
        return true;
      }
      if current in visited.seen { return false; }
      ghost var before := visited.seen;
      visited.seen := visited.seen + {current};
      if current !in milestones { return false; }
      var deps := milestones[current].dependencies;
      for i := 0 to |deps|
        invariant before + {current} <= visited.seen && target !in visited.seen
        invariant forall k :: 0 <= k < i ==> deps[k] in visited.seen
        invariant forall a, b ::
                    a in visited.seen && a !in before && a != current && Edge(g, a, b) ==> b in visited.seen
      {
        assert Edge(g, current, deps[i]);
        var inner := Dfs(deps[i], target, visited, g);
        if inner {
          ReachCons(g, current, deps[i], target);
          return true;
        }
      }
      return false;
    }

    method InitialDegrees() returns (inDegree: map<string, int>)
      requires Valid()
      ensures DegreesFit(Deps(), inDegree, {})
    {
      inDegree := map id | id in milestones :: 0;
      var rest := milestones.Keys;
      while rest != {}
        invariant rest <= milestones.Keys && inDegree.Keys == milestones.Keys
        invariant forall id :: id in milestones ==>
                    inDegree[id] == if id in rest then 0 else |milestones[id].dependencies|
        decreases rest
      {
        var id :| id in rest;
        var m := milestones[id];
        inDegree := inDegree[m.id := inDegree[m.id] + |m.dependencies|];
        rest := rest - {id};
      }
      forall id | id in milestones
        ensures inDegree[id] == Unmet(Deps()[id], {})
      {
        NothingUnmet(milestones[id].dependencies);
      }
    }

    method InitialQueue(inDegree: map<string, int>) returns (queue: seq<string>)
      ensures forall id :: id in queue <==> id in inDegree && inDegree[id] == 0
    {
      queue := [];
      var rest := inDegree.Keys;
      while rest != {}
        invariant rest <= inDegree.Keys
        invariant forall id :: id in queue <==> id in inDegree && id !in rest && inDegree[id] == 0
        decreases rest
      {
        var id :| id in rest;
        if inDegree[id] == 0 { queue := queue + [id]; }
        rest := rest - {id};
      }
    }

    /** One dependent's entries for `id` are struck off; it is queued when the last one goes. */
    method ReleaseOne(other: Milestone, id: string, inDegree0: map<string, int>, queue0: seq<string>,
                      ghost done: set<string>)
      returns (inDegree: map<string, int>, queue: seq<string>)
      requires id !in done && other.id in inDegree0
      requires inDegree0[other.id] == Unmet(other.dependencies, done)
      ensures inDegree == inDegree0[other.id := Unmet(other.dependencies, done + {id})]
      ensures queue == if id in other.dependencies && inDegree[other.id] == 0 then queue0 + [other.id] else queue0
    {
      hide Unmet, Occurrences;
      inDegree, queue := inDegree0, queue0;
      var deps := other.dependencies;
      ghost var target := Unmet(deps, done + {id});
      UnmetAfter(deps, done, id);
      OccurrencesEnd(deps, id);
      for j := 0 to |deps|
        invariant inDegree == inDegree0[other.id := target + Occurrences(deps[j..], id)]
        invariant queue == if id in deps[..j] && inDegree[other.id] == 0 then queue0 + [other.id] else queue0
      {
        OccurrencesNext(deps, j, id);
        if deps[j] != id { continue; }
        inDegree := inDegree[other.id := inDegree[other.id] - 1];
        if inDegree[other.id] == 0 {
          queue := queue + [other.id];
        }
      }
    }

    /** All dependents of `id` are updated, in whatever order the map is walked. */
    method Release(id: string, inDegree0: map<string, int>, queue0: seq<string>, ghost done: set<string>)
      returns (inDegree: map<string, int>, queue: seq<string>)
      requires Valid() && id !in done
      requires DegreesFit(Deps(), inDegree0, done)
      ensures DegreesFit(Deps(), inDegree, done + {id})
      ensures forall o :: o in queue <==>
                o in queue0 || (o in milestones && id in milestones[o].dependencies && inDegree[o] == 0)
    {
      hide Unmet, PartlyReleased, PartlyQueued;
      inDegree, queue := inDegree0, queue0;
      ghost var g := Deps();
      var rest := milestones.Keys;
      assert g.Keys == milestones.Keys;
      NoneReleased(g, inDegree, queue, done, id);
      while rest != {}
        invariant rest <= milestones.Keys
        invariant PartlyReleased(g, inDegree, done, id, rest) && PartlyQueued(g, inDegree, queue0, queue, id, rest)
        decreases rest
      {
        var o :| o in rest;
        ReleaseNext(g, inDegree, queue0, queue, done, id, rest, o);
        inDegree, queue := ReleaseOne(milestones[o], id, inDegree, queue, done);
        rest := rest - {o};
      }
      AllReleased(g, inDegree, queue0, queue, done, id);
    }

    /**
     Kahn's ordering. It succeeds exactly when every dependency is known and there is no
     cycle, and then lists every milestone once, after all its dependencies.
     */
    method GetExecutionOrder() returns (ok: bool, order: seq<Milestone>)
      requires Valid()
      ensures ok <==> Orderable(Deps())
      ensures ok ==> IsTopological(Deps(), Ids(order))
      ensures ok ==> forall m :: m in order ==> m.id in milestones && milestones[m.id] == m
      ensures !ok ==> order == []
    {
      hide Orderable, QueueFits, IsTopological, DegreesFit, OrderFits, DepsDone, Deps, Valid;
      ghost var g := Deps();
      KeysOfDeps();
      order := [];
      var visited: set<string> := {};
      var inDegree := InitialDegrees();
      var queue := InitialQueue(inDegree);
      EmptyOrder(g);
      QueueStarts(g, inDegree, queue);
      while |queue| > 0
        invariant DegreesFit(g, inDegree, visited) && QueueFits(g, inDegree, visited, queue)
        invariant visited <= g.Keys && OrderFits(g, Ids(order), visited)
        invariant forall m :: m in order ==> m.id in milestones && milestones[m.id] == m
        decreases g.Keys - visited, |queue|
      {
        var id := queue[0];
        QueueHead(g, inDegree, visited, queue);
        queue := queue[1..];
        if id in visited {
          QueueSkip(g, inDegree, visited, id, queue);
          continue;
        }
        var m := milestones[id];
        AppendKeepsOrder(g, Ids(order), visited, id);
        IdsAppend(order, m);
        order := order + [m];
        inDegree, queue := Visit(id, inDegree, queue, visited);
        visited := visited + {id};
      }
      assert |g.Keys| == |milestones.Keys|;
      CountDecides(g, inDegree, visited, Ids(order));
      if |order| != |milestones| {
        return false, [];
      }
      return true, order;
    }

    /** A milestone that has just been listed releases its dependents. */
    method Visit(id: string, inDegree0: map<string, int>, queue0: seq<string>, ghost done: set<string>)
      returns (inDegree: map<string, int>, queue: seq<string>)
      requires Valid() && id in milestones && id !in done
      requires DegreesFit(Deps(), inDegree0, done) && QueueFits(Deps(), inDegree0, done, [id] + queue0)
      ensures DegreesFit(Deps(), inDegree, done + {id}) && QueueFits(Deps(), inDegree, done + {id}, queue)
    {
      hide QueueFits, DegreesFit;
      inDegree, queue := Release(id, inDegree0, queue0, done);
      QueueStillFits(Deps(), inDegree0, inDegree, done, id, queue0, queue);
    }

    /** The mean progress; nought for an empty graph. */
    method CalculateOverallProgress() returns (overall: real)
      ensures overall == MeanOf(Progresses())
    {
      if |milestones| == 0 {
        return 0.0;
      }
      var total := 0.0;
      var rest := milestones;
      while rest != map[]
        invariant rest.Keys <= milestones.Keys && forall id :: id in rest ==> rest[id] == milestones[id]
        invariant total + Sum(map id | id in rest :: milestones[id].progress) == Sum(Progresses())
        decreases rest.Keys
      {
        var id :| id in rest;
        ghost var table := map x | x in rest :: milestones[x].progress;
        SumWithout(table, id);
        total := total + milestones[id].progress;
        assert table - {id} == map x | x in rest - {id} :: milestones[x].progress;
        rest := rest - {id};
      }
      assert Progresses().Keys == milestones.Keys;
      return total / |milestones| as real;
    }
  }

  ghost function MeanOf(table: map<string, real>): real {
    if |table| == 0 then 0.0 else Sum(table) / |table| as real
  }

  /** The progresses of the listed ids, added up in that order. */
  ghost function ListSum(table: map<string, real>, ids: seq<string>): real
    requires forall id :: id in ids ==> id in table
  {
    if ids == [] then 0.0 else table[ids[0]] + ListSum(table, ids[1..])
  }

  lemma {:induction false} ListSumWithout(table: map<string, real>, ids: seq<string>, id: string)
    requires id !in ids && forall x :: x in ids ==> x in table
    ensures ListSum(table - {id}, ids) == ListSum(table, ids)
  {
    if ids != [] {
      ListSumWithout(table, ids[1..], id);
    }
  }

  lemma {:induction false} SumOfListing(table: map<string, real>, ids: seq<string>)
    requires Distinct(ids) && forall id :: id in ids <==> id in table
    ensures Sum(table) == ListSum(table, ids)
    decreases |ids|
  {
    if ids == [] {
      assert table == map[];
    } else {
      var id, rest := ids[0], ids[1..];
      SumWithout(table, id);
      assert forall x :: x in ids <==> x == id || x in rest;
      SumOfListing(table - {id}, rest);
      ListSumWithout(table, rest, id);
    }
  }

  /** The mean is that of any listing of the milestones: their progresses added up, over how many they are. */
  lemma MeanOfListing(table: map<string, real>, ids: seq<string>)
    requires Distinct(ids) && forall id :: id in ids <==> id in table
    ensures MeanOf(table) == if ids == [] then 0.0 else ListSum(table, ids) / |ids| as real
  {
    SumOfListing(table, ids);
    CountDistinct(ids);
    assert Elems(ids) == table.Keys && |table| == |table.Keys|;
  }

  function Ids(ms: seq<Milestone>): (ids: seq<string>)
    ensures |ids| == |ms| && forall i :: 0 <= i < |ms| ==> ids[i] == ms[i].id
  {
    seq(|ms|, i requires 0 <= i < |ms| => ms[i].id)
  }

  lemma IdsAppend(ms: seq<Milestone>, m: Milestone)
    ensures Ids(ms + [m]) == Ids(ms) + [m.id]
  {
  }

  /** The ids listed so far: those that are done, each once and after its dependencies. */
  ghost predicate OrderFits(g: Graph, order: seq<string>, done: set<string>) {
    Distinct(order) && DepsFirst(g, order) && Elems(order) == done
  }

  /** When the queue is empty, counting the order tells success from failure. */
  lemma CountDecides(g: Graph, inDegree: map<string, int>, done: set<string>, order: seq<string>)
    requires DegreesFit(g, inDegree, done) && QueueFits(g, inDegree, done, [])
    requires done <= g.Keys && OrderFits(g, order, done)
    ensures |order| == |g.Keys| <==> Orderable(g)
    ensures |order| == |g.Keys| ==> IsTopological(g, order)
  {
    hide Orderable, DepsFirst;
    CountDistinct(order);
    if |order| == |g.Keys| {
      SubsetOfSameSize(done, g.Keys);
      assert forall id :: id in order <==> id in Elems(order);
      OrderMeansOrderable(g, order);
    } else {
      assert done != g.Keys;
      LeftOverIsTrapped(g, inDegree, done);
    }
  }

  lemma EmptyOrder(g: Graph)
    ensures OrderFits(g, Ids([]), {})
  {
  }

  lemma QueueStarts(g: Graph, inDegree: map<string, int>, queue: seq<string>)
    requires DegreesFit(g, inDegree, {}) && forall id :: id in queue <==> id in inDegree && inDegree[id] == 0
    ensures QueueFits(g, inDegree, {}, queue)
  {
  }

  ghost predicate DepsDone(g: Graph, id: string, done: set<string>) {
    forall d :: Edge(g, id, d) ==> d in done
  }

  /** The head of the queue is a known id whose dependencies are all done. */
  lemma QueueHead(g: Graph, inDegree: map<string, int>, done: set<string>, queue: seq<string>)
    requires DegreesFit(g, inDegree, done) && QueueFits(g, inDegree, done, queue) && queue != []
    ensures queue == [queue[0]] + queue[1..]
    ensures queue[0] in g && DepsDone(g, queue[0], done)
  {
    UnmetIsZero(g[queue[0]], done);
  }

  lemma QueueSkip(g: Graph, inDegree: map<string, int>, done: set<string>, id: string, queue: seq<string>)
    requires DegreesFit(g, inDegree, done) && QueueFits(g, inDegree, done, [id] + queue) && id in done
    ensures QueueFits(g, inDegree, done, queue)
  {
    assert forall o :: o in [id] + queue <==> o == id || o in queue;
  }

  lemma AppendKeepsOrder(g: Graph, order: seq<string>, done: set<string>, id: string)
    requires OrderFits(g, order, done) && id !in done && DepsDone(g, id, done)
    ensures OrderFits(g, order + [id], done + {id})
  {
    var longer := order + [id];
    forall i, dep | 0 <= i < |longer| && Edge(g, longer[i], dep)
      ensures dep in longer[..i]
    {
      assert longer[..i] == order[..i];
    }
  }

  lemma QueueStillFits(g: Graph, before: map<string, int>, after: map<string, int>, done: set<string>, id: string,
      queue: seq<string>, queue': seq<string>)
    requires DegreesFit(g, before, done) && DegreesFit(g, after, done + {id}) && id in g && id !in done
    requires QueueFits(g, before, done, [id] + queue)
    requires forall o :: o in queue' <==> o in queue || (o in g && id in g[o] && after[o] == 0)
    ensures QueueFits(g, after, done + {id}, queue')
  {
    forall o | o in g
      ensures after[o] == 0 <==> o in done + {id} || o in queue'
    {
      UnmetAfter(g[o], done, id);
      assert o in [id] + queue <==> o == id || o in queue;
    }
    assert forall o :: o in queue ==> o in [id] + queue;
  }

  lemma SubsetOfSameSize(a: set<string>, b: set<string>)
    requires a <= b && |a| == |b|
    ensures a == b
  {
    assert b == a + (b - a);
    assert |b - a| == 0;
  }
}

/**
 Dependency graphs as values: `g[id]` lists what `id` depends on. An id may be listed
 twice, and may be unknown (not a key).
 */
module DependencyGraph {
  import opened Sequences

  type Graph = map<string, seq<string>>

  ghost predicate Edge(g: Graph, a: string, b: string) {
    a in g && b in g[a]
  }

  ghost predicate IsPath(g: Graph, p: seq<string>) {
    p != [] && forall i :: 0 <= i < |p| - 1 ==> Edge(g, p[i], p[i + 1])
  }

  /** `b` can be reached from `a` along dependencies, in any number of steps. */
  ghost predicate Reach(g: Graph, a: string, b: string) {
    exists p :: IsPath(g, p) && p[0] == a && p[|p| - 1] == b
  }

  /** Some id depends, directly or not, on itself. */
  ghost predicate Cyclic(g: Graph) {
    exists a, b :: Edge(g, a, b) && Reach(g, b, a)
  }

  ghost predicate AllKnown(g: Graph) {
    forall a, b :: Edge(g, a, b) ==> b in g
  }

  lemma ReachSelf(g: Graph, a: string)
    ensures Reach(g, a, a)
  {
    assert IsPath(g, [a]) && [a][0] == a;
  }

  lemma ReachCons(g: Graph, a: string, b: string, c: string)
    requires Edge(g, a, b) && Reach(g, b, c)
    ensures Reach(g, a, c)
  {
    var p :| IsPath(g, p) && p[0] == b && p[|p| - 1] == c;
    var q := [a] + p;
    assert forall i :: 0 < i < |q| ==> q[i] == p[i - 1];
    assert IsPath(g, q) && q[0] == a && q[|q| - 1] == c;
  }

  lemma {:induction false} ReachTrans(g: Graph, a: string, b: string, c: string, p: seq<string>)
    requires IsPath(g, p) && p[0] == a && p[|p| - 1] == b && Reach(g, b, c)
    ensures Reach(g, a, c)
    decreases |p|
  {
    if |p| > 1 {
      ReachTrans(g, p[1], b, c, p[1..]);
      assert Edge(g, p[0], p[1]);
      ReachCons(g, a, p[1], c);
    }
  }

  lemma Reaches(g: Graph, a: string, b: string, c: string)
    requires Reach(g, a, b) && Reach(g, b, c)
    ensures Reach(g, a, c)
  {
    var p :| IsPath(g, p) && p[0] == a && p[|p| - 1] == b;
    ReachTrans(g, a, b, c, p);
  }

  /** A set closed under dependencies is never left. */
  lemma {:induction false} ClosedSetHolds(g: Graph, s: set<string>, p: seq<string>)
    requires forall a, b :: a in s && Edge(g, a, b) ==> b in s
    requires IsPath(g, p) && p[0] in s
    ensures p[|p| - 1] in s
    decreases |p|
  {
    if |p| > 1 {
      assert Edge(g, p[0], p[1]);
      ClosedSetHolds(g, s, p[1..]);
    }
  }

  lemma ClosedSetHidesRest(g: Graph, s: set<string>, a: string, b: string)
    requires forall x, y :: x in s && Edge(g, x, y) ==> y in s
    requires a in s && b !in s
    ensures !Reach(g, a, b)
  {
    forall p | IsPath(g, p) && p[0] == a
      ensures p[|p| - 1] in s
    {
      ClosedSetHolds(g, s, p);
    }
  }

  // ----- Topological orders -----

  function Elems<T(==)>(s: seq<T>): set<T> {
    set x | x in s
  }

  /** Every id of the graph once, after everything it depends on. */
  ghost predicate IsTopological(g: Graph, order: seq<string>) {
    && Distinct(order)
    && (forall id :: id in g <==> id in order)
    && DepsFirst(g, order)
  }

  ghost predicate DepsFirst(g: Graph, order: seq<string>) {
    forall i, dep :: 0 <= i < |order| && Edge(g, order[i], dep) ==> dep in order[..i]
  }

  /** Orderable: every dependency is a known id, and nothing depends on itself. */
  ghost predicate Orderable(g: Graph) {
    AllKnown(g) && !Cyclic(g)
  }

  /** Along a path, positions in a topological order never rise. */
  lemma {:induction false} PathDescends(g: Graph, order: seq<string>, p: seq<string>, i: nat) returns (j: nat)
    requires IsTopological(g, order) && IsPath(g, p)
    requires i < |order| && order[i] == p[0]
    ensures j <= i && order[j] == p[|p| - 1]
    decreases |p|
  {
    if |p| == 1 {
      j := i;
    } else {
      assert Edge(g, p[0], p[1]);
      var k: nat :| k < i && order[..i][k] == p[1];
      j := PathDescends(g, order, p[1..], k);
    }
  }

  lemma OrderMeansOrderable(g: Graph, order: seq<string>)
    requires IsTopological(g, order)
    ensures Orderable(g)
  {
    forall a, b | Edge(g, a, b)
      ensures b in g && !Reach(g, b, a)
    {
      var i: nat :| i < |order| && order[i] == a;
      assert b in order[..i];
      var k: nat :| k < i && order[..i][k] == b;
      assert order[k] == b;
      forall p | IsPath(g, p) && p[0] == b
        ensures p[|p| - 1] != a
      {
        var j := PathDescends(g, order, p, k);
      }
    }
  }

  ghost predicate DependsInto(g: Graph, s: set<string>, a: string) {
    exists b :: b in s && Edge(g, a, b)
  }

  /** Every id of the set depends on an id of the set. */
  ghost predicate Trapped(g: Graph, s: set<string>) {
    forall a :: a in s ==> DependsInto(g, s, a)
  }

  lemma NextInside(g: Graph, s: set<string>, a: string) returns (b: string)
    requires Trapped(g, s) && a in s
    ensures b in s && Edge(g, a, b)
  {
    hide Edge;
    assert DependsInto(g, s, a);
    b :| b in s && Edge(g, a, b);
  }

  lemma TrappedMeansCyclic(g: Graph, s: set<string>)
    requires s != {} && Trapped(g, s)
    ensures Cyclic(g)
  {
    hide Trapped, Edge;
    var p := Walk(g, s, |s| + 1);
    var i, j := Repeats(p, s);
    assert Edge(g, p[i], p[i + 1]);
    SubPath(g, p, i + 1, j + 1);
  }

  lemma SubPath(g: Graph, p: seq<string>, lo: nat, hi: nat)
    requires IsPath(g, p) && lo < hi <= |p|
    ensures Reach(g, p[lo], p[hi - 1])
  {
    hide Edge;
    var q := p[lo..hi];
    forall k | 0 <= k < |q| - 1
      ensures Edge(g, q[k], q[k + 1])
    {
      assert q[k] == p[lo + k] && q[k + 1] == p[lo + k + 1];
    }
    assert IsPath(g, q) && q[0] == p[lo] && q[|q| - 1] == p[hi - 1];
  }

  lemma {:induction false} Walk(g: Graph, s: set<string>, n: nat) returns (p: seq<string>)
    requires s != {} && Trapped(g, s)
    requires n > 0
    ensures |p| == n && IsPath(g, p) && forall i :: 0 <= i < n ==> p[i] in s
  {
    hide Trapped, Edge;
    if n == 1 {
      var a :| a in s;
      p := [a];
    } else {
      var q := Walk(g, s, n - 1);
      var b := NextInside(g, s, q[n - 2]);
      p := q + [b];
    }
  }

  /** More entries than elements: some entry comes twice. */
  lemma {:induction false} Repeats(p: seq<string>, s: set<string>) returns (i: nat, j: nat)
    requires |p| > |s| && forall k :: 0 <= k < |p| ==> p[k] in s
    ensures i < j < |p| && p[i] == p[j]
    decreases |p|
  {
    var n := |p| - 1;
    if k: nat :| k < n && p[k] == p[n] {
      return k, n;
    }
    i, j := Repeats(p[..n], s - {p[n]});
  }

  /** Distinct entries drawn from a set, as many as the set has: exactly the set. */
  lemma {:induction false} CountDistinct(p: seq<string>)
    requires Distinct(p)
    ensures |Elems(p)| == |p|
    decreases |p|
  {
    if p == [] {
      assert Elems(p) == {};
    } else {
      var n := |p| - 1;
      CountDistinct(p[..n]);
      assert p == p[..n] + [p[n]];
      assert Elems(p) == Elems(p[..n]) + {p[n]};
    }
  }

  // ----- Adding one dependency -----

  function AddEdge(g: Graph, from: string, to: string): Graph
    requires from in g
  {
    if to in g[from] then g else g[from := g[from] + [to]]
  }

  lemma {:induction false} PathInExtension(g: Graph, from: string, to: string, p: seq<string>)
    requires from in g && IsPath(AddEdge(g, from, to), p)
    ensures Reach(g, p[0], p[|p| - 1]) || (Reach(g, p[0], from) && Reach(g, to, p[|p| - 1]))
    decreases |p|
  {
    var h := AddEdge(g, from, to);
    var last := p[|p| - 1];
    if |p| == 1 {
      ReachSelf(g, p[0]);
    } else {
      assert Edge(h, p[0], p[1]);
      PathInExtension(g, from, to, p[1..]);
      if Edge(g, p[0], p[1]) {
        if Reach(g, p[1], last) { ReachCons(g, p[0], p[1], last); }
        if Reach(g, p[1], from) { ReachCons(g, p[0], p[1], from); }
      } else {
        ReachSelf(g, from);
      }
    }
  }

  lemma ReachInExtension(g: Graph, from: string, to: string, a: string, b: string)
    requires from in g && Reach(AddEdge(g, from, to), a, b)
    ensures Reach(g, a, b) || (Reach(g, a, from) && Reach(g, to, b))
  {
    var p :| IsPath(AddEdge(g, from, to), p) && p[0] == a && p[|p| - 1] == b;
    PathInExtension(g, from, to, p);
  }

  lemma ReachGrows(g: Graph, from: string, to: string, a: string, b: string)
    requires from in g && Reach(g, a, b)
    ensures Reach(AddEdge(g, from, to), a, b)
  {
    var p :| IsPath(g, p) && p[0] == a && p[|p| - 1] == b;
    assert forall x, y :: Edge(g, x, y) ==> Edge(AddEdge(g, from, to), x, y);
    assert IsPath(AddEdge(g, from, to), p);
  }

  /** The cycle check is exact: a new dependency closes a cycle just when its target reaches back. */
  lemma GuardIsExact(g: Graph, from: string, to: string)
    requires from in g && !Cyclic(g)
    ensures Cyclic(AddEdge(g, from, to)) <==> Reach(g, to, from)
  {
    var h := AddEdge(g, from, to);
    assert Edge(h, from, to);
    if Reach(g, to, from) {
      ReachGrows(g, from, to, to, from);
    } else if Cyclic(h) {
      var a, b :| Edge(h, a, b) && Reach(h, b, a);
      ReachInExtension(g, from, to, b, a);
      if Edge(g, a, b) {
        BackEdge(g, from, to, a, b);
      }
    }
  }

  lemma BackEdge(g: Graph, from: string, to: string, a: string, b: string)
    requires Edge(g, a, b) && Reach(g, b, from) && Reach(g, to, a)
    ensures Reach(g, to, from)
  {
    ReachCons(g, a, b, from);
    Reaches(g, to, a, from);
  }

  // ----- Adding a milestone that has dependencies already -----

  ghost predicate SomeReaches(g: Graph, deps: seq<string>, id: string) {
    exists d :: d in deps && Reach(g, d, id)
  }

  lemma {:induction false} PathWithNode(g: Graph, id: string, deps: seq<string>, p: seq<string>)
    requires id !in g && IsPath(g[id := deps], p)
    ensures Reach(g, p[0], p[|p| - 1]) || (Reach(g, p[0], id) && SomeReaches(g, deps, p[|p| - 1]))
    decreases |p|
  {
    var h, last := g[id := deps], p[|p| - 1];
    if |p| == 1 {
      ReachSelf(g, p[0]);
    } else {
      assert Edge(h, p[0], p[1]);
      PathWithNode(g, id, deps, p[1..]);
      if Edge(g, p[0], p[1]) {
        if Reach(g, p[1], last) { ReachCons(g, p[0], p[1], last); }
        if Reach(g, p[1], id) { ReachCons(g, p[0], p[1], id); }
      } else {
        ReachSelf(g, id);
      }
    }
  }

  lemma ReachWithNode(g: Graph, id: string, deps: seq<string>, a: string, b: string)
    requires id !in g
    ensures Reach(g, a, b) ==> Reach(g[id := deps], a, b)
    ensures Reach(g[id := deps], a, b) ==> Reach(g, a, b) || (Reach(g, a, id) && SomeReaches(g, deps, b))
  {
    var h := g[id := deps];
    if p :| IsPath(g, p) && p[0] == a && p[|p| - 1] == b {
      assert forall x, y :: Edge(g, x, y) ==> Edge(h, x, y);
      assert IsPath(h, p);
    }
    if p :| IsPath(h, p) && p[0] == a && p[|p| - 1] == b {
      PathWithNode(g, id, deps, p);
    }
  }

  /** A new milestone closes a cycle just when one of its own dependencies reaches its id: no check sees this. */
  lemma NodeClosesCycle(g: Graph, id: string, deps: seq<string>)
    requires id !in g && !Cyclic(g)
    ensures Cyclic(g[id := deps]) <==> SomeReaches(g, deps, id)
  {
    var h := g[id := deps];
    if SomeReaches(g, deps, id) {
      var d :| d in deps && Reach(g, d, id);
      ReachWithNode(g, id, deps, d, id);
      assert Edge(h, id, d);
    } else if Cyclic(h) {
      var a, b :| Edge(h, a, b) && Reach(h, b, a);
      ReachWithNode(g, id, deps, b, a);
      if a != id {
        assert Edge(g, a, b);
        assert Reach(g, b, id) && SomeReaches(g, deps, a);
        var d :| d in deps && Reach(g, d, a);
        ReachCons(g, a, b, id);
        Reaches(g, d, a, id);
      }
    }
  }

  // ----- Graphs built under the guard -----

  datatype Build = AddNode(id: string, deps: seq<string>) | AddDep(from: string, to: string)

  /** A milestone is added with whatever dependencies it has; a dependency only if the check finds no cycle. */
  ghost function BuildOne(g: Graph, b: Build): Graph {
    match b
    case AddNode(id, deps) => if id in g then g else g[id := deps]
    case AddDep(from, to) => if from in g && !Reach(g, to, from) then AddEdge(g, from, to) else g
  }

  ghost function BuildAll(steps: seq<Build>): Graph {
    if steps == [] then map[] else BuildOne(BuildAll(steps[..|steps| - 1]), steps[|steps| - 1])
  }

  /** The step adds a milestone one of whose dependencies reaches it already. */
  ghost predicate ClosesCycle(g: Graph, b: Build) {
    b.AddNode? && b.id !in g && SomeReaches(g, b.deps, b.id)
  }

  lemma BuildOneKeepsCycles(g: Graph, b: Build)
    requires Cyclic(g)
    ensures Cyclic(BuildOne(g, b))
  {
    var x, y :| Edge(g, x, y) && Reach(g, y, x);
    if b.AddNode? && b.id !in g {
      ReachWithNode(g, b.id, b.deps, y, x);
      assert Edge(BuildOne(g, b), x, y);
    } else if b.AddDep? && b.from in g && !Reach(g, b.to, b.from) {
      ReachGrows(g, b.from, b.to, y, x);
      assert Edge(BuildOne(g, b), x, y);
    }
  }

  lemma BuildOneIsExact(g: Graph, b: Build)
    ensures Cyclic(BuildOne(g, b)) <==> Cyclic(g) || ClosesCycle(g, b)
  {
    hide Reach, SomeReaches;
    if Cyclic(g) {
      BuildOneKeepsCycles(g, b);
    } else if b.AddNode? && b.id !in g {
      NodeClosesCycle(g, b.id, b.deps);
    } else if b.AddDep? && b.from in g && !Reach(g, b.to, b.from) {
      GuardIsExact(g, b.from, b.to);
    }
  }

  ghost predicate ClosedBefore(steps: seq<Build>, k: nat)
    requires k <= |steps|
  {
    exists j :: 0 <= j < k && ClosesCycle(BuildAll(steps[..j]), steps[j])
  }

  lemma ClosedNext(steps: seq<Build>, k: nat)
    requires k < |steps|
    ensures ClosedBefore(steps, k + 1) <==> ClosedBefore(steps, k) || ClosesCycle(BuildAll(steps[..k]), steps[k])
  {
    hide ClosesCycle, BuildAll;
  }

  /** Under the guard a graph becomes cyclic only by such an addition, whatever the history. */
  lemma {:induction false} GuardedGraphsAreAcyclic(steps: seq<Build>, k: nat)
    requires k <= |steps|
    ensures Cyclic(BuildAll(steps[..k])) <==> ClosedBefore(steps, k)
    decreases k
  {
    hide ClosesCycle, ClosedBefore, BuildOne, Cyclic;
    if k == 0 {
      EmptyIsAcyclic();
      NothingClosed(steps);
    } else {
      GuardedGraphsAreAcyclic(steps, k - 1);
      assert steps[..k][..k - 1] == steps[..k - 1];
      BuildOneIsExact(BuildAll(steps[..k - 1]), steps[k - 1]);
      ClosedNext(steps, k - 1);
    }
  }

  lemma EmptyIsAcyclic()
    ensures !Cyclic(map[])
  {
  }

  lemma NothingClosed(steps: seq<Build>)
    ensures !ClosedBefore(steps, 0)
  {
  }

  /** Every dependency the step adds is on a known milestone. */
  ghost predicate NamesKnown(g: Graph, b: Build) {
    match b
    case AddNode(_, deps) => forall d :: d in deps ==> d in g
    case AddDep(_, to) => to in g
  }

  lemma KnownStaysKnown(g: Graph, b: Build)
    requires AllKnown(g) && NamesKnown(g, b)
    ensures AllKnown(BuildOne(g, b)) && !ClosesCycle(g, b)
  {
    hide Reach;
    forall x, y | Edge(BuildOne(g, b), x, y)
      ensures y in BuildOne(g, b)
    {
      assert Edge(g, x, y) || y in g;
    }
    if b.AddNode? && b.id !in g {
      forall d | d in b.deps
        ensures !Reach(g, d, b.id)
      {
        ClosedSetHidesRest(g, g.Keys, d, b.id);
      }
    }
  }

  /** If every dependency is known when it is added, the result can be ordered. */
  lemma {:induction false} GuardedGraphsAreOrderable(steps: seq<Build>, k: nat)
    requires k <= |steps|
    requires forall j :: 0 <= j < k ==> NamesKnown(BuildAll(steps[..j]), steps[j])
    ensures Orderable(BuildAll(steps[..k]))
    decreases k
  {
    hide NamesKnown, BuildOne, ClosesCycle, Cyclic;
    if k == 0 {
      EmptyIsAcyclic();
    } else {
      var g, b := BuildAll(steps[..k - 1]), steps[k - 1];
      GuardedGraphsAreOrderable(steps, k - 1);
      assert steps[..k][..k - 1] == steps[..k - 1];
      KnownStaysKnown(g, b);
      BuildOneIsExact(g, b);
    }
  }

  /** A dependency on a milestone that is added only later, and depends back. */
  const LATE: seq<Build> := [AddNode("a", []), AddDep("a", "b"), AddNode("b", ["a"])]

  lemma LateMilestoneClosesCycle()
    ensures Cyclic(BuildAll(LATE))
  {
    var one, two := LATE[..1], LATE[..2];
    assert LATE[..3] == LATE && two[..1] == one && one[..0] == [] && LATE[..2] == two;
    var g := map["a" := []];
    assert BuildAll(one) == g;
    ClosedSetHidesRest(g, {"b"}, "b", "a");
    var h := map["a" := ["b"]];
    assert g["a"] + ["b"] == ["b"];
    assert BuildAll(two) == AddEdge(g, "a", "b") == h;
    ReachSelf(h, "b");
    assert Edge(h, "a", "b");
    ReachCons(h, "a", "b", "b");
    assert SomeReaches(h, ["a"], "b");
    BuildOneIsExact(h, LATE[2]);
  }
}

/**
 All interleavings of `Acquire` and `Shutdown` on one client pool.

 The lock is free during a launch, so other calls may run between the two locked regions
 of an `Acquire`. Each step below is one such region or one finished launch.
 */
module LspPoolRuns {
  import opened LspPool

  /** `flights` are launched clients whose `Acquire` has not come back to the lock yet. */
  datatype World = World(pool: Pool, flights: map<nat, string>, launched: set<nat>, closed: multiset<nat>)

  datatype Step =
    | Hit(key: string)
    | LaunchUp(key: string, client: nat)
    | LaunchDown(client: nat) // the process started, initialising failed, the client was closed
    | Land(client: nat)
    | Shut

  const START := World(EMPTY, map[], {}, multiset{})

  predicate Enabled(w: World, step: Step) {
    match step
    case Hit(key) => key in w.pool.byKey
    case LaunchUp(_, c) => c !in w.launched
    case LaunchDown(c) => c !in w.launched
    case Land(c) => c in w.flights
    case Shut => true
  }

  function Apply(cap: nat, w: World, step: Step): World
    requires Enabled(w, step)
  {
    match step
    case Hit(key) => w.(pool := Touch(w.pool, key))
    case LaunchUp(key, c) => w.(flights := w.flights[c := key], launched := w.launched + {c})
    case LaunchDown(c) => w.(launched := w.launched + {c}, closed := w.closed + multiset{c})
    case Land(c) =>
      var r := Insert(w.pool, cap, w.flights[c], c);
      w.(pool := r.pool, flights := w.flights - {c}, closed := w.closed + multiset(r.closes))
    case Shut => w.(pool := EMPTY, closed := w.closed + multiset(Clients(w.pool.clients)))
  }

  /** Every launched client is in exactly one place: the pool, on its way, or closed once. */
  ghost predicate Conserved(w: World) {
    multiset(Clients(w.pool.clients)) + multiset(w.flights.Keys) + w.closed == multiset(w.launched)
  }

  ghost predicate Inv(cap: nat, w: World) {
    ValidPool(w.pool, cap) && Conserved(w)
  }

  lemma StepKeeps(cap: nat, w: World, step: Step)
    requires cap > 0 && Inv(cap, w) && Enabled(w, step)
    ensures Inv(cap, Apply(cap, w, step))
  {
    hide ValidPool, Clients;
    match step
    case Hit(key) => TouchKeeps(w.pool, cap, key);
    case LaunchUp(key, c) =>
      NotYetLaunched(w, c);
      assert w.flights[c := key].Keys == w.flights.Keys + {c};
      PlusOne(w.flights.Keys, c);
      PlusOne(w.launched, c);
      Gain(multiset(Clients(w.pool.clients)), multiset(w.flights.Keys), w.closed, multiset{c});
    case LaunchDown(c) =>
      PlusOne(w.launched, c);
    case Land(c) =>
      var r := Insert(w.pool, cap, w.flights[c], c);
      InsertKeeps(w.pool, cap, w.flights[c], c);
      assert w.flights.Keys == (w.flights - {c}).Keys + {c};
      PlusOne((w.flights - {c}).Keys, c);
      Exchange(multiset(Clients(w.pool.clients)), multiset((w.flights - {c}).Keys), w.closed, multiset{c},
        multiset(Clients(r.pool.clients)), multiset(r.closes));
    case Shut =>
      EmptyIsValid(cap);
      assert Clients([]) == [];
  }

  lemma PlusOne(s: set<nat>, x: nat)
    requires x !in s
    ensures multiset(s + {x}) == multiset(s) + multiset{x}
  {
  }

  lemma Gain(pool: multiset<nat>, flights: multiset<nat>, closed: multiset<nat>, one: multiset<nat>)
    ensures pool + (flights + one) + closed == pool + flights + closed + one
  {
  }

  /** A landing client comes out of the flights; what it displaces is closed. */
  lemma Exchange(pool: multiset<nat>, flights: multiset<nat>, closed: multiset<nat>, one: multiset<nat>,
      pool': multiset<nat>, closes: multiset<nat>)
    requires pool' + closes == pool + one
    ensures pool' + flights + (closed + closes) == pool + (flights + one) + closed
  {
    assert pool' + flights + (closed + closes) == (pool' + closes) + flights + closed;
  }

  lemma NotYetLaunched(w: World, c: nat)
    requires Conserved(w) && c !in w.launched
    ensures c !in w.flights
  {
    assert (multiset(Clients(w.pool.clients)) + multiset(w.flights.Keys) + w.closed)[c] == 0;
  }

  ghost predicate IsRun(cap: nat, run: seq<World>, steps: seq<Step>) {
    && |run| == |steps| + 1 && run[0] == START
    && forall k :: 0 <= k < |steps| ==> Enabled(run[k], steps[k]) && run[k + 1] == Apply(cap, run[k], steps[k])
  }

  lemma {:induction false} RunKeepsInv(cap: nat, run: seq<World>, steps: seq<Step>, k: nat)
    requires cap > 0 && IsRun(cap, run, steps) && k < |run|
    ensures Inv(cap, run[k])
    decreases k
  {
    hide Inv, Enabled, Apply;
    if k == 0 {
      StartIsSound(cap);
    } else {
      RunKeepsInv(cap, run, steps, k - 1);
      StepKeeps(cap, run[k - 1], steps[k - 1]);
    }
  }

  lemma StartIsSound(cap: nat)
    ensures Inv(cap, START)
  {
  }

  /**
   Whenever the lock is free: the index matches the list, keys are distinct, the cap holds,
   no pooled client is closed, none is closed twice, and a launched client whose `Acquire`
   has finished is pooled or closed, never both.
   */
  lemma PoolIsSound(cap: nat, run: seq<World>, steps: seq<Step>, k: nat, c: nat)
    requires cap > 0 && IsRun(cap, run, steps) && k < |run|
    ensures ValidPool(run[k].pool, cap)
    ensures c in Clients(run[k].pool.clients) ==> run[k].closed[c] == 0
    ensures run[k].closed[c] <= 1
    ensures c in run[k].flights ==> run[k].closed[c] == 0 && c !in Clients(run[k].pool.clients)
    ensures c in run[k].launched && c !in run[k].flights ==>
              (c in Clients(run[k].pool.clients) <==> run[k].closed[c] == 0)
  {
    hide ValidPool, IsRun;
    RunKeepsInv(cap, run, steps, k);
    var w := run[k];
    assert (multiset(Clients(w.pool.clients)) + multiset(w.flights.Keys) + w.closed)[c] == multiset(w.launched)[c];
    assert c in Clients(w.pool.clients) <==> multiset(Clients(w.pool.clients))[c] > 0;
  }

  /** The client an `Acquire` returns is at the front of the pool and open at that moment. */
  lemma ReturnedClientIsOpen(cap: nat, run: seq<World>, steps: seq<Step>, k: nat)
    requires cap > 0 && IsRun(cap, run, steps) && k < |steps|
    requires steps[k].Hit? || steps[k].Land?
    ensures var key := if steps[k].Hit? then steps[k].key else run[k].flights[steps[k].client];
            && run[k + 1].pool.clients != []
            && run[k + 1].pool.clients[0].key == key
            && run[k + 1].closed[run[k + 1].pool.clients[0].client] == 0
  {
    RunKeepsInv(cap, run, steps, k);
    var w := run[k + 1];
    if steps[k].Land? {
      InsertKeeps(run[k].pool, cap, run[k].flights[steps[k].client], steps[k].client);
    }
    PoolIsSound(cap, run, steps, k + 1, w.pool.clients[0].client);
    assert Clients(w.pool.clients)[0] == w.pool.clients[0].client;
  }

  // ----- Who is closed, and when -----

  /** The step that closes a pooled client: a shutdown, or a new key landing in a full pool whose last client it is. */
  ghost predicate Evicts(cap: nat, w: World, step: Step, e: Entry) {
    || step == Shut
    || (step.Land? && step.client in w.flights
        && (forall x :: x in w.pool.clients ==> x.key != w.flights[step.client])
        && |w.pool.clients| == cap && cap > 0 && w.pool.clients[|w.pool.clients| - 1] == e)
  }

  /** A pooled client is open, and stays pooled under its key and open, except by such a step. */
  lemma PooledUntilEvicted(cap: nat, run: seq<World>, steps: seq<Step>, k: nat, e: Entry)
    requires cap > 0 && IsRun(cap, run, steps) && k < |steps| && e in run[k].pool.clients
    ensures run[k].closed[e.client] == 0
    ensures run[k + 1].closed[e.client] > 0 <==> Evicts(cap, run[k], steps[k], e)
    ensures e in run[k + 1].pool.clients <==> !Evicts(cap, run[k], steps[k], e)
  {
    hide IsRun, ValidPool, Evicts, Apply;
    StepIsApply(cap, run, steps, k);
    RunKeepsInv(cap, run, steps, k);
    PoolIsSound(cap, run, steps, k, e.client);
    PoolIsSound(cap, run, steps, k + 1, e.client);
    EntryHasClient(run[k].pool.clients, e);
    StepEvicts(cap, run[k], steps[k], e);
    if e in run[k + 1].pool.clients {
      EntryHasClient(run[k + 1].pool.clients, e);
    } else {
      LeavesMeansClosed(cap, run[k], steps[k], e);
    }
  }

  lemma StepIsApply(cap: nat, run: seq<World>, steps: seq<Step>, k: nat)
    requires IsRun(cap, run, steps) && k < |steps|
    ensures |run| == |steps| + 1
    ensures Enabled(run[k], steps[k]) && run[k + 1] == Apply(cap, run[k], steps[k])
  {
  }

  lemma EntryHasClient(s: seq<Entry>, e: Entry)
    requires e in s
    ensures e.client in Clients(s)
  {
    var i :| 0 <= i < |s| && s[i] == e;
    assert Clients(s)[i] == e.client;
  }

  lemma KeyNotPooled(p: Pool, cap: nat, key: string)
    requires ValidPool(p, cap)
    ensures key !in p.byKey <==> forall x :: x in p.clients ==> x.key != key
  {
  }

  lemma StepEvicts(cap: nat, w: World, step: Step, e: Entry)
    requires cap > 0 && Inv(cap, w) && Enabled(w, step) && e in w.pool.clients
    ensures e in Apply(cap, w, step).pool.clients <==> !Evicts(cap, w, step, e)
  {
    hide ValidPool, Insert, Touch, Conserved;
    match step
    case Hit(key) => TouchKeepsEntries(w.pool, cap, key);
    case Land(c) =>
      KeyNotPooled(w.pool, cap, w.flights[c]);
      InsertEntries(w.pool, cap, w.flights[c], c);
      NewIsOther(cap, w, c, e);
      CapHolds(cap, w);
    case _ =>
  }

  lemma CapHolds(cap: nat, w: World)
    requires Inv(cap, w)
    ensures |w.pool.clients| <= cap
  {
  }

  lemma NewIsOther(cap: nat, w: World, c: nat, e: Entry)
    requires Inv(cap, w) && c in w.flights && e in w.pool.clients
    ensures e.client != c
  {
    EntryHasClient(w.pool.clients, e);
    assert (multiset(Clients(w.pool.clients)) + multiset(w.flights.Keys) + w.closed)[c] == multiset(w.launched)[c] <= 1;
    assert multiset(w.flights.Keys)[c] == 1;
    assert multiset(Clients(w.pool.clients))[e.client] > 0;
  }

  lemma LeavesMeansClosed(cap: nat, w: World, step: Step, e: Entry)
    requires cap > 0 && Inv(cap, w) && Enabled(w, step) && e in w.pool.clients
    requires e !in Apply(cap, w, step).pool.clients
    ensures Apply(cap, w, step).closed[e.client] > 0
  {
    hide ValidPool, Insert, Touch, Conserved, Clients;
    EntryHasClient(w.pool.clients, e);
    match step
    case Hit(key) => TouchKeepsEntries(w.pool, cap, key);
    case Land(c) =>
      InsertEntries(w.pool, cap, w.flights[c], c);
      InsertCloses(w.pool, cap, w.flights[c], c);
    case _ =>
  }

  /** Two callers that launch for the same key: the first to land stays, the other's client is closed. */
  lemma FirstToLandStays(cap: nat, run: seq<World>, steps: seq<Step>, k: nat)
    requires cap > 0 && IsRun(cap, run, steps) && k < |steps| && steps[k].Land?
    ensures steps[k].client in run[k].flights
    ensures var c := steps[k].client;
            var key := run[k].flights[c];
            if exists e :: e in run[k].pool.clients && e.key == key then
              && run[k + 1].closed[c] == 1
              && exists e :: e in run[k].pool.clients && e.key == key && run[k + 1].pool.clients[..1] == [e]
            else
              run[k + 1].closed[c] == 0 && run[k + 1].pool.clients[..1] == [Entry(c, key)]
  {
    hide IsRun, ValidPool, Insert, Conserved, Clients;
    var c := steps[k].client;
    StepIsApply(cap, run, steps, k);
    RunKeepsInv(cap, run, steps, k);
    var key := run[k].flights[c];
    KeyNotPooled(run[k].pool, cap, key);
    InsertCloses(run[k].pool, cap, key, c);
    PoolIsSound(cap, run, steps, k, c);
    PoolIsSound(cap, run, steps, k + 1, c);
    InsertFront(run[k].pool, cap, key, c);
    if key !in run[k].pool.byKey {
      EntryHasClient(run[k + 1].pool.clients, Entry(c, key));
    }
  }

  // ----- What a shutdown achieves -----

  /** Steps only ever close clients and launch new ones; one that has landed does not fly again. */
  lemma StepOnlyCloses(cap: nat, w: World, step: Step, c: nat)
    requires Inv(cap, w) && Enabled(w, step) && c in w.launched
    ensures var t := Apply(cap, w, step);
            c in t.launched && t.closed[c] >= w.closed[c] && (c in t.flights ==> c in w.flights)
  {
    hide ValidPool, Insert, Touch, Clients;
  }

  lemma {:induction false} RunOnlyCloses(cap: nat, run: seq<World>, steps: seq<Step>, k: nat, n: nat, c: nat)
    requires cap > 0 && IsRun(cap, run, steps) && k <= n < |run| && c in run[k].launched
    ensures c in run[n].launched && run[n].closed[c] >= run[k].closed[c]
    ensures c in run[n].flights ==> c in run[k].flights
    decreases n
  {
    hide Inv, Enabled, Apply;
    if k < n {
      RunOnlyCloses(cap, run, steps, k, n - 1, c);
      RunKeepsInv(cap, run, steps, n - 1);
      StepOnlyCloses(cap, run[n - 1], steps[n - 1], c);
    }
  }

  /** Right after a shutdown the open clients are those whose launch was still on its way. */
  lemma ShutdownSpares(cap: nat, run: seq<World>, steps: seq<Step>, k: nat, c: nat)
    requires cap > 0 && IsRun(cap, run, steps) && k < |steps| && steps[k] == Shut && c in run[k].launched
    ensures run[k + 1].pool == EMPTY
    ensures c in run[k + 1].flights <==> c in run[k].flights
    ensures run[k + 1].closed[c] == if c in run[k].flights then 0 else 1
  {
    hide ValidPool, Inv;
    PoolIsSound(cap, run, steps, k + 1, c);
    PoolIsSound(cap, run, steps, k, c);
    assert run[k + 1] == Apply(cap, run[k], steps[k]);
    assert Clients([]) == [];
  }

  /**
   From a shutdown on, a client launched before it is open exactly if it was in flight then
   and is still in flight, or pooled since: a late launch lands in the pool all the same.
   */
  lemma OpenAfterShutdown(cap: nat, run: seq<World>, steps: seq<Step>, k: nat, n: nat, c: nat)
    requires cap > 0 && IsRun(cap, run, steps) && k < |steps| && steps[k] == Shut && c in run[k].launched
    requires k < n < |run|
    ensures run[n].closed[c] == 0 <==>
              c in run[k].flights && (c in run[n].flights || c in Clients(run[n].pool.clients))
    ensures c !in run[k].flights ==>
              run[n].closed[c] == 1 && c !in run[n].flights && c !in Clients(run[n].pool.clients)
  {
    hide IsRun, ValidPool, Apply;
    ShutdownSpares(cap, run, steps, k, c);
    RunOnlyCloses(cap, run, steps, k, k + 1, c);
    RunOnlyCloses(cap, run, steps, k + 1, n, c);
    PoolIsSound(cap, run, steps, n, c);
  }

  const LATE: seq<Step> := [LaunchUp("k", 0), Shut, Land(0)]

  /** A client that is pooled and open after the shutdown. */
  lemma ShutdownCanMissAClient(cap: nat)
    requires cap > 0
    ensures exists run: seq<World> ::
              IsRun(cap, run, LATE) && 0 in Clients(run[3].pool.clients) && run[3].closed[0] == 0
  {
    var up := World(EMPTY, map[0 := "k"], {0}, multiset{});
    var pool := Pool([Entry(0, "k")], IndexOf([Entry(0, "k")]));
    var end := World(pool, map[], {0}, multiset{});
    FirstIsPooled(cap, "k", 0);
    assert Apply(cap, START, LATE[0]) == up;
    assert Apply(cap, up, LATE[1]) == up by { assert Clients([]) == []; }
    assert Apply(cap, up, LATE[2]) == end by { assert map[0 := "k"] - {0} == map[]; }
    var run := [START, up, up, end];
    assert Clients(pool.clients) == [0];
    assert IsRun(cap, run, LATE) && run[3] == end;
  }

  lemma FirstIsPooled(cap: nat, key: string, client: nat)
    requires cap > 0
    ensures var all := [Entry(client, key)];
            Insert(EMPTY, cap, key, client) == Change(Pool(all, IndexOf(all)), [])
  {
    assert [Entry(client, key)] + [] == [Entry(client, key)];
    assert Clients([]) == [];
  }
}

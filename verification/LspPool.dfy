/**
 The pool of language-server clients: least recently used out first, at most `cap` kept.

 `Manager` is the class; each of its methods is one region under the manager's lock, and
 its contract is a function of `Pool` values. Module `LspPoolRuns` interleaves those
 regions, and the launches that happen outside the lock, in any order.
 */
module LspPool {
  import opened Sequences

  /** A client is known by a number that is never reused. */
  datatype Entry = Entry(client: nat, key: string)

  /** The recency list, front first, and the index into it. */
  datatype Pool = Pool(clients: seq<Entry>, byKey: map<string, Entry>)

  const EMPTY := Pool([], map[])

  function Keys(s: seq<Entry>): (r: seq<string>)
    ensures |r| == |s|
  {
    seq(|s|, i requires 0 <= i < |s| => s[i].key)
  }

  function Clients(s: seq<Entry>): (r: seq<nat>)
    ensures |r| == |s|
  {
    seq(|s|, i requires 0 <= i < |s| => s[i].client)
  }

  ghost predicate DistinctKeys(s: seq<Entry>) {
    forall i, j :: 0 <= i < j < |s| ==> s[i].key != s[j].key
  }

  /** The index holds exactly the list's entries, under their keys. */
  ghost predicate Indexed(p: Pool) {
    && (forall k :: k in p.byKey ==> p.byKey[k] in p.clients && p.byKey[k].key == k)
    && (forall e :: e in p.clients ==> e.key in p.byKey && p.byKey[e.key] == e)
  }

  ghost predicate ValidPool(p: Pool, cap: int) {
    DistinctKeys(p.clients) && Indexed(p) && |p.clients| <= cap
  }

  /** The list without the entry of one key. */
  function Without(s: seq<Entry>, key: string): seq<Entry> {
    if s == [] then [] else (if s[0].key == key then [] else [s[0]]) + Without(s[1..], key)
  }

  lemma HeadIsAlone(s: seq<Entry>)
    requires DistinctKeys(s) && s != []
    ensures DistinctKeys(s[1..]) && forall e :: e in s[1..] ==> e.key != s[0].key
  {
    forall e | e in s[1..]
      ensures e.key != s[0].key
    {
      var i :| 0 <= i < |s| - 1 && s[1..][i] == e;
      assert s[i + 1] == e;
    }
  }

  lemma ConsIsDistinct(e: Entry, s: seq<Entry>)
    requires DistinctKeys(s) && forall x :: x in s ==> x.key != e.key
    ensures DistinctKeys([e] + s)
  {
    assert forall i :: 1 <= i < |[e] + s| ==> ([e] + s)[i] == s[i - 1] && s[i - 1] in s;
  }

  lemma {:induction false} WithoutMembers(s: seq<Entry>, key: string)
    ensures forall e :: e in Without(s, key) <==> e in s && e.key != key
    ensures |Without(s, key)| <= |s|
  {
    if s != [] {
      WithoutMembers(s[1..], key);
      var rest := Without(s[1..], key);
      assert forall e :: e in s <==> e == s[0] || e in s[1..];
      assert forall e :: e in [s[0]] + rest <==> e == s[0] || e in rest;
    }
  }

  lemma {:induction false} WithoutAbsent(s: seq<Entry>, key: string)
    requires forall e :: e in s ==> e.key != key
    ensures Without(s, key) == s
  {
    if s != [] {
      WithoutAbsent(s[1..], key);
      assert s == [s[0]] + s[1..];
    }
  }

  lemma {:induction false} WithoutDistinct(s: seq<Entry>, key: string)
    requires DistinctKeys(s)
    ensures DistinctKeys(Without(s, key))
  {
    hide DistinctKeys;
    EmptyIsDistinct();
    if s != [] {
      HeadIsAlone(s);
      WithoutDistinct(s[1..], key);
      WithoutMembers(s[1..], key);
      ConsIsDistinct(s[0], Without(s[1..], key));
      assert [] + Without(s[1..], key) == Without(s[1..], key);
    }
  }

  lemma WithoutFacts(s: seq<Entry>, key: string)
    requires DistinctKeys(s)
    ensures DistinctKeys(Without(s, key))
    ensures forall e :: e in Without(s, key) <==> e in s && e.key != key
    ensures |Without(s, key)| <= |s|
    ensures (forall e :: e in s ==> e.key != key) ==> Without(s, key) == s
  {
    hide DistinctKeys, Without;
    WithoutMembers(s, key);
    WithoutDistinct(s, key);
    if forall e :: e in s ==> e.key != key { WithoutAbsent(s, key); }
  }

  lemma EmptyIsDistinct()
    ensures DistinctKeys([])
  {
  }

  // ----- The locked regions, as functions of the pool -----

  /** `MoveToFront`. */
  function Touch(p: Pool, key: string): Pool
    requires key in p.byKey
  {
    p.(clients := [p.byKey[key]] + Without(p.clients, key))
  }

  /** What a locked region does: the pool it leaves, the clients it closes. */
  datatype Change = Change(pool: Pool, closes: seq<nat>)

  function Keep(s: seq<Entry>, cap: nat): seq<Entry> {
    if |s| <= cap then s else s[..cap]
  }

  function Dropped(s: seq<Entry>, cap: nat): seq<Entry> {
    if |s| <= cap then [] else s[cap..]
  }

  function IndexOf(s: seq<Entry>): map<string, Entry> {
    if s == [] then map[] else IndexOf(s[1..])[s[0].key := s[0]]
  }

  /** The second locked region of `Acquire`: the new client is dropped if the key is taken. */
  function Insert(p: Pool, cap: nat, key: string, client: nat): Change {
    if key in p.byKey then Change(Touch(p, key), [client])
    else
      var all := [Entry(client, key)] + p.clients;
      Change(Pool(Keep(all, cap), IndexOf(Keep(all, cap))), Clients(Dropped(all, cap)))
  }

  lemma {:induction false} IndexOfFacts(s: seq<Entry>)
    requires DistinctKeys(s)
    ensures Indexed(Pool(s, IndexOf(s)))
  {
    if s != [] {
      IndexOfFacts(s[1..]);
      assert forall e :: e in s <==> e == s[0] || e in s[1..];
      HeadIsAlone(s);
    }
  }

  /** Two indexes of the same list are the same. */
  lemma IndexIsUnique(s: seq<Entry>, m: map<string, Entry>, n: map<string, Entry>)
    requires Indexed(Pool(s, m)) && Indexed(Pool(s, n))
    ensures m == n
  {
    assert forall k :: k in m ==> m[k] in s && m[k].key == k;
    assert forall k :: k in n ==> n[k] in s && n[k].key == k;
  }

  lemma TouchKeeps(p: Pool, cap: nat, key: string)
    requires ValidPool(p, cap) && key in p.byKey
    ensures ValidPool(Touch(p, key), cap) && |Touch(p, key).clients| == |p.clients|
    ensures multiset(Clients(Touch(p, key).clients)) == multiset(Clients(p.clients))
  {
    WithoutFacts(p.clients, key);
    TouchIsPermutation(p.clients, p.byKey[key]);
    var e, rest := p.byKey[key], Without(p.clients, key);
    assert forall x :: x in [e] + rest <==> x == e || x in rest;
    assert forall i :: 1 <= i < |[e] + rest| ==> ([e] + rest)[i] == rest[i - 1];
  }

  lemma {:induction false} TouchIsPermutation(s: seq<Entry>, e: Entry)
    requires DistinctKeys(s) && e in s
    ensures |Without(s, e.key)| == |s| - 1
    ensures multiset(Clients([e] + Without(s, e.key))) == multiset(Clients(s))
  {
    var tail := s[1..];
    ClientsSplit(s[0], tail);
    assert s == [s[0]] + tail;
    if s[0].key == e.key {
      var i :| 0 <= i < |s| && s[i] == e;
      WithoutFacts(tail, e.key);
      assert forall x :: x in tail ==> x.key != e.key;
      assert Without(s, e.key) == tail && s[0] == e;
    } else {
      assert e in tail;
      TouchIsPermutation(tail, e);
      var rest := Without(tail, e.key);
      assert Without(s, e.key) == [s[0]] + rest;
      ClientsSplit(e, rest);
      ClientsSplit(s[0], rest);
      ClientsSplit(e, [s[0]] + rest);
    }
  }

  lemma ClientsSplit(e: Entry, rest: seq<Entry>)
    ensures Clients([e] + rest) == [e.client] + Clients(rest)
    ensures multiset(Clients([e] + rest)) == multiset{e.client} + multiset(Clients(rest))
  {
    assert Clients([e] + rest) == [e.client] + Clients(rest);
  }

  lemma InsertKeeps(p: Pool, cap: nat, key: string, client: nat)
    requires ValidPool(p, cap) && cap > 0
    ensures var r := Insert(p, cap, key, client);
            && ValidPool(r.pool, cap) && r.pool.clients != [] && r.pool.clients[0].key == key
            && multiset(Clients(r.pool.clients)) + multiset(r.closes) == multiset(Clients(p.clients)) + multiset{client}
  {
    hide DistinctKeys, Indexed, IndexOf, Clients, Keep, Dropped;
    if key in p.byKey {
      IndexedKey(p, cap, key);
      TouchKeeps(p, cap, key);
    } else {
      NewIsAlone(p, key);
      var all := [Entry(client, key)] + p.clients;
      ConsIsDistinct(Entry(client, key), p.clients);
      KeepIsFirst(all, cap);
      IndexOfFacts(Keep(all, cap));
      ClientsSplit(Entry(client, key), p.clients);
      KeepSplits(all, cap);
    }
  }

  /** What an insert closes: the newcomer if the key is taken, the last client if the pool is full, or nothing. */
  lemma InsertCloses(p: Pool, cap: nat, key: string, client: nat)
    requires ValidPool(p, cap) && cap > 0
    ensures Insert(p, cap, key, client).closes ==
            if key in p.byKey then [client]
            else if |p.clients| < cap then []
            else [p.clients[cap - 1].client]
    ensures key in p.byKey ==> Insert(p, cap, key, client).pool.byKey == p.byKey
  {
    var all := [Entry(client, key)] + p.clients;
    if key !in p.byKey && |p.clients| == cap {
      assert all[cap..] == [p.clients[cap - 1]];
    }
  }

  /** The entries an insert leaves. */
  lemma InsertEntries(p: Pool, cap: nat, key: string, client: nat)
    requires ValidPool(p, cap) && cap > 0
    ensures var q := Insert(p, cap, key, client).pool.clients;
            forall e :: e in q <==>
              if key in p.byKey then e in p.clients
              else e == Entry(client, key) || (e in p.clients && !(|p.clients| == cap && e == p.clients[cap - 1]))
  {
    if key in p.byKey {
      TouchKeepsEntries(p, cap, key);
    } else {
      var all := [Entry(client, key)] + p.clients;
      if |p.clients| == cap {
        LastIsAlone(p.clients);
        assert all[..cap] == [Entry(client, key)] + p.clients[..cap - 1];
      }
    }
  }

  lemma InsertFront(p: Pool, cap: nat, key: string, client: nat)
    requires ValidPool(p, cap) && cap > 0
    ensures var q := Insert(p, cap, key, client).pool.clients;
            && q != []
            && (key in p.byKey ==> p.byKey[key] in p.clients && p.byKey[key].key == key && q[0] == p.byKey[key])
            && (key !in p.byKey ==> q[0] == Entry(client, key))
  {
  }

  lemma TouchKeepsEntries(p: Pool, cap: nat, key: string)
    requires ValidPool(p, cap) && key in p.byKey
    ensures forall e :: e in Touch(p, key).clients <==> e in p.clients
  {
    hide DistinctKeys;
    WithoutFacts(p.clients, key);
    EntryOfKey(p, cap, key);
  }

  lemma EntryOfKey(p: Pool, cap: nat, key: string)
    requires ValidPool(p, cap) && key in p.byKey
    ensures forall e :: e in p.clients && e.key == key <==> e == p.byKey[key]
  {
  }

  lemma NewIsAlone(p: Pool, key: string)
    requires Indexed(p) && key !in p.byKey
    ensures forall e :: e in p.clients ==> e.key != key
  {
    forall e | e in p.clients
      ensures e.key != key
    {
      assert e.key in p.byKey;
    }
  }

  lemma KeepIsFirst(s: seq<Entry>, cap: nat)
    requires DistinctKeys(s) && s != [] && cap > 0
    ensures DistinctKeys(Keep(s, cap)) && 0 < |Keep(s, cap)| <= cap && Keep(s, cap)[0] == s[0]
  {
  }

  lemma KeepSplits(s: seq<Entry>, cap: nat)
    ensures multiset(Clients(Keep(s, cap))) + multiset(Clients(Dropped(s, cap))) == multiset(Clients(s))
  {
    assert Clients(s) == Clients(Keep(s, cap)) + Clients(Dropped(s, cap));
  }

  // ----- The class -----

  /** What launching a server comes to: a client, a client that could not be initialised, or no process at all. */
  datatype Launch = Up(client: nat) | Broken(client: nat) | NoProcess

  const DEFAULT_MAX_SERVERS: nat := 4

  class Manager {
    const cap: nat
    var clients: seq<Entry>
    var byKey: map<string, Entry>

    /** Every `Close` call made so far. */
    ghost var closed: multiset<nat>

    ghost function Now(): Pool
      reads this
    {
      Pool(clients, byKey)
    }

    ghost predicate Valid()
      reads this
    {
      cap > 0 && ValidPool(Now(), cap)
    }

    constructor (cap: int)
      ensures Valid() && Now() == EMPTY && closed == multiset{}
      ensures this.cap == if cap <= 0 then 4 else cap
    {
      this.cap := if cap <= 0 then DEFAULT_MAX_SERVERS else cap;
      clients, byKey, closed := [], map[], multiset{};
    }

    method CloseClient(client: nat)
      modifies `closed
      ensures closed == old(closed) + multiset{client}
    {
      closed := closed + multiset{client};
    }

    /** First locked region of `Acquire`. */
    method Lookup(key: string) returns (hit: bool, client: nat)
      requires Valid()
      modifies `clients
      ensures Valid()
      ensures hit <==> key in old(byKey)
      ensures Now() == if hit then Touch(old(Now()), key) else old(Now())
      ensures hit ==> clients != [] && clients[0] == Entry(client, key) == byKey[key]
      // Only the order of the list changes.
      ensures forall e :: e in clients <==> e in old(clients)
    {
      if key in byKey {
        TouchKeeps(Now(), cap, key);
        TouchKeepsEntries(Now(), cap, key);
        var elem := byKey[key];
        clients := [elem] + Without(clients, key);
        return true, elem.client;
      }
      return false, 0;
    }

    /** Second locked region of `Acquire`, with its double check and its eviction loop. */
    method Add(key: string, client: nat) returns (kept: nat)
      requires Valid()
      modifies this
      ensures Valid()
      ensures Now() == Insert(old(Now()), cap, key, client).pool
      ensures closed == old(closed) + multiset(Insert(old(Now()), cap, key, client).closes)
      // A taken key keeps its client, and the newcomer is closed.
      ensures key in old(byKey) ==>
                && kept == old(byKey)[key].client && byKey == old(byKey)
                && closed == old(closed) + multiset{client}
      // Otherwise the newcomer stays, and the last client of a full pool is closed.
      ensures key !in old(byKey) ==>
                && kept == client
                && closed == old(closed) +
                             if |old(clients)| < cap then multiset{} else multiset{old(clients)[cap - 1].client}
      // The client handed to the caller is the most recent one, so it has not been evicted.
      ensures clients != [] && clients[0] == Entry(kept, key)
    {
      hide DistinctKeys, Indexed, Clients;
      InsertKeeps(Now(), cap, key, client);
      InsertCloses(Now(), cap, key, client);
      if key in byKey {
        var elem := byKey[key];
        clients := [elem] + Without(clients, key);
        CloseClient(client);
        return elem.client;
      }
      PushKeeps(Now(), Entry(client, key));
      clients := [Entry(client, key)] + clients;
      byKey := byKey[key := Entry(client, key)];
      Evict();
      IndexOfFacts(clients);
      IndexIsUnique(clients, byKey, IndexOf(clients));
      return client;
    }

    /** The eviction loop: entries leave from the back, each closed as it goes. */
    method Evict()
      requires cap > 0 && DistinctKeys(clients) && Indexed(Now())
      modifies this
      ensures DistinctKeys(clients) && Indexed(Now())
      ensures clients == Keep(old(clients), cap)
      ensures closed == old(closed) + multiset(Clients(Dropped(old(clients), cap)))
    {
      hide DistinctKeys, Indexed, Clients;
      ghost var all := clients;
      NoneDropped(all);
      while |clients| > cap
        invariant cap <= |clients| || clients == all
        invariant |clients| <= |all| && clients == all[..|clients|]
        invariant DistinctKeys(clients) && Indexed(Now())
        invariant closed == old(closed) + multiset(Clients(all[|clients|..]))
      {
        var oldest := clients[|clients| - 1];
        ClientsSplit(oldest, all[|clients|..]);
        assert all[|clients| - 1..] == [oldest] + all[|clients|..];
        PopKeeps(Now());
        CloseClient(oldest.client);
        clients := clients[..|clients| - 1];
        byKey := byKey - {oldest.key};
      }
      assert all[..|all|] == all;
    }

    /**
     A whole `Acquire` without interference; `launch` is the client a launch would give, if it
     succeeds. Runs in which other calls come in between are the subject of `LspPoolRuns`.
     */
    method Acquire(key: string, launch: Launch) returns (ok: bool, client: nat)
      requires Valid()
      modifies this
      ensures Valid()
      ensures ok <==> key in old(byKey) || launch.Up?
      ensures !ok ==>
                && Now() == old(Now())
                && closed == old(closed) + if launch.Broken? then multiset{launch.client} else multiset{}
      ensures ok ==> clients != [] && clients[0] == Entry(client, key)
      ensures ok ==> Now() == AcquireAlone(old(Now()), cap, key, if launch.Up? then launch.client else 0)
      ensures ok && key in old(byKey) ==> closed == old(closed)
      ensures ok && key !in old(byKey) ==>
                closed == old(closed) + multiset(Insert(old(Now()), cap, key, launch.client).closes)
    {
      var hit, c := Lookup(key);
      if hit { return true, c; }
      ok := NewClient(launch);
      if !ok { return false, 0; }
      client := Add(key, launch.client);
    }

    /** The end of `NewClient`: a client that could not be initialised is closed. */
    method NewClient(launch: Launch) returns (ok: bool)
      modifies `closed
      ensures ok <==> launch.Up?
      ensures closed == old(closed) + if launch.Broken? then multiset{launch.client} else multiset{}
    {
      if launch.Broken? {
        CloseClient(launch.client);
      }
      return launch.Up?;
    }

    /** Everything pooled is closed once, and the pool is empty. */
    method Shutdown()
      requires Valid()
      modifies this
      ensures Valid() && Now() == EMPTY
      ensures closed == old(closed) + multiset(Clients(old(clients)))
    {
      hide DistinctKeys, Indexed, Clients;
      NoneDropped(clients);
      for i := 0 to |clients|
        invariant clients == old(clients) && byKey == old(byKey)
        invariant closed == old(closed) + multiset(Clients(clients[..i]))
      {
        ClientsNext(clients, i);
        CloseClient(clients[i].client);
      }
      clients, byKey := [], map[];
      EmptyIsValid(cap);
    }
  }

  lemma ClientsNext(s: seq<Entry>, i: nat)
    requires i < |s|
    ensures multiset(Clients(s[..i + 1])) == multiset(Clients(s[..i])) + multiset{s[i].client}
  {
    assert Clients(s[..i + 1]) == Clients(s[..i]) + [s[i].client];
  }

  lemma NoneDropped(all: seq<Entry>)
    ensures all[..|all|] == all && multiset(Clients(all[|all|..])) == multiset{}
    ensures multiset(Clients([])) == multiset{} && all[..0] == []
  {
    assert all[|all|..] == [];
    assert Clients([]) == [];
  }

  lemma PushKeeps(p: Pool, e: Entry)
    requires DistinctKeys(p.clients) && Indexed(p) && e.key !in p.byKey
    ensures DistinctKeys([e] + p.clients) && Indexed(Pool([e] + p.clients, p.byKey[e.key := e]))
  {
    var all := [e] + p.clients;
    assert forall i :: 1 <= i < |all| ==> all[i] == p.clients[i - 1] && all[i] in p.clients;
    assert forall x :: x in all <==> x == e || x in p.clients;
  }

  lemma PopKeeps(p: Pool)
    requires DistinctKeys(p.clients) && Indexed(p) && p.clients != []
    ensures var n := |p.clients| - 1;
            DistinctKeys(p.clients[..n]) && Indexed(Pool(p.clients[..n], p.byKey - {p.clients[n].key}))
  {
    hide DistinctKeys;
    LastIsAlone(p.clients);
  }

  lemma LastIsAlone(s: seq<Entry>)
    requires DistinctKeys(s) && s != []
    ensures var n := |s| - 1;
            && DistinctKeys(s[..n])
            && (forall x :: x in s <==> x in s[..n] || x == s[n])
            && (forall x :: x in s[..n] ==> x.key != s[n].key)
  {
    var n := |s| - 1;
    assert s == s[..n] + [s[n]];
    forall x | x in s[..n]
      ensures x.key != s[n].key
    {
      var i :| 0 <= i < n && s[..n][i] == x;
      assert s[i] == x;
    }
  }

  // ----- Sequential use: the pool is the most recently used keys -----

  /** One `Acquire` that runs without interference; `client` is the one it would launch. */
  function AcquireAlone(p: Pool, cap: nat, key: string, client: nat): Pool {
    if key in p.byKey then Touch(p, key) else Insert(p, cap, key, client).pool
  }

  function AfterAll(cap: nat, history: seq<(string, nat)>): Pool {
    if history == [] then EMPTY
    else
      var last := history[|history| - 1];
      AcquireAlone(AfterAll(cap, history[..|history| - 1]), cap, last.0, last.1)
  }

  /** The distinct keys of a history, most recent first. */
  function Recent(history: seq<(string, nat)>): seq<string> {
    if history == [] then []
    else
      var key := history[|history| - 1].0;
      [key] + Delete(Recent(history[..|history| - 1]), key)
  }

  function Delete<T(==)>(s: seq<T>, key: T): seq<T> {
    if s == [] then [] else (if s[0] == key then [] else [s[0]]) + Delete(s[1..], key)
  }

  function First<T>(s: seq<T>, n: nat): seq<T> {
    if |s| <= n then s else s[..n]
  }

  lemma {:induction false} KeysWithout(s: seq<Entry>, key: string)
    ensures Keys(Without(s, key)) == Delete(Keys(s), key)
  {
    if s != [] {
      KeysWithout(s[1..], key);
      assert Keys(s)[1..] == Keys(s[1..]);
    }
  }

  lemma {:induction false} DeleteMembers<T>(s: seq<T>, key: T)
    ensures forall k :: k in Delete(s, key) <==> k in s && k != key
    ensures key !in s ==> Delete(s, key) == s
  {
    if s != [] {
      var rest := Delete(s[1..], key);
      DeleteMembers(s[1..], key);
      assert forall k :: k in s <==> k == s[0] || k in s[1..];
      assert forall k :: k in [s[0]] + rest <==> k == s[0] || k in rest;
      assert s == [s[0]] + s[1..];
    }
  }

  lemma TailFacts<T>(s: seq<T>)
    requires Distinct(s) && s != []
    ensures Distinct(s[1..]) && s[0] !in s[1..]
  {
  }

  lemma ConsFacts<T>(x: T, s: seq<T>)
    requires Distinct(s) && x !in s
    ensures Distinct([x] + s)
  {
    assert forall i :: 0 < i < |[x] + s| ==> ([x] + s)[i] == s[i - 1] && s[i - 1] in s;
  }

  lemma {:induction false} DeleteFacts<T>(s: seq<T>, key: T)
    requires Distinct(s)
    ensures Distinct(Delete(s, key)) && key !in Delete(s, key)
  {
    DeleteMembers(s, key);
    if s != [] {
      TailFacts(s);
      DeleteMembers(s[1..], key);
      DeleteFacts(s[1..], key);
      ConsFacts(s[0], Delete(s[1..], key));
      assert [] + Delete(s[1..], key) == Delete(s[1..], key);
    }
  }

  lemma {:induction false} RecentIsDistinct(history: seq<(string, nat)>)
    ensures Distinct(Recent(history))
    decreases |history|
  {
    if history != [] {
      var key := history[|history| - 1].0;
      var before := Recent(history[..|history| - 1]);
      RecentIsDistinct(history[..|history| - 1]);
      DeleteFacts(before, key);
      ConsFacts(key, Delete(before, key));
    }
  }

  /** Deleting a key that is in the first part shortens that part; a later one leaves it alone. */
  lemma {:induction false} DeleteFirst<T>(s: seq<T>, n: nat, key: T)
    requires Distinct(s)
    ensures key in First(s, n) ==> n > 0 && Delete(First(s, n), key) == First(Delete(s, key), n - 1)
    ensures key !in First(s, n) ==> First(Delete(s, key), n) == First(s, n)
  {
    hide Distinct;
    if s != [] && n > 0 {
      TailFacts(s);
      FirstOfCons(s, n);
      FirstMembers(s[1..], n - 1);
      if s[0] == key {
        DeleteMembers(s[1..], key);
        DeleteMembers(First(s[1..], n - 1), key);
        assert [] + Delete(s[1..], key) == s[1..];
        assert [] + Delete(First(s[1..], n - 1), key) == First(s[1..], n - 1);
      } else {
        DeleteFirst(s[1..], n - 1, key);
        FirstOfCons([s[0]] + Delete(s[1..], key), n);
        if key in First(s, n) {
          FirstOfCons([s[0]] + Delete(s[1..], key), n - 1);
        }
      }
    }
  }

  lemma FirstOfCons<T>(s: seq<T>, n: nat)
    requires s != []
    ensures n > 0 ==> First(s, n) == [s[0]] + First(s[1..], n - 1) && First(s, n)[1..] == First(s[1..], n - 1)
  {
  }

  lemma FirstMembers<T>(s: seq<T>, n: nat)
    ensures forall x :: x in First(s, n) ==> x in s
  {
  }

  /** After any history the pool holds exactly the `cap` most recently used keys, most recent first. */
  lemma {:induction false} PoolIsMostRecent(cap: nat, history: seq<(string, nat)>)
    requires cap > 0
    ensures ValidPool(AfterAll(cap, history), cap)
    ensures Keys(AfterAll(cap, history).clients) == First(Recent(history), cap)
    decreases |history|
  {
    hide ValidPool, Distinct;
    if history == [] {
      EmptyIsValid(cap);
    } else {
      var init, last := history[..|history| - 1], history[|history| - 1];
      PoolIsMostRecent(cap, init);
      RecentIsDistinct(init);
      AcquireAloneIsRecent(AfterAll(cap, init), cap, last.0, last.1, Recent(init));
    }
  }

  lemma EmptyIsValid(cap: nat)
    ensures ValidPool(EMPTY, cap)
  {
  }

  lemma KeyIsIndexed(p: Pool, cap: nat, key: string)
    requires ValidPool(p, cap)
    ensures key in p.byKey <==> key in Keys(p.clients)
  {
    if key in Keys(p.clients) {
      var i :| 0 <= i < |p.clients| && Keys(p.clients)[i] == key;
      assert p.clients[i] in p.clients;
    }
    if key in p.byKey {
      var i :| 0 <= i < |p.clients| && p.clients[i] == p.byKey[key];
      assert Keys(p.clients)[i] == key;
    }
  }

  lemma AcquireAloneIsRecent(p: Pool, cap: nat, key: string, client: nat, recent: seq<string>)
    requires cap > 0 && ValidPool(p, cap) && Distinct(recent) && Keys(p.clients) == First(recent, cap)
    ensures ValidPool(AcquireAlone(p, cap, key, client), cap)
    ensures Keys(AcquireAlone(p, cap, key, client).clients) == First([key] + Delete(recent, key), cap)
  {
    hide ValidPool, Distinct, DistinctKeys, Indexed, Delete, Without, Keep, Dropped, IndexOf;
    KeyIsIndexed(p, cap, key);
    DeleteFirst(recent, cap, key);
    FirstOfCons([key] + Delete(recent, key), cap);
    if key in p.byKey {
      TouchKeeps(p, cap, key);
      KeysWithout(p.clients, key);
      IndexedKey(p, cap, key);
      assert Keys([p.byKey[key]] + Without(p.clients, key)) == [key] + Keys(Without(p.clients, key));
    } else {
      InsertKeeps(p, cap, key, client);
      KeysOfPush(Entry(client, key), p.clients, cap);
      FirstAgain(recent, Delete(recent, key), key, cap);
    }
  }

  lemma KeysOfPush(e: Entry, rest: seq<Entry>, cap: nat)
    ensures Keys(Keep([e] + rest, cap)) == First([e.key] + Keys(rest), cap)
  {
    assert Keys([e] + rest) == [e.key] + Keys(rest);
    assert Keys(Keep([e] + rest, cap)) == First(Keys([e] + rest), cap);
  }

  lemma FirstAgain<T>(s: seq<T>, t: seq<T>, x: T, n: nat)
    requires n > 0 && First(t, n) == First(s, n)
    ensures First([x] + First(s, n), n) == First([x] + t, n)
  {
  }

  lemma IndexedKey(p: Pool, cap: nat, key: string)
    requires ValidPool(p, cap) && key in p.byKey
    ensures p.byKey[key].key == key
  {
  }

  /** A larger pool always holds everything a smaller one does. */
  lemma LargerPoolHoldsMore(small: nat, large: nat, history: seq<(string, nat)>)
    requires 0 < small <= large
    ensures Keys(AfterAll(small, history).clients) <= Keys(AfterAll(large, history).clients)
  {
    PoolIsMostRecent(small, history);
    PoolIsMostRecent(large, history);
  }
}

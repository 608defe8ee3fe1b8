/**
 Running a partition: batches one after another, the calls of a safe batch side by side.

 A run is a sequence of atomic steps. Handing a call to a goroutine, the call starting,
 and its result being written are separate steps, so every interleaving is a run.
 */
module ToolExecution {
  import opened ToolBatches

  datatype ToolResult = ToolResult(callId: string, output: string, error: string)

  const NO_RESULT := ToolResult("", "", "")

  /** What running one call comes to. */
  datatype Outcome = Returned(result: ToolResult) | Panicked(message: string)

  /** A panic becomes a result with a non-empty error. */
  function SafeExecuteOne(call: ToolCall, outcome: Outcome): (r: ToolResult)
    ensures outcome.Returned? ==> r == outcome.result
    ensures outcome.Panicked? ==> r == ToolResult(call.id, "", "panic: " + outcome.message)
  {
    match outcome
    case Returned(r) => r
    case Panicked(m) => ToolResult(call.id, "", "panic: " + m)
  }

  datatype Event = Started(i: nat) | Finished(i: nat, result: ToolResult)

  /** `limit` zero or less means unlimited. */
  datatype Config = Config(calls: seq<ToolCall>, safety: Safety, limit: int, batches: seq<Batch>) {
    ghost predicate Valid() { IsPartition(calls, safety, batches) }

    /** Where batch `b` begins among the calls. */
    function Base(b: nat): nat
      requires b <= |batches|
    {
      |AllCalls(batches[..b])|
    }
  }

  /**
   `batch` is the batch being run, `launched` how many of its calls have been handed out,
   `busy` how many goroutines (or, in an unsafe batch, direct calls) have not returned.
   */
  datatype Exec = Exec(batch: nat, launched: nat, busy: nat, started: set<nat>, finished: set<nat>,
                       results: seq<ToolResult>, trace: seq<Event>)

  datatype Step = Launch | Begin(i: nat) | End(i: nat, outcome: Outcome) | NextBatch

  function Initial(cfg: Config): Exec {
    Exec(0, 0, 0, {}, {}, seq(|cfg.calls|, _ => NO_RESULT), [])
  }

  predicate Complete(cfg: Config, s: Exec) { s.batch == |cfg.batches| }

  /** A safe batch hands calls out up to the limit, an unsafe one only when nothing runs. */
  predicate CanLaunch(cfg: Config, s: Exec)
    requires s.batch < |cfg.batches|
  {
    var b := cfg.batches[s.batch];
    s.launched < |b.calls| && if b.safe then cfg.limit <= 0 || s.busy < cfg.limit else s.busy == 0
  }

  predicate HandedOut(cfg: Config, s: Exec, i: nat)
    requires s.batch < |cfg.batches|
  {
    exists j :: 0 <= j < s.launched && j < |cfg.batches[s.batch].indices| && cfg.batches[s.batch].indices[j] == i
  }

  ghost predicate Enabled(cfg: Config, s: Exec, step: Step) {
    && s.batch < |cfg.batches|
    && match step
       case Launch => CanLaunch(cfg, s)
       case Begin(i) => HandedOut(cfg, s, i) && i !in s.started
       case End(i, _) => i in s.started && i !in s.finished && i < |cfg.calls| && i < |s.results| && s.busy > 0
       case NextBatch => s.launched == |cfg.batches[s.batch].calls| && s.busy == 0
  }

  function WithResult(s: Exec, i: nat, r: ToolResult): Exec
    requires i < |s.results| && s.busy > 0
  {
    s.(finished := s.finished + {i}, busy := s.busy - 1, results := s.results[i := r],
       trace := s.trace + [Finished(i, r)])
  }

  function Apply(cfg: Config, s: Exec, step: Step): Exec
    requires Enabled(cfg, s, step)
  {
    match step
    case Launch => s.(launched := s.launched + 1, busy := s.busy + 1)
    case Begin(i) => s.(started := s.started + {i}, trace := s.trace + [Started(i)])
    case End(i, outcome) =>
      var r := SafeExecuteOne(cfg.calls[i], outcome);
      WithResult(s, i, r)
    case NextBatch => s.(batch := s.batch + 1, launched := 0)
  }

  // ----- What a trace must satisfy -----

  ghost predicate HasStart(trace: seq<Event>, i: nat) { Started(i) in trace }

  ghost predicate HasFinish(trace: seq<Event>, i: nat) { exists r :: Finished(i, r) in trace }

  /** Call `j` may not overlap the earlier call `i`. */
  ghost predicate MustWait(calls: seq<ToolCall>, safety: Safety, i: nat, j: nat) {
    i < j < |calls| && (!safety.IsSafe(calls[i]) || !safety.IsSafe(calls[j]))
  }

  /** No call starts before an earlier call it may not overlap has finished. */
  ghost predicate CausalOrder(calls: seq<ToolCall>, safety: Safety, trace: seq<Event>) {
    forall p, i: nat :: 0 <= p < |trace| && trace[p].Started? && MustWait(calls, safety, i, trace[p].i) ==>
      HasFinish(trace[..p], i)
  }

  /** Each call starts once and finishes once, after its start. */
  ghost predicate Once(trace: seq<Event>) {
    && (forall p, q :: 0 <= p < q < |trace| && trace[p].Started? && trace[q].Started? ==> trace[p].i != trace[q].i)
    && (forall p, q :: 0 <= p < q < |trace| && trace[p].Finished? && trace[q].Finished? ==> trace[p].i != trace[q].i)
    && (forall p :: 0 <= p < |trace| && trace[p].Finished? ==> HasStart(trace[..p], trace[p].i))
  }

  /** Calls that have started and not finished. */
  function Running(trace: seq<Event>): int {
    if trace == [] then 0
    else Running(trace[..|trace| - 1]) + (if trace[|trace| - 1].Started? then 1 else -1)
  }

  /** A positive limit is never exceeded. */
  ghost predicate WithinLimit(limit: int, trace: seq<Event>) {
    limit > 0 ==> forall p :: 0 <= p <= |trace| ==> Running(trace[..p]) <= limit
  }

  /** Slot i holds what call i finished with. */
  ghost predicate Scattered(trace: seq<Event>, results: seq<ToolResult>) {
    forall p :: 0 <= p < |trace| && trace[p].Finished? ==>
      trace[p].i < |results| && results[trace[p].i] == trace[p].result
  }

  // ----- The invariant of every run -----

  lemma {:induction false} PrefixIsPartition(cfg: Config, b: nat)
    requires cfg.Valid() && b <= |cfg.batches|
    ensures cfg.Base(b) <= |cfg.calls|
    ensures IsPartition(cfg.calls[..cfg.Base(b)], cfg.safety, cfg.batches[..b])
    decreases |cfg.batches| - b
  {
    hide AllIndices, Safety.IsSafe;
    if b == |cfg.batches| {
      assert cfg.batches[..b] == cfg.batches && cfg.calls[..|cfg.calls|] == cfg.calls;
    } else {
      PrefixIsPartition(cfg, b + 1);
      var calls := cfg.calls[..cfg.Base(b + 1)];
      LastBatch(calls, cfg.safety, cfg.batches[..b + 1]);
      assert cfg.batches[..b + 1][..b] == cfg.batches[..b];
      var m := |calls| - |cfg.batches[b].calls|;
      assert calls[..m] == cfg.calls[..m];
    }
  }

  /** Batch `b` covers the calls from `Base(b)` to `Base(b + 1)`, in order. */
  lemma BatchRange(cfg: Config, b: nat)
    requires cfg.Valid() && b < |cfg.batches|
    ensures var batch := cfg.batches[b];
            && cfg.Base(b) + |batch.calls| == cfg.Base(b + 1) <= |cfg.calls|
            && |batch.indices| == |batch.calls| && (!batch.safe ==> |batch.calls| == 1)
            && (forall j :: 0 <= j < |batch.calls| ==> batch.indices[j] == cfg.Base(b) + j)
            && (forall i :: cfg.Base(b) <= i < cfg.Base(b + 1) ==> cfg.safety.IsSafe(cfg.calls[i]) == batch.safe)
  {
    hide Safety.IsSafe, AllIndices, AllCalls, IsPartition, UpTo;
    var batch := cfg.batches[b];
    PrefixIsPartition(cfg, b);
    PrefixIsPartition(cfg, b + 1);
    var calls := cfg.calls[..cfg.Base(b + 1)];
    LastBatch(calls, cfg.safety, cfg.batches[..b + 1]);
    LastVerdicts(calls, cfg.safety, cfg.batches[..b + 1]);
    assert cfg.batches[..b + 1][..b] == cfg.batches[..b];
    var m := |calls| - |batch.calls|;
    SizeOfPartition(cfg, b, calls[..m]);
    SizeOfPartition(cfg, b + 1, calls);
    BatchShape(cfg, b);
    assert forall i :: 0 <= i < |calls| ==> calls[i] == cfg.calls[i];
    UpToTail(|calls|, m);
  }

  lemma SizeOfPartition(cfg: Config, b: nat, calls: seq<ToolCall>)
    requires b <= |cfg.batches| && IsPartition(calls, cfg.safety, cfg.batches[..b])
    ensures |calls| == cfg.Base(b)
  {
  }

  lemma BatchShape(cfg: Config, b: nat)
    requires cfg.Valid() && b < |cfg.batches|
    ensures var batch := cfg.batches[b];
            |batch.indices| == |batch.calls| && (!batch.safe ==> |batch.calls| == 1)
  {
    hide Safety.IsSafe, AllIndices, AllCalls, UpTo;
    assert BatchFits(cfg.safety, cfg.batches[b]);
  }

  lemma UpToTail(n: nat, m: nat)
    requires m <= n
    ensures |UpTo(n)[m..]| == n - m && forall j :: 0 <= j < n - m ==> UpTo(n)[m..][j] == m + j
  {
  }

  lemma BaseEnds(cfg: Config)
    requires cfg.Valid()
    ensures cfg.Base(0) == 0 && cfg.Base(|cfg.batches|) == |cfg.calls|
  {
    assert cfg.batches[..|cfg.batches|] == cfg.batches;
  }

  /** Everything before the current batch is done; nothing beyond the handed-out calls is touched. */
  ghost predicate Progress(cfg: Config, s: Exec) {
    && s.batch <= |cfg.batches| && |s.results| == |cfg.calls|
    && s.launched <= (if s.batch < |cfg.batches| then |cfg.batches[s.batch].calls| else 0)
    && (forall i :: i in s.started ==> i < cfg.Base(s.batch) + s.launched)
    && s.finished <= s.started
    && (forall i: nat :: i < cfg.Base(s.batch) ==> i in s.finished)
    && s.busy + |s.finished| == cfg.Base(s.batch) + s.launched
    && (cfg.limit > 0 ==> s.busy <= cfg.limit)
  }

  /** The sets and the results say what the trace says. */
  ghost predicate Recorded(s: Exec) {
    && (forall i: nat :: i in s.started <==> HasStart(s.trace, i))
    && (forall i: nat :: i in s.finished <==> HasFinish(s.trace, i))
    && Running(s.trace) == |s.started| - |s.finished|
  }

  ghost predicate GoodTrace(cfg: Config, s: Exec) {
    && CausalOrder(cfg.calls, cfg.safety, s.trace) && Once(s.trace)
    && WithinLimit(cfg.limit, s.trace) && Scattered(s.trace, s.results)
  }

  ghost predicate Inv(cfg: Config, s: Exec) {
    Progress(cfg, s) && Recorded(s) && GoodTrace(cfg, s)
  }

  lemma InitialInv(cfg: Config)
    requires cfg.Valid()
    ensures Inv(cfg, Initial(cfg))
  {
    BaseEnds(cfg);
  }

  lemma LaunchKeeps(cfg: Config, s: Exec)
    requires cfg.Valid() && Inv(cfg, s) && Enabled(cfg, s, Launch)
    ensures Inv(cfg, Apply(cfg, s, Launch))
  {
    hide GoodTrace, Recorded, IsPartition;
    BatchRange(cfg, s.batch);
    var t := Apply(cfg, s, Launch);
    assert Recorded(t) by { SameRecord(s, t); }
    assert GoodTrace(cfg, t) by { SameTrace(cfg, s, t); }
  }

  lemma SameRecord(s: Exec, t: Exec)
    requires Recorded(s) && t.started == s.started && t.finished == s.finished && t.trace == s.trace
    ensures Recorded(t)
  {
  }

  lemma SameTrace(cfg: Config, s: Exec, t: Exec)
    requires GoodTrace(cfg, s) && t.results == s.results && t.trace == s.trace
    ensures GoodTrace(cfg, t)
  {
  }

  function FirstNats(n: nat): (r: set<nat>)
    ensures |r| == n && forall i: nat :: i in r <==> i < n
  {
    if n == 0 then {} else FirstNats(n - 1) + {n - 1}
  }

  lemma Below(a: set<nat>, n: nat)
    requires forall i :: i in a ==> i < n
    ensures |a| <= n
    ensures |a| == n ==> forall i: nat :: i < n ==> i in a
  {
    var all := FirstNats(n);
    assert all == a + (all - a);
    if |a| == n {
      assert all - a == {};
    }
  }

  lemma NextBatchKeeps(cfg: Config, s: Exec)
    requires cfg.Valid() && Inv(cfg, s) && Enabled(cfg, s, NextBatch)
    ensures Inv(cfg, Apply(cfg, s, NextBatch))
  {
    hide GoodTrace, Recorded, IsPartition;
    BatchRange(cfg, s.batch);
    var t := Apply(cfg, s, NextBatch);
    Below(s.finished, cfg.Base(s.batch + 1));
    assert Recorded(t) by { SameRecord(s, t); }
    assert GoodTrace(cfg, t) by { SameTrace(cfg, s, t); }
  }

  // ----- One more event -----

  lemma EventsAfter(trace: seq<Event>, e: Event)
    ensures forall p :: 0 <= p <= |trace| ==> (trace + [e])[..p] == trace[..p]
    ensures forall i: nat :: HasStart(trace + [e], i) <==> HasStart(trace, i) || e == Started(i)
    ensures forall i: nat :: HasFinish(trace + [e], i) <==> HasFinish(trace, i) || (e.Finished? && e.i == i)
    ensures Running(trace + [e]) == Running(trace) + (if e.Started? then 1 else -1)
  {
    var t := trace + [e];
    assert t[..|t| - 1] == trace;
    forall i: nat
      ensures HasFinish(t, i) <==> HasFinish(trace, i) || (e.Finished? && e.i == i)
    {
      if HasFinish(trace, i) {
        var r :| Finished(i, r) in trace;
        assert Finished(i, r) in t;
      }
      if e.Finished? && e.i == i {
        assert Finished(i, e.result) in t;
      }
    }
  }

  lemma LimitAfter(cfg: Config, trace: seq<Event>, e: Event)
    requires WithinLimit(cfg.limit, trace) && (cfg.limit > 0 ==> Running(trace + [e]) <= cfg.limit)
    ensures WithinLimit(cfg.limit, trace + [e])
  {
    var t := trace + [e];
    assert t[..|t|] == t;
    assert forall p :: 0 <= p <= |trace| ==> t[..p] == trace[..p];
  }

  lemma BeginRecords(cfg: Config, s: Exec, i: nat)
    requires Recorded(s) && i !in s.started
    ensures Recorded(s.(started := s.started + {i}, trace := s.trace + [Started(i)]))
  {
    hide HasStart, HasFinish, Running;
    EventsAfter(s.trace, Started(i));
  }

  lemma BeginGoodTrace(cfg: Config, s: Exec, i: nat)
    requires Recorded(s) && GoodTrace(cfg, s) && i !in s.started
    requires forall a: nat :: MustWait(cfg.calls, cfg.safety, a, i) ==> a in s.finished
    requires cfg.limit > 0 ==> Running(s.trace) + 1 <= cfg.limit
    ensures GoodTrace(cfg, s.(started := s.started + {i}, trace := s.trace + [Started(i)]))
  {
    hide MustWait, HasStart, HasFinish, Running, WithinLimit, Once, CausalOrder, Scattered;
    EventsAfter(s.trace, Started(i));
    LimitAfter(cfg, s.trace, Started(i));
    OnceAfterStart(s.trace, i);
    OrderAfterStart(cfg, s.trace, i);
    ScatterAfterStart(s.trace, i, s.results);
  }

  lemma OnceAfterStart(trace: seq<Event>, i: nat)
    requires Once(trace) && !HasStart(trace, i)
    ensures Once(trace + [Started(i)])
  {
    hide HasStart;
    EventsAfter(trace, Started(i));
    StartIsNew(trace, i);
  }

  lemma OrderAfterStart(cfg: Config, trace: seq<Event>, i: nat)
    requires CausalOrder(cfg.calls, cfg.safety, trace)
    requires forall a: nat :: MustWait(cfg.calls, cfg.safety, a, i) ==> HasFinish(trace, a)
    ensures CausalOrder(cfg.calls, cfg.safety, trace + [Started(i)])
  {
    hide HasFinish, MustWait;
    EventsAfter(trace, Started(i));
    assert trace[..|trace|] == trace;
  }

  lemma ScatterAfterStart(trace: seq<Event>, i: nat, results: seq<ToolResult>)
    requires Scattered(trace, results)
    ensures Scattered(trace + [Started(i)], results)
  {
  }

  lemma OnceAfterFinish(trace: seq<Event>, i: nat, r: ToolResult)
    requires Once(trace) && HasStart(trace, i) && !HasFinish(trace, i)
    ensures Once(trace + [Finished(i, r)])
  {
    hide HasStart, HasFinish;
    EventsAfter(trace, Finished(i, r));
    FinishIsNew(trace, i);
    assert trace[..|trace|] == trace;
  }

  lemma OrderAfterFinish(cfg: Config, trace: seq<Event>, i: nat, r: ToolResult)
    requires CausalOrder(cfg.calls, cfg.safety, trace)
    ensures CausalOrder(cfg.calls, cfg.safety, trace + [Finished(i, r)])
  {
    hide HasFinish, MustWait;
    EventsAfter(trace, Finished(i, r));
  }

  lemma ScatterAfterFinish(trace: seq<Event>, i: nat, r: ToolResult, results: seq<ToolResult>)
    requires Scattered(trace, results) && i < |results| && !HasFinish(trace, i)
    ensures Scattered(trace + [Finished(i, r)], results[i := r])
  {
    hide HasFinish;
    FinishIsNew(trace, i);
  }

  lemma StartIsNew(trace: seq<Event>, i: nat)
    requires !HasStart(trace, i)
    ensures forall p :: 0 <= p < |trace| && trace[p].Started? ==> trace[p].i != i
  {
    forall p | 0 <= p < |trace| && trace[p].Started?
      ensures trace[p].i != i
    {
      assert trace[p] == Started(trace[p].i);
      assert trace[p] in trace;
    }
  }

  lemma FinishIsNew(trace: seq<Event>, i: nat)
    requires !HasFinish(trace, i)
    ensures forall p :: 0 <= p < |trace| && trace[p].Finished? ==> trace[p].i != i
  {
    forall p | 0 <= p < |trace| && trace[p].Finished?
      ensures trace[p].i != i
    {
      assert trace[p] == Finished(trace[p].i, trace[p].result);
      assert trace[p] in trace;
    }
  }

  /** A call that may be handed out waits for nothing that is still unfinished. */
  lemma NothingToWaitFor(cfg: Config, s: Exec, i: nat)
    requires cfg.Valid() && Progress(cfg, s) && s.batch < |cfg.batches| && HandedOut(cfg, s, i)
    ensures cfg.Base(s.batch) <= i < cfg.Base(s.batch) + s.launched
    ensures forall a: nat :: MustWait(cfg.calls, cfg.safety, a, i) ==> a in s.finished
  {
    hide IsPartition, Safety.IsSafe;
    BatchRange(cfg, s.batch);
  }

  lemma BeginKeeps(cfg: Config, s: Exec, i: nat)
    requires cfg.Valid() && Inv(cfg, s) && Enabled(cfg, s, Begin(i))
    ensures Inv(cfg, Apply(cfg, s, Begin(i)))
  {
    hide GoodTrace, IsPartition, HandedOut, MustWait, HasStart, HasFinish, Running;
    NothingToWaitFor(cfg, s, i);
    var top := cfg.Base(s.batch) + s.launched;
    Below(s.started + {i}, top);
    assert |s.started + {i}| == |s.started| + 1;
    BeginRecords(cfg, s, i);
    BeginGoodTrace(cfg, s, i);
  }

  lemma EndKeeps(cfg: Config, s: Exec, i: nat, outcome: Outcome)
    requires cfg.Valid() && Inv(cfg, s) && Enabled(cfg, s, End(i, outcome))
    ensures Inv(cfg, Apply(cfg, s, End(i, outcome)))
  {
    hide GoodTrace, IsPartition, HasStart, HasFinish, Running, Recorded, SafeExecuteOne;
    var r := SafeExecuteOne(cfg.calls[i], outcome);
    EndRecords(s, i, r);
    EndGoodTrace(cfg, s, i, r);
    assert |s.finished + {i}| == |s.finished| + 1;
  }

  lemma EndRecords(s: Exec, i: nat, r: ToolResult)
    requires Recorded(s) && i !in s.finished && i < |s.results| && s.busy > 0
    ensures Recorded(WithResult(s, i, r))
  {
    hide HasStart, HasFinish, Running;
    EventsAfter(s.trace, Finished(i, r));
  }

  lemma EndGoodTrace(cfg: Config, s: Exec, i: nat, r: ToolResult)
    requires Recorded(s) && GoodTrace(cfg, s) && i in s.started && i !in s.finished && i < |s.results| && s.busy > 0
    ensures GoodTrace(cfg, WithResult(s, i, r))
  {
    hide HasStart, HasFinish, Running, Once, CausalOrder, Scattered;
    EventsAfter(s.trace, Finished(i, r));
    assert s.trace[..|s.trace|] == s.trace;
    LimitAfter(cfg, s.trace, Finished(i, r));
    OnceAfterFinish(s.trace, i, r);
    OrderAfterFinish(cfg, s.trace, i, r);
    ScatterAfterFinish(s.trace, i, r, s.results);
  }

  lemma StepKeeps(cfg: Config, s: Exec, step: Step)
    requires cfg.Valid() && Inv(cfg, s) && Enabled(cfg, s, step)
    ensures Inv(cfg, Apply(cfg, s, step))
  {
    hide Inv, Apply, Enabled;
    match step
    case Launch => LaunchKeeps(cfg, s);
    case Begin(i) => BeginKeeps(cfg, s, i);
    case End(i, outcome) => EndKeeps(cfg, s, i, outcome);
    case NextBatch => NextBatchKeeps(cfg, s);
  }

  // ----- Whole runs -----

  ghost predicate IsRun(cfg: Config, run: seq<Exec>, steps: seq<Step>) {
    && |run| == |steps| + 1 && run[0] == Initial(cfg)
    && forall k :: 0 <= k < |steps| ==> Enabled(cfg, run[k], steps[k]) && run[k + 1] == Apply(cfg, run[k], steps[k])
  }

  lemma {:induction false} RunKeepsInv(cfg: Config, run: seq<Exec>, steps: seq<Step>, k: nat)
    requires cfg.Valid() && IsRun(cfg, run, steps) && k < |run|
    ensures Inv(cfg, run[k])
    decreases k
  {
    hide Inv, Enabled, Apply, IsPartition;
    if k == 0 {
      InitialInv(cfg);
    } else {
      RunKeepsInv(cfg, run, steps, k - 1);
      StepKeeps(cfg, run[k - 1], steps[k - 1]);
    }
  }

  /** At every moment of every interleaving: causal order, once each, within the limit, results in place. */
  lemma EveryRunIsSafe(cfg: Config, run: seq<Exec>, steps: seq<Step>, k: nat)
    requires cfg.Valid() && IsRun(cfg, run, steps) && k < |run|
    ensures CausalOrder(cfg.calls, cfg.safety, run[k].trace) && Once(run[k].trace)
    ensures WithinLimit(cfg.limit, run[k].trace) && Scattered(run[k].trace, run[k].results)
    ensures Complete(cfg, run[k]) ==>
              forall i: nat :: i < |cfg.calls| ==> HasStart(run[k].trace, i) && HasFinish(run[k].trace, i)
  {
    hide CausalOrder, Once, WithinLimit, Scattered, IsRun, IsPartition, HasStart, HasFinish;
    RunKeepsInv(cfg, run, steps, k);
    BaseEnds(cfg);
  }

  /** Steps still to take: three for each call and one for each batch. */
  function Work(cfg: Config, s: Exec): int
    requires s.batch <= |cfg.batches|
  {
    3 * |cfg.calls| - (cfg.Base(s.batch) + s.launched) - |s.started| - |s.finished| + |cfg.batches| - s.batch
  }

  lemma StepUsesWork(cfg: Config, s: Exec, step: Step)
    requires cfg.Valid() && Inv(cfg, s) && Enabled(cfg, s, step)
    ensures Work(cfg, Apply(cfg, s, step)) == Work(cfg, s) - 1
  {
    hide IsPartition, GoodTrace, Recorded;
    BatchRange(cfg, s.batch);
  }

  lemma WorkLeft(cfg: Config, s: Exec)
    requires cfg.Valid() && Inv(cfg, s)
    ensures Work(cfg, s) >= 0
    ensures Work(cfg, s) == 0 ==> Complete(cfg, s)
    ensures Complete(cfg, s) ==> Work(cfg, s) == 0
  {
    hide IsPartition, GoodTrace, Recorded;
    var n := |cfg.calls|;
    BaseEnds(cfg);
    if s.batch < |cfg.batches| { BatchRange(cfg, s.batch); }
    Below(s.started, cfg.Base(s.batch) + s.launched);
    Below(s.finished, cfg.Base(s.batch) + s.launched);
    if Complete(cfg, s) {
      assert s.finished == FirstNats(n) && s.started == FirstNats(n);
    }
  }

  /** Every run ends: it is complete exactly when it has taken that many steps. */
  lemma {:induction false} RunsEnd(cfg: Config, run: seq<Exec>, steps: seq<Step>, k: nat)
    requires cfg.Valid() && IsRun(cfg, run, steps) && k < |run|
    ensures k <= 3 * |cfg.calls| + |cfg.batches|
    ensures Complete(cfg, run[k]) <==> k == 3 * |cfg.calls| + |cfg.batches|
  {
    hide Inv, Enabled, Apply, Work, IsPartition;
    RunKeepsInv(cfg, run, steps, k);
    WorkAfter(cfg, run, steps, k);
    WorkLeft(cfg, run[k]);
  }

  lemma {:induction false} WorkAfter(cfg: Config, run: seq<Exec>, steps: seq<Step>, k: nat)
    requires cfg.Valid() && IsRun(cfg, run, steps) && k < |run|
    ensures Inv(cfg, run[k]) && run[k].batch <= |cfg.batches|
    ensures Work(cfg, run[k]) == 3 * |cfg.calls| + |cfg.batches| - k
    decreases k
  {
    hide Recorded, GoodTrace, Enabled, Apply, IsPartition;
    RunKeepsInv(cfg, run, steps, k);
    if k == 0 {
      BaseEnds(cfg);
    } else {
      WorkAfter(cfg, run, steps, k - 1);
      StepUsesWork(cfg, run[k - 1], steps[k - 1]);
    }
  }

  // ----- A scheduler -----

  /** Some step is always possible; the contract leaves open which one is taken. */
  method Schedule(cfg: Config, s: Exec, exec: ToolCall -> Outcome) returns (step: Step)
    requires cfg.Valid() && Inv(cfg, s) && !Complete(cfg, s)
    ensures Enabled(cfg, s, step)
    ensures step.End? ==> step.outcome == exec(cfg.calls[step.i])
  {
    hide IsPartition, GoodTrace, Recorded;
    BatchRange(cfg, s.batch);
    var b := cfg.batches[s.batch];
    var open := s.started - s.finished;
    Below(s.finished, cfg.Base(s.batch) + s.launched);
    if open != {} {
      var i :| i in open;
      assert s.finished < s.started;
      FewerFinished(s.finished, s.started, i, cfg.Base(s.batch) + s.launched);
      return End(i, exec(cfg.calls[i]));
    }
    assert forall i :: i in s.started && i !in s.finished ==> i in open;
    for j := 0 to s.launched
      invariant forall k :: 0 <= k < j ==> b.indices[k] in s.started
    {
      if b.indices[j] !in s.started {
        return Begin(b.indices[j]);
      }
    }
    AllFinished(cfg, s, s.finished);
    return if s.launched < |b.calls| then Launch else NextBatch;
  }

  lemma FewerFinished(finished: set<nat>, started: set<nat>, i: nat, top: nat)
    requires finished <= started && i in started && i !in finished && forall x :: x in started ==> x < top
    ensures |finished| < top
  {
    Below(finished + {i}, top);
    assert |finished + {i}| == |finished| + 1;
  }

  lemma AllFinished(cfg: Config, s: Exec, finished: set<nat>)
    requires cfg.Valid() && s.batch < |cfg.batches| && s.launched <= |cfg.batches[s.batch].indices|
    requires Progress(cfg, s) && finished == s.finished
    requires forall k :: 0 <= k < s.launched ==> cfg.batches[s.batch].indices[k] in finished
    ensures s.busy == 0
  {
    hide IsPartition;
    BatchRange(cfg, s.batch);
    var top := cfg.Base(s.batch) + s.launched;
    forall i: nat | i < top
      ensures i in finished
    {
      if i >= cfg.Base(s.batch) {
        assert cfg.batches[s.batch].indices[i - cfg.Base(s.batch)] == i;
      }
    }
    Below(finished, top);
    assert finished == FirstNats(top);
  }

  /**
   Runs all calls. Whatever the scheduler does, slot k holds what call k came to, every
   call runs exactly once, unsafe calls overlap nothing, and the limit holds throughout.
   */
  method ExecuteBatches(calls: seq<ToolCall>, safety: Safety, limit: int, exec: ToolCall -> Outcome)
    returns (results: seq<ToolResult>, ghost trace: seq<Event>)
    ensures |results| == |calls|
    ensures forall k :: 0 <= k < |calls| ==> results[k] == SafeExecuteOne(calls[k], exec(calls[k]))
    ensures CausalOrder(calls, safety, trace) && Once(trace) && WithinLimit(limit, trace) && Scattered(trace, results)
    ensures forall k: nat :: HasStart(trace, k) <==> k < |calls|
    ensures forall k: nat :: HasFinish(trace, k) <==> k < |calls|
  {
    hide IsPartition, CausalOrder, Once, WithinLimit, Scattered, HasStart, HasFinish, Recorded, Progress, Enabled;
    hide SafeExecuteOne, Work;
    var batches := PartitionToolCalls(calls, safety);
    var cfg := Config(calls, safety, limit, batches);
    var s := Initial(cfg);
    InitialInv(cfg);
    InBounds(cfg, s);
    while !Complete(cfg, s)
      invariant Inv(cfg, s) && s.batch <= |batches| && |s.results| == |calls|
      invariant forall i :: i in s.finished && i < |calls| ==> s.results[i] == SafeExecuteOne(calls[i], exec(calls[i]))
      decreases Work(cfg, s)
    {
      WorkLeft(cfg, s);
      var step := Schedule(cfg, s, exec);
      StepKeeps(cfg, s, step);
      StepUsesWork(cfg, s, step);
      StepFillsSlot(cfg, s, step, exec);
      s := Apply(cfg, s, step);
      InBounds(cfg, s);
      WorkLeft(cfg, s);
    }
    AtEnd(cfg, s);
    results, trace := s.results, s.trace;
  }

  lemma InBounds(cfg: Config, s: Exec)
    requires Inv(cfg, s)
    ensures s.batch <= |cfg.batches| && |s.results| == |cfg.calls|
  {
  }

  lemma StepFillsSlot(cfg: Config, s: Exec, step: Step, exec: ToolCall -> Outcome)
    requires Inv(cfg, s) && Enabled(cfg, s, step)
    requires step.End? ==> step.outcome == exec(cfg.calls[step.i])
    requires forall i :: i in s.finished && i < |cfg.calls| && i < |s.results| ==>
               s.results[i] == SafeExecuteOne(cfg.calls[i], exec(cfg.calls[i]))
    ensures var t := Apply(cfg, s, step);
            forall i :: i in t.finished && i < |cfg.calls| && i < |t.results| ==>
              t.results[i] == SafeExecuteOne(cfg.calls[i], exec(cfg.calls[i]))
  {
    hide SafeExecuteOne, GoodTrace, Recorded;
  }

  lemma AtEnd(cfg: Config, s: Exec)
    requires cfg.Valid() && Inv(cfg, s) && Complete(cfg, s)
    ensures forall i: nat :: i in s.finished <==> i < |cfg.calls|
    ensures forall k: nat :: HasStart(s.trace, k) <==> k < |cfg.calls|
    ensures forall k: nat :: HasFinish(s.trace, k) <==> k < |cfg.calls|
  {
    hide IsPartition, GoodTrace, HasStart, HasFinish;
    BaseEnds(cfg);
  }
}

/** Partitioning the tool calls of one round into batches. */
module ToolBatches {

  datatype ToolCall = ToolCall(id: string, name: string, input: string)

  /** The built-in tools whose verdict depends on their input. */
  const REFINED: set<string> := {"bash", "read_file", "write_file", "edit_file"}

  /** The baseline table, the names a surface claims, and the per-input refinement. */
  datatype Safety = Safety(surfaces: set<string>, baseline: map<string, bool>, refine: (string, string) -> bool) {

    /** May the call run beside others? The refinement can only narrow the baseline. */
    function IsSafe(call: ToolCall): (safe: bool)
      ensures safe <==> call.name in baseline && baseline[call.name]
                        && (call.name in surfaces && call.name in {"bash", "read_file", "write_file", "edit_file"} ==>
                            refine(call.name, call.input))
    {
      if call.name !in baseline then false
      else if !baseline[call.name] then false
      else if call.name !in surfaces then true
      else if call.name in REFINED then refine(call.name, call.input)
      else true
    }
  }

  datatype Batch = Batch(safe: bool, calls: seq<ToolCall>, indices: seq<nat>)

  function AllCalls(batches: seq<Batch>): seq<ToolCall> {
    if batches == [] then [] else AllCalls(batches[..|batches| - 1]) + batches[|batches| - 1].calls
  }

  function AllIndices(batches: seq<Batch>): seq<nat> {
    if batches == [] then [] else AllIndices(batches[..|batches| - 1]) + batches[|batches| - 1].indices
  }

  function UpTo(n: nat): seq<nat> {
    seq(n, i requires 0 <= i < n => i)
  }

  /** A batch holds calls of one verdict; an unsafe batch holds one call. */
  ghost predicate BatchFits(safety: Safety, b: Batch) {
    && b.calls != [] && |b.indices| == |b.calls|
    && (forall k :: 0 <= k < |b.calls| ==> safety.IsSafe(b.calls[k]) == b.safe)
    && (!b.safe ==> |b.calls| == 1)
  }

  ghost predicate NoSafeNeighbours(batches: seq<Batch>) {
    forall k :: 0 <= k < |batches| - 1 ==> !(batches[k].safe && batches[k + 1].safe)
  }

  ghost predicate IsPartition(calls: seq<ToolCall>, safety: Safety, batches: seq<Batch>) {
    && AllCalls(batches) == calls
    && AllIndices(batches) == UpTo(|calls|)
    && (forall k :: 0 <= k < |batches| ==> BatchFits(safety, batches[k]))
    && NoSafeNeighbours(batches)
  }

  lemma AppendBatch(batches: seq<Batch>, b: Batch)
    ensures AllCalls(batches + [b]) == AllCalls(batches) + b.calls
    ensures AllIndices(batches + [b]) == AllIndices(batches) + b.indices
  {
    assert (batches + [b])[..|batches|] == batches;
  }

  lemma UpToNext(n: nat)
    ensures UpTo(n + 1) == UpTo(n) + [n]
  {
  }

  method PartitionToolCalls(calls: seq<ToolCall>, safety: Safety) returns (batches: seq<Batch>)
    ensures IsPartition(calls, safety, batches)
  {
    hide Safety.IsSafe, AllCalls, AllIndices, UpTo;
    batches := [];
    EmptyPartition(safety);
    assert calls[..0] == [];
    for i := 0 to |calls|
      invariant IsPartition(calls[..i], safety, batches)
    {
      var call := calls[i];
      assert calls[..i + 1] == calls[..i] + [call];
      UpToNext(i);
      var n := |batches|;
      var safe := safety.IsSafe(call);
      if safe && n > 0 && batches[n - 1].safe {
        var last := batches[n - 1];
        var wider := Batch(true, last.calls + [call], last.indices + [i]);
        WidenLast(calls[..i], safety, batches, call, wider);
        batches := batches[..n - 1] + [wider];
        continue;
      }
      AddBatch(calls[..i], safety, batches, call, Batch(safe, [call], [i]));
      batches := batches + [Batch(safe, [call], [i])];
    }
    assert calls[..|calls|] == calls;
  }

  lemma EmptyPartition(safety: Safety)
    ensures IsPartition([], safety, [])
  {
  }

  lemma AddBatch(calls: seq<ToolCall>, safety: Safety, batches: seq<Batch>, call: ToolCall, b: Batch)
    requires IsPartition(calls, safety, batches)
    requires b == Batch(safety.IsSafe(call), [call], [|calls|])
    requires batches != [] ==> !(b.safe && batches[|batches| - 1].safe)
    ensures IsPartition(calls + [call], safety, batches + [b])
  {
    hide Safety.IsSafe, AllCalls, AllIndices, UpTo;
    AppendBatch(batches, b);
    UpToNext(|calls|);
  }

  lemma WidenLast(calls: seq<ToolCall>, safety: Safety, batches: seq<Batch>, call: ToolCall, wider: Batch)
    requires IsPartition(calls, safety, batches) && batches != [] && batches[|batches| - 1].safe && safety.IsSafe(call)
    requires var last := batches[|batches| - 1];
             wider == Batch(true, last.calls + [call], last.indices + [|calls|])
    ensures IsPartition(calls + [call], safety, batches[..|batches| - 1] + [wider])
  {
    hide Safety.IsSafe, AllCalls, AllIndices, UpTo;
    var init, last := batches[..|batches| - 1], batches[|batches| - 1];
    AppendBatch(init, last);
    AppendBatch(init, wider);
    assert batches == init + [last];
    UpToNext(|calls|);
    assert AllCalls(init) + wider.calls == AllCalls(init) + last.calls + [call];
    assert AllIndices(init) + wider.indices == AllIndices(init) + last.indices + [|calls|];
  }

  // ----- Uniqueness -----

  /** The last batch is a tail of the calls, and the batches before it partition the rest. */
  lemma LastBatch(calls: seq<ToolCall>, safety: Safety, batches: seq<Batch>)
    requires IsPartition(calls, safety, batches) && batches != []
    ensures var last := batches[|batches| - 1];
            var m := |calls| - |last.calls|;
            && 0 <= m < |calls| && last.calls == calls[m..] && last.indices == UpTo(|calls|)[m..]
            && IsPartition(calls[..m], safety, batches[..|batches| - 1])
  {
    hide Safety.IsSafe, AllCalls, AllIndices, UpTo;
    var init, last := batches[..|batches| - 1], batches[|batches| - 1];
    var m := |calls| - |last.calls|;
    assert batches == init + [last];
    assert BatchFits(safety, last);
    AppendBatch(init, last);
    SameCount(safety, init);
    assert AllCalls(init) == calls[..m] && last.calls == calls[m..];
    UpToSplits(|calls|, m, AllIndices(init), last.indices);
  }

  lemma UpToSplits(n: nat, m: nat, a: seq<nat>, b: seq<nat>)
    requires m <= n && UpTo(n) == a + b && |a| == m
    ensures a == UpTo(m) && b == UpTo(n)[m..]
  {
    assert a == UpTo(n)[..m];
  }

  /** All calls of the last batch have its verdict; before a safe one comes an unsafe call. */
  lemma LastVerdicts(calls: seq<ToolCall>, safety: Safety, batches: seq<Batch>)
    requires IsPartition(calls, safety, batches) && batches != []
    ensures var last := batches[|batches| - 1];
            var m := |calls| - |last.calls|;
            && 0 <= m < |calls|
            && (forall k :: m <= k < |calls| ==> safety.IsSafe(calls[k]) == last.safe)
            && (m > 0 ==> |batches| > 1 && (last.safe ==> !safety.IsSafe(calls[m - 1])))
  {
    hide Safety.IsSafe, AllIndices, UpTo;
    LastBatch(calls, safety, batches);
    var init, last := batches[..|batches| - 1], batches[|batches| - 1];
    var m := |calls| - |last.calls|;
    assert forall k :: m <= k < |calls| ==> calls[k] == last.calls[k - m];
    if m > 0 {
      LastBatch(calls[..m], safety, init);
      var before := init[|init| - 1];
      assert calls[m - 1] == before.calls[|before.calls| - 1];
    }
  }

  lemma {:induction false} SameCount(safety: Safety, batches: seq<Batch>)
    requires forall k :: 0 <= k < |batches| ==> BatchFits(safety, batches[k])
    ensures |AllCalls(batches)| == |AllIndices(batches)|
    decreases |batches|
  {
    if batches != [] { SameCount(safety, batches[..|batches| - 1]); }
  }

  /** There is only one such partition. */
  lemma {:induction false} PartitionIsUnique(calls: seq<ToolCall>, safety: Safety, bs: seq<Batch>, cs: seq<Batch>)
    requires IsPartition(calls, safety, bs) && IsPartition(calls, safety, cs)
    ensures bs == cs
    decreases |calls|
  {
    hide Safety.IsSafe, BatchFits, AllCalls, AllIndices, UpTo;
    if calls == [] {
      NoEmptyBatches(safety, bs);
      NoEmptyBatches(safety, cs);
    } else {
      SomeBatch(calls, safety, bs);
      SomeBatch(calls, safety, cs);
      LastBatch(calls, safety, bs);
      LastBatch(calls, safety, cs);
      LastVerdicts(calls, safety, bs);
      LastVerdicts(calls, safety, cs);
      var b, c := bs[|bs| - 1], cs[|cs| - 1];
      assert b.safe == safety.IsSafe(calls[|calls| - 1]) == c.safe;
      if b.safe {
        SameCut(calls, safety, |calls| - |b.calls|, |calls| - |c.calls|);
      }
      SameLast(safety, bs);
      SameLast(safety, cs);
      PartitionIsUnique(calls[..|calls| - |b.calls|], safety, bs[..|bs| - 1], cs[..|cs| - 1]);
      assert bs == bs[..|bs| - 1] + [b] && cs == cs[..|cs| - 1] + [c];
    }
  }

  lemma NoEmptyBatches(safety: Safety, batches: seq<Batch>)
    requires AllCalls(batches) == [] && forall k :: 0 <= k < |batches| ==> BatchFits(safety, batches[k])
    ensures batches == []
  {
  }

  lemma SomeBatch(calls: seq<ToolCall>, safety: Safety, batches: seq<Batch>)
    requires IsPartition(calls, safety, batches) && calls != []
    ensures batches != []
  {
  }

  lemma SameLast(safety: Safety, batches: seq<Batch>)
    requires batches != [] && forall k :: 0 <= k < |batches| ==> BatchFits(safety, batches[k])
    ensures !batches[|batches| - 1].safe ==> |batches[|batches| - 1].calls| == 1
  {
  }

  /** Two ways to cut off a longest run of safe calls agree. */
  lemma SameCut(calls: seq<ToolCall>, safety: Safety, m: nat, n: nat)
    requires m < |calls| && n < |calls|
    requires forall k :: m <= k < |calls| ==> safety.IsSafe(calls[k])
    requires forall k :: n <= k < |calls| ==> safety.IsSafe(calls[k])
    requires m > 0 ==> !safety.IsSafe(calls[m - 1])
    requires n > 0 ==> !safety.IsSafe(calls[n - 1])
    ensures m == n
  {
    hide Safety.IsSafe;
  }
}

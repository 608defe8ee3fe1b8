/** One round of tool calls: permission checks first, then the allowed calls in batches. */
module ToolRound {
  import opened ToolBatches
  import opened ToolExecution

  /** `Other` stands for any text a surface may return besides the three known ones. */
  datatype Decision = Allow | Deny | Ask | Other

  /** What surfaces and the gate say about a call; `hasGate` is false when no gate is wired. */
  datatype Policy = Policy(claimed: ToolCall -> bool, specName: ToolCall -> string,
                           surface: ToolCall -> Decision, hasGate: bool, gate: ToolCall -> Decision) {

    /** A call may run if no surface claims it, its surface allows it, or it asks and the gate allows it. */
    predicate Permits(call: ToolCall) {
      || !claimed(call)
      || surface(call) == Allow
      || (surface(call) == Ask && hasGate && gate(call) == Allow)
    }
  }

  /** What a call that may not run gets instead: the last word was a denial, or a question nobody answered. */
  function Denial(policy: Policy, call: ToolCall): (r: ToolResult)
    ensures r.callId == call.id && r.output == "" && r.error != ""
    // The surface's own denial never reaches the gate.
    ensures || policy.surface(call) == Deny
            || (policy.surface(call) == Ask && policy.hasGate && policy.gate(call) == Deny) ==>
              r.error == "permission denied: tool=" + policy.specName(call) + " reason=policy denied"
    ensures policy.surface(call) == Ask && (!policy.hasGate || policy.gate(call) == Ask) ==>
              r.error == "permission ask required: tool=" + policy.specName(call) + " reason=ask required"
    ensures || policy.surface(call) == Other
            || (policy.surface(call) == Ask && policy.hasGate && policy.gate(call) == Other) ==>
              r.error == "permission ask required: tool=" + policy.specName(call) + " reason="
  {
    var verdict := if policy.surface(call) == Ask && policy.hasGate then policy.gate(call) else policy.surface(call);
    var tool := policy.specName(call);
    ToolResult(call.id, "",
               match verdict
               case Deny => "permission denied: tool=" + tool + " reason=policy denied"
               case Ask => "permission ask required: tool=" + tool + " reason=ask required"
               case _ => "permission ask required: tool=" + tool + " reason=")
  }

  method CheckPermission(policy: Policy, call: ToolCall) returns (r: ToolResult, denied: bool)
    ensures denied <==> !policy.Permits(call)
    ensures !policy.claimed(call) || policy.surface(call) == Allow ==> !denied
    ensures policy.claimed(call) && policy.surface(call) in {Deny, Other} ==> denied
    ensures policy.claimed(call) && policy.surface(call) == Ask ==>
              (denied <==> !policy.hasGate || policy.gate(call) != Allow)
    ensures !denied ==> r == NO_RESULT
    ensures denied ==> r == Denial(policy, call)
  {
    hide Denial;
    if !policy.claimed(call) { return NO_RESULT, false; }
    var decision := policy.surface(call);
    if decision == Allow { return NO_RESULT, false; }
    if decision == Ask && policy.hasGate {
      decision := policy.gate(call);
    }
    if decision == Allow { return NO_RESULT, false; }
    var reason := "";
    match decision {
      case Deny => reason := "policy denied";
      case Ask => reason := "ask required";
      case _ =>
    }
    if decision == Deny {
      return ToolResult(call.id, "", "permission denied: tool=" + policy.specName(call) + " reason=" + reason), true;
    }
    var text := "permission ask required: tool=" + policy.specName(call) + " reason=" + reason;
    return ToolResult(call.id, "", text), true;
  }

  lemma PermittedByAnswers(policy: Policy)
    ensures forall call :: !policy.claimed(call) || policy.surface(call) == Allow ==> policy.Permits(call)
    ensures forall call :: policy.claimed(call) && policy.surface(call) in {Deny, Other} ==> !policy.Permits(call)
    ensures forall call :: policy.claimed(call) && policy.surface(call) == Ask ==>
              (policy.Permits(call) <==> policy.hasGate && policy.gate(call) == Allow)
  {
  }

  ghost predicate Increasing(s: seq<nat>) {
    forall a, b :: 0 <= a < b < |s| ==> s[a] < s[b]
  }

  /**
   One result per call, in call order. A denied call keeps its denial and never runs; every
   other call runs exactly once and its slot holds its own result. `pendingIdx` says which
   call each executed position stands for.
   */
  method ExecuteRound(calls: seq<ToolCall>, policy: Policy, safety: Safety, available: bool, exec: ToolCall -> Outcome)
    returns (ok: bool, results: seq<ToolResult>, ghost pendingIdx: seq<nat>, ghost trace: seq<Event>)
    ensures ok <==> available
    ensures !ok ==> results == []
    ensures ok ==> |results| == |calls|
    ensures ok ==> forall i :: 0 <= i < |calls| && policy.Permits(calls[i]) ==>
              results[i] == SafeExecuteOne(calls[i], exec(calls[i]))
    ensures ok ==> forall i :: 0 <= i < |calls| && !policy.Permits(calls[i]) ==> results[i] == Denial(policy, calls[i])
    ensures Increasing(pendingIdx) && forall k :: 0 <= k < |pendingIdx| ==> pendingIdx[k] < |calls|
    ensures ok ==> forall i: nat :: i in pendingIdx <==> i < |calls| && policy.Permits(calls[i])
    // Who runs, from the answers of surface and gate alone: a surface's denial is final.
    ensures ok ==> forall i: nat :: i < |calls| && (!policy.claimed(calls[i]) || policy.surface(calls[i]) == Allow) ==>
              i in pendingIdx
    ensures ok ==> forall i: nat ::
              i < |calls| && policy.claimed(calls[i]) && policy.surface(calls[i]) in {Deny, Other} ==> i !in pendingIdx
    ensures ok ==> forall i: nat :: i < |calls| && policy.claimed(calls[i]) && policy.surface(calls[i]) == Ask ==>
              (i in pendingIdx <==> policy.hasGate && policy.gate(calls[i]) == Allow)
    ensures Once(trace) && forall k: nat :: HasStart(trace, k) <==> k < |pendingIdx|
    ensures forall k: nat :: HasFinish(trace, k) <==> k < |pendingIdx|
    ensures CausalOrder(Selected(calls, pendingIdx), safety, trace)
  {
    hide CausalOrder, Once, HasStart, HasFinish, SafeExecuteOne, Denial, Policy.Permits, WithinLimit, Scattered;
    pendingIdx, trace := [], [];
    PermittedByAnswers(policy);
    NoEvents(calls, safety);
    if !available { return false, [], [], []; }
    results := seq(|calls|, _ => NO_RESULT);
    for i := 0 to |calls|
      invariant |results| == |calls|
      invariant forall j :: 0 <= j < |calls| ==>
                  results[j] == if j < i && !policy.Permits(calls[j]) then Denial(policy, calls[j]) else NO_RESULT
    {
      var r, denied := CheckPermission(policy, calls[i]);
      if denied {
        results := results[i := r];
      }
    }
    var pending: seq<ToolCall> := [];
    var pendingOrigIdx: seq<nat> := [];
    for i := 0 to |calls|
      invariant |pending| == |pendingOrigIdx|
      invariant forall k :: 0 <= k < |pending| ==> pendingOrigIdx[k] < i && pending[k] == calls[pendingOrigIdx[k]]
      invariant Increasing(pendingOrigIdx)
      invariant forall j: nat :: j in pendingOrigIdx <==> j < i && policy.Permits(calls[j])
    {
      if results[i].error != "" {
        continue;
      }
      pending := pending + [calls[i]];
      pendingOrigIdx := pendingOrigIdx + [i];
    }
    pendingIdx := pendingOrigIdx;
    assert Selected(calls, pendingIdx) == pending;
    if |pending| == 0 {
      return true, results, pendingIdx, [];
    }
    var partitionResults;
    partitionResults, trace := ExecuteBatches(pending, safety, 0, exec);
    results := Scatter(calls, policy, results, pendingOrigIdx, pending, partitionResults, exec);
    ok := true;
  }

  /** The last loop of `ExecuteRound`: each result goes to the slot of its own call. */
  method Scatter(calls: seq<ToolCall>, policy: Policy, results0: seq<ToolResult>, origIdx: seq<nat>,
                 pending: seq<ToolCall>, partitionResults: seq<ToolResult>, ghost exec: ToolCall -> Outcome)
    returns (results: seq<ToolResult>)
    requires |results0| == |calls| && |partitionResults| == |pending| == |origIdx| && Increasing(origIdx)
    requires forall k :: 0 <= k < |pending| ==> origIdx[k] < |calls| && pending[k] == calls[origIdx[k]]
    requires forall k :: 0 <= k < |pending| ==> partitionResults[k] == SafeExecuteOne(pending[k], exec(pending[k]))
    ensures |results| == |results0|
    ensures forall i: nat :: i < |calls| ==>
              results[i] == if i in origIdx then SafeExecuteOne(calls[i], exec(calls[i])) else results0[i]
  {
    hide SafeExecuteOne;
    results := results0;
    for k := 0 to |partitionResults|
      invariant |results| == |results0|
      invariant forall m :: 0 <= m < k ==> results[origIdx[m]] == partitionResults[m]
      invariant forall i: nat :: i < |calls| && i !in origIdx ==> results[i] == results0[i]
    {
      results := results[origIdx[k] := partitionResults[k]];
    }
  }

  function Selected(calls: seq<ToolCall>, idx: seq<nat>): seq<ToolCall>
    requires forall k :: 0 <= k < |idx| ==> idx[k] < |calls|
  {
    seq(|idx|, k requires 0 <= k < |idx| => calls[idx[k]])
  }

  lemma NoEvents(calls: seq<ToolCall>, safety: Safety)
    ensures Once([]) && forall k: nat :: !HasStart([], k) && !HasFinish([], k)
    ensures CausalOrder(Selected(calls, []), safety, [])
  {
  }
}

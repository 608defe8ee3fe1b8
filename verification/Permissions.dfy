/**
 Permission requests: who may decide them, and what a decision means.

 `State` and `Step` interleave the regions under the manager's lock, the waiting requesters
 and the user's answers. Each method of `PermissionManager` makes one such step.
 */
module Permissions {

  datatype Risk = Low | Medium | High | Critical | UnknownRisk

  datatype Status = Pending | Approved | Denied | Expired

  /** The part of the user's configuration that matters here; `NoConfig` when none is set. */
  datatype UserConfig = NoConfig | Yolo(enabled: bool, autoApproveTools: bool)

  datatype Decision = Allow | Deny | Ask

  /** The three-state gate; it never looks at the YOLO setting. */
  function CheckPermission(risk: Risk): (d: Decision)
    ensures d == Allow <==> risk == Low
    ensures d == Deny <==> risk == Critical
  {
    match risk
    case Low => Allow
    case Medium => Ask
    case High => Ask
    case Critical => Deny
    case UnknownRisk => Ask
  }

  /** `shouldAutoApprove`. */
  function ShouldAutoApprove(cfg: UserConfig, risk: Risk): (approve: bool)
    ensures approve <==> cfg.Yolo? && cfg.enabled && (risk in {Low, Medium} || (risk == High && cfg.autoApproveTools))
  {
    if cfg.NoConfig? || !cfg.enabled then false
    else
      match risk
      case Low => true
      case Medium => true
      case High => cfg.autoApproveTools
      case Critical => false
      case UnknownRisk => false
  }

  // ----- All interleavings -----

  /** Where one `Request` call is. */
  datatype Phase =
    | Created(yolo: bool)          // the configuration it read under the lock had YOLO on
    | AutoApproving                // `shouldAutoApprove` said yes
    | AutoCleaning
    | Waiting
    | GivingUp                     // denied by cancellation or timeout; the signal is still to be cleaned up
    | Answered(approved: bool)

  /** `inTable`: still in `requests`; `hasSignal`: still in `signals`; `auto`, `yes`: what has happened. */
  datatype Req = Req(risk: Risk, status: Status, phase: Phase, inTable: bool, hasSignal: bool, closes: nat,
                     auto: bool, yes: bool, resolves: nat)

  datatype State = State(cfg: UserConfig, reqs: map<string, Req>)

  datatype Step =
    | Configure(cfg: UserConfig)
    | NewRequest(id: string, risk: Risk)
    | Consider(id: string)
    | AutoApprove(id: string)
    | AutoCleanup(id: string)
    | Resolve(id: string, approved: bool)
    | Expire(ids: set<string>)
    | Signalled(id: string)
    | GiveUp(id: string)
    | Cleanup(id: string)

  predicate InPhase(s: State, id: string, p: Phase) { id in s.reqs && s.reqs[id].phase == p }

  predicate Enabled(s: State, step: Step) {
    match step
    case Configure(_) => true
    case NewRequest(id, _) => id !in s.reqs
    case Consider(id) => id in s.reqs && s.reqs[id].phase.Created?
    case AutoApprove(id) => InPhase(s, id, AutoApproving)
    case AutoCleanup(id) => InPhase(s, id, AutoCleaning)
    case Resolve(_, _) => true
    case Expire(_) => true
    case Signalled(id) => InPhase(s, id, Waiting) && s.reqs[id].closes > 0
    case GiveUp(id) => InPhase(s, id, Waiting)
    case Cleanup(id) => InPhase(s, id, GivingUp)
  }

  /** `Resolve` succeeds for this request now. */
  predicate CanResolve(s: State, id: string) {
    id in s.reqs && s.reqs[id].inTable && s.reqs[id].status == Pending
  }

  function DropSignal(r: Req): Req {
    if r.hasSignal then r.(hasSignal := false, closes := r.closes + 1) else r
  }

  function With(s: State, id: string, r: Req): State { s.(reqs := s.reqs[id := r]) }

  function Apply(s: State, step: Step): State
    requires Enabled(s, step)
  {
    match step
    case Configure(cfg) => s.(cfg := cfg)
    case NewRequest(id, risk) =>
      With(s, id, Req(risk, Pending, Created(s.cfg.Yolo? && s.cfg.enabled), true, true, 0, false, false, 0))
    case Consider(id) =>
      var r := s.reqs[id];
      var approve := r.phase.yolo && ShouldAutoApprove(s.cfg, r.risk);
      With(s, id, r.(phase := if approve then AutoApproving else Waiting))
    case AutoApprove(id) => With(s, id, s.reqs[id].(status := Approved, phase := AutoCleaning, auto := true))
    case AutoCleanup(id) => With(s, id, DropSignal(s.reqs[id]).(phase := Answered(true)))
    case Resolve(id, approved) =>
      if CanResolve(s, id) then
        var r := s.reqs[id];
        With(s, id, DropSignal(r).(status := if approved then Approved else Denied,
                                   yes := r.yes || approved, resolves := r.resolves + 1))
      else s
    case Expire(ids) =>
      s.(reqs := map id | id in s.reqs ::
           var r := s.reqs[id];
           if id in ids && r.inTable then r.(status := Expired, inTable := false) else r)
    case Signalled(id) =>
      var r := s.reqs[id];
      With(s, id, r.(phase := Answered(r.inTable && r.status == Approved)))
    case GiveUp(id) => With(s, id, s.reqs[id].(status := Denied, phase := GivingUp))
    case Cleanup(id) => With(s, id, DropSignal(s.reqs[id]).(phase := Answered(false)))
  }

  // ----- The manager -----

  /** The part of a request that the manager itself holds. */
  datatype Entry = Entry(risk: Risk, status: Status, inTable: bool, hasSignal: bool, closes: nat)

  function EntryOf(r: Req): Entry { Entry(r.risk, r.status, r.inTable, r.hasSignal, r.closes) }

  function SignalDropped(e: Entry): Entry {
    if e.hasSignal then e.(hasSignal := false, closes := e.closes + 1) else e
  }

  /** What a step does to the part of the request `id`. */
  function EntryAfter(e: Entry, id: string, step: Step): Entry {
    match step
    case Configure(_) => e
    case NewRequest(_, _) => e
    case Consider(_) => e
    case AutoApprove(i) => if i == id then e.(status := Approved) else e
    case AutoCleanup(i) => if i == id then SignalDropped(e) else e
    case Resolve(i, approved) =>
      if i == id && e.inTable && e.status == Pending then
        SignalDropped(e).(status := if approved then Approved else Denied)
      else e
    case Expire(ids) => if id in ids && e.inTable then e.(status := Expired, inTable := false) else e
    case Signalled(_) => e
    case GiveUp(i) => if i == id then e.(status := Denied) else e
    case Cleanup(i) => if i == id then SignalDropped(e) else e
  }

  /** The machine makes exactly that step on this part of every request. */
  lemma EntriesFollow(s: State, step: Step, id: string)
    requires Enabled(s, step) && id in s.reqs
    ensures id in Apply(s, step).reqs
    ensures EntryOf(Apply(s, step).reqs[id]) == EntryAfter(EntryOf(s.reqs[id]), id, step)
  {
  }

  class PermissionRequest {
    const id: string
    const risk: Risk
    const expiresAt: int
    var status: Status

    constructor (id: string, risk: Risk, expiresAt: int)
      ensures this.id == id && this.risk == risk && this.expiresAt == expiresAt && status == Pending
    {
      this.id, this.risk, this.expiresAt, status := id, risk, expiresAt, Pending;
    }
  }

  /** A channel that is only ever closed; a second close panics. */
  class Signal {
    ghost const id: string
    ghost var closes: nat

    constructor (ghost id: string)
      ensures this.id == id && closes == 0
    {
      this.id, closes := id, 0;
    }

    method Close()
      modifies this
      ensures closes == old(closes) + 1
    {
      closes := closes + 1;
    }
  }

  datatype Made = Made(request: PermissionRequest, signal: Signal)

  /** Each method makes one step of the machine on the manager's part of every request. */
  class PermissionManager {
    var userCfg: UserConfig
    var requests: map<string, PermissionRequest>
    var signals: map<string, Signal>

    /** All requests made so far, and their signals. */
    ghost var made: map<string, Made>

    /** Everything is filed under its id; signals in the table are open. */
    ghost predicate Valid()
      reads this, signals.Values
    {
      && (forall id :: id in made ==> made[id].request.id == id && made[id].signal.id == id)
      && (forall id :: id in requests ==> id in made && requests[id] == made[id].request)
      && (forall id :: id in signals ==> id in made && signals[id] == made[id].signal && signals[id].closes == 0)
    }

    ghost function Now(id: string): Entry
      requires id in made
      reads this, made[id].request, made[id].signal
    {
      Entry(made[id].request.risk, made[id].request.status, id in requests, id in signals, made[id].signal.closes)
    }

    constructor (cfg: UserConfig)
      ensures Valid() && userCfg == cfg && requests == map[] && signals == map[] && made == map[]
    {
      userCfg, requests, signals, made := cfg, map[], map[], map[];
    }

    method SetUserConfig(cfg: UserConfig)
      requires Valid()
      modifies `userCfg
      ensures Valid() && userCfg == cfg
      ensures forall id :: id in made ==> Now(id) == EntryAfter(old(Now(id)), id, Step.Configure(cfg))
    {
      userCfg := cfg;
    }

    /** First locked region of `Request`. */
    method Create(id: string, risk: Risk, expiresAt: int)
      returns (request: PermissionRequest, signal: Signal, cfg: UserConfig)
      requires Valid()
      modifies this
      ensures Valid() && fresh(request) && fresh(signal)
      ensures request.id == id && request.risk == risk && request.expiresAt == expiresAt && request.status == Pending
      ensures requests == old(requests)[id := request] && signals == old(signals)[id := signal]
      ensures made == old(made)[id := Made(request, signal)]
      ensures cfg == old(userCfg) == userCfg
      ensures Now(id) == Entry(risk, Pending, true, true, 0)
      ensures forall other :: other in old(made) && other != id ==> Now(other) == old(Now(other))
    {
      request := new PermissionRequest(id, risk, expiresAt);
      signal := new Signal(id);
      File(request, signal);
      cfg := userCfg;
    }

    method File(request: PermissionRequest, signal: Signal)
      requires Valid() && request.id == signal.id && signal.closes == 0
      modifies `requests, `signals, `made
      ensures Valid()
      ensures requests == old(requests)[request.id := request] && signals == old(signals)[request.id := signal]
      ensures made == old(made)[request.id := Made(request, signal)]
      ensures Now(request.id) == Entry(request.risk, request.status, true, true, 0)
      ensures forall other :: other in old(made) && other != request.id ==> Now(other) == old(Now(other))
    {
      requests := requests[request.id := request];
      signals := signals[request.id := signal];
      made := made[request.id := Made(request, signal)];
    }

    /** `resolveRequest`, for a requester that approves automatically or gives up. */
    method ResolveRequest(request: PermissionRequest, approved: bool)
      requires Valid() && request.id in made && made[request.id].request == request
      modifies request
      ensures Valid() && request.status == if approved then Approved else Denied
      ensures forall id :: id in made ==>
                Now(id) == EntryAfter(old(Now(id)), id,
                                      if approved then Step.AutoApprove(request.id) else Step.GiveUp(request.id))
    {
      hide Valid, Now;
      SetStatus(request, if approved then Approved else Denied);
    }

    method SetStatus(request: PermissionRequest, status: Status)
      requires Valid() && request.id in made && made[request.id].request == request
      modifies request
      ensures Valid() && request.status == status
      ensures Now(request.id) == old(Now(request.id)).(status := status)
      ensures forall id :: id in made && id != request.id ==> Now(id) == old(Now(id))
    {
      request.status := status;
    }

    /** What a requester reads when it wakes up. */
    method ReadAnswer(requestID: string) returns (approved: bool)
      requires Valid()
      ensures requestID in made ==> approved == (Now(requestID).inTable && Now(requestID).status == Approved)
    {
      approved := requestID in requests && requests[requestID].status == Approved;
    }

    /** Succeeds just for a known pending request; the signal, if still there, is closed and dropped. */
    method Resolve(requestID: string, approved: bool) returns (ok: bool)
      requires Valid()
      modifies `signals, requests.Values, signals.Values
      ensures Valid()
      ensures ok <==> requestID in requests && old(requests[requestID].status) == Pending
      ensures ok ==> requests[requestID].status == if approved then Approved else Denied
      ensures forall id :: id in requests && (id != requestID || !ok) ==>
                requests[id].status == old(requests[id].status)
      ensures signals == if ok then old(signals) - {requestID} else old(signals)
      ensures ok && requestID in old(signals) ==> old(signals)[requestID].closes == 1
      ensures forall id :: id in made ==>
                Now(id) == EntryAfter(old(Now(id)), id, Step.Resolve(requestID, approved))
    {
      hide Valid, Now, EntryAfter, SignalDropped;
      InTable(requestID);
      AfterResolve(requestID, approved);
      if requestID !in requests { return false; }
      var req := requests[requestID];
      if req.status != Pending { return false; }
      SetStatus(req, if approved then Approved else Denied);
      CloseSignal(requestID);
      return true;
    }

    lemma InTable(id: string)
      requires Valid()
      ensures id in requests ==>
                && id in made && requests[id] == made[id].request && requests[id].id == id
                && Now(id).status == requests[id].status
      ensures id in made ==> (Now(id).inTable <==> id in requests)
    {
    }

    /** A signal that is still in the table is closed and leaves it. */
    method CloseSignal(requestID: string)
      requires Valid()
      modifies `signals, signals.Values
      ensures Valid() && signals == old(signals) - {requestID}
      ensures requestID in old(signals) ==> old(signals)[requestID].closes == 1
      ensures requestID in made ==> Now(requestID) == SignalDropped(old(Now(requestID)))
      ensures forall id :: id in made && id != requestID ==> Now(id) == old(Now(id))
    {
      if requestID in signals {
        var sig := signals[requestID];
        signals := signals - {requestID};
        sig.Close();
      }
    }

    method CleanupSignal(requestID: string)
      requires Valid()
      modifies `signals, signals.Values
      ensures Valid() && signals == old(signals) - {requestID}
      ensures requestID in old(signals) ==> old(signals)[requestID].closes == 1
      ensures forall id :: id in made ==> Now(id) == EntryAfter(old(Now(id)), id, Step.Cleanup(requestID))
      ensures forall id :: id in made ==> Now(id) == EntryAfter(old(Now(id)), id, Step.AutoCleanup(requestID))
    {
      hide Valid, Now;
      CloseSignal(requestID);
    }

    /** Expired requests leave the table; their signals stay until the requester gives up. */
    method CleanupExpired(now: int)
      requires Valid()
      modifies `requests, requests.Values
      ensures Valid()
      ensures requests == map id | id in old(requests) && now <= old(requests)[id].expiresAt :: old(requests)[id]
      ensures forall id :: id in old(requests) ==>
                old(requests)[id].status ==
                if now > old(requests)[id].expiresAt then Expired else old(requests[id].status)
      ensures forall id :: id in made ==>
                Now(id) == EntryAfter(old(Now(id)), id, Step.Expire(TooOld(old(requests), now)))
    {
      hide Valid, Now, EntryAfter;
      ghost var all := requests;
      TableShown();
      ExpiredStatus(TooOld(all, now));
      ExpireAll(now);
      StatusesShown();
      WithoutTooOld(all, now);
    }

    /** The loop of `CleanupExpired`. */
    method ExpireAll(now: int)
      requires Valid()
      modifies `requests, requests.Values
      ensures Valid() && requests == old(requests) - TooOld(old(requests), now)
      ensures forall id :: id in made ==>
                Now(id) == EntryAfter(old(Now(id)), id, Step.Expire(TooOld(old(requests), now)))
    {
      hide Valid, Now, EntryAfter;
      ghost var all, tooOld := requests, TooOld(requests, now);
      var rest := requests.Keys;
      ExpireNothing();
      assert tooOld - rest == {};
      while rest != {}
        invariant Valid() && rest <= all.Keys
        invariant requests == all - (tooOld - rest)
        invariant forall id :: id in made ==> Now(id) == EntryAfter(old(Now(id)), id, Step.Expire(tooOld - rest))
        decreases rest
      {
        var id :| id in rest;
        assert id in requests && requests[id] == all[id];
        ghost var done := tooOld - rest;
        ExpireOne(id, now);
        rest := rest - {id};
        assert tooOld - rest == if id in tooOld then done + {id} else done;
        ExpireMore(done, id);
      }
      assert tooOld - rest == tooOld;
    }

    lemma TableShown()
      requires Valid()
      ensures forall id :: id in requests ==>
                id in made && requests[id] == made[id].request
                && Now(id).inTable && Now(id).status == requests[id].status
    {
    }

    lemma StatusesShown()
      ensures forall id :: id in made ==> Now(id).status == made[id].request.status
    {
    }

    /** The body of the loop. */
    method ExpireOne(id: string, now: int)
      requires Valid() && id in requests
      modifies `requests, requests[id]
      ensures Valid()
      ensures requests == if now > old(requests)[id].expiresAt then old(requests) - {id} else old(requests)
      ensures forall other :: other in made ==>
                Now(other) ==
                if now > old(requests)[id].expiresAt then EntryAfter(old(Now(other)), other, Step.Expire({id}))
                else old(Now(other))
    {
      hide Valid, Now;
      InTable(id);
      var req := requests[id];
      if now > req.expiresAt {
        SetStatus(req, Expired);
        Remove(id);
      }
    }

    method Remove(id: string)
      requires Valid() && id in requests
      modifies `requests
      ensures Valid() && requests == old(requests) - {id}
      ensures Now(id) == old(Now(id)).(inTable := false)
      ensures forall other :: other in made && other != id ==> Now(other) == old(Now(other))
    {
      requests := requests - {id};
    }
  }

  lemma AfterResolve(requestID: string, approved: bool)
    ensures forall e: Entry, id ::
              EntryAfter(e, id, Step.Resolve(requestID, approved)) ==
              if id == requestID && e.inTable && e.status == Pending then
                SignalDropped(e.(status := if approved then Approved else Denied))
              else e
  {
  }

  lemma ExpiredStatus(ids: set<string>)
    ensures forall e: Entry, id ::
              EntryAfter(e, id, Step.Expire(ids)).status == if id in ids && e.inTable then Expired else e.status
  {
  }

  lemma ExpireNothing()
    ensures forall e: Entry, id :: EntryAfter(e, id, Step.Expire({})) == e
  {
  }

  lemma ExpireMore(done: set<string>, id: string)
    ensures forall e: Entry, other ::
              EntryAfter(EntryAfter(e, other, Step.Expire(done)), other, Step.Expire({id}))
              == EntryAfter(e, other, Step.Expire(done + {id}))
  {
  }

  lemma WithoutTooOld(all: map<string, PermissionRequest>, now: int)
    ensures all - TooOld(all, now) == map id | id in all && now <= all[id].expiresAt :: all[id]
  {
  }

  function TooOld(requests: map<string, PermissionRequest>, now: int): set<string> {
    set id | id in requests && now > requests[id].expiresAt
  }

  // ----- What every run keeps -----

  ghost predicate Sound(r: Req) {
    && r.closes == (if r.hasSignal then 0 else 1)
    && r.resolves <= 1
    && (r.resolves == 1 ==> r.status != Pending)
    && (r.yes ==> r.resolves == 1)
    && (r.status == Approved ==> r.auto || r.yes)
    && (r.auto || r.phase.AutoApproving? || r.phase.AutoCleaning? ==> r.risk != Critical)
    && (r.phase.AutoCleaning? ==> r.auto)
    && (r.auto ==> r.phase.AutoCleaning? || r.phase == Answered(true))
    && (r.phase.Answered? && r.phase.approved ==> r.auto || r.yes)
    // Whoever is done with the request has settled its status.
    && (r.phase.Answered? || r.phase.GivingUp? || r.phase.AutoCleaning? ==> r.status != Pending)
    // Only a success of Resolve or the requester's own cleanup closes the signal.
    && (r.closes > 0 && !r.phase.Answered? ==> r.resolves == 1)
  }

  ghost predicate Inv(s: State) {
    forall id :: id in s.reqs ==> Sound(s.reqs[id])
  }

  lemma StepKeeps(s: State, step: Step)
    requires Inv(s) && Enabled(s, step)
    ensures Inv(Apply(s, step))
  {
  }

  ghost predicate IsRun(run: seq<State>, steps: seq<Step>) {
    && |run| == |steps| + 1 && run[0].reqs == map[]
    && forall k :: 0 <= k < |steps| ==> Enabled(run[k], steps[k]) && run[k + 1] == Apply(run[k], steps[k])
  }

  lemma {:induction false} RunKeepsInv(run: seq<State>, steps: seq<Step>, k: nat)
    requires IsRun(run, steps) && k < |run|
    ensures Inv(run[k])
    decreases k
  {
    hide Enabled, Apply, Sound;
    if k > 0 {
      RunKeepsInv(run, steps, k - 1);
      StepKeeps(run[k - 1], steps[k - 1]);
    }
  }

  /** Signals are closed at most once, so a close never panics, and a request is resolved at most once. */
  lemma ClosedAndResolvedOnce(run: seq<State>, steps: seq<Step>, k: nat, id: string)
    requires IsRun(run, steps) && k < |run| && id in run[k].reqs
    ensures run[k].reqs[id].closes <= 1 && run[k].reqs[id].resolves <= 1
  {
    RunKeepsInv(run, steps, k);
  }

  /** An earlier step that can justify an approval of this request. */
  ghost predicate Justifies(s: State, step: Step, id: string) {
    || Approves(s, step, id)
    || RuleHeld(s, step, id)
  }

  ghost predicate JustifiedBefore(run: seq<State>, steps: seq<Step>, k: nat, id: string) {
    exists m :: 0 <= m < k && m < |steps| && m < |run| && Justifies(run[m], steps[m], id)
  }

  /** Bookkeeping: what a request's flags say did happen earlier in the run. */
  lemma {:induction false} FlagsAreHistory(run: seq<State>, steps: seq<Step>, k: nat, id: string)
    requires IsRun(run, steps) && k < |run| && id in run[k].reqs
    ensures var r := run[k].reqs[id];
            r.yes || r.auto || r.phase.AutoApproving? || r.phase.AutoCleaning? ==> JustifiedBefore(run, steps, k, id)
    decreases k
  {
    hide JustifiedBefore;
    if k > 0 {
      assert Enabled(run[k - 1], steps[k - 1]);
      if id in run[k - 1].reqs {
        FlagsAreHistory(run, steps, k - 1, id);
        JustifiedLater(run, steps, k - 1, id);
      }
    }
  }

  lemma JustifiedLater(run: seq<State>, steps: seq<Step>, k: nat, id: string)
    requires k < |steps| && k < |run|
    ensures JustifiedBefore(run, steps, k, id) ==> JustifiedBefore(run, steps, k + 1, id)
    ensures Justifies(run[k], steps[k], id) ==> JustifiedBefore(run, steps, k + 1, id)
  {
    hide Justifies;
  }

  /**
   `Request` answers true only if, earlier in the run, the user approved it or the YOLO rule
   did; and the YOLO rule never approves a critical request.
   */
  lemma ApprovalIsJustified(run: seq<State>, steps: seq<Step>, k: nat, id: string)
    requires IsRun(run, steps) && k < |run| && id in run[k].reqs && run[k].reqs[id].phase == Answered(true)
    ensures JustifiedBefore(run, steps, k, id)
    ensures run[k].reqs[id].risk == Critical ==>
              exists m :: 0 <= m < k && steps[m] == Resolve(id, true) && CanResolve(run[m], id)
  {
    RunKeepsInv(run, steps, k);
    FlagsAreHistory(run, steps, k, id);
    if run[k].reqs[id].risk == Critical {
      YesMeansResolved(run, steps, k, id);
    }
  }

  lemma {:induction false} YesMeansResolved(run: seq<State>, steps: seq<Step>, k: nat, id: string)
    requires IsRun(run, steps) && k < |run| && id in run[k].reqs && run[k].reqs[id].yes
    ensures exists m :: 0 <= m < k && steps[m] == Resolve(id, true) && CanResolve(run[m], id)
    decreases k
  {
    assert k > 0;
    assert Enabled(run[k - 1], steps[k - 1]);
    if steps[k - 1] != Resolve(id, true) || !CanResolve(run[k - 1], id) {
      YesMeansResolved(run, steps, k - 1, id);
    }
  }

  // ----- Requesters get on -----

  /** How far one `Request` call has come. */
  function Progress(phase: Phase): nat {
    match phase
    case Created(_) => 0
    case AutoApproving => 1
    case Waiting => 1
    case AutoCleaning => 2
    case GivingUp => 2
    case Answered(_) => 3
  }

  predicate OfRequester(step: Step, id: string) {
    step in {Step.Consider(id), Step.AutoApprove(id), Step.AutoCleanup(id), Step.Signalled(id), Step.GiveUp(id),
             Step.Cleanup(id)}
  }

  /** Each own step brings a request nearer to its answer, and no other step moves it. */
  lemma RequestersGetOn(s: State, step: Step, id: string)
    requires Enabled(s, step) && id in s.reqs
    ensures id in Apply(s, step).reqs
    ensures var before, after := Progress(s.reqs[id].phase), Progress(Apply(s, step).reqs[id].phase);
            if OfRequester(step, id) then before < after else before == after
  {
    hide ShouldAutoApprove;
  }

  /** Until it is answered a request has a step of its own; and an accepted `Resolve` wakes a waiting one. */
  lemma RequestersCanGoOn(s: State, id: string, approved: bool)
    requires Inv(s) && id in s.reqs
    ensures match s.reqs[id].phase
            case Created(_) => Enabled(s, Step.Consider(id))
            case AutoApproving => Enabled(s, Step.AutoApprove(id))
            case Waiting => Enabled(s, Step.GiveUp(id))
            case AutoCleaning => Enabled(s, Step.AutoCleanup(id))
            case GivingUp => Enabled(s, Step.Cleanup(id))
            case Answered(_) => true
    ensures CanResolve(s, id) && s.reqs[id].phase == Waiting ==>
              Enabled(Apply(s, Step.Resolve(id, approved)), Step.Signalled(id))
  {
    assert Sound(s.reqs[id]);
  }

  // ----- Answers that come too late -----

  ghost predicate Settled(s: State, id: string) { id in s.reqs && s.reqs[id].status != Pending }

  lemma SettledStays(s: State, step: Step, id: string)
    requires Inv(s) && Enabled(s, step) && Settled(s, id)
    ensures Settled(Apply(s, step), id)
  {
  }

  lemma {:induction false} SettledForGood(run: seq<State>, steps: seq<Step>, m: nat, k: nat, id: string)
    requires IsRun(run, steps) && m <= k < |run| && Settled(run[m], id)
    ensures Settled(run[k], id) && !CanResolve(run[k], id)
    decreases k
  {
    hide Enabled, Apply, Inv;
    if m < k {
      SettledForGood(run, steps, m, k - 1, id);
      RunKeepsInv(run, steps, k - 1);
      SettledStays(run[k - 1], steps[k - 1], id);
    }
  }

  /** Giving up denies the request, whatever its status was; no `Resolve` succeeds after it, and the answer is no. */
  lemma NothingAfterGivingUp(run: seq<State>, steps: seq<Step>, m: nat, k: nat, id: string)
    requires IsRun(run, steps) && m < k < |run| && steps[m] == GiveUp(id)
    ensures id in run[m + 1].reqs && run[m + 1].reqs[id].status == Denied
    ensures !CanResolve(run[k], id)
    ensures id in run[k].reqs && (run[k].reqs[id].phase == GivingUp || run[k].reqs[id].phase == Answered(false))
  {
    assert Enabled(run[m], steps[m]);
    SettledForGood(run, steps, m + 1, k, id);
    AfterGivingUp(run, steps, m + 1, k, id);
  }

  lemma {:induction false} AfterGivingUp(run: seq<State>, steps: seq<Step>, m: nat, k: nat, id: string)
    requires IsRun(run, steps) && m <= k < |run| && id in run[m].reqs
    requires run[m].reqs[id].phase == GivingUp || run[m].reqs[id].phase == Answered(false)
    ensures id in run[k].reqs && (run[k].reqs[id].phase == GivingUp || run[k].reqs[id].phase == Answered(false))
    decreases k
  {
    hide Enabled, Apply;
    if m < k {
      AfterGivingUp(run, steps, m, k - 1, id);
      GivingUpStep(run[k - 1], steps[k - 1], id);
    }
  }

  lemma GivingUpStep(s: State, step: Step, id: string)
    requires Enabled(s, step) && id in s.reqs && (s.reqs[id].phase == GivingUp || s.reqs[id].phase == Answered(false))
    ensures id in Apply(s, step).reqs
    ensures Apply(s, step).reqs[id].phase == GivingUp || Apply(s, step).reqs[id].phase == Answered(false)
  {
    hide ShouldAutoApprove;
  }

  /** No `Resolve` succeeds once `Request` has answered. */
  lemma NothingAfterTheAnswer(run: seq<State>, steps: seq<Step>, m: nat, k: nat, id: string)
    requires IsRun(run, steps) && m <= k < |run| && id in run[m].reqs && run[m].reqs[id].phase.Answered?
    ensures !CanResolve(run[k], id)
  {
    RunKeepsInv(run, steps, m);
    assert Sound(run[m].reqs[id]);
    SettledForGood(run, steps, m, k, id);
  }

  /** The step makes the request with this risk, with YOLO mode on or off. */
  ghost predicate Makes(s: State, step: Step, id: string, risk: Risk, yolo: bool) {
    step == NewRequest(id, risk) && (yolo <==> s.cfg.Yolo? && s.cfg.enabled)
  }

  /** Step `m` made the request, with the risk and the YOLO mode that `r` has. */
  ghost predicate MadeAt(run: seq<State>, steps: seq<Step>, m: nat, id: string, r: Req) {
    && m < |run| && m < |steps|
    && exists yolo :: Makes(run[m], steps[m], id, r.risk, yolo) && (r.phase.Created? ==> r.phase == Created(yolo))
  }

  ghost predicate MadeBefore(run: seq<State>, steps: seq<Step>, k: nat, id: string, r: Req) {
    exists m: nat :: m < k && MadeAt(run, steps, m, id, r)
  }

  /** A request keeps the risk it was made with, and until it is considered whether YOLO mode was on then. */
  lemma {:induction false} CreationIsRemembered(run: seq<State>, steps: seq<Step>, k: nat, id: string)
    requires IsRun(run, steps) && k < |run| && id in run[k].reqs
    ensures MadeBefore(run, steps, k, id, run[k].reqs[id])
    decreases k
  {
    hide MadeAt, MadeBefore, Apply;
    if id in run[k - 1].reqs {
      CreationIsRemembered(run, steps, k - 1, id);
      RiskStays(run[k - 1], steps[k - 1], id);
      MadeEarlier(run, steps, k - 1, id, run[k - 1].reqs[id], run[k].reqs[id]);
    } else {
      MadeNow(run, steps, k - 1, id);
    }
  }

  lemma RiskStays(s: State, step: Step, id: string)
    requires Enabled(s, step) && id in s.reqs
    ensures id in Apply(s, step).reqs && Apply(s, step).reqs[id].risk == s.reqs[id].risk
    ensures Apply(s, step).reqs[id].phase.Created? ==> Apply(s, step).reqs[id].phase == s.reqs[id].phase
  {
  }

  lemma MadeEarlier(run: seq<State>, steps: seq<Step>, k: nat, id: string, r: Req, r': Req)
    requires MadeBefore(run, steps, k, id, r)
    requires r'.risk == r.risk && (r'.phase.Created? ==> r'.phase == r.phase)
    ensures MadeBefore(run, steps, k + 1, id, r')
  {
    hide MadeAt;
    var m: nat :| m < k && MadeAt(run, steps, m, id, r);
    MadeLikewise(run, steps, m, id, r, r');
  }

  lemma MadeLikewise(run: seq<State>, steps: seq<Step>, m: nat, id: string, r: Req, r': Req)
    requires MadeAt(run, steps, m, id, r)
    requires r'.risk == r.risk && (r'.phase.Created? ==> r'.phase == r.phase)
    ensures MadeAt(run, steps, m, id, r')
  {
    hide Makes;
  }

  lemma MadeNow(run: seq<State>, steps: seq<Step>, k: nat, id: string)
    requires IsRun(run, steps) && k < |steps| && id !in run[k].reqs && id in run[k + 1].reqs
    ensures MadeBefore(run, steps, k + 1, id, run[k + 1].reqs[id])
  {
    assert Enabled(run[k], steps[k]);
    assert Makes(run[k], steps[k], id, run[k + 1].reqs[id].risk, run[k + 1].reqs[id].phase.yolo);
    assert MadeAt(run, steps, k, id, run[k + 1].reqs[id]);
  }

  // ----- Denials -----

  /** The user's denial is accepted by this step. */
  ghost predicate Denies(s: State, step: Step, id: string) {
    step == Resolve(id, false) && CanResolve(s, id)
  }

  /** The user's answer was no, and there will be no other. */
  ghost predicate SaidNo(s: State, id: string) {
    id in s.reqs && s.reqs[id].resolves == 1 && !s.reqs[id].yes
  }

  lemma DenialSettles(s: State, step: Step, id: string)
    requires Inv(s) && Enabled(s, step) && Denies(s, step, id)
    ensures SaidNo(Apply(s, step), id)
  {
    assert Sound(s.reqs[id]);
  }

  lemma NoStaysNo(s: State, step: Step, id: string)
    requires Inv(s) && Enabled(s, step) && SaidNo(s, id)
    ensures SaidNo(Apply(s, step), id)
  {
    assert Sound(s.reqs[id]);
  }

  lemma {:induction false} DenialIsSettled(run: seq<State>, steps: seq<Step>, m: nat, k: nat, id: string)
    requires IsRun(run, steps) && m < k < |run| && Denies(run[m], steps[m], id)
    ensures SaidNo(run[k], id)
    decreases k
  {
    hide Enabled, Apply, Inv, SaidNo, Denies;
    RunKeepsInv(run, steps, k - 1);
    if m == k - 1 {
      DenialSettles(run[m], steps[m], id);
    } else {
      DenialIsSettled(run, steps, m, k - 1, id);
      NoStaysNo(run[k - 1], steps[k - 1], id);
    }
  }

  // ----- The YOLO rule -----

  /** The guard of automatic approval holds for this request: YOLO when it was made, and the rule says yes now. */
  ghost predicate RuleHeld(s: State, step: Step, id: string) {
    && step == Consider(id) && id in s.reqs
    && s.reqs[id].phase == Created(true) && ShouldAutoApprove(s.cfg, s.reqs[id].risk)
  }

  ghost predicate RuleHeldBefore(run: seq<State>, steps: seq<Step>, k: nat, id: string) {
    exists j :: 0 <= j < k && j < |steps| && j < |run| && RuleHeld(run[j], steps[j], id)
  }

  /** On the path of automatic approval. */
  predicate OnAutoPath(s: State, id: string) {
    id in s.reqs && (s.reqs[id].auto || s.reqs[id].phase.AutoApproving?)
  }

  lemma AutoPathStep(s: State, step: Step, id: string)
    requires Inv(s) && Enabled(s, step)
    ensures OnAutoPath(Apply(s, step), id) <==> OnAutoPath(s, id) || RuleHeld(s, step, id)
  {
    if id in s.reqs { assert Sound(s.reqs[id]); }
  }

  lemma RuleHeldNext(run: seq<State>, steps: seq<Step>, k: nat, id: string)
    requires k < |steps| && k < |run|
    ensures RuleHeldBefore(run, steps, k + 1, id)
            <==> RuleHeldBefore(run, steps, k, id) || RuleHeld(run[k], steps[k], id)
  {
    hide RuleHeld;
  }

  lemma {:induction false} AutoPathIsRule(run: seq<State>, steps: seq<Step>, k: nat, id: string)
    requires IsRun(run, steps) && k < |run|
    ensures OnAutoPath(run[k], id) <==> RuleHeldBefore(run, steps, k, id)
    decreases k
  {
    hide Enabled, Apply, Inv, RuleHeld, RuleHeldBefore, OnAutoPath;
    if k == 0 {
      NothingBefore(run, steps, id);
    } else {
      AutoPathIsRule(run, steps, k - 1, id);
      RunKeepsInv(run, steps, k - 1);
      AutoPathStep(run[k - 1], steps[k - 1], id);
      RuleHeldNext(run, steps, k - 1, id);
    }
  }

  lemma NothingBefore(run: seq<State>, steps: seq<Step>, id: string)
    requires IsRun(run, steps)
    ensures !OnAutoPath(run[0], id) && !RuleHeldBefore(run, steps, 0, id)
  {
  }

  /**
   A denial that was accepted is honoured unless the YOLO rule held for the request: then, and
   only then, `Request` answers true all the same.
   */
  lemma DenialHoldsUnlessRule(run: seq<State>, steps: seq<Step>, m: nat, k: nat, id: string)
    requires IsRun(run, steps) && m < k < |run| && Denies(run[m], steps[m], id)
    ensures id in run[k].reqs
    ensures run[k].reqs[id].phase.Answered? ==>
              (run[k].reqs[id].phase.approved <==> RuleHeldBefore(run, steps, k, id))
  {
    hide Enabled, Apply, Denies, RuleHeldBefore;
    DenialIsSettled(run, steps, m, k, id);
    RunKeepsInv(run, steps, k);
    assert Sound(run[k].reqs[id]);
    AutoPathIsRule(run, steps, k, id);
  }

  // ----- Approvals -----

  /** The user's approval is accepted by this step. */
  ghost predicate Approves(s: State, step: Step, id: string) {
    step == Resolve(id, true) && CanResolve(s, id)
  }

  /** The requester wakes up in step `j`, and no clean-up has expired the request since its approval in step `m`. */
  ghost predicate ReadsApproval(steps: seq<Step>, m: nat, j: nat, id: string) {
    && m < j < |steps| && steps[j] == Signalled(id)
    && forall e :: m < e < j && steps[e].Expire? ==> id !in steps[e].ids
  }

  ghost predicate HasReadApproval(steps: seq<Step>, m: nat, k: nat, id: string) {
    exists j: nat :: j < k && ReadsApproval(steps, m, j, id)
  }

  ghost predicate NotExpired(steps: seq<Step>, m: nat, k: nat, id: string) {
    forall e :: m < e < k && e < |steps| && steps[e].Expire? ==> id !in steps[e].ids
  }

  /** A request whose approval was accepted; `read` says whether the requester has read it in time. */
  ghost predicate SaidYes(s: State, id: string, read: bool) {
    && id in s.reqs
    && var r := s.reqs[id];
       && r.yes && r.resolves == 1
       && (r.phase.Created? || r.phase.Waiting? ==> r.inTable ==> r.status == Approved)
       && (!r.phase.Answered? ==> !read)
       && (r.phase.Answered? ==> (r.phase.approved <==> read || r.auto))
  }

  lemma ApprovalSettles(s: State, step: Step, id: string)
    requires Inv(s) && Enabled(s, step) && Approves(s, step, id)
    ensures SaidYes(Apply(s, step), id, false) && Apply(s, step).reqs[id].inTable
  {
    assert Sound(s.reqs[id]);
  }

  lemma OnlyPendingResolves(s: State, id: string)
    ensures CanResolve(s, id) ==> id in s.reqs && s.reqs[id].inTable && s.reqs[id].status == Pending
  {
  }

  lemma DropKeepsRest(r: Req)
    ensures DropSignal(r) == r.(hasSignal := false, closes := DropSignal(r).closes)
  {
  }

  lemma YesStaysYes(s: State, step: Step, id: string, read: bool)
    requires Inv(s) && Enabled(s, step) && SaidYes(s, id, read)
    ensures SaidYes(Apply(s, step), id, read || (step == Signalled(id) && s.reqs[id].inTable))
    ensures Apply(s, step).reqs[id].inTable <==> s.reqs[id].inTable && !(step.Expire? && id in step.ids)
  {
    hide ShouldAutoApprove, CanResolve, DropSignal;
    OnlyPendingResolves(s, id);
    DropKeepsRest(s.reqs[id]);
    assert Sound(s.reqs[id]);
  }

  lemma ReadNext(steps: seq<Step>, m: nat, k: nat, id: string)
    requires m < k < |steps|
    ensures HasReadApproval(steps, m, k + 1, id) <==>
              HasReadApproval(steps, m, k, id) || (steps[k] == Signalled(id) && NotExpired(steps, m, k, id))
    ensures NotExpired(steps, m, k + 1, id)
            <==> NotExpired(steps, m, k, id) && !(steps[k].Expire? && id in steps[k].ids)
  {
    if steps[k] == Signalled(id) && NotExpired(steps, m, k, id) {
      assert ReadsApproval(steps, m, k, id);
    }
  }

  lemma NothingRead(steps: seq<Step>, m: nat, id: string)
    ensures !HasReadApproval(steps, m, m + 1, id) && NotExpired(steps, m, m + 1, id)
  {
  }

  lemma {:induction false} ApprovalIsSettled(run: seq<State>, steps: seq<Step>, m: nat, k: nat, id: string)
    requires IsRun(run, steps) && m < k < |run| && Approves(run[m], steps[m], id)
    ensures SaidYes(run[k], id, HasReadApproval(steps, m, k, id))
    ensures run[k].reqs[id].inTable <==> NotExpired(steps, m, k, id)
    decreases k
  {
    hide Enabled, Apply, Inv, Approves, HasReadApproval, NotExpired;
    RunKeepsInv(run, steps, k - 1);
    if m == k - 1 {
      ApprovalSettles(run[m], steps[m], id);
      NothingRead(steps, m, id);
    } else {
      ApprovalIsSettled(run, steps, m, k - 1, id);
      YesStaysYes(run[k - 1], steps[k - 1], id, HasReadApproval(steps, m, k - 1, id));
      ReadNext(steps, m, k - 1, id);
    }
  }

  /**
   An approval that was accepted makes `Request` answer true exactly if the requester reads it before the
   request expires and without having given up, or if the YOLO rule held for the request anyway.
   */
  lemma ApprovalCountsExactly(run: seq<State>, steps: seq<Step>, m: nat, k: nat, id: string)
    requires IsRun(run, steps) && m < k < |run| && Approves(run[m], steps[m], id)
    ensures id in run[k].reqs
    ensures run[k].reqs[id].phase.Answered? ==>
              (run[k].reqs[id].phase.approved <==>
               HasReadApproval(steps, m, k, id) || RuleHeldBefore(run, steps, k, id))
  {
    hide Enabled, Apply, Approves, HasReadApproval, NotExpired, RuleHeldBefore;
    ApprovalIsSettled(run, steps, m, k, id);
    RunKeepsInv(run, steps, k);
    assert Sound(run[k].reqs[id]);
    AutoPathIsRule(run, steps, k, id);
  }

  // ----- Runs in which an accepted answer is not the one given -----

  ghost predicate Reaches(steps: seq<Step>, s: State) {
    exists run: seq<State> :: IsRun(run, steps) && run[|run| - 1] == s
  }

  lemma ReachesNext(steps: seq<Step>, s: State, step: Step)
    requires Reaches(steps, s) && Enabled(s, step)
    ensures Reaches(steps + [step], Apply(s, step))
  {
    hide Enabled, Apply;
    var run: seq<State> :| IsRun(run, steps) && run[|run| - 1] == s;
    assert IsRun(run + [Apply(s, step)], steps + [step]);
  }

  lemma Unused(cfg: UserConfig)
    ensures Reaches([], State(cfg, map[]))
  {
    assert IsRun([State(cfg, map[])], []);
  }

  /** The race: YOLO mode has made up its mind when the user says no. */
  const OVERRIDE: seq<Step> :=
    [NewRequest("r", Low), Consider("r"), Resolve("r", false), AutoApprove("r"), AutoCleanup("r")]

  lemma DenialCanBeOverridden()
    ensures exists s :: Reaches(OVERRIDE, s) && SaidNo(s, "r") && s.reqs["r"].phase == Answered(true)
  {
    hide IsRun, Reaches;
    var s := State(Yolo(true, false), map[]);
    Unused(s.cfg);
    ReachesNext(OVERRIDE[..0], s, NewRequest("r", Low));
    assert OVERRIDE[..0] + [NewRequest("r", Low)] == OVERRIDE[..1];
    s := Apply(s, NewRequest("r", Low));
    ReachesNext(OVERRIDE[..1], s, Consider("r"));
    assert OVERRIDE[..1] + [Consider("r")] == OVERRIDE[..2];
    s := Apply(s, Consider("r"));
    ReachesNext(OVERRIDE[..2], s, Resolve("r", false));
    assert OVERRIDE[..2] + [Resolve("r", false)] == OVERRIDE[..3];
    s := Apply(s, Resolve("r", false));
    ReachesNext(OVERRIDE[..3], s, AutoApprove("r"));
    assert OVERRIDE[..3] + [AutoApprove("r")] == OVERRIDE[..4];
    s := Apply(s, AutoApprove("r"));
    ReachesNext(OVERRIDE[..4], s, AutoCleanup("r"));
    assert OVERRIDE[..4] + [AutoCleanup("r")] == OVERRIDE[..5];
    s := Apply(s, AutoCleanup("r"));
    assert OVERRIDE[..5] == OVERRIDE;
  }

  /** The other race: the clean-up runs between the user's yes and the requester's look at the table. */
  const LATE: seq<Step> := [NewRequest("r", Medium), Consider("r"), Resolve("r", true), Expire({"r"}), Signalled("r")]

  lemma ApprovalCanBeLost()
    ensures exists s :: Reaches(LATE, s) && SaidYes(s, "r", false) && s.reqs["r"].phase == Answered(false)
  {
    hide IsRun, Reaches;
    var s := State(NoConfig, map[]);
    Unused(s.cfg);
    ReachesNext(LATE[..0], s, NewRequest("r", Medium));
    assert LATE[..0] + [NewRequest("r", Medium)] == LATE[..1];
    s := Apply(s, NewRequest("r", Medium));
    ReachesNext(LATE[..1], s, Consider("r"));
    assert LATE[..1] + [Consider("r")] == LATE[..2];
    s := Apply(s, Consider("r"));
    ReachesNext(LATE[..2], s, Resolve("r", true));
    assert LATE[..2] + [Resolve("r", true)] == LATE[..3];
    s := Apply(s, Resolve("r", true));
    ReachesNext(LATE[..3], s, Expire({"r"}));
    assert LATE[..3] + [Expire({"r"})] == LATE[..4];
    s := Apply(s, Expire({"r"}));
    ReachesNext(LATE[..4], s, Signalled("r"));
    assert LATE[..4] + [Signalled("r")] == LATE[..5];
    s := Apply(s, Signalled("r"));
    assert LATE[..5] == LATE;
  }
}

/**
 The table of requests in flight, shared by requesters, the read loop and timeouts.

 Ids follow section 5 of JSON-RPC 2.0: a response carries the id of its request. Each
 request has a channel that holds one message. `State` and `Step` interleave requesters,
 timeouts and the read loop; each method of `RpcClient` makes one such step.
 */
module LspPending {

  datatype Msg = Reply(id: int, payload: string) | Drained(error: string)

  // ----- All interleavings -----

  datatype Outcome = Answer(msg: Msg) | TimedOut | WriteError

  /** Where one `request` call is. */
  datatype Phase = Allocated | Registered | Waiting | Over(outcome: Outcome)

  /** One request: its phase, its channel, and how often the channel was sent to. */
  datatype Request = Request(phase: Phase, box: seq<Msg>, sends: nat)

  /** The read loop is between messages, holds an answer it has not sent yet, or has ended. */
  datatype ReadLoop = Reading | Holding(id: nat, msg: Msg) | Ended

  datatype State = State(nextID: nat, pending: set<nat>, requests: map<nat, Request>, loop: ReadLoop)

  const START := State(0, {}, map[], Reading)

  datatype Step =
    | Alloc
    | Enter(id: nat)
    | Written(id: nat)
    | WriteFails(id: nat)
    | Arrive(replyTo: int, payload: string)
    | Deliver
    | Drain(error: string)
    | Receive(id: nat)
    | Timeout(id: nat)

  predicate InPhase(s: State, id: nat, phase: Phase) {
    id in s.requests && s.requests[id].phase == phase
  }

  /** `Deliver` and `Drain` are always possible: that the channel has room is proved, not asked. */
  predicate Enabled(s: State, step: Step) {
    match step
    case Alloc => true
    case Enter(id) => InPhase(s, id, Allocated)
    case Written(id) => InPhase(s, id, Registered)
    case WriteFails(id) => InPhase(s, id, Registered)
    case Arrive(_, _) => s.loop == Reading
    case Deliver => s.loop.Holding?
    case Drain(_) => s.loop == Reading
    case Receive(id) => InPhase(s, id, Waiting) && s.requests[id].box != []
    case Timeout(id) => InPhase(s, id, Waiting)
  }

  function Sent(r: Request, m: Msg): Request {
    r.(box := r.box + [m], sends := r.sends + 1)
  }

  function Moved(s: State, id: nat, phase: Phase): State
    requires id in s.requests
  {
    s.(requests := s.requests[id := s.requests[id].(phase := phase)])
  }

  function Apply(s: State, step: Step): State
    requires Enabled(s, step)
  {
    match step
    case Alloc => s.(nextID := s.nextID + 1, requests := s.requests[s.nextID + 1 := Request(Allocated, [], 0)])
    case Enter(id) => Moved(s, id, Registered).(pending := s.pending + {id})
    case Written(id) => Moved(s, id, Waiting)
    case WriteFails(id) => Moved(s, id, Over(WriteError)).(pending := s.pending - {id})
    case Arrive(id, payload) =>
      if id >= 0 && id in s.pending then s.(pending := s.pending - {id}, loop := Holding(id, Reply(id, payload))) else s
    case Deliver =>
      var id := s.loop.id;
      if id in s.requests then s.(loop := Reading, requests := s.requests[id := Sent(s.requests[id], s.loop.msg)])
      else s.(loop := Reading)
    case Drain(error) =>
      s.(pending := {}, loop := Ended,
         requests := map id | id in s.requests ::
           if id in s.pending then Sent(s.requests[id], Drained(error)) else s.requests[id])
    case Receive(id) =>
      var r := s.requests[id];
      s.(requests := s.requests[id := r.(phase := Over(Answer(r.box[0])), box := r.box[1..])])
    case Timeout(id) => Moved(s, id, Over(TimedOut)).(pending := s.pending - {id})
  }

  // ----- The part of a state that the client itself holds -----

  datatype Box = Box(buf: seq<Msg>, sends: nat)

  /** The counter, the table, and the channels of all requests made so far. */
  datatype Table = Table(nextID: nat, pending: set<nat>, boxes: map<nat, Box>)

  function TableOf(s: State): Table {
    Table(s.nextID, s.pending, map id | id in s.requests :: Box(s.requests[id].box, s.requests[id].sends))
  }

  function Filled(b: Box, m: Msg): Box { Box(b.buf + [m], b.sends + 1) }

  /** What a step does to that part; `loop` says what the read loop holds. */
  function TableAfter(t: Table, loop: ReadLoop, step: Step): Table {
    match step
    case Alloc => t.(nextID := t.nextID + 1, boxes := t.boxes[t.nextID + 1 := Box([], 0)])
    case Enter(id) => t.(pending := t.pending + {id})
    case Written(_) => t
    case WriteFails(id) => t.(pending := t.pending - {id})
    case Arrive(id, _) => if id in t.pending then t.(pending := t.pending - {id as nat}) else t
    case Deliver =>
      if loop.Holding? && loop.id in t.boxes then t.(boxes := t.boxes[loop.id := Filled(t.boxes[loop.id], loop.msg)])
      else t
    case Drain(error) =>
      t.(pending := {},
         boxes := map id | id in t.boxes ::
           if id in t.pending then Filled(t.boxes[id], Drained(error)) else t.boxes[id])
    case Receive(id) =>
      if id in t.boxes && t.boxes[id].buf != [] then
        t.(boxes := t.boxes[id := Box(t.boxes[id].buf[1..], t.boxes[id].sends)])
      else t
    case Timeout(id) => t.(pending := t.pending - {id})
  }

  lemma TableAfterAlloc(t: Table)
    ensures TableAfter(t, Reading, Step.Alloc) == Table(t.nextID + 1, t.pending, t.boxes[t.nextID + 1 := Box([], 0)])
  {
  }

  lemma TableAfterDeliver(t: Table, id: nat, m: Msg)
    requires id in t.boxes
    ensures TableAfter(t, Holding(id, m), Step.Deliver) == t.(boxes := t.boxes[id := Filled(t.boxes[id], m)])
  {
  }

  predicate OfReadLoop(step: Step) { step.Arrive? || step.Deliver? || step.Drain? }

  lemma LoopStepFollows(s: State, step: Step)
    requires Enabled(s, step) && OfReadLoop(step)
    ensures TableOf(Apply(s, step)) == TableAfter(TableOf(s), s.loop, step)
  {
  }

  lemma RequesterStepFollows(s: State, step: Step)
    requires Enabled(s, step) && !OfReadLoop(step)
    ensures TableOf(Apply(s, step)) == TableAfter(TableOf(s), s.loop, step)
  {
  }

  /** The machine makes exactly that step on this part. */
  lemma TableFollows(s: State, step: Step)
    requires Enabled(s, step)
    ensures TableOf(Apply(s, step)) == TableAfter(TableOf(s), s.loop, step)
  {
    hide Enabled, Apply, TableOf, TableAfter;
    if OfReadLoop(step) {
      LoopStepFollows(s, step);
    } else {
      RequesterStepFollows(s, step);
    }
  }

  // ----- The client -----

  /** A channel of capacity one. */
  class Channel {
    var buf: seq<Msg>
    ghost var sends: nat

    constructor ()
      ensures buf == [] && sends == 0
    {
      buf, sends := [], 0;
    }

    /** Sending to a full channel would block; the precondition says it never does. */
    method Send(m: Msg)
      requires buf == []
      modifies this
      ensures buf == [m] && sends == old(sends) + 1
    {
      buf := [m];
      sends := sends + 1;
    }
  }

  ghost predicate IsDrained(ch: Channel, error: string)
    reads ch
  {
    ch.buf == [Drained(error)] && ch.sends == 1
  }

  ghost predicate Separate(channels: map<nat, Channel>) {
    forall i, j :: i in channels && j in channels && i != j ==> channels[i] != channels[j]
  }

  ghost predicate Listed(pending: map<nat, Channel>, channels: map<nat, Channel>, boxes: map<nat, Box>) {
    forall id :: id in pending ==>
      id in channels && id in boxes && pending[id] == channels[id] && boxes[id] == Box([], 0)
  }

  /** A request that is filled as it leaves the table. */
  lemma ListedWithout(pending: map<nat, Channel>, channels: map<nat, Channel>, boxes: map<nat, Box>, id: nat, b: Box)
    requires Listed(pending, channels, boxes)
    ensures Listed(pending - {id}, channels, boxes[id := b])
  {
  }

  lemma ListedWithNew(pending: map<nat, Channel>, channels: map<nat, Channel>, boxes: map<nat, Box>, id: nat,
                      ch: Channel)
    requires Listed(pending, channels, boxes) && id !in channels
    ensures Listed(pending, channels[id := ch], boxes[id := Box([], 0)])
  {
  }

  lemma OthersDiffer(channels: map<nat, Channel>, id: nat)
    requires Separate(channels) && id in channels
    ensures forall k :: k in channels && k != id ==> channels[k] != channels[id]
  {
  }

  lemma OneMoreIsSeparate(channels: map<nat, Channel>, id: nat, ch: Channel)
    requires Separate(channels) && ch !in channels.Values
    ensures Separate(channels[id := ch])
  {
    assert forall k :: k in channels ==> channels[k] in channels.Values;
  }

  /** Each method makes one step of the machine on the client's part of the state. */
  class RpcClient {
    var nextID: nat
    var pending: map<nat, Channel>

    /** The channel of every request made so far, and what each has held and holds. */
    ghost var channels: map<nat, Channel>
    ghost var boxes: map<nat, Box>

    /** Channels are distinct and hold what their boxes say. */
    ghost predicate Mirrored()
      reads this, channels.Values
    {
      && boxes.Keys == channels.Keys && Separate(channels)
      && forall id :: id in channels ==> 1 <= id <= nextID && boxes[id] == Box(channels[id].buf, channels[id].sends)
    }

    /** Those in the table are empty and have never been sent to. */
    ghost predicate Valid()
      reads this, channels.Values
    {
      Mirrored() && Listed(pending, channels, boxes)
    }

    ghost function Now(): Table
      reads this
    {
      Table(nextID, pending.Keys, boxes)
    }

    constructor ()
      ensures Valid() && nextID == 0 && pending == map[] && Now() == TableOf(START)
    {
      nextID, pending, channels, boxes := 0, map[], map[], map[];
    }

    /** Start of `request`: a fresh id and a fresh channel. */
    method NewRequest() returns (id: nat, ch: Channel)
      requires Valid()
      modifies this
      ensures Valid() && fresh(ch) && ch.buf == [] && ch.sends == 0
      ensures id == old(nextID) + 1 == nextID
      ensures pending == old(pending) && channels == old(channels)[id := ch]
      ensures Now() == TableAfter(old(Now()), Reading, Step.Alloc)
    {
      hide TableAfter, Separate, Listed;
      TableAfterAlloc(Now());
      ch := new Channel();
      OneMoreIsSeparate(channels, nextID + 1, ch);
      ListedWithNew(pending, channels, boxes, nextID + 1, ch);
      nextID := nextID + 1;
      id := nextID;
      channels, boxes := channels[id := ch], boxes[id := Box([], 0)];
    }

    /** The first locked region of `request`. */
    method Register(id: nat, ch: Channel)
      requires Valid() && id in channels && channels[id] == ch && ch.buf == [] && ch.sends == 0
      modifies `pending
      ensures Valid() && pending == old(pending)[id := ch]
      ensures Now() == TableAfter(old(Now()), Reading, Step.Enter(id))
    {
      hide Separate;
      pending := pending[id := ch];
    }

    /** The locked region after a failed write, or after a timeout. */
    method Forget(id: nat)
      requires Valid()
      modifies `pending
      ensures Valid() && pending == old(pending) - {id}
      ensures Now() == TableAfter(old(Now()), Reading, Step.WriteFails(id))
      ensures Now() == TableAfter(old(Now()), Reading, Step.Timeout(id))
    {
      hide Separate;
      pending := pending - {id};
    }

    /** The locked region of the read loop: the request with this id leaves the table. */
    method Take(id: int) returns (ch: Channel?)
      requires Valid()
      modifies `pending
      ensures Valid()
      ensures id in old(pending) ==> ch == old(pending)[id] && pending == old(pending) - {id}
      ensures id !in old(pending) ==> ch == null && pending == old(pending)
      ensures forall payload :: Now() == TableAfter(old(Now()), Reading, Step.Arrive(id, payload))
    {
      hide Separate;
      ch := null;
      if id in pending {
        ch := pending[id];
        pending := pending - {id};
      }
    }

    /** The send of the read loop, after the lock is free again. */
    method Answer(id: nat, ch: Channel, m: Msg)
      requires Valid() && id in channels && channels[id] == ch && id !in pending && ch.buf == []
      modifies ch, `boxes
      ensures Valid() && ch.buf == [m] && ch.sends == old(ch.sends) + 1
      ensures Now() == TableAfter(old(Now()), Holding(id, m), Step.Deliver)
    {
      hide TableAfter, Mirrored;
      ghost var before := Now();
      Fill(id, ch, m);
      TableAfterDeliver(before, id, m);
    }

    /** A send, and its record. */
    method Fill(id: nat, ch: Channel, m: Msg)
      requires Mirrored() && id in channels && channels[id] == ch && ch.buf == []
      modifies ch, `boxes
      ensures Mirrored() && id in old(boxes) && boxes == old(boxes)[id := Filled(old(boxes)[id], m)]
      ensures ch.buf == [m] && ch.sends == old(ch.sends) + 1
    {
      hide Separate;
      OthersDiffer(channels, id);
      ch.Send(m);
      boxes := boxes[id := Filled(boxes[id], m)];
    }

    /** The end of `request`: the message that its channel holds. */
    method Receive(id: nat, ch: Channel) returns (m: Msg)
      requires Valid() && id in channels && channels[id] == ch && id !in pending && ch.buf != []
      modifies ch, `boxes
      ensures Valid() && [m] + ch.buf == old(ch.buf) && ch.sends == old(ch.sends)
      ensures Now() == TableAfter(old(Now()), Reading, Step.Receive(id))
    {
      hide Separate;
      OthersDiffer(channels, id);
      m := ch.buf[0];
      ch.buf := ch.buf[1..];
      boxes := boxes[id := Box(ch.buf, ch.sends)];
    }

    /** A reply to a request in the table is sent to it; any other is dropped. */
    method Dispatch(id: int, m: Msg) returns (ghost taken: Channel?)
      requires Valid()
      modifies `pending, `boxes, pending.Values
      ensures Valid()
      ensures id in old(pending) ==>
                taken == old(pending)[id] && pending == old(pending) - {id} && taken.buf == [m] && taken.sends == 1
      ensures id !in old(pending) ==> taken == null && pending == old(pending)
      ensures forall k :: k in pending ==> pending[k].buf == []
    {
      hide Separate;
      var ch := Take(id);
      taken := ch;
      if ch != null {
        Answer(id, ch, m);
      }
    }

    /** Every request still in the table gets one error message, and the table is empty. */
    method DrainPending(error: string)
      requires Valid()
      modifies `pending, `boxes, pending.Values
      ensures Valid() && pending == map[]
      ensures forall id :: id in old(pending) ==> IsDrained(old(pending)[id], error)
      ensures Now() == TableAfter(old(Now()), Reading, Step.Drain(error))
    {
      hide TableAfter, Separate;
      ghost var all := pending;
      DrainAll(error);
      DrainedTable(old(Now()), boxes, error);
      forall id | id in all
        ensures IsDrained(all[id], error)
      {
        assert boxes[id] == Box([Drained(error)], 1);
      }
    }

    /** The loop of `DrainPending`. */
    method DrainAll(error: string)
      requires Valid()
      modifies `pending, `boxes, pending.Values
      ensures Valid() && pending == map[]
      ensures PartlyDrained(old(boxes), boxes, old(pending.Keys), error)
    {
      hide Valid, PartlyDrained, Filled;
      ghost var all, before := pending.Keys, boxes;
      NoneDrained(before, error);
      assert all - pending.Keys == {};
      while pending != map[]
        invariant Valid() && pending.Keys <= all && pending.Values <= old(pending.Values)
        invariant PartlyDrained(before, boxes, all - pending.Keys, error)
        decreases pending.Keys
      {
        ghost var left, now := pending.Keys, boxes;
        var id := DrainOne(error);
        DrainedNext(before, now, all - left, id, error);
        assert all - pending.Keys == all - left + {id};
      }
      assert all - pending.Keys == all;
    }

    /** One turn of the loop, for any entry of the table. */
    method DrainOne(error: string) returns (ghost id: nat)
      requires Valid() && pending != map[]
      modifies `pending, `boxes, pending.Values
      ensures Valid()
      ensures id in old(pending) && pending == old(pending) - {id}
      ensures id in old(boxes) && boxes == old(boxes)[id := Filled(old(boxes)[id], Drained(error))]
    {
      hide Separate;
      var next :| next in pending;
      id := next;
      var ch := pending[next];
      ListedWithout(pending, channels, boxes, next, Filled(boxes[next], Drained(error)));
      Fill(next, ch, Drained(error));
      pending := pending - {next};
    }
  }

  /** The boxes of `done` have been sent the error, the others are as before. */
  ghost predicate PartlyDrained(before: map<nat, Box>, now: map<nat, Box>, done: set<nat>, error: string) {
    && now.Keys == before.Keys
    && forall id :: id in before ==> now[id] == if id in done then Filled(before[id], Drained(error)) else before[id]
  }

  lemma NoneDrained(before: map<nat, Box>, error: string)
    ensures PartlyDrained(before, before, {}, error)
  {
  }

  lemma DrainedNext(before: map<nat, Box>, now: map<nat, Box>, done: set<nat>, id: nat, error: string)
    requires PartlyDrained(before, now, done, error) && id in now && id !in done
    ensures PartlyDrained(before, now[id := Filled(now[id], Drained(error))], done + {id}, error)
  {
  }

  lemma DrainedTable(t: Table, boxes: map<nat, Box>, error: string)
    requires PartlyDrained(t.boxes, boxes, t.pending, error)
    ensures TableAfter(t, Reading, Step.Drain(error)) == Table(t.nextID, {}, boxes)
  {
  }

  // ----- What every run keeps -----

  ghost predicate MeantFor(m: Msg, id: nat) {
    m.Drained? || m.id == id
  }

  /** What holds of one request at every moment. */
  ghost predicate Sound(s: State, id: nat)
    requires id in s.requests
  {
    var r := s.requests[id];
    var held := s.loop.Holding? && s.loop.id == id;
    && |r.box| <= r.sends <= 1
    && (forall k :: 0 <= k < |r.box| ==> MeantFor(r.box[k], id))
    && (r.phase.Over? && r.phase.outcome.Answer? ==> MeantFor(r.phase.outcome.msg, id) && r.sends == 1)
    && (id in s.pending ==> r.sends == 0 && !held && (r.phase.Registered? || r.phase.Waiting?))
    && (held ==> r.sends == 0 && MeantFor(s.loop.msg, id) && !r.phase.Allocated?)
    && (r.phase.Allocated? ==> r.sends == 0)
    // A request that waits has not been lost: it is in the table, about to be answered, or answered.
    && (r.phase.Registered? || r.phase.Waiting? ==> id in s.pending || held || r.box != [])
  }

  ghost predicate Inv(s: State) {
    && (forall id :: id in s.requests <==> 1 <= id <= s.nextID)
    && s.pending <= s.requests.Keys
    && (s.loop.Holding? ==> s.loop.id in s.requests)
    && forall id :: id in s.requests ==> Sound(s, id)
  }

  /** Steps of the read loop: a reply comes in, is delivered, or the loop ends. */
  lemma LoopStepKeeps(s: State, step: Step)
    requires Inv(s) && Enabled(s, step) && OfReadLoop(step)
    ensures Inv(Apply(s, step))
  {
    hide MeantFor;
    match step
    case Arrive(_, payload) => RepliesMatch(payload);
    case Drain(error) => DrainsMatch(error);
    case _ =>
  }

  lemma AllocKeeps(s: State)
    requires Inv(s)
    ensures Inv(Apply(s, Alloc))
  {
    hide MeantFor;
  }

  /** The other steps of a requester. */
  lemma RequesterStepKeeps(s: State, step: Step)
    requires Inv(s) && Enabled(s, step) && !OfReadLoop(step) && !step.Alloc?
    ensures Inv(Apply(s, step))
  {
    hide MeantFor;
  }

  lemma StepKeeps(s: State, step: Step)
    requires Inv(s) && Enabled(s, step)
    ensures Inv(Apply(s, step))
  {
    hide Inv, Enabled, Apply;
    if OfReadLoop(step) {
      LoopStepKeeps(s, step);
    } else if step.Alloc? {
      AllocKeeps(s);
    } else {
      RequesterStepKeeps(s, step);
    }
  }

  lemma RepliesMatch(payload: string)
    ensures forall i: nat :: MeantFor(Reply(i, payload), i)
  {
  }

  lemma DrainsMatch(error: string)
    ensures forall i: nat :: MeantFor(Drained(error), i)
  {
  }

  ghost predicate IsRun(run: seq<State>, steps: seq<Step>) {
    && |run| == |steps| + 1 && run[0] == START
    && forall k :: 0 <= k < |steps| ==> Enabled(run[k], steps[k]) && run[k + 1] == Apply(run[k], steps[k])
  }

  lemma {:induction false} RunKeepsInv(run: seq<State>, steps: seq<Step>, k: nat)
    requires IsRun(run, steps) && k < |run|
    ensures Inv(run[k])
    decreases k
  {
    hide Inv, Enabled, Apply;
    if k == 0 {
      StartIsSound();
    } else {
      RunKeepsInv(run, steps, k - 1);
      StepKeeps(run[k - 1], steps[k - 1]);
    }
  }

  lemma StartIsSound()
    ensures Inv(START)
  {
  }

  /**
   Whatever the interleaving: one send at most, answers reach their own request, and the
   table holds no finished request.
   */
  lemma TableIsSound(run: seq<State>, steps: seq<Step>, k: nat, id: nat)
    requires IsRun(run, steps) && k < |run| && id in run[k].requests
    ensures run[k].requests[id].sends <= 1
    ensures var phase := run[k].requests[id].phase;
            && (phase.Over? ==> id !in run[k].pending)
            && (phase.Over? && phase.outcome.Answer? ==> MeantFor(phase.outcome.msg, id))
            && (phase.Waiting? ==>
                || id in run[k].pending
                || run[k].requests[id].box != []
                || (run[k].loop.Holding? && run[k].loop.id == id))
  {
    RunKeepsInv(run, steps, k);
    assert Sound(run[k], id);
  }

  /** No send ever blocks: the channel is empty whenever the read loop sends. */
  lemma SendsNeverBlock(run: seq<State>, steps: seq<Step>, k: nat)
    requires IsRun(run, steps) && k < |run|
    ensures run[k].loop.Holding? ==> run[k].loop.id in run[k].requests && run[k].requests[run[k].loop.id].box == []
    ensures forall id :: id in run[k].pending ==> id in run[k].requests && run[k].requests[id].box == []
  {
    RunKeepsInv(run, steps, k);
    if run[k].loop.Holding? { assert Sound(run[k], run[k].loop.id); }
    assert forall id :: id in run[k].pending ==> Sound(run[k], id);
  }

  /** A reply to a request that is over, or was never made, changes nothing. */
  lemma LateRepliesAreDropped(run: seq<State>, steps: seq<Step>, k: nat)
    requires IsRun(run, steps) && k < |steps| && steps[k].Arrive?
    requires var id := steps[k].replyTo; id < 0 || id !in run[k].requests || run[k].requests[id].phase.Over?
    ensures run[k + 1] == run[k]
  {
    RunKeepsInv(run, steps, k);
    var id := steps[k].replyTo;
    if id >= 0 && id in run[k].requests { assert Sound(run[k], id); }
  }

  lemma OutcomeStays(s: State, step: Step, id: nat)
    requires Inv(s) && Enabled(s, step) && id in s.requests && s.requests[id].phase.Over?
    ensures id in Apply(s, step).requests && Apply(s, step).requests[id].phase == s.requests[id].phase
  {
  }

  /** Once over, a request keeps its outcome for good. */
  lemma {:induction false} OutcomesAreFinal(run: seq<State>, steps: seq<Step>, k: nat, n: nat, id: nat)
    requires IsRun(run, steps) && k <= n < |run| && id in run[k].requests && run[k].requests[id].phase.Over?
    ensures id in run[n].requests && run[n].requests[id].phase == run[k].requests[id].phase
    decreases n
  {
    hide Inv, Enabled, Apply;
    if k < n {
      OutcomesAreFinal(run, steps, k, n - 1, id);
      RunKeepsInv(run, steps, n - 1);
      OutcomeStays(run[n - 1], steps[n - 1], id);
    }
  }

  // ----- Requesters get on -----

  /** How far one `request` call has come. */
  function Progress(phase: Phase): nat {
    match phase
    case Allocated => 0
    case Registered => 1
    case Waiting => 2
    case Over(_) => 3
  }

  predicate OfRequester(step: Step, id: nat) {
    step in {Step.Enter(id), Step.Written(id), Step.WriteFails(id), Step.Receive(id), Step.Timeout(id)}
  }

  /** Each own step brings a request nearer to its end, no other step moves it, and until then it has one. */
  lemma RequestersGetOn(s: State, step: Step, id: nat)
    requires Enabled(s, step) && id in s.requests && id <= s.nextID
    ensures id in Apply(s, step).requests
    ensures var before, after := Progress(s.requests[id].phase), Progress(Apply(s, step).requests[id].phase);
            if OfRequester(step, id) then before < after else before == after
    ensures match s.requests[id].phase
            case Allocated => Enabled(s, Step.Enter(id))
            case Registered => Enabled(s, Step.Written(id)) && Enabled(s, Step.WriteFails(id))
            case Waiting => Enabled(s, Step.Timeout(id)) && (s.requests[id].box != [] ==> Enabled(s, Step.Receive(id)))
            case Over(_) => true
  {
  }

  // ----- Where messages come from, and where they go -----

  /** The step that a message goes back to: its reply came in, or a drain, while the request was in the table. */
  ghost predicate Brings(s: State, step: Step, id: nat, m: Msg) {
    id in s.pending && match m
                       case Reply(i, payload) => i == id && step == Arrive(id, payload)
                       case Drained(error) => step == Drain(error)
  }

  ghost predicate Brought(run: seq<State>, steps: seq<Step>, k: nat, id: nat, m: Msg) {
    exists j :: 0 <= j < k && j < |run| && j < |steps| && Brings(run[j], steps[j], id, m)
  }

  /** The message is in the request's channel, about to be, or its answer. */
  predicate Has(s: State, id: nat, m: Msg) {
    || (id in s.requests && m in s.requests[id].box)
    || s.loop == Holding(id, m)
    || (id in s.requests && s.requests[id].phase == Over(Answer(m)))
  }

  lemma HasStep(s: State, step: Step, id: nat, m: Msg)
    requires Inv(s) && Enabled(s, step) && Has(Apply(s, step), id, m)
    ensures Has(s, id, m) || Brings(s, step, id, m)
  {
    hide MeantFor;
  }

  lemma BroughtNext(run: seq<State>, steps: seq<Step>, k: nat, id: nat, m: Msg)
    requires k < |run| && k < |steps|
    ensures Brought(run, steps, k, id, m) || Brings(run[k], steps[k], id, m) ==> Brought(run, steps, k + 1, id, m)
  {
    hide Brings;
  }

  /** A request is answered only with what came in for it, payload and all, or with the error that drained it. */
  lemma {:induction false} AnswersCameIn(run: seq<State>, steps: seq<Step>, k: nat, id: nat, m: Msg)
    requires IsRun(run, steps) && k < |run| && Has(run[k], id, m)
    ensures Brought(run, steps, k, id, m)
    decreases k
  {
    hide Enabled, Apply, Inv, Has, Brings, Brought;
    if k == 0 {
      NothingAtStart(id, m);
    } else {
      RunKeepsInv(run, steps, k - 1);
      HasStep(run[k - 1], steps[k - 1], id, m);
      if Has(run[k - 1], id, m) {
        AnswersCameIn(run, steps, k - 1, id, m);
      }
      BroughtNext(run, steps, k - 1, id, m);
    }
  }

  lemma NothingAtStart(id: nat, m: Msg)
    ensures !Has(START, id, m)
  {
  }

  /** A request that is over has timed out, or failed to write, only if that step was taken. */
  lemma {:induction false} OutcomesHaveCauses(run: seq<State>, steps: seq<Step>, k: nat, id: nat)
    requires IsRun(run, steps) && k < |run| && id in run[k].requests
    ensures run[k].requests[id].phase == Over(TimedOut) ==> exists j :: 0 <= j < k && steps[j] == Timeout(id)
    ensures run[k].requests[id].phase == Over(WriteError) ==> exists j :: 0 <= j < k && steps[j] == WriteFails(id)
    decreases k
  {
    hide Apply;
    if k > 0 {
      CauseStep(run[k - 1], steps[k - 1], id);
      if id in run[k - 1].requests {
        OutcomesHaveCauses(run, steps, k - 1, id);
      }
    }
  }

  lemma CauseStep(s: State, step: Step, id: nat)
    requires Enabled(s, step) && id in Apply(s, step).requests
    ensures Apply(s, step).requests[id].phase == Over(TimedOut) ==>
              step == Timeout(id) || (id in s.requests && s.requests[id].phase == Over(TimedOut))
    ensures Apply(s, step).requests[id].phase == Over(WriteError) ==>
              step == WriteFails(id) || (id in s.requests && s.requests[id].phase == Over(WriteError))
  {
  }

  /** A reply to a request in the table is not lost: the read loop holds it, sends it, and it waits in the channel. */
  lemma RepliesAreDelivered(run: seq<State>, steps: seq<Step>, k: nat, id: nat)
    requires IsRun(run, steps) && k < |steps|
    ensures forall payload :: id in run[k].pending && steps[k] == Arrive(id, payload) ==>
              run[k + 1].loop == Holding(id, Reply(id, payload))
    ensures run[k].loop.Holding? ==>
              if steps[k].Deliver? then
                && run[k].loop.id in run[k + 1].requests
                && run[k + 1].requests[run[k].loop.id].box == [run[k].loop.msg]
              else run[k + 1].loop == run[k].loop
    ensures id in run[k].requests && run[k].requests[id].box != [] ==>
              && id in run[k + 1].requests
              && if steps[k] == Receive(id) then
                   run[k + 1].requests[id].phase == Over(Answer(run[k].requests[id].box[0]))
                 else run[k + 1].requests[id].box == run[k].requests[id].box
  {
    hide Sound, Apply;
    RunKeepsInv(run, steps, k);
    StepIsApply(run, steps, k);
    DeliveryStep(run[k], steps[k], id);
  }

  lemma StepIsApply(run: seq<State>, steps: seq<Step>, k: nat)
    requires IsRun(run, steps) && k < |steps|
    ensures |run| == |steps| + 1 && Enabled(run[k], steps[k]) && run[k + 1] == Apply(run[k], steps[k])
  {
  }

  lemma DeliveryStep(s: State, step: Step, id: nat)
    requires Inv(s) && Enabled(s, step)
    ensures var t := Apply(s, step);
            && (forall payload :: id in s.pending && step == Arrive(id, payload) ==>
                  t.loop == Holding(id, Reply(id, payload)))
            && (s.loop.Holding? ==>
                  if step.Deliver? then s.loop.id in t.requests && t.requests[s.loop.id].box == [s.loop.msg]
                  else t.loop == s.loop)
            && (id in s.requests && s.requests[id].box != [] ==>
                  && id in t.requests
                  && if step == Receive(id) then t.requests[id].phase == Over(Answer(s.requests[id].box[0]))
                     else t.requests[id].box == s.requests[id].box)
  {
    hide MeantFor;
    if s.loop.Holding? { assert Sound(s, s.loop.id); }
    if id in s.requests { assert Sound(s, id); }
  }

  // ----- After the end of the read loop -----

  /** The read loop has ended, and this request, if made already, has no message and is not over. */
  ghost predicate Abandoned(s: State, id: nat) {
    && s.loop.Ended?
    && (id in s.requests ==> s.requests[id].box == [] && !s.requests[id].phase.Over?)
  }

  /** It may end since then, but with no message. */
  ghost predicate Unanswered(s: State, id: nat) {
    && s.loop.Ended?
    && (id in s.requests ==>
          var r := s.requests[id];
          r.box == [] && (r.phase.Over? ==> r.phase.outcome == TimedOut || r.phase.outcome == WriteError))
  }

  lemma UnansweredStays(s: State, step: Step, id: nat)
    requires Unanswered(s, id) && Enabled(s, step)
    ensures Unanswered(Apply(s, step), id)
  {
  }

  /**
   A request that has no message when the read loop ends, or is made later, is never
   answered: it can only time out or fail to write.
   */
  lemma {:induction false} NobodyAnswersAfterTheEnd(run: seq<State>, steps: seq<Step>, k: nat, n: nat, id: nat)
    requires IsRun(run, steps) && k <= n < |run| && Abandoned(run[k], id)
    ensures Unanswered(run[n], id)
    decreases n
  {
    hide Enabled, Apply;
    if k < n {
      NobodyAnswersAfterTheEnd(run, steps, k, n - 1, id);
      UnansweredStays(run[n - 1], steps[n - 1], id);
    }
  }
}

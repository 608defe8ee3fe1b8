/**
 Background tasks: all interleavings of a registry's callers, and the registry as a class.

 `Task` and `Step` cut the registry's operations where the lock is released, so that a
 cancel, the goroutine that runs the task, and waiters can overlap in any way. Each part
 of an operation of `BackgroundRegistry` makes one such step on its task's record.
 */
module BackgroundTasks {

  datatype Status = Running | Completed | Failed | Cancelled

  /** What the locked part of `Cancel` makes of a status. */
  function AfterCancel(s: Status): Status { if s == Running then Cancelled else s }

  /** What the locked part of `Complete` makes of a status. */
  function AfterComplete(s: Status, errMsg: string): Status {
    if s == Cancelled then Cancelled else if errMsg == "" then Completed else Failed
  }

  // ----- All interleavings -----

  /** Where the one `Cancel` call that found the task running is. */
  datatype CancelPhase = NoCancel | Locked(hasFunc: bool) | ClosingAfterCancel | CancelDone

  /** Where the goroutine of `RunBackground` is. */
  datatype Worker =
    | Unlaunched
    | Working
    | Reporting(result: string, errMsg: string) // about to call Complete
    | Closing(ended: bool)                      // past Complete's lock; `ended` unless the task was cancelled
    | Notifying
    | Exited

  /** `trues` counts Cancel calls that return true, `completes` entries into Complete, `notes` queued notices. */
  datatype Task = Task(status: Status, hasFunc: bool, ctxDone: bool, closes: nat, cancel: CancelPhase, worker: Worker,
                       trues: nat, completes: nat, notes: nat)

  const REGISTERED := Task(Running, false, false, 0, NoCancel, Unlaunched, 0, 0, 0)

  datatype Step =
    | AttachCancel
    | Launch
    | CancelLock
    | CancelContext
    | CancelClose
    | ParentCancel
    | Quit                                   // the run came back with a cancelled context
    | Decide(result: string, errMsg: string) // the run came back; the context decides what follows
    | CompleteLock
    | CompleteClose
    | Notify

  /** `RunBackground` attaches the cancel function before it starts the goroutine. */
  predicate Enabled(t: Task, step: Step) {
    match step
    case AttachCancel => true
    case Launch => t.worker == Unlaunched && t.hasFunc
    case CancelLock => true
    case CancelContext => t.cancel.Locked?
    case CancelClose => t.cancel.ClosingAfterCancel?
    case ParentCancel => true
    case Quit => t.worker == Working
    case Decide(_, _) => t.worker == Working
    case CompleteLock => t.worker.Reporting?
    case CompleteClose => t.worker.Closing?
    case Notify => t.worker == Notifying
  }

  function Apply(t: Task, step: Step): Task
    requires Enabled(t, step)
  {
    match step
    case AttachCancel => t.(hasFunc := true)
    case Launch => t.(worker := Working)
    case CancelLock =>
      if t.status == Running then
        t.(status := AfterCancel(t.status), cancel := Locked(t.hasFunc), trues := t.trues + 1)
      else t
    case CancelContext => t.(ctxDone := t.ctxDone || t.cancel.hasFunc, cancel := ClosingAfterCancel)
    case CancelClose => t.(closes := t.closes + 1, cancel := CancelDone)
    case ParentCancel => t.(ctxDone := true)
    case Quit => t.(worker := Exited)
    case Decide(result, errMsg) => t.(worker := if t.ctxDone then Exited else Reporting(result, errMsg))
    case CompleteLock =>
      t.(status := AfterComplete(t.status, t.worker.errMsg), worker := Closing(t.status != Cancelled),
         completes := t.completes + 1)
    case CompleteClose => t.(closes := t.closes + 1, worker := if t.worker.ended then Notifying else Exited)
    case Notify => t.(notes := t.notes + 1, worker := Exited)
  }

  // ----- The registry -----

  /** The part of a task that its record holds. */
  datatype Record = Record(status: Status, hasFunc: bool, closes: nat)

  function RecordOf(t: Task): Record { Record(t.status, t.hasFunc, t.closes) }

  /** What a step does to that part; `worker` says what the goroutine holds. */
  function RecordAfter(r: Record, worker: Worker, step: Step): Record {
    match step
    case AttachCancel => r.(hasFunc := true)
    case CancelLock => r.(status := AfterCancel(r.status))
    case CancelClose => r.(closes := r.closes + 1)
    case CompleteLock => r.(status := AfterComplete(r.status, if worker.Reporting? then worker.errMsg else ""))
    case CompleteClose => r.(closes := r.closes + 1)
    case _ => r
  }

  /** The machine makes exactly that step on this part. */
  lemma RecordFollows(t: Task, step: Step)
    requires Enabled(t, step)
    ensures RecordOf(Apply(t, step)) == RecordAfter(RecordOf(t), t.worker, step)
  {
  }

  /** A cancel function; calling it cancels the task's context. */
  class CancelFunc {
    var called: bool

    constructor ()
      ensures !called
    {
      called := false;
    }
  }

  /** One queued notification. */
  datatype Notice = Notice(sessionID: string, agentID: string, body: string)

  class CommandQueue {
    var items: seq<Notice>

    constructor ()
      ensures items == []
    {
      items := [];
    }

    method Enqueue(n: Notice)
      modifies this
      ensures items == old(items) + [n]
    {
      items := items + [n];
    }
  }

  class BackgroundTask {
    const id: string
    const sessionID: string
    const agentID: string
    const agentName: string
    var status: Status
    var result: string
    var error: string
    var cancel: CancelFunc?
    /** How often the `done` channel has been closed; a second close panics. */
    ghost var closes: nat

    ghost function Now(): Record
      reads this
    {
      Record(status, cancel != null, closes)
    }

    constructor (id: string, sessionID: string, agentID: string, agentName: string)
      ensures Now() == RecordOf(REGISTERED)
      ensures this.id == id && this.sessionID == sessionID && this.agentID == agentID && this.agentName == agentName
      ensures status == Running && result == "" && error == "" && cancel == null && closes == 0
    {
      this.id, this.sessionID, this.agentID, this.agentName := id, sessionID, agentID, agentName;
      status, result, error, cancel, closes := Running, "", "", null, 0;
    }

    /** Outside the lock: the step that follows a cancel, or an end. */
    method CloseDone()
      modifies `closes
      ensures closes == old(closes) + 1
      ensures Now() == RecordAfter(old(Now()), Exited, CancelClose) == RecordAfter(old(Now()), Exited, CompleteClose)
    {
      closes := closes + 1;
    }

    /** The locked part of `Cancel`, for a running task. */
    method LockedCancel() returns (found: bool)
      modifies `status
      ensures found <==> old(status) == Running
      ensures status == if found then Cancelled else old(status)
      ensures Now() == RecordAfter(old(Now()), Exited, CancelLock)
    {
      if status != Running { return false; }
      status := Cancelled;
      return true;
    }

    /** The locked part of `Complete`. */
    method LockedComplete(result: string, errMsg: string) returns (ends: bool)
      modifies this
      ensures ends <==> old(status) != Cancelled
      ensures status == if !ends then Cancelled else if errMsg == "" then Completed else Failed
      ensures Now() == RecordAfter(old(Now()), Reporting(result, errMsg), CompleteLock)
      ensures cancel == old(cancel) && closes == old(closes)
      ensures this.result == if ends then result else old(this.result)
      ensures error == if ends && errMsg != "" then errMsg else old(error)
    {
      if status == Cancelled { return false; }
      status := Completed;
      if errMsg != "" {
        status := Failed;
        error := errMsg;
      }
      this.result := result;
      return true;
    }
  }

  class BackgroundRegistry {
    var tasks: map<string, BackgroundTask>

    ghost predicate Valid()
      reads this
    {
      forall id :: id in tasks ==> tasks[id].id == id
    }

    constructor ()
      ensures Valid() && tasks == map[]
    {
      tasks := map[];
    }

    /** `id` is the generated one; a clash would replace the older task. */
    method RegisterWithCancel(id: string, sessionID: string, agentID: string, agentName: string)
      returns (task: BackgroundTask)
      requires Valid()
      modifies this
      ensures Valid() && fresh(task) && tasks == old(tasks)[id := task]
      ensures task.id == id && task.sessionID == sessionID && task.agentID == agentID && task.agentName == agentName
      ensures task.status == Running && task.cancel == null && task.closes == 0
      ensures task.Now() == RecordOf(REGISTERED)
    {
      task := new BackgroundTask(id, sessionID, agentID, agentName);
      tasks := tasks[id := task];
    }

    method SetTaskCancel(taskID: string, cancel: CancelFunc)
      requires Valid()
      modifies if taskID in tasks then {tasks[taskID]} else {}
      ensures taskID in tasks ==>
                && tasks[taskID].cancel == cancel && tasks[taskID].status == old(tasks[taskID].status)
                && tasks[taskID].result == old(tasks[taskID].result) && tasks[taskID].error == old(tasks[taskID].error)
                && tasks[taskID].closes == old(tasks[taskID].closes)
                && tasks[taskID].Now() == RecordAfter(old(tasks[taskID].Now()), Unlaunched, AttachCancel)
    {
      if taskID in tasks {
        tasks[taskID].cancel := cancel;
      }
    }

    method IsTerminal(taskID: string) returns (terminal: bool)
      ensures terminal <==> taskID in tasks && tasks[taskID].status != Running
    {
      if taskID !in tasks { return false; }
      return tasks[taskID].status != Running;
    }

    /** True exactly for a known running task, which is then cancelled, its context too, and its channel closed once. */
    method Cancel(taskID: string) returns (cancelled: bool)
      requires Valid()
      modifies if taskID in tasks then {tasks[taskID]} else {},
               if taskID in tasks && tasks[taskID].cancel != null then {tasks[taskID].cancel} else {}
      ensures cancelled <==> taskID in tasks && old(tasks[taskID].status) == Running
      ensures taskID in tasks ==> tasks[taskID].status == if cancelled then Cancelled else old(tasks[taskID].status)
      ensures taskID in tasks ==>
                && tasks[taskID].closes == old(tasks[taskID].closes) + (if cancelled then 1 else 0)
                && tasks[taskID].result == old(tasks[taskID].result) && tasks[taskID].error == old(tasks[taskID].error)
                && tasks[taskID].cancel == old(tasks[taskID].cancel)
      ensures taskID in tasks ==>
                var locked := RecordAfter(old(tasks[taskID].Now()), Exited, CancelLock);
                tasks[taskID].Now() == if cancelled then RecordAfter(locked, Exited, CancelClose) else locked
      ensures taskID in tasks && tasks[taskID].cancel != null ==>
                tasks[taskID].cancel.called == (cancelled || old(tasks[taskID].cancel.called))
    {
      if taskID !in tasks { return false; }
      var task := tasks[taskID];
      var found := task.LockedCancel();
      if !found { return false; }
      if task.cancel != null {
        task.cancel.called := true;
      }
      task.CloseDone();
      return true;
    }

    /** A cancelled task stays cancelled and sends nothing; any other ends and sends one notice. */
    method Complete(taskID: string, result: string, errMsg: string, q: CommandQueue?)
      requires Valid()
      modifies if taskID in tasks then {tasks[taskID]} else {}, if q == null then {} else {q}
      ensures taskID in tasks ==> tasks[taskID].closes == old(tasks[taskID].closes) + 1
      ensures taskID in tasks && old(tasks[taskID].status) == Cancelled ==> tasks[taskID].status == Cancelled
      ensures taskID in tasks && old(tasks[taskID].status) != Cancelled ==>
                tasks[taskID].status == if errMsg == "" then Completed else Failed
      ensures taskID in tasks ==>
                var ends := old(tasks[taskID].status) != Cancelled;
                && tasks[taskID].cancel == old(tasks[taskID].cancel)
                && tasks[taskID].result == (if ends then result else old(tasks[taskID].result))
                && tasks[taskID].error == (if ends && errMsg != "" then errMsg else old(tasks[taskID].error))
      ensures taskID in tasks ==>
                var locked := RecordAfter(old(tasks[taskID].Now()), Reporting(result, errMsg), CompleteLock);
                tasks[taskID].Now() == RecordAfter(locked, Exited, CompleteClose)
      ensures q != null && (taskID !in tasks || old(tasks[taskID].status) == Cancelled) ==> q.items == old(q.items)
      ensures q != null && taskID in tasks && old(tasks[taskID].status) != Cancelled ==>
                var task := tasks[taskID];
                q.items == old(q.items) + [Notice(task.sessionID, task.agentID,
                  if errMsg != "" then "Background task " + taskID + " failed: " + errMsg
                  else "Background task " + taskID + " (" + task.agentName + ") completed: " + result)]
    {
      if taskID !in tasks { return; }
      var task := tasks[taskID];
      var ends := task.LockedComplete(result, errMsg);
      task.CloseDone();
      if !ends { return; }
      if q != null {
        var body := if errMsg != "" then "Background task " + taskID + " failed: " + errMsg
                    else "Background task " + taskID + " (" + task.agentName + ") completed: " + result;
        q.Enqueue(Notice(task.sessionID, task.agentID, body));
      }
    }
  }

  // ----- What every run keeps -----

  function Count(b: bool): nat { if b then 1 else 0 }

  ghost predicate Ended(t: Task) { t.status == Completed || t.status == Failed }

  /** Where the task, its canceller and its goroutine can be together. */
  ghost predicate PhasesFit(t: Task) {
    && t.trues == Count(t.status == Cancelled)
    && (t.cancel.NoCancel? <==> t.status != Cancelled)
    && t.completes <= 1
    && (t.worker.Unlaunched? || t.worker.Working? || t.worker.Reporting? ==> t.completes == 0)
    && (t.worker.Closing? || t.worker.Notifying? ==> t.completes == 1)
    && (Ended(t) ==> t.completes == 1)
    && (t.completes == 1 ==> t.status != Running)
    && (t.worker.Notifying? ==> Ended(t))
    && (t.worker.Closing? ==> (t.worker.ended <==> Ended(t)))
  }

  /** Every close is owed to one successful Cancel or one Complete. */
  ghost predicate ClosesFit(t: Task) {
    t.closes + Count(t.cancel.Locked? || t.cancel.ClosingAfterCancel?) + Count(t.worker.Closing?)
    == Count(t.status == Cancelled) + t.completes
  }

  /** Every notice is owed to one end. */
  ghost predicate NotesFit(t: Task) {
    t.notes + Count((t.worker.Closing? && t.worker.ended) || t.worker.Notifying?) == Count(Ended(t))
  }

  ghost predicate Inv(t: Task) { PhasesFit(t) && ClosesFit(t) && NotesFit(t) }

  lemma PhasesStep(t: Task, step: Step)
    requires PhasesFit(t) && Enabled(t, step)
    ensures PhasesFit(Apply(t, step))
  {
  }

  lemma ClosesStep(t: Task, step: Step)
    requires PhasesFit(t) && ClosesFit(t) && Enabled(t, step)
    ensures ClosesFit(Apply(t, step))
  {
  }

  lemma NotesStep(t: Task, step: Step)
    requires PhasesFit(t) && NotesFit(t) && Enabled(t, step)
    ensures NotesFit(Apply(t, step))
  {
  }

  lemma StepKeeps(t: Task, step: Step)
    requires Inv(t) && Enabled(t, step)
    ensures Inv(Apply(t, step))
  {
    hide PhasesFit, ClosesFit, NotesFit, Enabled, Apply;
    PhasesStep(t, step);
    ClosesStep(t, step);
    NotesStep(t, step);
  }

  ghost predicate IsRun(run: seq<Task>, steps: seq<Step>) {
    && |run| == |steps| + 1 && run[0] == REGISTERED
    && forall k :: 0 <= k < |steps| ==> Enabled(run[k], steps[k]) && run[k + 1] == Apply(run[k], steps[k])
  }

  lemma {:induction false} RunKeepsInv(run: seq<Task>, steps: seq<Step>, k: nat)
    requires IsRun(run, steps) && k < |run|
    ensures Inv(run[k])
    decreases k
  {
    hide Enabled, Apply;
    if k > 0 {
      RunKeepsInv(run, steps, k - 1);
      StepKeeps(run[k - 1], steps[k - 1]);
    }
  }

  lemma StatusStays(t: Task, step: Step)
    requires Inv(t) && Enabled(t, step) && t.status != Running
    ensures Apply(t, step).status == t.status
  {
  }

  /** A status other than running is final. */
  lemma {:induction false} FinalStatusStays(run: seq<Task>, steps: seq<Step>, i: nat, j: nat)
    requires IsRun(run, steps) && i <= j < |run| && run[i].status != Running
    ensures run[j].status == run[i].status
    decreases j
  {
    hide Inv, Enabled, Apply;
    if i < j {
      FinalStatusStays(run, steps, i, j - 1);
      RunKeepsInv(run, steps, j - 1);
      StatusStays(run[j - 1], steps[j - 1]);
    }
  }

  /** One Cancel at most returns true, Complete runs once at most, and only an ended task is announced, once. */
  lemma TaskEndsOnce(run: seq<Task>, steps: seq<Step>, k: nat)
    requires IsRun(run, steps) && k < |run|
    ensures run[k].trues <= 1 && (run[k].trues == 1 <==> run[k].status == Cancelled)
    ensures run[k].completes <= 1
    ensures run[k].notes <= 1 && (run[k].notes == 1 ==> Ended(run[k]))
    ensures run[k].worker == Exited ==> (run[k].notes == 1 <==> Ended(run[k]))
    ensures run[k].status == Cancelled ==> run[k].notes == 0
  {
    RunKeepsInv(run, steps, k);
  }

  /** How far the goroutine has come. */
  function Progress(worker: Worker): nat {
    match worker
    case Unlaunched => 0
    case Working => 1
    case Reporting(_, _) => 2
    case Closing(_) => 3
    case Notifying => 4
    case Exited => 5
  }

  predicate OfWorker(step: Step) {
    step.Launch? || step.Quit? || step.Decide? || step.CompleteLock? || step.CompleteClose? || step.Notify?
  }

  /** Each own step brings the goroutine nearer to its end, no other step moves it, and once launched it has one. */
  lemma WorkerGetsOn(t: Task, step: Step)
    requires Enabled(t, step)
    ensures if OfWorker(step) then Progress(t.worker) < Progress(Apply(t, step).worker)
            else Apply(t, step).worker == t.worker
    ensures match t.worker
            case Unlaunched => Enabled(Apply(t, AttachCancel), Launch)
            case Working => forall result, errMsg :: Enabled(t, Decide(result, errMsg))
            case Reporting(_, _) => Enabled(t, CompleteLock)
            case Closing(_) => Enabled(t, CompleteClose)
            case Notifying => Enabled(t, Notify)
            case Exited => true
  {
    assert t.worker.Unlaunched? ==> Apply(t, AttachCancel).worker == t.worker;
  }

  /** A cancel goes on to the cancel function and the close. */
  lemma CancelGoesOn(t: Task)
    ensures t.status == Running ==> Enabled(Apply(t, CancelLock), CancelContext)
    ensures Enabled(t, CancelContext) ==> Enabled(Apply(t, CancelContext), CancelClose)
    ensures Enabled(t, CancelClose) ==> Apply(t, CancelClose).closes == t.closes + 1
  {
  }

  /** The step ends the task, with an error or without. */
  ghost predicate Ends(t: Task, step: Step, withError: bool) {
    step.CompleteLock? && t.status != Cancelled && t.worker.Reporting? && (t.worker.errMsg != "" <==> withError)
  }

  ghost predicate EndedBefore(run: seq<Task>, steps: seq<Step>, k: nat, withError: bool) {
    exists m :: 0 <= m < k && m < |steps| && m < |run| && Ends(run[m], steps[m], withError)
  }

  lemma EndStep(t: Task, step: Step)
    requires Inv(t) && Enabled(t, step)
    ensures Apply(t, step).status == Completed <==> t.status == Completed || Ends(t, step, false)
    ensures Apply(t, step).status == Failed <==> t.status == Failed || Ends(t, step, true)
  {
    hide ClosesFit, NotesFit;
  }

  lemma EndedNext(run: seq<Task>, steps: seq<Step>, k: nat, withError: bool)
    requires k < |steps| && k < |run|
    ensures EndedBefore(run, steps, k + 1, withError)
            <==> EndedBefore(run, steps, k, withError) || Ends(run[k], steps[k], withError)
  {
    hide Ends;
  }

  lemma NothingEnded(run: seq<Task>, steps: seq<Step>, withError: bool)
    ensures !EndedBefore(run, steps, 0, withError)
  {
  }

  /** A task is completed exactly if its goroutine has reported no error, and failed exactly if it has reported one. */
  lemma {:induction false} EndsExactly(run: seq<Task>, steps: seq<Step>, k: nat)
    requires IsRun(run, steps) && k < |run|
    ensures run[k].status == Completed <==> EndedBefore(run, steps, k, false)
    ensures run[k].status == Failed <==> EndedBefore(run, steps, k, true)
    decreases k
  {
    hide Inv, Enabled, Apply, Ends, EndedBefore;
    if k == 0 {
      NothingEnded(run, steps, false);
      NothingEnded(run, steps, true);
    } else {
      EndsExactly(run, steps, k - 1);
      RunKeepsInv(run, steps, k - 1);
      EndStep(run[k - 1], steps[k - 1]);
      EndedNext(run, steps, k - 1, false);
      EndedNext(run, steps, k - 1, true);
    }
  }

  /** What the goroutine reports is what its run came to, with a context that was still open. */
  lemma {:induction false} ReportsItsRun(run: seq<Task>, steps: seq<Step>, k: nat)
    requires IsRun(run, steps) && k < |run| && run[k].worker.Reporting?
    ensures exists m :: 0 <= m < k && !run[m].ctxDone
                        && steps[m] == Decide(run[k].worker.result, run[k].worker.errMsg)
    decreases k
  {
    assert k > 0 && Enabled(run[k - 1], steps[k - 1]);
    if run[k - 1].worker.Reporting? {
      ReportsItsRun(run, steps, k - 1);
    }
  }

  /** What ends the context: its parent, or the cancel function, if one was attached. */
  ghost predicate EndsContext(t: Task, step: Step) {
    step.ParentCancel? || (step.CancelContext? && t.cancel.Locked? && t.cancel.hasFunc)
  }

  lemma {:induction false} ContextEndsExactly(run: seq<Task>, steps: seq<Step>, k: nat)
    requires IsRun(run, steps) && k < |run|
    ensures run[k].ctxDone <==> exists m :: 0 <= m < k && EndsContext(run[m], steps[m])
    decreases k
  {
    if k > 0 {
      assert Enabled(run[k - 1], steps[k - 1]);
      ContextEndsExactly(run, steps, k - 1);
    }
  }

  /** The goroutine has returned without reporting. */
  ghost predicate GoneSilent(t: Task) { t.worker == Exited && t.completes == 0 }

  lemma SilenceLasts(t: Task, step: Step)
    requires Inv(t) && Enabled(t, step)
    requires GoneSilent(t) || (step.Decide? && t.ctxDone)
    ensures GoneSilent(Apply(t, step))
  {
  }

  /** A goroutine that comes back to an ended context never completes the task. */
  lemma {:induction false} NoReportAfterContext(run: seq<Task>, steps: seq<Step>, m: nat, k: nat)
    requires IsRun(run, steps) && m < k < |run| && steps[m].Decide? && run[m].ctxDone
    ensures GoneSilent(run[k]) && !Ended(run[k])
    decreases k
  {
    hide Enabled, Apply, ClosesFit, NotesFit;
    RunKeepsInv(run, steps, k - 1);
    RunKeepsInv(run, steps, k);
    if m < k - 1 {
      NoReportAfterContext(run, steps, m, k - 1);
    }
    SilenceLasts(run[k - 1], steps[k - 1]);
  }

  /** What `Wait` answers: by the closed channel, or by looking at the status. */
  datatype WaitBranch = ByChannel | ByStatus

  predicate WaitCanReturn(t: Task, branch: WaitBranch) { branch == ByChannel ==> t.closes > 0 }

  predicate WaitResult(t: Task, branch: WaitBranch) { branch == ByChannel || t.status != Running }

  /** `Wait` returning true means the status is final. */
  lemma WaitMeansFinal(run: seq<Task>, steps: seq<Step>, k: nat, branch: WaitBranch)
    requires IsRun(run, steps) && k < |run|
    requires WaitCanReturn(run[k], branch) && WaitResult(run[k], branch)
    ensures run[k].status != Running
    ensures forall j :: k <= j < |run| ==> run[j].status == run[k].status
  {
    RunKeepsInv(run, steps, k);
    forall j | k <= j < |run|
      ensures run[j].status == run[k].status
    {
      FinalStatusStays(run, steps, k, j);
    }
  }

  /**
   The `done` channel is not always closed once. It is closed a second time exactly when
   `Complete` found the task cancelled, and then in every run in which both calls finish.
   */
  lemma SecondCloseExactly(run: seq<Task>, steps: seq<Step>, k: nat)
    requires IsRun(run, steps) && k < |run|
    ensures run[k].closes <= 2
    ensures run[k].closes == 2 ==> run[k].status == Cancelled && run[k].completes == 1
    ensures !run[k].cancel.Locked? && !run[k].cancel.ClosingAfterCancel? && !run[k].worker.Closing? ==>
              (run[k].closes == 2 <==> run[k].status == Cancelled && run[k].completes == 1)
    ensures run[k].status == Cancelled && run[k].completes == 1 <==>
              exists m :: 0 <= m < k && steps[m].CompleteLock? && run[m].status == Cancelled
  {
    RunKeepsInv(run, steps, k);
    CompletedCancelled(run, steps, k);
  }

  lemma {:induction false} CompletedCancelled(run: seq<Task>, steps: seq<Step>, k: nat)
    requires IsRun(run, steps) && k < |run|
    ensures run[k].status == Cancelled && run[k].completes == 1 <==>
              exists m :: 0 <= m < k && steps[m].CompleteLock? && run[m].status == Cancelled
    decreases k
  {
    hide Inv, Enabled, Apply;
    if k > 0 {
      CompletedCancelled(run, steps, k - 1);
      RunKeepsInv(run, steps, k - 1);
      CompletesStep(run[k - 1], steps[k - 1]);
    }
  }

  lemma CompletesStep(t: Task, step: Step)
    requires Inv(t) && Enabled(t, step)
    ensures var u := Apply(t, step);
            u.status == Cancelled && u.completes == 1 <==>
              (t.status == Cancelled && t.completes == 1) || (step.CompleteLock? && t.status == Cancelled)
  {
    hide ClosesFit, NotesFit;
  }

  /** The race: the goroutine has passed its context check when the task is cancelled. */
  const RACE: seq<Step> :=
    [AttachCancel, Launch, Decide("", ""), CancelLock, CompleteLock, CompleteClose, CancelContext, CancelClose]

  ghost predicate Reaches(steps: seq<Step>, t: Task) {
    exists run: seq<Task> :: IsRun(run, steps) && run[|run| - 1] == t
  }

  lemma ReachesNext(steps: seq<Step>, t: Task, step: Step)
    requires Reaches(steps, t) && Enabled(t, step)
    ensures Reaches(steps + [step], Apply(t, step))
  {
    hide Enabled, Apply;
    var run: seq<Task> :| IsRun(run, steps) && run[|run| - 1] == t;
    assert IsRun(run + [Apply(t, step)], steps + [step]);
  }

  lemma Unstarted()
    ensures Reaches([], REGISTERED)
  {
    assert IsRun([REGISTERED], []);
  }

  lemma SecondCloseHappens()
    ensures exists t :: Reaches(RACE, t) && t.closes == 2
  {
    hide IsRun, Reaches;
    Unstarted();
    var t := REGISTERED;
    ReachesNext(RACE[..0], t, AttachCancel);
    assert RACE[..0] + [AttachCancel] == RACE[..1];
    t := Apply(t, AttachCancel);
    ReachesNext(RACE[..1], t, Launch);
    assert RACE[..1] + [Launch] == RACE[..2];
    t := Apply(t, Launch);
    ReachesNext(RACE[..2], t, Decide("", ""));
    assert RACE[..2] + [Decide("", "")] == RACE[..3];
    t := Apply(t, Decide("", ""));
    ReachesNext(RACE[..3], t, CancelLock);
    assert RACE[..3] + [CancelLock] == RACE[..4];
    t := Apply(t, CancelLock);
    ReachesNext(RACE[..4], t, CompleteLock);
    assert RACE[..4] + [CompleteLock] == RACE[..5];
    t := Apply(t, CompleteLock);
    ReachesNext(RACE[..5], t, CompleteClose);
    assert RACE[..5] + [CompleteClose] == RACE[..6];
    t := Apply(t, CompleteClose);
    ReachesNext(RACE[..6], t, CancelContext);
    assert RACE[..6] + [CancelContext] == RACE[..7];
    t := Apply(t, CancelContext);
    ReachesNext(RACE[..7], t, CancelClose);
    assert RACE[..7] + [CancelClose] == RACE[..8];
    t := Apply(t, CancelClose);
    assert RACE[..8] == RACE;
  }
}

/** TaskWithDelayThread: any number of requesters, the worker threads they start and one terminator,
    interleaved between every two mutex operations. */
module DelayedTask {
  import opened Common

  datatype WorkerPc =
    | Starting   // about to lock the mutex in doThreadLoop
    | Testing    // holds it, at the loop condition
    | Waiting    // in the timed wait, mutex released
    | Woken      // notified or timed out, about to lock again
    | Clearing   // holds it, about to clear both flags and run
    | InFunction // running function(), mutex released
    | Relocking  // function() returned, about to lock
    | Exiting    // holds it, running is already false
    | Done       // has unlocked for the last time

  datatype RequesterPc =
    | WantsLock(immediate: bool)
    | InRequest(immediate: bool) // holds the mutex
    | Joining                    // holds the mutex, joins the previous thread and starts a new one
    | Notifying                  // has released the mutex and owes a notify

  datatype TerminatorPc = NotCalled | WantsTerminate | InTerminate | OwesNotify | JoinsWorker | Terminated

  datatype Holder = Nobody | Worker(w: nat) | Requester(r: nat) | Terminator

  datatype State = State(
    mutex: Holder,
    running: bool, hasPendingTask: bool, runImmediately: bool, stopping: bool,
    workers: map<nat, WorkerPc>,       // every thread ever started
    thread: Option<nat>,               // the joinable one
    requesters: map<nat, RequesterPc>, // calls of requestRun in progress
    terminator: TerminatorPc,
    requested: nat,                    // requests made so far
    served: nat)                       // requests made before the latest run of function() began

  datatype Step =
    | Request(r: nat, immediate: bool)
    | RequesterLock(r: nat)
    | RequesterBody(r: nat)
    | RequesterJoin(r: nat)
    | RequesterNotify(r: nat)
    | WorkerLock(w: nat)
    | WorkerTest(w: nat)
    | WorkerTimeout(w: nat)
    | WorkerClear(w: nat)
    | WorkerReturn(w: nat)
    | WorkerUnlock(w: nat)
    | TerminatorCall
    | TerminatorLock
    | TerminatorBody
    | TerminatorNotify
    | TerminatorJoin

  predicate WorkerAt(s: State, w: nat, pc: WorkerPc) { w in s.workers && s.workers[w] == pc }
  predicate RequesterAt(s: State, r: nat, pc: RequesterPc) { r in s.requesters && s.requesters[r] == pc }
  predicate Joinable(s: State) { s.thread.None? || WorkerAt(s, s.thread.value, Done) }

  /** notify_all: whoever waits is woken. */
  function Notified(workers: map<nat, WorkerPc>): (r: map<nat, WorkerPc>)
    ensures r.Keys == workers.Keys && |r| == |workers|
  {
    KeysSize(workers, map w | w in workers :: if workers[w].Waiting? then Woken else workers[w]);
    map w | w in workers :: if workers[w].Waiting? then Woken else workers[w]
  }

  lemma KeysSize(a: map<nat, WorkerPc>, b: map<nat, WorkerPc>)
    requires a.Keys == b.Keys
    ensures |a| == |b|
  {
    assert |a.Keys| == |b.Keys|;
  }

  /** A thread id that was never used. */
  function FreshId(workers: map<nat, WorkerPc>): nat {
    |workers|
  }

  predicate Enabled(s: State, step: Step) {
    match step
    case Request(r, _) => r !in s.requesters && s.terminator.NotCalled?
    case RequesterLock(r) => s.mutex.Nobody? && r in s.requesters && s.requesters[r].WantsLock?
    case RequesterBody(r) => r in s.requesters && s.requesters[r].InRequest?
    case RequesterJoin(r) => RequesterAt(s, r, Joining) && Joinable(s)
    case RequesterNotify(r) => RequesterAt(s, r, Notifying)
    case WorkerLock(w) => s.mutex.Nobody? && w in s.workers
                          && (s.workers[w].Starting? || s.workers[w].Woken? || s.workers[w].Relocking?)
    case WorkerTest(w) => WorkerAt(s, w, Testing)
    case WorkerTimeout(w) => WorkerAt(s, w, Waiting)
    case WorkerClear(w) => WorkerAt(s, w, Clearing)
    case WorkerReturn(w) => WorkerAt(s, w, InFunction)
    case WorkerUnlock(w) => WorkerAt(s, w, Exiting)
    case TerminatorCall => s.terminator.NotCalled? && s.requesters == map[]
    case TerminatorLock => s.mutex.Nobody? && s.terminator.WantsTerminate?
    case TerminatorBody => s.terminator.InTerminate?
    case TerminatorNotify => s.terminator.OwesNotify?
    case TerminatorJoin => s.terminator.JoinsWorker? && Joinable(s)
  }

  function RequestStep(s: State, step: Step): State
    requires Enabled(s, step)
  {
    match step
    case Request(r, imm) => s.(requesters := s.requesters[r := WantsLock(imm)])
    case RequesterLock(r) =>
      s.(mutex := Requester(r), requesters := s.requesters[r := InRequest(s.requesters[r].immediate)])
    case RequesterBody(r) =>
      var imm := s.requesters[r].immediate;
      var s' := s.(hasPendingTask := true, runImmediately := s.runImmediately || imm, requested := s.requested + 1);
      if !s.running then s'.(running := true, requesters := s.requesters[r := Joining])
      else if imm then s'.(mutex := Nobody, requesters := s.requesters[r := Notifying])
      else s'.(mutex := Nobody, requesters := s.requesters - {r})
    case RequesterJoin(r) =>
      var w := FreshId(s.workers);
      s.(mutex := Nobody, thread := Some(w), workers := s.workers[w := Starting], requesters := s.requesters - {r})
    case RequesterNotify(r) =>
      s.(workers := Notified(s.workers), requesters := s.requesters - {r})
    case _ => s
  }

  function WorkerStep(s: State, step: Step): State
    requires Enabled(s, step)
  {
    match step
    case WorkerLock(w) =>
      s.(mutex := Worker(w), workers := s.workers[w := if s.workers[w].Woken? then Clearing else Testing])
    case WorkerTest(w) =>
      if !s.hasPendingTask then s.(running := false, workers := s.workers[w := Exiting])
      else if !s.runImmediately && !s.stopping then s.(mutex := Nobody, workers := s.workers[w := Waiting])
      else s.(workers := s.workers[w := Clearing])
    case WorkerTimeout(w) => s.(workers := s.workers[w := Woken])
    case WorkerClear(w) =>
      s.(mutex := Nobody, hasPendingTask := false, runImmediately := false, served := s.requested,
         workers := s.workers[w := InFunction])
    case WorkerReturn(w) => s.(workers := s.workers[w := Relocking])
    case WorkerUnlock(w) => s.(mutex := Nobody, workers := s.workers[w := Done])
    case _ => s
  }

  function TerminatorStep(s: State, step: Step): State
    requires Enabled(s, step)
  {
    match step
    case TerminatorCall => s.(terminator := WantsTerminate)
    case TerminatorLock => s.(mutex := Terminator, terminator := InTerminate)
    case TerminatorBody => s.(mutex := Nobody, runImmediately := true, stopping := true, terminator := OwesNotify)
    case TerminatorNotify => s.(workers := Notified(s.workers), terminator := JoinsWorker)
    case TerminatorJoin => s.(thread := None, terminator := Terminated)
    case _ => s
  }

  predicate IsRequest(step: Step) {
    step.Request? || step.RequesterLock? || step.RequesterBody? || step.RequesterJoin? || step.RequesterNotify?
  }

  predicate IsWorker(step: Step) {
    step.WorkerLock? || step.WorkerTest? || step.WorkerTimeout? || step.WorkerClear? || step.WorkerReturn?
    || step.WorkerUnlock?
  }

  function Apply(s: State, step: Step): State
    requires Enabled(s, step)
  {
    if IsRequest(step) then RequestStep(s, step)
    else if IsWorker(step) then WorkerStep(s, step)
    else TerminatorStep(s, step)
  }

  predicate Initial(s: State) {
    s.mutex.Nobody? && !s.running && !s.hasPendingTask && !s.runImmediately && !s.stopping
    && s.workers == map[] && s.thread.None? && s.requesters == map[] && s.terminator.NotCalled?
    && s.requested == s.served == 0
  }

  // ---- the invariant ----

  predicate Holds(pc: WorkerPc) { pc.Testing? || pc.Clearing? || pc.Exiting? }

  /** Has not yet decided to leave its loop. */
  predicate Live(pc: WorkerPc) { !pc.Exiting? && !pc.Done? }

  predicate HasLiveWorker(s: State) {
    s.thread.Some? && s.thread.value in s.workers && Live(s.workers[s.thread.value])
  }

  predicate SomebodyJoins(s: State) {
    s.mutex.Requester? && RequesterAt(s, s.mutex.r, Joining)
  }

  /** The mutex is held by whoever is in a critical section, and by nobody else. */
  ghost predicate MutexOk(s: State) {
    (forall w :: w in s.workers ==> (Holds(s.workers[w]) <==> s.mutex == Worker(w)))
    && (forall r :: r in s.requesters ==>
          ((s.requesters[r].InRequest? || s.requesters[r].Joining?) <==> s.mutex == Requester(r)))
    && (s.terminator.InTerminate? <==> s.mutex.Terminator?)
    && (s.mutex.Worker? ==> s.mutex.w in s.workers)
    && (s.mutex.Requester? ==> s.mutex.r in s.requesters)
  }

  /** Every thread but the joinable one has finished. */
  ghost predicate OneWorker(s: State) {
    (forall w :: w in s.workers ==> s.workers[w].Done? || s.thread == Some(w))
    && (s.thread.Some? ==> s.thread.value in s.workers)
    && (forall w :: w in s.workers ==> w < |s.workers|)
  }

  ghost predicate RunningOk(s: State) {
    (s.running <==> HasLiveWorker(s) || SomebodyJoins(s))
    && (SomebodyJoins(s) ==> Joinable(s))
    && (s.hasPendingTask ==> s.running)
    && (!s.hasPendingTask ==> s.served == s.requested)
    && s.served <= s.requested
  }

  ghost predicate NotifyOwed(s: State) {
    s.terminator.OwesNotify? || exists r :: RequesterAt(s, r, Notifying)
  }

  /** No wakeup is lost. */
  ghost predicate WakeupOk(s: State) {
    forall w :: w in s.workers && s.workers[w].Waiting? && (s.runImmediately || s.stopping) ==> NotifyOwed(s)
  }

  ghost predicate TerminatorOk(s: State) {
    (!s.terminator.NotCalled? ==> s.requesters == map[])
    && (s.stopping <==> s.terminator.OwesNotify? || s.terminator.JoinsWorker? || s.terminator.Terminated?)
  }

  ghost predicate Inv(s: State) {
    MutexOk(s) && OneWorker(s) && RunningOk(s) && WakeupOk(s) && TerminatorOk(s)
  }

  // ---- every step keeps it ----

  lemma RequestKeepsMutex(s: State, step: Step)
    requires MutexOk(s) && Enabled(s, step) && IsRequest(step)
    ensures MutexOk(RequestStep(s, step))
  {
    hide RequestStep, MutexOk, Enabled;
    match step
    case RequesterLock(r) => LockKeepsMutex(s, r);
    case RequesterBody(r) => BodyKeepsMutex(s, r);
    case RequesterJoin(r) => JoinKeepsMutex(s, r);
    case RequesterNotify(r) => NotifyKeepsMutex(s, r);
    case Request(r, immediate) => CallKeepsMutex(s, r, immediate);
    case _ =>
  }

  lemma CallKeepsMutex(s: State, r: nat, immediate: bool)
    requires MutexOk(s) && Enabled(s, Request(r, immediate))
    ensures MutexOk(RequestStep(s, Request(r, immediate)))
  {
  }

  lemma NotifyKeepsMutex(s: State, r: nat)
    requires MutexOk(s) && Enabled(s, RequesterNotify(r))
    ensures MutexOk(RequestStep(s, RequesterNotify(r)))
  {
  }

  lemma LockKeepsMutex(s: State, r: nat)
    requires MutexOk(s) && Enabled(s, RequesterLock(r))
    ensures MutexOk(RequestStep(s, RequesterLock(r)))
  {
  }

  lemma BodyKeepsMutex(s: State, r: nat)
    requires MutexOk(s) && Enabled(s, RequesterBody(r))
    ensures MutexOk(RequestStep(s, RequesterBody(r)))
  {
    assert s.mutex == Requester(r);
  }

  lemma JoinKeepsMutex(s: State, r: nat)
    requires MutexOk(s) && Enabled(s, RequesterJoin(r))
    ensures MutexOk(RequestStep(s, RequesterJoin(r)))
  {
    assert s.mutex == Requester(r);
  }

  lemma RequestKeepsThreads(s: State, step: Step)
    requires Inv(s) && Enabled(s, step) && IsRequest(step)
    ensures OneWorker(RequestStep(s, step))
    ensures TerminatorOk(RequestStep(s, step))
  {
    hide WakeupOk, MutexOk, RunningOk;
  }

  lemma RequestKeepsFlags(s: State, step: Step)
    requires MutexOk(s) && OneWorker(s) && RunningOk(s) && Enabled(s, step) && IsRequest(step)
    ensures RunningOk(RequestStep(s, step))
  {
    hide RequestStep, MutexOk, OneWorker, RunningOk, Enabled;
    match step
    case RequesterBody(r) => BodyKeepsFlags(s, r);
    case RequesterJoin(r) => JoinKeepsFlags(s, r);
    case RequesterLock(r) => LockKeepsFlags(s, r);
    case _ => CallKeepsFlags(s, step);
  }

  lemma LockKeepsFlags(s: State, r: nat)
    requires RunningOk(s) && Enabled(s, RequesterLock(r))
    ensures RunningOk(RequestStep(s, RequesterLock(r)))
  {
  }

  lemma BodyKeepsFlags(s: State, r: nat)
    requires MutexOk(s) && OneWorker(s) && RunningOk(s) && Enabled(s, RequesterBody(r))
    ensures RunningOk(RequestStep(s, RequesterBody(r)))
  {
    assert s.mutex == Requester(r);
    if !s.running { BodyJoinable(s, r); }
    hide MutexOk, OneWorker;
  }

  /** Nobody runs, so the previous thread has ended. */
  lemma BodyJoinable(s: State, r: nat)
    requires MutexOk(s) && OneWorker(s) && RunningOk(s) && s.mutex == Requester(r) && !s.running
    ensures Joinable(s)
  {
  }

  lemma JoinKeepsFlags(s: State, r: nat)
    requires MutexOk(s) && OneWorker(s) && RunningOk(s) && Enabled(s, RequesterJoin(r))
    ensures RunningOk(RequestStep(s, RequesterJoin(r)))
  {
    assert s.mutex == Requester(r);
    hide MutexOk, OneWorker;
  }

  lemma CallKeepsFlags(s: State, step: Step)
    requires MutexOk(s) && RunningOk(s) && Enabled(s, step) && (step.Request? || step.RequesterNotify?)
    ensures RunningOk(RequestStep(s, step))
  {
  }

  lemma RequestKeepsWakeup(s: State, step: Step)
    requires OneWorker(s) && RunningOk(s) && WakeupOk(s) && Enabled(s, step) && IsRequest(step)
    ensures WakeupOk(RequestStep(s, step))
  {
    hide RequestStep, OneWorker, RunningOk, WakeupOk, Enabled;
    match step
    case RequesterBody(r) => BodyKeepsWakeup(s, r);
    case RequesterJoin(r) => JoinKeepsWakeup(s, r);
    case RequesterNotify(r) => NotifyKeepsWakeup(s, r);
    case _ => CallKeepsWakeup(s, step);
  }

  /** A notify that is still owed by another thread. */
  lemma StillOwed(s: State, s': State, r: nat)
    requires NotifyOwed(s) && s'.terminator == s.terminator && !RequesterAt(s, r, Notifying)
    requires forall q :: q in s.requesters && q != r ==> q in s'.requesters && s'.requesters[q] == s.requesters[q]
    ensures NotifyOwed(s')
  {
    if !s.terminator.OwesNotify? {
      var q :| RequesterAt(s, q, Notifying);
      assert RequesterAt(s', q, Notifying);
    }
  }

  lemma CallKeepsWakeup(s: State, step: Step)
    requires WakeupOk(s) && Enabled(s, step) && (step.Request? || step.RequesterLock?)
    ensures WakeupOk(RequestStep(s, step))
  {
    if NotifyOwed(s) { StillOwed(s, RequestStep(s, step), step.r); }
    hide NotifyOwed;
  }

  /** An immediate request owes a notify whenever a thread may be waiting. */
  lemma BodyKeepsWakeup(s: State, r: nat)
    requires OneWorker(s) && RunningOk(s) && WakeupOk(s) && Enabled(s, RequesterBody(r))
    ensures WakeupOk(RequestStep(s, RequesterBody(r)))
  {
    var s' := RequestStep(s, RequesterBody(r));
    if NotifyOwed(s) { StillOwed(s, s', r); }
    if s.running && s.requesters[r].immediate { assert RequesterAt(s', r, Notifying); }
  }

  lemma JoinKeepsWakeup(s: State, r: nat)
    requires WakeupOk(s) && Enabled(s, RequesterJoin(r))
    ensures WakeupOk(RequestStep(s, RequesterJoin(r)))
  {
    if NotifyOwed(s) { StillOwed(s, RequestStep(s, RequesterJoin(r)), r); }
    hide NotifyOwed;
  }

  /** Nobody waits after a notify. */
  lemma NotifyKeepsWakeup(s: State, r: nat)
    requires Enabled(s, RequesterNotify(r))
    ensures WakeupOk(RequestStep(s, RequesterNotify(r)))
  {
    hide NotifyOwed;
  }

  lemma WorkerKeepsMutex(s: State, step: Step)
    requires Inv(s) && Enabled(s, step) && IsWorker(step)
    ensures MutexOk(WorkerStep(s, step))
  {
    hide WakeupOk, RunningOk, OneWorker;
  }

  lemma WorkerKeepsThreads(s: State, step: Step)
    requires Inv(s) && Enabled(s, step) && IsWorker(step)
    ensures OneWorker(WorkerStep(s, step))
    ensures TerminatorOk(WorkerStep(s, step))
  {
    hide WakeupOk, RunningOk, MutexOk;
  }

  lemma WorkerKeepsFlags(s: State, step: Step)
    requires Inv(s) && Enabled(s, step) && IsWorker(step)
    ensures RunningOk(WorkerStep(s, step))
    ensures WakeupOk(WorkerStep(s, step))
  {
  }

  lemma TerminatorKeepsThreads(s: State, step: Step)
    requires Inv(s) && Enabled(s, step) && !IsRequest(step) && !IsWorker(step)
    ensures MutexOk(TerminatorStep(s, step))
    ensures OneWorker(TerminatorStep(s, step))
    ensures TerminatorOk(TerminatorStep(s, step))
  {
  }

  lemma TerminatorKeepsFlags(s: State, step: Step)
    requires Inv(s) && Enabled(s, step) && !IsRequest(step) && !IsWorker(step)
    ensures RunningOk(TerminatorStep(s, step))
    ensures WakeupOk(TerminatorStep(s, step))
  {
  }

  lemma StepKeeps(s: State, step: Step)
    requires Inv(s) && Enabled(s, step)
    ensures Inv(Apply(s, step))
  {
    hide MutexOk, OneWorker, RunningOk, WakeupOk, TerminatorOk, RequestStep, WorkerStep, TerminatorStep;
    if IsRequest(step) {
      RequestKeepsMutex(s, step);
      RequestKeepsThreads(s, step);
      RequestKeepsFlags(s, step);
      RequestKeepsWakeup(s, step);
    } else if IsWorker(step) {
      WorkerKeepsMutex(s, step);
      WorkerKeepsThreads(s, step);
      WorkerKeepsFlags(s, step);
    } else {
      TerminatorKeepsThreads(s, step);
      TerminatorKeepsFlags(s, step);
    }
  }

  /** A run: every step is enabled where it is taken. */
  ghost predicate IsRun(s: State, steps: seq<Step>)
    decreases |steps|
  {
    steps == [] || (Enabled(s, steps[0]) && IsRun(Apply(s, steps[0]), steps[1..]))
  }

  function After(s: State, steps: seq<Step>): State
    requires IsRun(s, steps)
    decreases |steps|
  {
    if steps == [] then s else After(Apply(s, steps[0]), steps[1..])
  }

  lemma {:induction false} RunKeeps(s: State, steps: seq<Step>)
    requires Inv(s) && IsRun(s, steps)
    ensures Inv(After(s, steps))
    decreases |steps|
  {
    if steps == [] {
    } else {
      StepKeeps(s, steps[0]);
      RunKeeps(Apply(s, steps[0]), steps[1..]);
    }
  }

  // ---- what it means ----

  /** At every moment of every run: at most one thread runs function(); a pending request has a thread
      that will test the flag again; and every request not yet pending has had a run begin after it. */
  lemma ReachableIsSafe(s: State, steps: seq<Step>, v: nat, w: nat)
    requires Initial(s) && IsRun(s, steps)
    ensures var t := After(s, steps);
            (WorkerAt(t, v, InFunction) && WorkerAt(t, w, InFunction) ==> v == w)
            && (t.hasPendingTask ==> HasLiveWorker(t) || SomebodyJoins(t))
            && (t.served < t.requested ==> t.hasPendingTask)
  {
    assert Inv(s);
    RunKeeps(s, steps);
  }

  /** A thread blocked in its delay although it need not wait is owed a notify, and after terminate
      has notified it does not wait at all. A join under the mutex never waits for the mutex. */
  lemma NoLostWakeupNoDeadlock(s: State, steps: seq<Step>, w: nat, r: nat)
    requires Initial(s) && IsRun(s, steps)
    ensures var t := After(s, steps);
            (WorkerAt(t, w, Waiting) && (t.runImmediately || t.stopping) ==> NotifyOwed(t))
            && (t.terminator.JoinsWorker? ==> !WorkerAt(t, w, Waiting))
            && (RequesterAt(t, r, Joining) ==> Enabled(t, RequesterJoin(r)))
  {
    assert Inv(s);
    RunKeeps(s, steps);
  }

  // ---- every request is served ----

  /** A move of the thread that serves requests, or the join that starts it. */
  predicate IsMove(step: Step) { IsWorker(step) || step.RequesterJoin? }

  function PcRank(pc: WorkerPc): nat {
    match pc
    case Clearing => 1
    case Woken => 2
    case Waiting => 3
    case Testing => 4
    case Relocking => 5
    case Starting => 5
    case InFunction => 6
    case Exiting => 0
    case Done => 0
  }

  /** How many such moves a pending request may have to wait for. */
  function Rank(s: State): (n: nat)
    ensures n <= 7
  {
    if SomebodyJoins(s) then 7 else if HasLiveWorker(s) then PcRank(s.workers[s.thread.value]) else 0
  }

  ghost predicate Falls(s: State, s': State, n: nat, move: bool) {
    s'.served >= n || Rank(s') + (if move then 1 else 0) <= Rank(s)
  }

  lemma RequestRank(s: State, step: Step, n: nat)
    requires Inv(s) && Enabled(s, step) && s.served < n <= s.requested && IsRequest(step)
    ensures Falls(s, RequestStep(s, step), n, IsMove(step))
  {
    hide WakeupOk, TerminatorOk;
  }

  lemma WorkerRank(s: State, step: Step, n: nat)
    requires Inv(s) && Enabled(s, step) && s.served < n <= s.requested && IsWorker(step)
    ensures Falls(s, WorkerStep(s, step), n, true)
  {
    hide WakeupOk, TerminatorOk;
    assert s.thread == Some(step.w);
  }

  lemma TerminatorRank(s: State, step: Step, n: nat)
    requires Inv(s) && Enabled(s, step) && s.served < n <= s.requested && !IsRequest(step) && !IsWorker(step)
    ensures Falls(s, TerminatorStep(s, step), n, false)
  {
  }

  lemma RankFalls(s: State, step: Step, n: nat)
    requires Inv(s) && Enabled(s, step) && s.served < n <= s.requested
    ensures Falls(s, Apply(s, step), n, IsMove(step))
  {
    hide Falls, RequestStep, WorkerStep, TerminatorStep, Inv;
    if IsRequest(step) {
      RequestRank(s, step, n);
    } else if IsWorker(step) {
      WorkerRank(s, step, n);
    } else {
      TerminatorRank(s, step, n);
    }
  }

  function Moves(steps: seq<Step>): nat {
    if steps == [] then 0 else (if IsMove(steps[0]) then 1 else 0) + Moves(steps[1..])
  }

  /** Whatever the other threads do meanwhile, a run of function() begins after a request within
      at most seven moves of the serving thread. */
  lemma {:induction false} ServedWithinSevenMoves(s: State, steps: seq<Step>, n: nat)
    requires Inv(s) && IsRun(s, steps) && n <= s.requested
    ensures After(s, steps).served >= n || Moves(steps) <= Rank(s) <= 7
    ensures s.served <= After(s, steps).served
    decreases |steps|
  {
    if steps == [] {
    } else {
      var s' := Apply(s, steps[0]);
      StepKeeps(s, steps[0]);
      ServedGrows(s, steps[0]);
      ServedWithinSevenMoves(s', steps[1..], n);
      if s.served < n { RankFalls(s, steps[0], n); }
    }
  }

  lemma ServedGrows(s: State, step: Step)
    requires Inv(s) && Enabled(s, step)
    ensures s.served <= Apply(s, step).served && s.requested <= Apply(s, step).requested
  {
    assert s.served <= s.requested;
    hide Inv, MutexOk, OneWorker, WakeupOk, TerminatorOk, RunningOk, HasLiveWorker, SomebodyJoins, Enabled;
  }

  /** The step that the serving thread takes next. */
  function Serving(s: State): Step
    requires Inv(s) && s.served < s.requested
  {
    if SomebodyJoins(s) then RequesterJoin(s.mutex.r) else NextOf(s.thread.value, s.workers[s.thread.value])
  }

  function NextOf(w: nat, pc: WorkerPc): Step {
    match pc
    case Testing => WorkerTest(w)
    case Waiting => WorkerTimeout(w)
    case Clearing => WorkerClear(w)
    case InFunction => WorkerReturn(w)
    case Exiting => WorkerUnlock(w)
    case _ => WorkerLock(w)
  }

  /** Whoever holds the mutex and is not the serving thread goes on to release it. */
  function Releasing(s: State): Step { if s.mutex.Requester? then RequesterBody(s.mutex.r) else TerminatorBody }

  /** With a request pending, the serving thread can move, or waits for the mutex, whose holder can then
      release it. */
  lemma SomethingMoves(s: State)
    requires Inv(s) && s.served < s.requested
    ensures IsMove(Serving(s))
    ensures Enabled(s, Serving(s)) <==> !Serving(s).WorkerLock? || s.mutex.Nobody?
    ensures !Enabled(s, Serving(s)) ==> Enabled(s, Releasing(s)) && Apply(s, Releasing(s)).mutex.Nobody?
  {
    hide WakeupOk, TerminatorOk;
  }

  // ---- runs without end ----

  /** Everything but the calls that may or may not come. */
  predicate Going(step: Step) { !step.Request? && !step.TerminatorCall? }

  /** An infinite run, with moments in which nothing happens. */
  ghost predicate IsTrace(trace: nat -> State, chosen: nat -> Option<Step>) {
    forall i: nat :: Follows(trace(i), chosen(i), trace(i + 1))
  }

  ghost predicate Follows(s: State, c: Option<Step>, s': State) {
    if c.None? then s' == s else Enabled(s, c.value) && s' == Apply(s, c.value)
  }

  ghost predicate StaysEnabled(trace: nat -> State, step: Step, i: nat) {
    forall j: nat :: i <= j ==> Enabled(trace(j), step)
  }

  ghost predicate EnabledAfter(trace: nat -> State, step: Step, i: nat) {
    exists j: nat :: i <= j && Enabled(trace(j), step)
  }

  ghost predicate AlwaysAgain(trace: nat -> State, step: Step, i: nat) {
    forall j: nat :: i <= j ==> EnabledAfter(trace, step, j)
  }

  ghost predicate TakenAfter(chosen: nat -> Option<Step>, step: Step, i: nat) {
    exists j: nat :: i <= j && chosen(j) == Some(step)
  }

  /** A thread that can go on does so in the end. */
  ghost predicate WeaklyFair(trace: nat -> State, chosen: nat -> Option<Step>) {
    forall step: Step, i: nat :: Going(step) && StaysEnabled(trace, step, i) ==> TakenAfter(chosen, step, i)
  }

  /** A worker that finds the mutex free again and again gets it in the end. */
  ghost predicate LockFair(trace: nat -> State, chosen: nat -> Option<Step>) {
    forall w: nat, i: nat :: AlwaysAgain(trace, WorkerLock(w), i) ==> TakenAfter(chosen, WorkerLock(w), i)
  }

  ghost predicate FairRun(trace: nat -> State, chosen: nat -> Option<Step>) {
    Initial(trace(0)) && IsTrace(trace, chosen) && WeaklyFair(trace, chosen) && LockFair(trace, chosen)
  }

  lemma {:induction false} TraceKeeps(trace: nat -> State, chosen: nat -> Option<Step>, i: nat)
    requires FairRun(trace, chosen)
    ensures Inv(trace(i))
  {
    hide WeaklyFair, LockFair, Apply, Enabled;
    if i == 0 {
    } else {
      TraceKeeps(trace, chosen, i - 1);
      assert Follows(trace(i - 1), chosen(i - 1), trace(i));
      if chosen(i - 1).Some? { StepKeeps(trace(i - 1), chosen(i - 1).value); }
    }
  }

  /** Since moment i, request n was served or its rank has fallen. */
  ghost predicate Progressed(trace: nat -> State, i: nat, j: nat, n: nat) {
    trace(j).served >= n || Rank(trace(j)) < Rank(trace(i))
  }

  /** A step that is no move leaves the serving thread where it is, or wakes it up. */
  lemma ServingStays(s: State, step: Step, n: nat)
    requires Inv(s) && Enabled(s, step) && s.served < n <= s.requested && !IsMove(step)
    ensures var s' := Apply(s, step);
            Inv(s') && s'.served == s.served && s'.requested >= n
            && (Rank(s') < Rank(s) || (Rank(s') == Rank(s) && Serving(s') == Serving(s)))
  {
    StepKeeps(s, step);
    hide WakeupOk, TerminatorOk;
  }

  /** From a moment with request n pending: it progresses, or the serving thread is about to take the same step. */
  lemma {:induction false} Along(trace: nat -> State, chosen: nat -> Option<Step>, i: nat, j: nat, n: nat)
    requires FairRun(trace, chosen) && i <= j && Inv(trace(i)) && trace(i).served < n <= trace(i).requested
    ensures Inv(trace(j)) && n <= trace(j).requested
    ensures Progressed(trace, i, j, n)
            || (trace(j).served < n && Rank(trace(j)) == Rank(trace(i)) && Serving(trace(j)) == Serving(trace(i)))
    decreases j
  {
    hide Apply, Enabled, Inv, Rank, Serving, WeaklyFair, LockFair, IsMove;
    if i == j {
    } else {
      Along(trace, chosen, i, j - 1, n);
      TraceKeeps(trace, chosen, j);
      assert Follows(trace(j - 1), chosen(j - 1), trace(j));
      if chosen(j - 1).Some? {
        AlongOne(trace(j - 1), chosen(j - 1).value, n);
      }
    }
  }

  lemma AlongOne(s: State, step: Step, n: nat)
    requires Inv(s) && Enabled(s, step) && n <= s.requested
    ensures var s' := Apply(s, step);
            Inv(s') && n <= s'.requested && (s.served >= n ==> s'.served >= n)
            && (s'.served >= n || Rank(s') < Rank(s)
                || (s'.served < n && Rank(s') == Rank(s) && !IsMove(step) && Serving(s') == Serving(s)))
  {
    hide Apply, Enabled, Inv, Rank, Serving, IsMove;
    StepKeeps(s, step);
    ServedGrows(s, step);
    if s.served < n {
      if IsMove(step) { RankFalls(s, step, n); } else { ServingStays(s, step, n); }
    }
  }

  /** The moment after the serving thread's step is a moment of progress. */
  lemma AfterServing(trace: nat -> State, chosen: nat -> Option<Step>, i: nat, k: nat, n: nat)
    requires FairRun(trace, chosen) && i <= k && Inv(trace(i)) && trace(i).served < n <= trace(i).requested
    requires chosen(k) == Some(Serving(trace(i)))
    ensures Progressed(trace, i, k + 1, n)
  {
    hide Apply, Enabled, Inv, Rank, Serving, WeaklyFair, LockFair, IsMove;
    Along(trace, chosen, i, k, n);
    assert Follows(trace(k), chosen(k), trace(k + 1));
    SomethingMoves(trace(i));
    AlongOne(trace(k), chosen(k).value, n);
  }

  /** Whoever holds the mutex while the serving thread wants it keeps being able to release it. */
  lemma HolderStays(s: State, step: Step, n: nat)
    requires Inv(s) && Enabled(s, step) && s.served < n <= s.requested && Serving(s).WorkerLock?
    requires !s.mutex.Nobody? && step != Releasing(s)
    ensures Apply(s, step).mutex == s.mutex && Releasing(Apply(s, step)) == Releasing(s)
  {
    SomethingMoves(s);
    OnlyHolder(s, step);
    hide Inv, Serving, Notified;
  }

  /** While the serving thread wants the mutex, no step but the holder's next one touches the mutex. */
  lemma OnlyHolder(s: State, step: Step)
    requires Inv(s) && s.served < s.requested && Serving(s).WorkerLock? && Enabled(s, step)
    requires !s.mutex.Nobody? && step != Releasing(s)
    ensures !step.RequesterBody? && !step.RequesterJoin? && !step.TerminatorBody?
    ensures !step.WorkerTest? && !step.WorkerClear? && !step.WorkerUnlock?
  {
    hide WakeupOk, TerminatorOk;
  }

  ghost predicate FreeBetween(trace: nat -> State, j: nat, k: nat) {
    exists m: nat :: j <= m <= k && trace(m).mutex.Nobody?
  }

  /** While the serving thread waits for the mutex, the mutex stays with its holder until it is free. */
  lemma {:induction false} HolderAlong(trace: nat -> State, chosen: nat -> Option<Step>, i: nat, j: nat, k: nat, n: nat)
    requires FairRun(trace, chosen) && i <= j <= k && Inv(trace(i)) && trace(i).served < n <= trace(i).requested
    requires Serving(trace(i)).WorkerLock? && !trace(j).mutex.Nobody?
    ensures Progressed(trace, i, k, n) || trace(k).mutex == trace(j).mutex || FreeBetween(trace, j, k)
    decreases k
  {
    hide Apply, Enabled, Inv, Rank, Serving, WeaklyFair, LockFair, IsMove;
    if j == k {
    } else {
      HolderAlong(trace, chosen, i, j, k - 1, n);
      Along(trace, chosen, i, k - 1, n);
      assert Follows(trace(k - 1), chosen(k - 1), trace(k));
      if chosen(k - 1).Some? {
        AlongOne(trace(k - 1), chosen(k - 1).value, n);
        if !Progressed(trace, i, k - 1, n) && !trace(k - 1).mutex.Nobody? {
          SomethingMoves(trace(k - 1));
          if chosen(k - 1).value != Releasing(trace(k - 1)) { HolderStays(trace(k - 1), chosen(k - 1).value, n); }
        }
      }
    }
  }

  /** While the serving thread waits for the mutex, the mutex becomes free again and again. */
  lemma MutexFrees(trace: nat -> State, chosen: nat -> Option<Step>, i: nat, j: nat, n: nat) returns (k: nat)
    requires FairRun(trace, chosen) && i <= j && Inv(trace(i)) && trace(i).served < n <= trace(i).requested
    requires Serving(trace(i)).WorkerLock?
    ensures j <= k && (Progressed(trace, i, k, n) || trace(k).mutex.Nobody?)
  {
    hide Apply, Enabled, Inv, Rank, Serving, LockFair, IsMove;
    k := j;
    if !trace(j).mutex.Nobody? {
      var release := Releasing(trace(j));
      if StaysEnabled(trace, release, j) {
        assert TakenAfter(chosen, release, j);
        k :| j <= k && chosen(k) == Some(release);
        assert Follows(trace(k), chosen(k), trace(k + 1));
      } else {
        k :| j <= k && !Enabled(trace(k), release);
      }
      Along(trace, chosen, i, k, n);
      HolderAlong(trace, chosen, i, j, k, n);
      if !Progressed(trace, i, k, n) {
        if FreeBetween(trace, j, k) {
          k :| j <= k && trace(k).mutex.Nobody?;
        } else {
          SomethingMoves(trace(k));
          k := k + 1;
        }
      }
    }
  }

  /** A pending request progresses. */
  lemma NextProgress(trace: nat -> State, chosen: nat -> Option<Step>, i: nat, n: nat) returns (k: nat)
    requires FairRun(trace, chosen) && Inv(trace(i)) && trace(i).served < n <= trace(i).requested
    ensures i <= k && Progressed(trace, i, k, n)
  {
    hide Apply, Enabled, Inv, Rank, Serving;
    var next := Serving(trace(i));
    SomethingMoves(trace(i));
    if next.WorkerLock? {
      if !AlwaysAgain(trace, next, i) {
        var j: nat :| i <= j && !EnabledAfter(trace, next, j);
        k := MutexFrees(trace, chosen, i, j, n);
        Along(trace, chosen, i, k, n);
        if !Progressed(trace, i, k, n) { SomethingMoves(trace(k)); }
        return;
      }
    } else if !StaysEnabled(trace, next, i) {
      k :| i <= k && !Enabled(trace(k), next);
      Along(trace, chosen, i, k, n);
      if !Progressed(trace, i, k, n) { SomethingMoves(trace(k)); }
      return;
    }
    assert TakenAfter(chosen, next, i);
    k :| i <= k && chosen(k) == Some(next);
    AfterServing(trace, chosen, i, k, n);
    k := k + 1;
  }

  /** In every fair run every request is followed by a run of function() that begins after it. */
  lemma {:induction false} EveryRequestIsServed(trace: nat -> State, chosen: nat -> Option<Step>, i: nat, n: nat)
    returns (j: nat)
    requires FairRun(trace, chosen) && n <= trace(i).requested
    ensures i <= j && trace(j).served >= n
    decreases if trace(i).served >= n then 0 else 1 + Rank(trace(i))
  {
    hide Inv, Rank, FairRun;
    if trace(i).served >= n {
      j := i;
    } else {
      TraceKeeps(trace, chosen, i);
      var k := NextProgress(trace, chosen, i, n);
      Along(trace, chosen, i, k, n);
      j := EveryRequestIsServed(trace, chosen, k, n);
    }
  }

  // ---- runs that come to rest ----

  /** Nothing can happen any more but a new call. */
  ghost predicate AtRest(s: State) {
    forall step: Step :: Going(step) ==> !Enabled(s, step)
  }

  /** Every request has been served, every call has returned and every thread has ended. */
  predicate Complete(s: State) {
    s.served == s.requested && s.requesters == map[] && (s.terminator.NotCalled? || s.terminator.Terminated?)
    && forall w :: w in s.workers ==> s.workers[w].Done?
  }

  /** No deadlock: a run that comes to rest is complete. */
  lemma RestIsComplete(s: State, steps: seq<Step>)
    requires Initial(s) && IsRun(s, steps) && AtRest(After(s, steps))
    ensures Complete(After(s, steps))
  {
    RunKeeps(s, steps);
    AtRestComplete(After(s, steps));
  }

  lemma AtRestComplete(s: State)
    requires Inv(s) && AtRest(s)
    ensures Complete(s)
  {
    hide Enabled;
    if !Complete(s) {
      var step := CanGoOn(s);
    }
  }

  /** Whoever holds the mutex can go on, or else whoever is not done. */
  lemma CanGoOn(s: State) returns (step: Step)
    requires Inv(s) && !Complete(s)
    ensures Going(step) && Enabled(s, step)
  {
    hide WakeupOk;
    if s.mutex.Worker? {
      step := NextOf(s.mutex.w, s.workers[s.mutex.w]);
    } else if s.mutex.Requester? {
      step := if s.requesters[s.mutex.r].Joining? then RequesterJoin(s.mutex.r) else RequesterBody(s.mutex.r);
    } else if s.mutex.Terminator? {
      step := TerminatorBody;
    } else if w :| w in s.workers && !s.workers[w].Done? {
      step := NextOf(w, s.workers[w]);
    } else if r :| r in s.requesters {
      step := if s.requesters[r].Notifying? then RequesterNotify(r) else RequesterLock(r);
    } else {
      step := if s.terminator.WantsTerminate? then TerminatorLock
              else if s.terminator.OwesNotify? then TerminatorNotify else TerminatorJoin;
    }
  }

  /** The state after i steps, and the last one from then on. */
  function StateAt(s: State, steps: seq<Step>, i: nat): State
    requires IsRun(s, steps)
    decreases |steps|
  {
    if steps == [] || i == 0 then s else StateAt(Apply(s, steps[0]), steps[1..], i - 1)
  }

  lemma {:induction false} StateAtFollows(s: State, steps: seq<Step>, i: nat)
    requires IsRun(s, steps)
    ensures Follows(StateAt(s, steps, i), if i < |steps| then Some(steps[i]) else None, StateAt(s, steps, i + 1))
    ensures i >= |steps| ==> StateAt(s, steps, i) == After(s, steps)
    decreases |steps|
  {
    hide Apply, Enabled;
    if steps == [] {
    } else if i == 0 {
      assert StateAt(s, steps, 1) == StateAt(Apply(s, steps[0]), steps[1..], 0);
    } else {
      StateAtFollows(Apply(s, steps[0]), steps[1..], i - 1);
    }
  }

  /** Every run that comes to rest is a fair run that then waits for ever. */
  lemma RestIsFair(s: State, steps: seq<Step>) returns (trace: nat -> State, chosen: nat -> Option<Step>)
    requires Initial(s) && IsRun(s, steps) && AtRest(After(s, steps))
    ensures FairRun(trace, chosen)
    ensures forall i: nat :: chosen(i) == if i < |steps| then Some(steps[i]) else None
  {
    trace := (i: nat) => StateAt(s, steps, i);
    chosen := (i: nat) => if i < |steps| then Some(steps[i]) else None;
    hide Apply, Enabled;
    forall i: nat ensures Follows(trace(i), chosen(i), trace(i + 1)) { StateAtFollows(s, steps, i); }
    assert WeaklyFair(trace, chosen) by {
      forall step: Step, i: nat | Going(step) ensures !StaysEnabled(trace, step, i) {
        var j := NeverAgain(s, steps, trace, step, i);
        assert !Enabled(trace(j), step);
      }
    }
    assert LockFair(trace, chosen) by {
      forall w: nat, i: nat ensures !AlwaysAgain(trace, WorkerLock(w), i) {
        var j := NeverAgain(s, steps, trace, WorkerLock(w), i);
      }
    }
  }

  lemma NeverAgain(s: State, steps: seq<Step>, trace: nat -> State, step: Step, i: nat) returns (j: nat)
    requires IsRun(s, steps) && AtRest(After(s, steps)) && Going(step)
    requires forall i: nat :: trace(i) == StateAt(s, steps, i)
    ensures i <= j && !Enabled(trace(j), step) && !EnabledAfter(trace, step, j)
  {
    hide Apply, Enabled, Going;
    j := i + |steps|;
    forall k: nat | j <= k ensures !Enabled(trace(k), step) { StateAtFollows(s, steps, k); }
  }

  // ---- terminate returns ----

  /** How many steps a worker has before it, counted with the flag that decides whether it runs again. */
  function StepsLeft(pc: WorkerPc, pending: bool): nat {
    match pc
    case Done => 0
    case Exiting => 1
    case Testing => if pending then 8 else 2
    case Relocking => if pending then 9 else 3
    case InFunction => if pending then 10 else 4
    case Clearing => 5
    case Woken => 6
    case Waiting => 7
    case Starting => 9
  }

  function CallLeft(pc: TerminatorPc): nat {
    match pc
    case NotCalled => 6
    case WantsTerminate => 4
    case InTerminate => 3
    case OwesNotify => 2
    case JoinsWorker => 1
    case Terminated => 0
  }

  function Left(s: State): (n: nat)
    ensures !s.terminator.NotCalled? ==> n <= 14
  {
    CallLeft(s.terminator)
    + if s.thread.Some? && s.thread.value in s.workers then StepsLeft(s.workers[s.thread.value], s.hasPendingTask)
      else 0
  }

  lemma WorkerLeft(s: State, step: Step)
    requires Inv(s) && Enabled(s, step) && IsWorker(step)
    ensures Left(WorkerStep(s, step)) < Left(s)
  {
    ServedBy(s, step);
    hide Inv, IsRequest, Joinable, Notified, FreshId;
  }

  /** Only the joinable thread takes worker steps. */
  lemma ServedBy(s: State, step: Step)
    requires Inv(s) && Enabled(s, step) && IsWorker(step)
    ensures s.thread == Some(step.w) && step.w in s.workers
  {
    hide WakeupOk, TerminatorOk, RunningOk, MutexOk;
  }

  lemma TerminatorLeft(s: State, step: Step)
    requires Inv(s) && Enabled(s, step) && !IsRequest(step) && !IsWorker(step)
    ensures !TerminatorStep(s, step).terminator.NotCalled? && Left(TerminatorStep(s, step)) < Left(s)
  {
    hide WakeupOk, MutexOk;
  }

  lemma LeftFalls(s: State, step: Step)
    requires Inv(s) && !s.terminator.NotCalled? && Enabled(s, step)
    ensures !Apply(s, step).terminator.NotCalled? && Left(Apply(s, step)) < Left(s)
  {
    hide Left, MutexOk, WakeupOk, RunningOk, OneWorker, RequestStep, TerminatorStep;
    if IsWorker(step) {
      WorkerLeft(s, step);
    } else {
      assert !IsRequest(step);
      TerminatorLeft(s, step);
    }
  }

  /** Once terminate is called, at most fourteen steps remain, of whatever threads; and when none can be taken,
      terminate has returned, its worker has ended and every request has been served. */
  lemma {:induction false} TerminateReturns(s: State, steps: seq<Step>)
    requires Inv(s) && !s.terminator.NotCalled? && IsRun(s, steps)
    ensures |steps| <= Left(s) <= 14
    ensures var t := After(s, steps); AtRest(t) ==> t.terminator.Terminated? && t.served == t.requested
    decreases |steps|
  {
    hide Apply, Enabled, Inv;
    if steps == [] {
      if AtRest(s) { AtRestComplete(s); }
    } else {
      LeftFalls(s, steps[0]);
      StepKeeps(s, steps[0]);
      TerminateReturns(Apply(s, steps[0]), steps[1..]);
    }
  }

  // ---- what the argument of a call does ----

  lemma {:induction false} RunSplits(s: State, before: seq<Step>, after: seq<Step>)
    requires IsRun(s, before + after)
    ensures IsRun(s, before) && IsRun(After(s, before), after)
    ensures After(s, before + after) == After(After(s, before), after)
    decreases |before|
  {
    hide Apply, Enabled;
    if before == [] {
      assert before + after == after;
    } else {
      assert (before + after)[1..] == before[1..] + after;
      RunSplits(Apply(s, before[0]), before[1..], after);
    }
  }

  /** The call of requestRun(immediate) by r has not yet entered its body. */
  predicate Calling(s: State, r: nat, immediate: bool) {
    RequesterAt(s, r, WantsLock(immediate)) || RequesterAt(s, r, InRequest(immediate))
  }

  lemma CallStays(s: State, step: Step, r: nat, immediate: bool)
    requires Inv(s) && Enabled(s, step) && Calling(s, r, immediate) && step != RequesterBody(r)
    ensures Calling(Apply(s, step), r, immediate)
  {
    hide WakeupOk, RunningOk, OneWorker, Notified;
  }

  lemma {:induction false} CallRemains(s: State, steps: seq<Step>, r: nat, immediate: bool)
    requires Inv(s) && IsRun(s, steps) && Calling(s, r, immediate) && RequesterBody(r) !in steps
    ensures Inv(After(s, steps)) && Calling(After(s, steps), r, immediate)
    decreases |steps|
  {
    hide Apply, Enabled, Inv, Calling;
    if steps == [] {
    } else {
      CallStays(s, steps[0], r, immediate);
      StepKeeps(s, steps[0]);
      CallRemains(Apply(s, steps[0]), steps[1..], r, immediate);
    }
  }

  /** Request n is served, or the worker has been told not to wait. */
  predicate Hurried(s: State, n: nat) { s.requested >= n && (s.served >= n || s.runImmediately) }

  lemma HurryStays(s: State, step: Step, n: nat)
    requires Inv(s) && Enabled(s, step) && Hurried(s, n)
    ensures Hurried(Apply(s, step), n)
  {
    ServedGrows(s, step);
    hide Inv, Notified;
  }

  lemma {:induction false} HurryLasts(s: State, steps: seq<Step>, n: nat)
    requires Inv(s) && IsRun(s, steps) && Hurried(s, n)
    ensures Inv(After(s, steps)) && Hurried(After(s, steps), n)
    decreases |steps|
  {
    hide Apply, Enabled, Inv, Hurried;
    if steps == [] {
    } else {
      HurryStays(s, steps[0], n);
      StepKeeps(s, steps[0]);
      HurryLasts(Apply(s, steps[0]), steps[1..], n);
    }
  }

  /** requestRun(true): from the moment its body has run until a run of function() begins, whatever else happens, a
      worker that waits is owed a notify, and one that tests the flag goes on to run function() without waiting. */
  lemma ImmediateDoesNotWait(s: State, before: seq<Step>, r: nat, between: seq<Step>, after: seq<Step>, w: nat)
    requires Initial(s) && IsRun(s, before + [Request(r, true)] + between + [RequesterBody(r)] + after)
    requires RequesterBody(r) !in between
    ensures var steps := before + [Request(r, true)] + between + [RequesterBody(r)];
            var t := After(s, steps + after);
            IsRun(s, steps)
            && (t.served < After(s, steps).requested ==>
                  (WorkerAt(t, w, Waiting) ==> NotifyOwed(t))
                  && (WorkerAt(t, w, Testing) ==> WorkerAt(Apply(t, WorkerTest(w)), w, Clearing)))
  {
    var steps := before + [Request(r, true)] + between + [RequesterBody(r)];
    var t, n := ImmediateHurries(s, before, r, between, after);
    hide IsRun, Initial, RequestStep, WorkerStep;
    if t.served < n { TestHurries(t, w, n); }
  }

  lemma ImmediateHurries(s: State, before: seq<Step>, r: nat, between: seq<Step>, after: seq<Step>)
    returns (t: State, n: nat)
    requires Initial(s) && IsRun(s, before + [Request(r, true)] + between + [RequesterBody(r)] + after)
    requires RequesterBody(r) !in between
    ensures var steps := before + [Request(r, true)] + between + [RequesterBody(r)];
            IsRun(s, steps) && n == After(s, steps).requested
            && t == After(s, steps + after) && Inv(t) && Hurried(t, n)
  {
    hide Apply, Enabled, Inv, Hurried, Calling;
    assert Inv(s) by { InitialInv(s); }
    var called := before + [Request(r, true)];
    var steps := called + between + [RequesterBody(r)];
    RunSplits(s, steps, after);
    RunSplits(s, called + between, [RequesterBody(r)]);
    RunSplits(s, called, between);
    RunSplits(s, before, [Request(r, true)]);
    RunKeeps(s, before);
    RunKeeps(s, called);
    CallBegins(After(s, before), r, true);
    CallRemains(After(s, called), between, r, true);
    var u := After(s, called + between);
    StepKeeps(u, RequesterBody(r));
    n := u.requested + 1;
    BodyHurries(u, r);
    HurryLasts(After(s, steps), after, n);
    t := After(s, steps + after);
  }

  lemma InitialInv(s: State)
    requires Initial(s)
    ensures Inv(s)
  {
  }

  lemma CallBegins(s: State, r: nat, immediate: bool)
    requires Enabled(s, Request(r, immediate))
    ensures Calling(Apply(s, Request(r, immediate)), r, immediate)
  {
  }

  lemma BodyHurries(s: State, r: nat)
    requires Calling(s, r, true) && Enabled(s, RequesterBody(r))
    ensures var s' := Apply(s, RequesterBody(r)); s'.requested == s.requested + 1 && Hurried(s', s'.requested)
  {
  }

  lemma TestHurries(s: State, w: nat, n: nat)
    requires Inv(s) && Hurried(s, n) && s.served < n
    ensures WorkerAt(s, w, Waiting) ==> NotifyOwed(s)
    ensures WorkerAt(s, w, Testing) ==> WorkerAt(Apply(s, WorkerTest(w)), w, Clearing)
  {
    hide MutexOk, OneWorker, TerminatorOk;
  }

  // ---- the flags are what the calls so far make them ----

  /** The argument of the latest call of r. */
  function Argument(steps: seq<Step>, r: nat): bool {
    if steps == [] then false
    else
      var last := steps[|steps| - 1];
      if last.Request? && last.r == r then last.immediate else Argument(steps[..|steps| - 1], r)
  }

  /** Since the latest run of function() began, the body of a call has run. */
  function Pending(steps: seq<Step>): bool {
    if steps == [] then false
    else
      var last := steps[|steps| - 1];
      last.RequesterBody? || (!last.WorkerClear? && Pending(steps[..|steps| - 1]))
  }

  /** Since the latest run of function() began, the body of requestRun(true) or of terminate has run. */
  function Hurry(steps: seq<Step>): bool {
    if steps == [] then false
    else
      var before, last := steps[..|steps| - 1], steps[|steps| - 1];
      (last.RequesterBody? && Argument(before, last.r)) || last.TerminatorBody?
      || (!last.WorkerClear? && Hurry(before))
  }

  ghost predicate FlagsOk(s: State, steps: seq<Step>) {
    (s.hasPendingTask <==> Pending(steps)) && (s.runImmediately <==> Hurry(steps))
    && (s.stopping <==> TerminatorBody in steps)
  }

  ghost predicate ArgumentsOk(s: State, steps: seq<Step>) {
    forall r :: r in s.requesters && (s.requesters[r].WantsLock? || s.requesters[r].InRequest?) ==>
      s.requesters[r].immediate == Argument(steps, r)
  }

  /** What one step does to the flags and the counters. */
  ghost predicate Changes(s: State, step: Step, s': State)
    requires Enabled(s, step)
  {
    (s'.hasPendingTask <==> step.RequesterBody? || (!step.WorkerClear? && s.hasPendingTask))
    && (s'.runImmediately <==> (step.RequesterBody? && s.requesters[step.r].immediate) || step.TerminatorBody?
                               || (!step.WorkerClear? && s.runImmediately))
    && (s'.stopping <==> s.stopping || step.TerminatorBody?)
    && s'.requested == s.requested + (if step.RequesterBody? then 1 else 0)
    && s'.served == if step.WorkerClear? then s.requested else s.served
  }

  lemma RequestChanges(s: State, step: Step)
    requires Enabled(s, step) && IsRequest(step)
    ensures Changes(s, step, RequestStep(s, step))
  {
    hide Joinable, FreshId, Notified, IsWorker;
  }

  lemma WorkerChanges(s: State, step: Step)
    requires Enabled(s, step) && IsWorker(step)
    ensures Changes(s, step, WorkerStep(s, step))
    ensures WorkerStep(s, step).requesters == s.requesters
  {
    hide Joinable, FreshId, Notified, IsRequest;
  }

  lemma TerminatorChanges(s: State, step: Step)
    requires Enabled(s, step) && !IsRequest(step) && !IsWorker(step)
    ensures Changes(s, step, TerminatorStep(s, step))
    ensures TerminatorStep(s, step).requesters == s.requesters
  {
    hide Joinable, FreshId, Notified;
  }

  lemma StepChanges(s: State, step: Step)
    requires Enabled(s, step)
    ensures Changes(s, step, Apply(s, step))
    ensures !IsRequest(step) ==> Apply(s, step).requesters == s.requesters
  {
    hide Changes, RequestStep, WorkerStep, TerminatorStep, Enabled;
    if IsRequest(step) {
      RequestChanges(s, step);
    } else if IsWorker(step) {
      WorkerChanges(s, step);
    } else {
      TerminatorChanges(s, step);
    }
  }

  lemma StepFlags(s: State, step: Step, steps: seq<Step>)
    requires Enabled(s, step) && FlagsOk(s, steps) && ArgumentsOk(s, steps)
    ensures FlagsOk(Apply(s, step), steps + [step])
  {
    StepChanges(s, step);
    assert step.RequesterBody? ==> step.r in s.requesters && s.requesters[step.r].InRequest?;
    hide Apply, Enabled, Argument;
    var more := steps + [step];
    assert more[|more| - 1] == step && more[..|more| - 1] == steps;
  }

  lemma StepArguments(s: State, step: Step, steps: seq<Step>)
    requires Enabled(s, step) && ArgumentsOk(s, steps)
    ensures ArgumentsOk(Apply(s, step), steps + [step])
  {
    hide Joinable, FreshId, Notified, WorkerStep, TerminatorStep;
    var more := steps + [step];
    assert more[|more| - 1] == step && more[..|more| - 1] == steps;
    if !IsRequest(step) { StepChanges(s, step); }
  }

  /** In every run the three flags are what the calls since the latest run of function() make them. */
  lemma {:induction false} FlagsAreHistory(s: State, steps: seq<Step>)
    requires Initial(s) && IsRun(s, steps)
    ensures FlagsOk(After(s, steps), steps) && ArgumentsOk(After(s, steps), steps)
    decreases |steps|
  {
    if steps == [] {
    } else {
      var before, step := steps[..|steps| - 1], steps[|steps| - 1];
      assert steps == before + [step];
      hide Apply, Enabled, FlagsOk, ArgumentsOk;
      RunSplits(s, before, [step]);
      FlagsAreHistory(s, before);
      StepFlags(After(s, before), step, before);
      StepArguments(After(s, before), step, before);
    }
  }

  // ---- function() runs after the delay, or for a reason ----

  predicate IsNotify(step: Step) { step.RequesterNotify? || step.TerminatorNotify? }

  /** The delay of worker w has passed, or a notify was sent, since it last tested the flag. */
  ghost predicate Roused(steps: seq<Step>, w: nat) {
    exists i :: 0 <= i < |steps| && (steps[i] == WorkerTimeout(w) || IsNotify(steps[i])) && WorkerTest(w) !in steps[i..]
  }

  /** The delay of worker w has passed since it last tested the flag. */
  ghost predicate Delayed(steps: seq<Step>, w: nat) {
    exists i :: 0 <= i < |steps| && steps[i] == WorkerTimeout(w) && WorkerTest(w) !in steps[i..]
  }

  /** Whoever is about to run function() has been roused, or need not wait. */
  ghost predicate ReasonsOk(s: State, steps: seq<Step>) {
    forall w :: w in s.workers ==>
      (s.workers[w].Woken? ==> Roused(steps, w))
      && (s.workers[w].Clearing? ==> Roused(steps, w) || s.runImmediately || s.stopping)
  }

  lemma RousedGrows(steps: seq<Step>, step: Step, w: nat)
    requires step == WorkerTimeout(w) || IsNotify(step) || (Roused(steps, w) && step != WorkerTest(w))
    ensures Roused(steps + [step], w)
  {
    var more := steps + [step];
    if step == WorkerTimeout(w) || IsNotify(step) {
      assert more[|steps|] == step && more[|steps|..] == [step];
    } else {
      var i :| 0 <= i < |steps| && (steps[i] == WorkerTimeout(w) || IsNotify(steps[i])) && WorkerTest(w) !in steps[i..];
      assert more[i] == steps[i] && more[i..] == steps[i..] + [step];
    }
  }

  lemma ReasonsStay(s: State, step: Step, steps: seq<Step>)
    requires Inv(s) && Enabled(s, step) && ReasonsOk(s, steps)
    ensures ReasonsOk(Apply(s, step), steps + [step])
  {
    hide Apply, Enabled, Inv;
    var s' := Apply(s, step);
    forall w | w in s'.workers && (s'.workers[w].Woken? || s'.workers[w].Clearing?)
      ensures Roused(steps + [step], w) || (s'.workers[w].Clearing? && (s'.runImmediately || s'.stopping))
    {
      hide Roused;
      assert Because(s, step, s', w) by { ReasonsOne(s, step, w); }
      if w in s.workers && (Roused(steps, w) || step == WorkerTimeout(w) || IsNotify(step)) && step != WorkerTest(w) {
        RousedGrows(steps, step, w);
      }
    }
  }

  /** How a worker comes to be woken, and how to be about to run function(). */
  ghost predicate Because(s: State, step: Step, s': State, w: nat) {
    w in s'.workers ==>
      (s'.workers[w].Woken? ==>
         w in s.workers && step != WorkerTest(w)
         && (s.workers[w].Woken? || step == WorkerTimeout(w) || IsNotify(step)))
      && (s'.workers[w].Clearing? ==>
            s'.runImmediately || s'.stopping
            || (w in s.workers && step != WorkerTest(w)
                && (s.workers[w].Woken? || (s.workers[w].Clearing? && !s.runImmediately && !s.stopping))))
  }

  lemma ReasonsOne(s: State, step: Step, w: nat)
    requires Inv(s) && Enabled(s, step)
    ensures Because(s, step, Apply(s, step), w)
  {
    hide Because, MutexOk, OneWorker, RunningOk, WakeupOk, TerminatorOk, RequestStep, WorkerStep, TerminatorStep;
    if IsRequest(step) {
      RequestReasons(s, step, w);
    } else if IsWorker(step) {
      ServedBy(s, step);
      WorkerReasons(s, step, w);
    } else {
      TerminatorReasons(s, step, w);
    }
  }

  lemma RequestReasons(s: State, step: Step, w: nat)
    requires Enabled(s, step) && IsRequest(step)
    ensures Because(s, step, RequestStep(s, step), w)
  {
    hide Joinable;
  }

  lemma WorkerReasons(s: State, step: Step, w: nat)
    requires OneWorker(s) && Enabled(s, step) && IsWorker(step) && s.thread == Some(step.w)
    ensures Because(s, step, WorkerStep(s, step), w)
  {
    if w != step.w { assert w in s.workers ==> s.workers[w].Done?; }
    hide Joinable, OneWorker;
  }

  lemma TerminatorReasons(s: State, step: Step, w: nat)
    requires Enabled(s, step) && !IsRequest(step) && !IsWorker(step)
    ensures Because(s, step, TerminatorStep(s, step), w)
  {
    hide Joinable;
  }

  lemma {:induction false} RunsHaveReasons(s: State, steps: seq<Step>)
    requires Initial(s) && IsRun(s, steps)
    ensures Inv(After(s, steps)) && ReasonsOk(After(s, steps), steps)
    decreases |steps|
  {
    if steps == [] {
    } else {
      var before, step := steps[..|steps| - 1], steps[|steps| - 1];
      assert steps == before + [step];
      hide Apply, Enabled, Inv, ReasonsOk;
      RunSplits(s, before, [step]);
      RunsHaveReasons(s, before);
      StepKeeps(After(s, before), step);
      ReasonsStay(After(s, before), step, before);
    }
  }

  /** Whenever function() runs: a whole delay has passed or a notify was sent since the worker last found a request
      pending, or since the run before it requestRun(true) was called, or terminate was. */
  lemma EveryRunHasAReason(s: State, steps: seq<Step>, w: nat)
    requires Initial(s) && IsRun(s, steps + [WorkerClear(w)])
    ensures Roused(steps, w) || Hurry(steps) || TerminatorBody in steps
  {
    hide Apply, Inv, Hurry, Roused;
    RunSplits(s, steps, [WorkerClear(w)]);
    RunsHaveReasons(s, steps);
    FlagsAreHistory(s, steps);
  }

  /** Nobody asks for an immediate run and nobody terminates. */
  predicate Patient(step: Step) { !step.TerminatorCall? && (step.Request? ==> !step.immediate) }

  predicate Slow(pc: RequesterPc) { pc == WantsLock(false) || pc == InRequest(false) || pc == Joining }

  ghost predicate Calm(s: State) {
    !s.runImmediately && !s.stopping && s.terminator.NotCalled?
    && forall r :: r in s.requesters ==> Slow(s.requesters[r])
  }

  lemma CalmStays(s: State, step: Step)
    requires Calm(s) && Enabled(s, step) && Patient(step)
    ensures Calm(Apply(s, step)) && !IsNotify(step)
  {
    hide Joinable, FreshId, Notified, WorkerAt;
    assert IsRequest(step) || IsWorker(step);
    if IsRequest(step) { CalmRequest(s, step); } else { CalmWorker(s, step); }
  }

  lemma CalmRequest(s: State, step: Step)
    requires Calm(s) && Enabled(s, step) && Patient(step) && IsRequest(step)
    ensures Calm(RequestStep(s, step)) && !step.RequesterNotify?
  {
    hide Joinable, FreshId, Notified, WorkerAt, IsWorker;
  }

  lemma CalmWorker(s: State, step: Step)
    requires Calm(s) && Enabled(s, step) && IsWorker(step)
    ensures Calm(WorkerStep(s, step))
  {
    hide Joinable, FreshId, Notified, IsRequest;
  }

  lemma {:induction false} PatientRun(s: State, steps: seq<Step>)
    requires Calm(s) && IsRun(s, steps) && (forall step :: step in steps ==> Patient(step))
    ensures Calm(After(s, steps)) && forall step :: step in steps ==> !IsNotify(step)
    decreases |steps|
  {
    hide Apply, Enabled, Calm, Patient, IsNotify;
    if steps == [] {
    } else {
      CalmStays(s, steps[0]);
      PatientRun(Apply(s, steps[0]), steps[1..]);
    }
  }

  /** requestRun(false): while no call asks for an immediate run and terminate is not called, function() never runs
      before a whole delay has passed since the worker last found a request pending. */
  lemma EveryRunIsDelayed(s: State, steps: seq<Step>, w: nat)
    requires Initial(s) && IsRun(s, steps + [WorkerClear(w)]) && (forall step :: step in steps ==> Patient(step))
    ensures Delayed(steps, w)
  {
    EveryRunHasAReason(s, steps, w);
    hide Apply, Patient, IsNotify, Hurry, Argument;
    RunSplits(s, steps, [WorkerClear(w)]);
    PatientRun(s, steps);
    FlagsAreHistory(s, steps);
    assert Roused(steps, w);
  }

  // ---- what the two counters count ----

  function Bodies(steps: seq<Step>): nat {
    if steps == [] then 0
    else Bodies(steps[..|steps| - 1]) + if steps[|steps| - 1].RequesterBody? then 1 else 0
  }

  /** The steps before the latest run of function() began. */
  function BeforeClear(steps: seq<Step>): seq<Step> {
    if steps == [] then []
    else if steps[|steps| - 1].WorkerClear? then steps[..|steps| - 1] else BeforeClear(steps[..|steps| - 1])
  }

  lemma StepCounts(s: State, step: Step)
    requires Enabled(s, step)
    ensures var s' := Apply(s, step);
            s'.requested == s.requested + (if step.RequesterBody? then 1 else 0)
            && s'.served == if step.WorkerClear? then s.requested else s.served
  {
    StepChanges(s, step);
    hide Apply, Enabled;
  }

  /** `requested` is the number of calls whose body has run, `served` the number of those before the latest run of
      function() began. */
  lemma {:induction false} CountersCount(s: State, steps: seq<Step>)
    requires Initial(s) && IsRun(s, steps)
    ensures After(s, steps).requested == Bodies(steps)
    ensures After(s, steps).served == Bodies(BeforeClear(steps))
    decreases |steps|
  {
    if steps == [] {
    } else {
      var before, step := steps[..|steps| - 1], steps[|steps| - 1];
      assert steps == before + [step];
      hide Apply, Enabled;
      RunSplits(s, before, [step]);
      CountersCount(s, before);
      StepCounts(After(s, before), step);
    }
  }
}

/** EventManager: adders, the main upload worker and the realtime upload worker interleave on the
    realtime memory queue and the critical disk queue. Each queue operation is one step, as each
    runs under its batch's mutex. The critical queue is the files of its batch. */
module EventManager {
  import opened Common
  import opened FileQueue

  /** An event and the size of its record. */
  datatype Event = Event(id: nat, critical: bool, size: nat)

  /** Where the main worker is in uploadTasks and sendEvents. */
  datatype MainPc =
    | MainIdle
    | MainFetching                    // hasEvents was true
    | MainNothing                     // the fetch returned null
    | MainRefetching                  // hasEvents was true again
    | MainDropping(drop: seq<Event>)  // one event was fetched in order to drop it
    | MainSending(list: seq<Event>)   // a list is being posted

  datatype RealtimePc =
    | RealtimeIdle
    | RealtimeDropping(drop: seq<Event>)
    | RealtimeSending(list: seq<Event>)
    | Transferring(hand: seq<Event>)  // events taken out of memory on their way to disk

  const REALTIME_LIMIT := 50

  /** Events and bytes per post, and per file; 0 means no limit for files. */
  datatype Limits = Limits(maxCount: nat, maxSize: nat, fileMaxEvents: nat, fileMaxSize: nat) {
    predicate Fits(e: Event) { fileMaxSize == 0 || e.size <= fileMaxSize }

    /** The most bytes that one fetch from a file returns. */
    function FetchSize(): nat { Min(maxSize, MEBIBYTE) }
  }

  datatype State = State(
    files: Files<Event>,    // the critical disk queue
    rt: seq<Event>,         // the realtime memory queue
    main: MainPc,
    realtime: RealtimePc,
    limits: Limits,
    // history
    accepted: seq<Event>,   // every event that a queue accepted from an adder
    critLog: seq<Event>,    // every event that the critical queue accepted, in order
    uploaded: seq<Event>,   // events that left the critical queue in a batch answered with 200
    rtUploaded: seq<Event>, // the same for the realtime queue
    critOut: seq<Event>,    // every event that left the critical queue, in order
    lost: seq<Event>)       // events that went nowhere
  {
    function Crit(): seq<Event> { files.Queue() }
  }

  datatype Step =
    | AddRealtime(e: Event)
    | AddStored(e: Event)
    | Configure(limits: Limits)
    | MainCheck
    | MainFetch
    | MainRecheck
    | MainRefetch
    | MainDropAck
    | MainAnswer(ok: bool)
    | RealtimeFetch
    | RealtimeDropAck
    | RealtimeAnswer(ok: bool)
    | TransferOne
    | TransferDone

  // ---- what the batches compute ----

  function Total(q: seq<Event>): nat {
    if q == [] then 0 else Total(q[..|q| - 1]) + q[|q| - 1].size
  }

  /** How many events from the front of `q` a fetch returns. */
  function FitCount(q: seq<Event>, maxCount: nat, maxSize: nat): (k: nat)
    ensures k <= |q| && k <= maxCount
    ensures k == 0 <==> q == [] || maxCount == 0 || q[0].size > maxSize
    ensures forall i :: 0 <= i < k ==> q[i].size <= maxSize
  {
    if q == [] || maxCount == 0 || q[0].size > maxSize then 0
    else 1 + FitCount(q[1..], maxCount - 1, maxSize - q[0].size)
  }

  predicate RoomFor(q: seq<Event>, e: Event, lim: Limits) {
    (lim.fileMaxSize == 0 || Total(q) + e.size <= lim.fileMaxSize)
    && (lim.fileMaxEvents == 0 || |q| + 1 <= lim.fileMaxEvents)
  }

  /** addEvent on the critical queue: rolls over to a new file if the newest has no room. An event that fits no
      file leaves the new one empty. */
  function Store(f: Files<Event>, e: Event, lim: Limits): (f': Files<Event>)
    requires f.Ok()
    ensures f'.Ok()
  {
    Put(f, e, RoomFor(f.newest, e, lim), lim.Fits(e))
  }

  // ---- the steps; one that its thread cannot take changes nothing ----

  function Stored(s: State, e: Event): State
    requires s.files.Ok()
  {
    var s' := s.(files := Store(s.files, e, s.limits));
    if s.limits.Fits(e) then s'.(critLog := s.critLog + [e]) else s'
  }

  function AddStep(s: State, step: Step): State
    requires s.files.Ok()
  {
    match step
    case AddRealtime(e) =>
      if |s.rt| >= REALTIME_LIMIT then s
      else s.(rt := s.rt + [e], accepted := s.accepted + [e])
    case AddStored(e) =>
      if !e.critical then s
      else if s.limits.Fits(e) then Stored(s, e).(accepted := s.accepted + [e])
      else Stored(s, e)
    case Configure(limits) => s.(limits := limits)
    case _ => s
  }

  /** getEventsForUpload on the critical queue: the list, or null. */
  function Fetched(f: Files<Event>, maxCount: nat, maxSize: nat): Option<seq<Event>>
    requires f.Ready()
  {
    if maxCount == 0 || f.First() == [] then None
    else Some(f.First()[..FitCount(f.First(), maxCount, maxSize)])
  }

  function MainFetchStep(s: State, step: Step): State
    requires s.files.Ok()
  {
    match step
    case MainCheck => if s.main.MainIdle? && s.files.HasEvents() then s.(main := MainFetching) else s
    case MainFetch =>
      if !s.main.MainFetching? then s
      else
        var f := Examined(s.files);
        var r := Fetched(f, s.limits.maxCount, s.limits.FetchSize());
        s.(files := f, main := if r.None? then MainNothing else MainSending(r.value))
    case MainRecheck =>
      if !s.main.MainNothing? then s
      else s.(main := if s.files.HasEvents() then MainRefetching else MainIdle)
    case MainRefetch =>
      if !s.main.MainRefetching? then s
      else
        var f := Examined(s.files);
        var r := Fetched(f, 1, MEBIBYTE);
        s.(files := f, main := if r.None? then MainIdle else MainDropping(r.value))
    case _ => s
  }

  function RealtimeFetchStep(s: State, step: Step): State {
    if !step.RealtimeFetch? || !s.realtime.RealtimeIdle? || s.rt == [] then s
    else if s.limits.maxCount == 0 || s.limits.maxSize == 0 then
      s.(realtime := RealtimeDropping(s.rt[..FitCount(s.rt, 1, SIZE_MAX)]))
    else s.(realtime := RealtimeSending(s.rt[..FitCount(s.rt, s.limits.maxCount, s.limits.maxSize)]))
  }

  /** onEventsUploaded on the critical queue. */
  predicate Acks(f: Files<Event>, l: seq<Event>) { f.Ready() && |l| <= |f.First()| }

  function MainAckStep(s: State, step: Step): State
    requires s.files.Ok()
  {
    match step
    case MainDropAck =>
      if !s.main.MainDropping? || !Acks(s.files, s.main.drop) then s
      else s.(files := Cut(s.files, |s.main.drop|), critOut := s.critOut + s.main.drop,
              lost := s.lost + s.main.drop, main := MainFetching)
    case MainAnswer(ok) =>
      if !s.main.MainSending? || (ok && !Acks(s.files, s.main.list)) then s
      else if !ok then s.(main := MainIdle)
      else s.(files := Cut(s.files, |s.main.list|), critOut := s.critOut + s.main.list,
              uploaded := s.uploaded + s.main.list, main := MainIdle)
    case _ => s
  }

  function RealtimeAckStep(s: State, step: Step): State {
    match step
    case RealtimeDropAck =>
      if !s.realtime.RealtimeDropping? || |s.realtime.drop| > |s.rt| then s
      else s.(rt := s.rt[|s.realtime.drop|..], lost := s.lost + s.realtime.drop, realtime := RealtimeIdle)
    case RealtimeAnswer(ok) =>
      if !s.realtime.RealtimeSending? || |s.realtime.list| > |s.rt| then s
      else if ok then
        s.(rt := s.rt[|s.realtime.list|..], rtUploaded := s.rtUploaded + s.realtime.list, realtime := RealtimeIdle)
      else s.(rt := [], realtime := Transferring(s.rt))
    case _ => s
  }

  function TransferStep(s: State, step: Step): State
    requires s.files.Ok()
  {
    match step
    case TransferOne =>
      if !s.realtime.Transferring? || s.realtime.hand == [] then s
      else
        var e, s' := s.realtime.hand[0], s.(realtime := Transferring(s.realtime.hand[1..]));
        if !e.critical then s'
        else if s.limits.Fits(e) then Stored(s', e)
        else Stored(s', e).(lost := s.lost + [e])
    case TransferDone =>
      if s.realtime == Transferring([]) then s.(realtime := RealtimeIdle) else s
    case _ => s
  }

  function Apply(s: State, step: Step): (s': State)
    requires s.files.Ok()
    ensures s'.files.Ok()
  {
    if step.AddRealtime? || step.AddStored? || step.Configure? then AddStep(s, step)
    else if step.MainDropAck? || step.MainAnswer? then MainAckStep(s, step)
    else if step.RealtimeDropAck? || step.RealtimeAnswer? then RealtimeAckStep(s, step)
    else if step.TransferOne? || step.TransferDone? then TransferStep(s, step)
    else if step.RealtimeFetch? then RealtimeFetchStep(s, step)
    else MainFetchStep(s, step)
  }

  function Run(s: State, steps: seq<Step>): (s': State)
    requires s.files.Ok()
    ensures s'.files.Ok()
    decreases |steps|
  {
    if steps == [] then s else Run(Apply(s, steps[0]), steps[1..])
  }

  /** How often `e` occurs in `q`. */
  function Count(q: seq<Event>, e: Event): nat {
    if q == [] then 0 else (if q[0] == e then 1 else 0) + Count(q[1..], e)
  }

  lemma {:induction false} CountConcat(a: seq<Event>, b: seq<Event>, e: Event)
    ensures Count(a + b, e) == Count(a, e) + Count(b, e)
  {
    if a == [] {
      assert a + b == b;
    } else {
      assert (a + b)[1..] == a[1..] + b;
      CountConcat(a[1..], b, e);
    }
  }

  lemma CountSplit(q: seq<Event>, l: seq<Event>, e: Event)
    requires l <= q
    ensures Count(q, e) == Count(l, e) + Count(q[|l|..], e)
  {
    CountConcat(l, q[|l|..], e);
    assert l + q[|l|..] == q;
  }

  function InHand(s: State): seq<Event> {
    if s.realtime.Transferring? then s.realtime.hand else []
  }

  /** Every acceptance of the critical event `e` is accounted for in exactly one place. */
  ghost predicate Conserved(s: State, e: Event) {
    Count(s.accepted, e) ==
      Count(s.uploaded, e) + Count(s.rtUploaded, e) + Count(s.lost, e)
      + Count(s.Crit(), e) + Count(s.rt, e) + Count(InHand(s), e)
  }

  ghost predicate InFront(f: Files<Event>, l: seq<Event>) { f.Ready() && l <= f.First() }

  /** Fetched lists are still the fronts of their queues. */
  ghost predicate FetchedInFront(s: State) {
    (s.main.MainSending? ==> InFront(s.files, s.main.list))
    && (s.main.MainDropping? ==> InFront(s.files, s.main.drop))
    && (s.realtime.RealtimeSending? ==> s.realtime.list <= s.rt)
    && (s.realtime.RealtimeDropping? ==> s.realtime.drop <= s.rt)
  }

  ghost predicate Inv(s: State, e: Event) {
    s.files.Ok() && Conserved(s, e) && FetchedInFront(s) && s.critLog == s.critOut + s.Crit()
  }

  /** Storing an event appends it to the queue if it fits a file, and moves nothing that was fetched. */
  lemma StoreKeeps(f: Files<Event>, e: Event, lim: Limits)
    requires f.Ok()
    ensures Store(f, e, lim).Queue() == f.Queue() + if lim.Fits(e) then [e] else []
    ensures f.Ready() ==> Store(f, e, lim).Ready() && f.First() <= Store(f, e, lim).First()
  {
    RolledQueue(f);
    AppendedQueue(f, e);
    AppendedQueue(Rolled(f), e);
    if f.Ready() {
      AppendedFirst(f, e);
      RolledFirst(f);
      AppendedFirst(Rolled(f), e);
    }
    if RoomFor(f.newest, e, lim) { RoomIsFit(f.newest, e, lim); }
  }

  lemma RoomIsFit(q: seq<Event>, e: Event, lim: Limits)
    requires RoomFor(q, e, lim)
    ensures lim.Fits(e)
  {
  }

  lemma StoredKeeps(s: State, f: Event, e: Event)
    requires s.files.Ok() && FetchedInFront(s) && s.critLog == s.critOut + s.Crit()
    ensures var s' := Stored(s, f);
            FetchedInFront(s') && s'.critLog == s'.critOut + s'.Crit()
            && Count(s'.Crit(), e) == Count(s.Crit(), e) + if s.limits.Fits(f) then Count([f], e) else 0
  {
    hide Count, Store, Joined;
    StoreKeeps(s.files, f, s.limits);
    CountConcat(s.Crit(), [f], e);
    assert s.Crit() + [] == s.Crit();
  }

  lemma AddKeeps(s: State, step: Step, e: Event)
    requires Inv(s, e) && e.critical
    ensures Inv(AddStep(s, step), e)
  {
    hide Count, Store, Files.Queue, InFront;
    if step.AddRealtime? || step.AddStored? {
      CountConcat(s.accepted, [step.e], e);
      CountConcat(s.rt, [step.e], e);
      StoredKeeps(s, step.e, e);
    }
  }

  /** A fetch leaves the queue as it is and returns its front. */
  lemma FetchedKeeps(f: Files<Event>, maxCount: nat, maxSize: nat)
    requires f.Ok()
    ensures Examined(f).Queue() == f.Queue()
    ensures var r := Fetched(Examined(f), maxCount, maxSize); r.Some? ==> InFront(Examined(f), r.value)
  {
    ExaminedQueue(f);
    hide Examined, FitCount;
  }

  lemma MainFetchKeeps(s: State, step: Step, e: Event)
    requires Inv(s, e)
    ensures Inv(MainFetchStep(s, step), e)
  {
    hide Count, Examined, Fetched, Files.Queue, InFront;
    FetchedKeeps(s.files, s.limits.maxCount, s.limits.FetchSize());
    FetchedKeeps(s.files, 1, MEBIBYTE);
  }

  lemma RealtimeFetchKeeps(s: State, step: Step, e: Event)
    requires Inv(s, e)
    ensures Inv(RealtimeFetchStep(s, step), e)
  {
    hide Count, Files.Queue, InFront;
  }

  /** An acknowledgement takes the fetched list off the front. */
  lemma CutKeeps(f: Files<Event>, l: seq<Event>, e: Event)
    requires InFront(f, l)
    ensures l + Cut(f, |l|).Queue() == f.Queue()
    ensures Count(f.Queue(), e) == Count(l, e) + Count(Cut(f, |l|).Queue(), e)
  {
    FirstIsFront(f);
    CutQueue(f, |l|);
    hide Cut, Files.Queue, Count;
    assert f.Queue()[..|l|] == f.Queue()[..|f.First()|][..|l|] == l;
    assert l + f.Queue()[|l|..] == f.Queue();
    CountConcat(l, f.Queue()[|l|..], e);
  }

  lemma MainAckKeeps(s: State, step: Step, e: Event)
    requires Inv(s, e)
    ensures Inv(MainAckStep(s, step), e)
  {
    hide Count, Cut, Files.Queue;
    if step.MainDropAck? && s.main.MainDropping? {
      CutKeeps(s.files, s.main.drop, e);
      CountConcat(s.lost, s.main.drop, e);
      Regrouped(s.critOut, s.main.drop, Cut(s.files, |s.main.drop|).Queue());
    }
    if step.MainAnswer? && s.main.MainSending? {
      CutKeeps(s.files, s.main.list, e);
      CountConcat(s.uploaded, s.main.list, e);
      Regrouped(s.critOut, s.main.list, Cut(s.files, |s.main.list|).Queue());
    }
  }

  lemma Regrouped(a: seq<Event>, b: seq<Event>, c: seq<Event>)
    ensures (a + b) + c == a + (b + c)
  {
  }

  lemma RealtimeAckKeeps(s: State, step: Step, e: Event)
    requires Inv(s, e)
    ensures Inv(RealtimeAckStep(s, step), e)
  {
    CountNone(e);
    hide Count, Files.Queue, InFront;
    if step.RealtimeDropAck? && s.realtime.RealtimeDropping? {
      CountSplit(s.rt, s.realtime.drop, e);
      CountConcat(s.lost, s.realtime.drop, e);
    }
    if step.RealtimeAnswer? && s.realtime.RealtimeSending? {
      CountSplit(s.rt, s.realtime.list, e);
      CountConcat(s.rtUploaded, s.realtime.list, e);
    }
  }

  lemma CountNone(e: Event)
    ensures Count([], e) == 0
  {
  }

  lemma CountOne(f: Event, e: Event)
    ensures Count([f], e) == if f == e then 1 else 0
  {
  }

  lemma TransferKeeps(s: State, step: Step, e: Event)
    requires Inv(s, e) && e.critical
    ensures Inv(TransferStep(s, step), e)
  {
    CountNone(e);
    hide Count, Store, Files.Queue, InFront;
    if step.TransferOne? && s.realtime.Transferring? && s.realtime.hand != [] {
      var f := s.realtime.hand[0];
      CountOne(f, e);
      CountSplit(s.realtime.hand, [f], e);
      CountConcat(s.lost, [f], e);
      StoredKeeps(s.(realtime := Transferring(s.realtime.hand[1..])), f, e);
    }
  }

  lemma StepKeeps(s: State, step: Step, e: Event)
    requires Inv(s, e) && e.critical
    ensures Inv(Apply(s, step), e)
  {
    AddKeeps(s, step, e);
    MainFetchKeeps(s, step, e);
    RealtimeFetchKeeps(s, step, e);
    MainAckKeeps(s, step, e);
    RealtimeAckKeeps(s, step, e);
    TransferKeeps(s, step, e);
    hide AddStep, MainFetchStep, RealtimeFetchStep, MainAckStep, RealtimeAckStep, TransferStep, Conserved,
      FetchedInFront;
  }

  /** Over every interleaving each accepted critical event is in exactly one queue, in transit between
      them, uploaded, or lost; and the critical queue is first in, first out. */
  lemma {:induction false} RunKeeps(s: State, steps: seq<Step>, e: Event)
    requires Inv(s, e) && e.critical
    ensures Inv(Run(s, steps), e)
    decreases |steps|
  {
    hide Apply, Conserved, FetchedInFront;
    if steps == [] {
    } else {
      StepKeeps(s, steps[0], e);
      RunKeeps(Apply(s, steps[0]), steps[1..], e);
    }
  }

  // ---- nothing is lost when limits are positive, events fit a file and no empty file lies behind all events ----

  ghost predicate Small(q: seq<Event>, bound: nat) {
    forall i :: 0 <= i < |q| ==> q[i].size <= bound
  }

  /** The limits let events of at most `bound` bytes through. */
  predicate Ample(lim: Limits, bound: nat) {
    lim.maxCount > 0 && lim.maxSize > 0 && (lim.fileMaxSize == 0 || bound <= lim.fileMaxSize)
  }

  /** The files cannot come to an empty fetch after a true hasEvents: no empty file lies behind all events, or an
      event that is too large for any post stays in front of it. */
  ghost predicate Guarded(f: Files<Event>, maxSize: nat, blocked: bool) {
    f.Ok() && !f.Stuck() && if blocked then !Small(f.Queue(), maxSize) else !f.EmptyTail()
  }

  /** The state of a system that has not lost anything and has no way to. */
  ghost predicate Healthy(s: State, bound: nat, blocked: bool) {
    Ample(s.limits, bound) && Guarded(s.files, s.limits.FetchSize(), blocked)
    && !s.main.MainNothing? && !s.main.MainRefetching? && !s.main.MainDropping? && !s.realtime.RealtimeDropping?
    && (s.main.MainFetching? ==> s.Crit() != [])
    && (blocked && s.main.MainSending? ==> Small(s.main.list, s.limits.FetchSize()))
    && Small(s.rt, bound) && Small(InHand(s), bound)
    && s.lost == [] && s.critOut == s.uploaded
  }

  /** A caller's part: events of 2 to `bound` bytes, as every record ends in two, and limits that allow them. */
  predicate Fair(step: Step, bound: nat) {
    match step
    case AddRealtime(e) => 2 <= e.size <= bound
    case AddStored(e) => 2 <= e.size <= bound
    case Configure(limits) => Ample(limits, bound)
    case _ => true
  }

  lemma StoreGuarded(f: Files<Event>, e: Event, lim: Limits, maxSize: nat, blocked: bool)
    requires Guarded(f, maxSize, blocked) && lim.Fits(e)
    ensures Guarded(Store(f, e, lim), maxSize, blocked) && Store(f, e, lim).Queue() != []
  {
    StoreKeeps(f, e, lim);
    RolledQueue(f);
    var q, q' := f.Queue(), Store(f, e, lim).Queue();
    hide Files.Queue;
    assert forall i :: 0 <= i < |q| ==> q'[i] == q[i];
  }

  lemma FetchGuarded(f: Files<Event>, maxCount: nat, maxSize: nat, blocked: bool)
    requires Guarded(f, maxSize, blocked) && maxCount > 0
    ensures Guarded(Examined(f), maxSize, blocked) && (f.HasEvents() ==> f.Queue() != [])
    ensures Examined(f).Queue() == f.Queue()
    ensures var r := Fetched(Examined(f), maxCount, maxSize);
            (f.Queue() != [] ==> r.Some?) && (r.Some? ==> Small(r.value, maxSize))
  {
    ExaminedQueue(f);
    ExaminedTail(f);
    if !f.EmptyTail() { HasEventsExact(f); }
    if f.Queue() != [] { ExaminedFirst(f); }
    hide Files.Queue, Examined;
  }

  lemma CutGuarded(f: Files<Event>, l: seq<Event>, maxSize: nat, blocked: bool)
    requires Guarded(f, maxSize, blocked) && InFront(f, l) && (blocked ==> Small(l, maxSize))
    ensures Guarded(Cut(f, |l|), maxSize, blocked)
  {
    CutTail(f, |l|);
    CutKeeps(f, l, Event(0, true, 0));
    hide Files.Queue, Cut, Count;
    if blocked {
      var q, q' := f.Queue(), Cut(f, |l|).Queue();
      var i :| 0 <= i < |q| && q[i].size > maxSize;
      assert q'[i - |l|] == q[i];
    }
  }

  lemma AddHealthy(s: State, step: Step, bound: nat, blocked: bool)
    requires Healthy(s, bound, blocked) && Fair(step, bound) && (blocked ==> !step.Configure?)
    ensures Healthy(AddStep(s, step), bound, blocked)
  {
    hide Store, Files.Queue;
    if step.AddStored? { StoreGuarded(s.files, step.e, s.limits, s.limits.FetchSize(), blocked); }
  }

  lemma MainFetchHealthy(s: State, step: Step, bound: nat, blocked: bool)
    requires Healthy(s, bound, blocked)
    ensures Healthy(MainFetchStep(s, step), bound, blocked)
  {
    hide Small, Fetched, Examined, Guarded, Files.Queue, Files.HasEvents;
    GuardedOk(s.files, s.limits.FetchSize(), blocked);
    FetchGuarded(s.files, s.limits.maxCount, s.limits.FetchSize(), blocked);
  }

  lemma GuardedOk(f: Files<Event>, maxSize: nat, blocked: bool)
    requires Guarded(f, maxSize, blocked)
    ensures f.Ok()
  {
  }

  lemma MainAckHealthy(s: State, step: Step, bound: nat, blocked: bool)
    requires Healthy(s, bound, blocked) && FetchedInFront(s)
    ensures Healthy(MainAckStep(s, step), bound, blocked)
  {
    hide Small, Cut, Files.Queue;
    if s.main.MainSending? { CutGuarded(s.files, s.main.list, s.limits.FetchSize(), blocked); }
  }

  lemma RealtimeHealthy(s: State, step: Step, bound: nat, blocked: bool)
    requires Healthy(s, bound, blocked)
    ensures Healthy(RealtimeFetchStep(s, step), bound, blocked)
    ensures Healthy(RealtimeAckStep(s, step), bound, blocked)
  {
    hide Guarded, Files.Queue;
  }

  lemma TransferHealthy(s: State, step: Step, bound: nat, blocked: bool)
    requires Healthy(s, bound, blocked)
    ensures Healthy(TransferStep(s, step), bound, blocked)
  {
    hide Store, Files.Queue;
    if step.TransferOne? && s.realtime.Transferring? && s.realtime.hand != [] {
      StoreGuarded(s.files, s.realtime.hand[0], s.limits, s.limits.FetchSize(), blocked);
    }
  }

  lemma StaysHealthy(s: State, step: Step, bound: nat, blocked: bool)
    requires Healthy(s, bound, blocked) && FetchedInFront(s) && Fair(step, bound) && (blocked ==> !step.Configure?)
    ensures Healthy(Apply(s, step), bound, blocked)
  {
    AddHealthy(s, step, bound, blocked);
    MainFetchHealthy(s, step, bound, blocked);
    MainAckHealthy(s, step, bound, blocked);
    RealtimeHealthy(s, step, bound, blocked);
    TransferHealthy(s, step, bound, blocked);
    hide Healthy, AddStep, MainFetchStep, RealtimeFetchStep, MainAckStep, RealtimeAckStep, TransferStep;
  }

  /** Under those conditions every accepted critical event is uploaded or still queued, and the
      critical queue loses events only to a batch answered with 200, in the order of their arrival. */
  lemma {:induction false} NothingIsLost(s: State, steps: seq<Step>, bound: nat, blocked: bool, e: Event)
    requires Inv(s, e) && e.critical && Healthy(s, bound, blocked)
    requires forall i :: 0 <= i < |steps| ==> Fair(steps[i], bound) && (blocked ==> !steps[i].Configure?)
    ensures var s' := Run(s, steps);
            s'.critLog == s'.uploaded + s'.Crit() && s'.lost == []
            && Count(s'.accepted, e) == Count(s'.uploaded, e) + Count(s'.rtUploaded, e)
                                        + Count(s'.Crit(), e) + Count(s'.rt, e) + Count(InHand(s'), e)
    decreases |steps|
  {
    hide Apply, Guarded, Files.Queue, FetchedInFront, Fair;
    if steps == [] {
      CountNone(e);
    } else {
      StaysHealthy(s, steps[0], bound, blocked);
      StepKeeps(s, steps[0], e);
      NothingIsLost(Apply(s, steps[0]), steps[1..], bound, blocked, e);
    }
  }

  // ---- and only then ----

  /** A system at rest, as its constructor leaves it: the realtime queue is empty, and the critical one holds
      what its files hold, none of which is open for fetching yet. */
  predicate Initial(s: State) {
    s.rt == [] && !s.files.reading && s.main.MainIdle? && s.realtime.RealtimeIdle?
    && s.accepted == s.critLog == s.Crit()
    && s.uploaded == [] && s.rtUploaded == [] && s.critOut == [] && s.lost == []
  }

  /** Steps under fixed limits with events of at most `bound` bytes. */
  predicate Bounded(steps: seq<Step>, bound: nat) {
    forall i :: 0 <= i < |steps| ==> Fair(steps[i], bound) && !steps[i].Configure?
  }

  ghost predicate LossFree(s: State, bound: nat)
    requires s.files.Ok()
  {
    forall steps :: Bounded(steps, bound) ==> Run(s, steps).lost == []
  }

  /** What a caller can read off the limits and the disk. */
  ghost predicate Prepared(s: State, bound: nat) {
    Ample(s.limits, bound) && !(s.files.EmptyTail() && Small(s.Crit(), s.limits.FetchSize()))
  }

  /** No run loses an event exactly if the upload limits are positive, every event fits a file, and there are not,
      behind stored events that can all be posted, an empty file and an empty newest one. */
  lemma LossFreeIff(s: State, bound: nat)
    requires Initial(s) && bound >= 2
    ensures LossFree(s, bound) <==> Prepared(s, bound)
  {
    var e := Event(0, true, bound);
    hide Run, Files.Queue, Small;
    if Prepared(s, bound) {
      InitiallyHealthy(s, bound, e);
      forall steps | Bounded(steps, bound) ensures Run(s, steps).lost == [] {
        NothingIsLost(s, steps, bound, s.files.EmptyTail(), e);
      }
    } else {
      var steps := LosingRun(s, bound);
      assert Bounded(steps, bound) && Run(s, steps).lost != [];
    }
  }

  lemma InitiallyHealthy(s: State, bound: nat, e: Event)
    requires Initial(s) && Prepared(s, bound)
    ensures Inv(s, e) && Healthy(s, bound, s.files.EmptyTail())
  {
    CountNone(e);
    hide Count;
    assert [] + s.Crit() == s.Crit();
  }

  lemma RunFirst(s: State, step: Step, rest: seq<Step>)
    requires s.files.Ok()
    ensures Run(s, [step] + rest) == Run(Apply(s, step), rest)
  {
    hide Apply;
    assert ([step] + rest)[1..] == rest;
  }

  lemma RunThree(s: State, a: Step, b: Step, c: Step, rest: seq<Step>)
    requires s.files.Ok()
    ensures Run(s, [a, b, c] + rest) == Run(Apply(Apply(Apply(s, a), b), c), rest)
  {
    hide Apply, Run;
    assert [a, b, c] + rest == [a] + ([b] + ([c] + rest));
    RunFirst(s, a, [b] + ([c] + rest));
    RunFirst(Apply(s, a), b, [c] + rest);
    RunFirst(Apply(Apply(s, a), b), c, rest);
  }

  lemma RunNothing(s: State)
    requires s.files.Ok()
    ensures Run(s, []) == s
  {
  }

  /** The main worker is idle and nothing was lost yet; behind stored events that can all be posted lie an empty
      file and an empty newest one. */
  ghost predicate LeftBehind(s: State) {
    s.files.Ok() && !s.files.Stuck() && s.files.EmptyTail() && s.main.MainIdle? && s.lost == []
    && s.limits.maxCount > 0 && Small(s.Crit(), s.limits.FetchSize())
  }

  /** One round of fetch, post and acknowledgement shortens the queue and leaves the empty files behind. */
  lemma DrainOne(s: State) returns (s': State)
    requires LeftBehind(s) && s.Crit() != []
    ensures s' == Apply(Apply(Apply(s, MainCheck), MainFetch), MainAnswer(true))
    ensures LeftBehind(s') && |s'.Crit()| < |s.Crit()| && s'.limits == s.limits
  {
    var f, z := s.files, s.limits.FetchSize();
    ExaminedQueue(f);
    ExaminedTail(f);
    ExaminedFirst(f);
    var f1 := Examined(f);
    var l := f1.First()[..FitCount(f1.First(), s.limits.maxCount, z)];
    FirstIsFront(f1);
    CutTail(f1, |l|);
    CutQueue(f1, |l|);
    hide Files.Queue, Examined, FitCount, Cut, Small;
    FirstIsSmall(f1.Queue(), f1.First(), z, s.limits.maxCount);
    SmallRest(f1.Queue(), |l|, z);
    var s1 := s.(main := MainFetching);
    assert Apply(s, MainCheck) == s1;
    var s2 := s.(files := f1, main := MainSending(l));
    assert Apply(s1, MainFetch) == s2;
    s' := Apply(s2, MainAnswer(true));
  }

  lemma FirstIsSmall(q: seq<Event>, first: seq<Event>, z: nat, maxCount: nat)
    requires Small(q, z) && first != [] && |first| <= |q| && q[..|first|] == first && maxCount > 0
    ensures FitCount(first, maxCount, z) > 0
  {
    assert first[0] == q[0];
  }

  lemma SmallRest(q: seq<Event>, k: nat, z: nat)
    requires Small(q, z) && k <= |q|
    ensures Small(q[k..], z)
  {
  }

  /** An empty file behind all stored events: once they are uploaded, an event that slips in between the empty
      fetch and the second hasEvents is dropped unsent. */
  lemma {:induction false} LeftoverFileLoses(s: State, e: Event) returns (steps: seq<Step>)
    requires LeftBehind(s) && e.critical && e.size == 2 && s.limits.Fits(e)
    ensures Bounded(steps, 2) && Run(s, steps).lost == [e]
    decreases |s.Crit()|
  {
    hide Run, Apply, Files.Queue, Small;
    if s.Crit() == [] {
      var last := [MainRecheck, MainRefetch, MainDropAck] + [];
      steps := [MainCheck, MainFetch, AddStored(e)] + last;
      RunThree(s, MainCheck, MainFetch, AddStored(e), last);
      var s' := SlipIn(s, e);
      RunThree(s', MainRecheck, MainRefetch, MainDropAck, []);
      DropOnly(s', e);
      RunNothing(Apply(Apply(Apply(s', MainRecheck), MainRefetch), MainDropAck));
    } else {
      var s' := DrainOne(s);
      var rest := LeftoverFileLoses(s', e);
      steps := [MainCheck, MainFetch, MainAnswer(true)] + rest;
      RunThree(s, MainCheck, MainFetch, MainAnswer(true), rest);
    }
  }

  /** The fetch deletes the empty files and returns null; then an event arrives. */
  lemma SlipIn(s: State, e: Event) returns (s': State)
    requires LeftBehind(s) && s.Crit() == [] && e.critical && s.limits.Fits(e)
    ensures s' == Apply(Apply(Apply(s, MainCheck), MainFetch), AddStored(e))
    ensures s'.files == Files([], [e], false) && s'.main == MainNothing && s'.lost == []
  {
    ExaminedQueue(s.files);
    hide Examined;
    var s1 := s.(main := MainFetching);
    assert Apply(s, MainCheck) == s1;
    var s2 := s.(files := Files([], [], false), main := MainNothing);
    assert Apply(s1, MainFetch) == s2;
    assert RoomFor([], e, s.limits);
    s' := Apply(s2, AddStored(e));
    assert [] + [e] == [e];
  }

  lemma DropOnly(s: State, e: Event)
    requires s.files == Files([], [e], false) && s.main == MainNothing && s.lost == [] && e.size <= MEBIBYTE
    ensures Apply(Apply(Apply(s, MainRecheck), MainRefetch), MainDropAck).lost == [e]
  {
    var s1 := s.(main := MainRefetching);
    assert Apply(s, MainRecheck) == s1;
    assert s1.Crit() == [e];
    hide Apply, Files.Queue;
    RefetchDrops(s1, [e]);
  }

  /** With no events allowed per post, the first stored critical event is dropped unsent, exactly if it is at
      most 1 MiB; a larger one stays. */
  lemma ZeroCountDrops(s: State)
    requires Initial(s) && s.limits.maxCount == 0 && s.Crit() != []
    ensures var s' := Apply(Apply(Apply(Apply(Apply(s, MainCheck), MainFetch), MainRecheck), MainRefetch), MainDropAck);
            if s.Crit()[0].size <= MEBIBYTE then s'.lost == [s.Crit()[0]] && s'.Crit() == s.Crit()[1..]
            else s'.lost == [] && s'.Crit() == s.Crit()
  {
    ZeroCountRefetches(s);
    hide Apply, Examined;
    RefetchDrops(s.(files := Examined(s.files), main := MainRefetching), s.Crit());
  }

  lemma ZeroCountRefetches(s: State)
    requires Initial(s) && s.limits.maxCount == 0 && s.Crit() != []
    ensures Apply(Apply(Apply(s, MainCheck), MainFetch), MainRecheck)
            == s.(files := Examined(s.files), main := MainRefetching)
    ensures Examined(s.files).Queue() == s.Crit() && Examined(Examined(s.files)) == Examined(s.files)
    ensures |Examined(s.files).First()| > 0
  {
    ExaminedQueue(s.files);
    ExaminedFirst(s.files);
    ExaminedAgain(s.files);
    hide Examined, FitCount, Files.Queue;
    var s1 := s.(main := MainFetching);
    assert Apply(s, MainCheck) == s1;
    var s2 := s.(files := Examined(s.files), main := MainNothing);
    assert Apply(s1, MainFetch) == s2;
  }

  lemma RefetchDrops(s: State, q: seq<Event>)
    requires s.files.Ready() && s.main == MainRefetching && s.lost == [] && s.Crit() == q != []
    requires Examined(s.files) == s.files && |s.files.First()| > 0
    ensures var s' := Apply(Apply(s, MainRefetch), MainDropAck);
            if q[0].size <= MEBIBYTE then s'.lost == [q[0]] && s'.Crit() == q[1..] else s'.lost == [] && s'.Crit() == q
  {
    var f := s.files;
    FirstIsFront(f);
    var k := FitCount(f.First(), 1, MEBIBYTE);
    CutQueue(f, k);
    hide Examined, FitCount, Cut, Files.Queue;
    assert f.First()[0] == q[0];
    var s1 := s.(main := MainDropping(f.First()[..k]));
    assert Apply(s, MainRefetch) == s1;
    hide MainFetchStep;
    assert f.First()[..k] == if k == 1 then [q[0]] else [];
  }

  /** A file that is open for fetching is not examined again. */
  lemma {:induction false} ExaminedAgain(f: Files<Event>)
    requires f.Ok()
    ensures Examined(Examined(f)) == Examined(f) && (f.Queue() != [] ==> Examined(f).HasEvents())
    decreases |f.earlier|
  {
    if f.reading || f.earlier == [] || |f.earlier[0]| > 0 {
    } else {
      ExaminedAgain(f.(earlier := f.earlier[1..]));
    }
  }

  /** Without any bytes or events allowed per post, a realtime event is dropped right away. */
  lemma RealtimeDrops(s: State, e: Event) returns (steps: seq<Step>)
    requires Initial(s) && (s.limits.maxCount == 0 || s.limits.maxSize == 0) && e.size == 2
    ensures Bounded(steps, 2) && Run(s, steps).lost == [e]
  {
    steps := [AddRealtime(e), RealtimeFetch, RealtimeDropAck] + [];
    RunThree(s, AddRealtime(e), RealtimeFetch, RealtimeDropAck, []);
    var s1 := s.(rt := [e], accepted := s.accepted + [e]);
    assert Apply(s, AddRealtime(e)) == s1;
    assert FitCount([e], 1, SIZE_MAX) == 1 && [e][..1] == [e];
    var s2 := s1.(realtime := RealtimeDropping([e]));
    assert Apply(s1, RealtimeFetch) == s2;
    hide Run;
    var s3 := Apply(s2, RealtimeDropAck);
    RunNothing(s3);
  }

  /** A failed realtime upload loses an event that no file takes. */
  lemma TransferLoses(s: State, e: Event) returns (steps: seq<Step>)
    requires Initial(s) && s.limits.maxCount > 0 && s.limits.maxSize > 0
    requires e.critical && e.size >= 2 && !s.limits.Fits(e)
    ensures Bounded(steps, e.size) && Run(s, steps).lost == [e]
  {
    var last := [RealtimeFetch, RealtimeAnswer(false), TransferOne] + [];
    steps := [AddRealtime(e)] + last;
    RunFirst(s, AddRealtime(e), last);
    var s1 := s.(rt := [e], accepted := s.accepted + [e]);
    assert Apply(s, AddRealtime(e)) == s1;
    RunThree(s1, RealtimeFetch, RealtimeAnswer(false), TransferOne, []);
    var s3 := s1.(rt := [], realtime := Transferring([e]));
    TransferBegins(s1, e);
    hide Run, FitCount;
    RunNothing(Apply(s3, TransferOne));
  }

  lemma TransferBegins(s: State, e: Event)
    requires s.files.Ok() && s.rt == [e] && s.realtime.RealtimeIdle? && s.limits.maxSize > 0 && s.limits.maxCount > 0
    ensures Apply(Apply(s, RealtimeFetch), RealtimeAnswer(false)) == s.(rt := [], realtime := Transferring([e]))
  {
    var k := FitCount(s.rt, s.limits.maxCount, s.limits.maxSize);
    hide FitCount;
    assert Apply(s, RealtimeFetch) == s.(realtime := RealtimeSending(s.rt[..k]));
  }

  lemma LosingRun(s: State, bound: nat) returns (steps: seq<Step>)
    requires Initial(s) && bound >= 2 && !Prepared(s, bound)
    ensures Bounded(steps, bound) && Run(s, steps).lost != []
  {
    hide Run, Apply, Files.Queue, Small;
    if s.limits.maxCount == 0 || s.limits.maxSize == 0 {
      steps := RealtimeDrops(s, Event(0, true, 2));
    } else if !Ample(s.limits, bound) {
      steps := TransferLoses(s, Event(0, true, bound));
    } else {
      steps := LeftoverFileLoses(s, Event(0, true, 2));
    }
  }
}

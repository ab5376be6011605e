/** The realtime queue of the event manager is a MemoryEventBatch: every interleaving of calls on it and on the
    critical queue is a run of the manager's state machine. */
module RealtimeQueue {
  import opened Common
  import opened Records
  import opened FileBatch
  import opened MemoryBatch
  import opened EventManager
  import opened CriticalQueue
  import FileQueue
  import MultiFile

  // ---- events and their text ----

  /** The events are those of the items: the sizes are of their records, and `flag` reads whether one is critical. */
  ghost predicate SameItems(q: seq<Event>, items: seq<Bytes>, flag: Bytes -> bool) {
    |q| == |items| && forall i :: 0 <= i < |q| ==> q[i].size == |items[i]| + 2 && q[i].critical == flag(items[i])
  }

  lemma ItemsAreRecords(q: seq<Event>, items: seq<Bytes>, flag: Bytes -> bool)
    requires SameItems(q, items, flag) && NewlineFree(items)
    ensures Same(q, Serialized(items)) && AllRecords(Serialized(items))
  {
  }

  lemma SameGrows(q: seq<Event>, items: seq<Bytes>, flag: Bytes -> bool, e: Event, item: Bytes)
    requires SameItems(q, items, flag) && e.size == |item| + 2 && e.critical == flag(item)
    ensures SameItems(q + [e], items + [item], flag)
  {
  }

  lemma SameRest(q: seq<Event>, items: seq<Bytes>, flag: Bytes -> bool, k: nat)
    requires SameItems(q, items, flag) && k <= |q|
    ensures SameItems(q[k..], items[k..], flag)
  {
  }

  // ---- the worker ----

  /** Where the realtime worker is, with the list that it holds or the events that it moves. */
  datatype Worker = AtRest | Drops(l: EventList) | Sends(l: EventList) | Moves(hand: seq<Bytes>)

  ghost predicate ModelsRealtime(s: State, m: MemoryEventBatch, w: Worker, flag: Bytes -> bool)
    reads m
  {
    m.Valid() && m.limit == REALTIME_LIMIT && SameItems(s.rt, m.items, flag) && InState(s, m.items, w, flag)
  }

  ghost predicate InState(s: State, items: seq<Bytes>, w: Worker, flag: Bytes -> bool) {
    match w
    case AtRest => s.realtime.RealtimeIdle?
    case Drops(l) => s.realtime.RealtimeDropping? && |s.realtime.drop| == l.count <= |items|
    case Sends(l) => s.realtime.RealtimeSending? && |s.realtime.list| == l.count <= |items|
    case Moves(hand) => s.realtime.Transferring? && SameItems(s.realtime.hand, hand, flag) && NewlineFree(hand)
  }

  /** The length of what getEventsForUpload returns is what the state machine computes from the sizes. */
  lemma FetchAgrees(q: seq<Event>, items: seq<Bytes>, flag: Bytes -> bool, l: EventList, maxCount: nat, maxSize: nat)
    requires SameItems(q, items, flag) && NewlineFree(items)
    requires IsFetchOf(l, Serialized(items), maxCount, maxSize)
    ensures l.count == FitCount(q, maxCount, maxSize)
  {
    ItemsAreRecords(q, items, flag);
    hide SameItems, NewlineFree, Serialized, FitCount;
    SameFit(q, Serialized(items), maxCount, maxSize, l.count);
  }

  /** sendEvents up to the post: the step RealtimeFetch. */
  method FetchRealtime(m: MemoryEventBatch, lim: Limits, ghost s: State, ghost flag: Bytes -> bool) returns (w: Worker)
    requires s.files.Ok() && ModelsRealtime(s, m, AtRest, flag) && lim == s.limits
    ensures ModelsRealtime(Apply(s, RealtimeFetch), m, w, flag)
  {
    hide IsFetchOf, FitCount, NewlineFree, SameItems;
    w := AtRest;
    SameLength(s.rt, m.items, flag);
    if m.HasEvents() {
      var r := m.GetEventsForUpload(lim.maxCount, lim.maxSize);
      if r.Some? {
        FetchAgrees(s.rt, m.items, flag, r.value, lim.maxCount, lim.maxSize);
        w := Sends(r.value);
      } else {
        r := m.GetEventsForUpload(1, SIZE_MAX);
        FetchAgrees(s.rt, m.items, flag, r.value, 1, SIZE_MAX);
        w := Drops(r.value);
      }
    }
  }

  lemma SameLength(q: seq<Event>, items: seq<Bytes>, flag: Bytes -> bool)
    requires SameItems(q, items, flag)
    ensures |q| == |items|
  {
  }

  /** A call on either queue, or a step of a worker. */
  datatype Call =
    | OnCritical(call: CriticalQueue.Call)
    | AddEvent(item: Bytes, id: nat)
    | Fetch
    | AckDropped
    | Answer(ok: bool)
    | MoveOne
    | MoveDone

  predicate WellFormed(call: Call) {
    (call.AddEvent? ==> NEWLINE !in call.item)
    && (call.OnCritical? && call.call.StoreEvent? ==> IsRecord(call.call.data))
  }

  function StepFor(call: Call, flag: Bytes -> bool): Step {
    match call
    case OnCritical(c) => StepOf(c)
    case AddEvent(item, id) => AddRealtime(Event(id, flag(item), |item| + 2))
    case Fetch => RealtimeFetch
    case AckDropped => RealtimeDropAck
    case Answer(ok) => RealtimeAnswer(ok)
    case MoveOne => TransferOne
    case MoveDone => TransferDone
  }

  /** A call that touches the realtime queue alone. */
  predicate InMemory(call: Call) { !call.OnCritical? && !call.MoveOne? }

  method DoInMemory(m: MemoryEventBatch, call: Call, w: Worker, lim: Limits, ghost s: State, flag: Bytes -> bool)
    returns (w': Worker)
    requires s.files.Ok() && ModelsRealtime(s, m, w, flag) && lim == s.limits && InMemory(call) && WellFormed(call)
    modifies m
    ensures ModelsRealtime(Apply(s, StepFor(call, flag)), m, w', flag)
  {
    hide FitCount, NewlineFree, SameItems;
    w' := w;
    SameLength(s.rt, m.items, flag);
    if call.AddEvent? {
      SameGrows(s.rt, m.items, flag, Event(call.id, flag(call.item), |call.item| + 2), call.item);
      var _ := m.AddEvent(call.item);
    } else if call.Fetch? {
      if w.AtRest? {
        w' := FetchRealtime(m, lim, s, flag);
      }
    } else if call.AckDropped? {
      if w.Drops? {
        SameRest(s.rt, m.items, flag, w.l.count);
        var _ := m.OnEventsUploaded(w.l);
        w' := AtRest;
      }
    } else if call.Answer? {
      w' := DoAnswer(m, call.ok, w, s, flag);
    } else if w.Moves? {
      HandAlike(s.realtime.hand, w.hand, flag);
      if w.hand == [] {
        w' := AtRest;
      }
    }
  }

  lemma HandAlike(q: seq<Event>, hand: seq<Bytes>, flag: Bytes -> bool)
    requires SameItems(q, hand, flag)
    ensures q == [] <==> hand == []
  {
  }

  method DoAnswer(m: MemoryEventBatch, ok: bool, w: Worker, ghost s: State, ghost flag: Bytes -> bool)
    returns (w': Worker)
    requires s.files.Ok() && ModelsRealtime(s, m, w, flag)
    modifies m
    ensures ModelsRealtime(Apply(s, RealtimeAnswer(ok)), m, w', flag)
  {
    hide FitCount, NewlineFree, SameItems;
    w' := w;
    if w.Sends? {
      SameLength(s.rt, m.items, flag);
      if ok {
        SameRest(s.rt, m.items, flag, w.l.count);
        var _ := m.OnEventsUploaded(w.l);
        w' := AtRest;
      } else {
        SameRest(s.rt, m.items, flag, |s.rt|);
        var all := m.TransferAllEvents();
        w' := Moves(all);
      }
    }
  }

  // ---- both queues together ----

  /** What a call on one queue leaves alone of the machine's state. */
  lemma OthersStay(s: State, call: Call, flag: Bytes -> bool)
    requires s.files.Ok()
    ensures var s' := Apply(s, StepFor(call, flag));
            (InMemory(call) ==> s'.files == s.files && s'.main == s.main)
            && (call.OnCritical? ==> s'.rt == s.rt && s'.realtime == s.realtime)
            && (!call.OnCritical? ==> s'.limits == s.limits)
  {
    hide Store, FitCount, FileQueue.Examined, FileQueue.Cut, Fetched, FileQueue.Files.Queue;
  }

  lemma CriticalStays(s: State, s': State, b: MultiFile.MultiFileEventBatch, w: CriticalQueue.Worker)
    requires Models(s, b, w) && s'.files == s.files && s'.main == s.main && s'.limits == s.limits
    ensures Models(s', b, w)
  {
    hide MultiFile.MultiFileEventBatch.Valid, MultiFile.MultiFileEventBatch.Layout, SameFiles;
  }

  /** addEvent of one event in transit, if it is critical: the step TransferOne. */
  method DoMove(b: MultiFile.MultiFileEventBatch, w: Worker, lim: Limits, ghost s: State, flag: Bytes -> bool,
                ghost items: seq<Bytes>, ghost cw: CriticalQueue.Worker)
    returns (w': Worker)
    requires Models(s, b, cw) && lim == s.limits && InState(s, items, w, flag)
    modifies b, b.disk, b.newest
    ensures Models(Apply(s, TransferOne), b, cw) && InState(Apply(s, TransferOne), items, w', flag)
    ensures b.newest == old(b.newest) || fresh(b.newest)
    ensures b.oldest == old(b.oldest) || b.oldest == old(b.newest)
  {
    hide MultiFile.MultiFileEventBatch.Valid, MultiFile.MultiFileEventBatch.Layout, SameFiles, Store, Record;
    w' := w;
    if w.Moves? {
      HandAlike(s.realtime.hand, w.hand, flag);
      if w.hand != [] {
        SameRest(s.realtime.hand, w.hand, flag, 1);
        if flag(w.hand[0]) {
          var _ := Add(b, Record(w.hand[0]), s.files, s.realtime.hand[0], lim);
        }
        w' := Moves(w.hand[1..]);
      }
    }
  }

  /** Both queues and both workers are where the machine is. */
  ghost predicate ModelsBoth(s: State, b: MultiFile.MultiFileEventBatch, cw: CriticalQueue.Worker, m: MemoryEventBatch,
                             w: Worker, flag: Bytes -> bool)
    reads b, b.disk, b.oldest, b.newest, m
  {
    Models(s, b, cw) && ModelsRealtime(s, m, w, flag)
  }

  method DoEither(b: MultiFile.MultiFileEventBatch, m: MemoryEventBatch, call: Call, cw: CriticalQueue.Worker,
                  w: Worker, lim: Limits, ghost s: State, flag: Bytes -> bool)
    returns (cw': CriticalQueue.Worker, w': Worker, lim': Limits)
    requires ModelsBoth(s, b, cw, m, w, flag) && lim == s.limits && WellFormed(call)
    modifies b, b.disk, b.oldest, b.newest, m
    ensures s.files.Ok() && ModelsBoth(Apply(s, StepFor(call, flag)), b, cw', m, w', flag)
    ensures lim' == Apply(s, StepFor(call, flag)).limits
    ensures b.newest == old(b.newest) || fresh(b.newest)
    ensures b.oldest == null || b.oldest == old(b.oldest) || b.oldest == old(b.newest) || fresh(b.oldest)
  {
    hide Models, MemoryEventBatch.Valid, SameItems, Apply, StepOf, IsRecord;
    ModelsOk(s, b, cw);
    OthersStay(s, call, flag);
    cw', w', lim' := cw, w, lim;
    if call.OnCritical? {
      cw', lim' := DoCall(b, call.call, cw, lim, s);
    } else if call.MoveOne? {
      w' := DoMove(b, w, lim, s, flag, m.items, cw);
      MoveKeepsQueue(s);
    } else {
      w' := DoInMemory(m, call, w, lim, s, flag);
      CriticalStays(s, Apply(s, StepFor(call, flag)), b, cw);
    }
  }

  lemma MoveKeepsQueue(s: State)
    requires s.files.Ok()
    ensures Apply(s, TransferOne).rt == s.rt
  {
    hide Store;
  }

  function StepsFor(calls: seq<Call>, flag: Bytes -> bool): (steps: seq<Step>)
    ensures |steps| == |calls| && forall i :: 0 <= i < |calls| ==> steps[i] == StepFor(calls[i], flag)
  {
    seq(|calls|, i requires 0 <= i < |calls| => StepFor(calls[i], flag))
  }

  /** Any interleaving of adders, the main worker and the realtime worker on the two batches is a run of the state
      machine: files, memory, limits and both workers end up where the machine does. */
  method Session(b: MultiFile.MultiFileEventBatch, m: MemoryEventBatch, calls: seq<Call>, cw: CriticalQueue.Worker,
                 w: Worker, lim: Limits, ghost s: State, flag: Bytes -> bool)
    returns (cw': CriticalQueue.Worker, w': Worker, lim': Limits)
    requires ModelsBoth(s, b, cw, m, w, flag) && lim == s.limits && s.files.Ok()
    requires forall i :: 0 <= i < |calls| ==> WellFormed(calls[i])
    modifies b, b.disk, b.oldest, b.newest, m
    ensures ModelsBoth(Run(s, StepsFor(calls, flag)), b, cw', m, w', flag)
    ensures lim' == Run(s, StepsFor(calls, flag)).limits
  {
    hide ModelsBoth, Apply, StepFor, WellFormed;
    cw', w', lim' := cw, w, lim;
    ghost var now := s;
    for i := 0 to |calls|
      invariant now.files.Ok() && Run(now, StepsFor(calls[i..], flag)) == Run(s, StepsFor(calls, flag))
      invariant ModelsBoth(now, b, cw', m, w', flag) && lim' == now.limits
      invariant b.newest == old(b.newest) || fresh(b.newest)
      invariant b.oldest == null || b.oldest == old(b.oldest) || b.oldest == old(b.newest) || fresh(b.oldest)
    {
      assert StepsFor(calls[i..], flag)[1..] == StepsFor(calls[i + 1..], flag);
      cw', w', lim' := DoEither(b, m, calls[i], cw', w', lim', now, flag);
      now := Apply(now, StepFor(calls[i], flag));
    }
  }
}

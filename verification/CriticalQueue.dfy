/** The critical queue of the event manager is a MultiFileEventBatch: every run of calls on the batch is a run of
    the manager's state machine. */
module CriticalQueue {
  import opened Common
  import opened Records
  import opened Posix
  import opened FileBatch
  import opened FileQueue
  import opened EventManager
  import EventRounds
  import MultiFile
  import Uploader

  // ---- events and their records ----

  ghost predicate Same(q: seq<Event>, rs: seq<Bytes>) {
    |q| == |rs| && forall i :: 0 <= i < |q| ==> q[i].size == |rs[i]|
  }

  ghost predicate SameFiles(f: Files<Event>, g: Files<Bytes>) {
    |f.earlier| == |g.earlier| && (forall i :: 0 <= i < |f.earlier| ==> Same(f.earlier[i], g.earlier[i]))
    && Same(f.newest, g.newest) && f.reading == g.reading
  }

  lemma {:induction false} SameExamined(f: Files<Event>, g: Files<Bytes>)
    requires SameFiles(f, g) && f.Ok()
    ensures g.Ok() && SameFiles(Examined(f), Examined(g))
    decreases |f.earlier|
  {
    if f.reading || f.earlier == [] {
    } else {
      assert Same(f.earlier[0], g.earlier[0]);
      if |f.earlier[0]| == 0 {
        SameExamined(f.(earlier := f.earlier[1..]), g.(earlier := g.earlier[1..]));
      }
    }
  }

  lemma SamePut(f: Files<Event>, g: Files<Bytes>, e: Event, data: Bytes, room: bool, fits: bool)
    requires SameFiles(f, g) && f.Ok() && e.size == |data|
    ensures g.Ok() && SameFiles(Put(f, e, room, fits), Put(g, data, room, fits))
  {
  }

  lemma SameFirst(f: Files<Event>, g: Files<Bytes>)
    requires SameFiles(f, g) && f.Ready()
    ensures g.Ready() && Same(f.First(), g.First()) && |f.First()| == |g.First()|
  {
  }

  lemma SameReady(f: Files<Event>, g: Files<Bytes>)
    requires SameFiles(f, g)
    ensures f.Ready() <==> g.Ready()
  {
  }

  lemma SameCut(f: Files<Event>, g: Files<Bytes>, k: nat)
    requires SameFiles(f, g) && f.Ready() && k <= |f.First()|
    ensures g.Ready() && k <= |g.First()| && SameFiles(Cut(f, k), Cut(g, k))
  {
    SameFirst(f, g);
  }

  lemma {:induction false} SameTotal(q: seq<Event>, rs: seq<Bytes>)
    requires Same(q, rs)
    ensures Total(q) == |Flat(rs)|
  {
    if q == [] {
    } else {
      SameTotal(q[..|q| - 1], rs[..|rs| - 1]);
    }
  }

  lemma SameFit(q: seq<Event>, rs: seq<Bytes>, maxCount: nat, maxSize: nat, k: nat)
    requires Same(q, rs) && AllRecords(rs) && LongestFit(rs, maxCount, maxSize, k)
    ensures k == FitCount(q, maxCount, maxSize)
  {
    var j := FitCount(q, maxCount, maxSize);
    EventRounds.FitCountIsLongest(q, maxCount, maxSize);
    SameTotal(q[..j], rs[..j]);
    if j < |q| { SameTotal(q[..j + 1], rs[..j + 1]); }
    hide Flat, Total, FitCount;
    LongestFitIsMaximal(rs, maxCount, maxSize, k, j);
    LongestFitIsMaximal(rs, maxCount, maxSize, j, k);
  }

  lemma SameRoom(q: seq<Event>, rs: seq<Bytes>, e: Event, lim: Limits)
    requires Same(q, rs)
    ensures RoomFor(q, e, lim) <==> MultiFile.RoomFor(rs, e.size, lim.fileMaxEvents, lim.fileMaxSize)
  {
    SameTotal(q, rs);
  }

  // ---- the batch and its worker ----

  /** Where the main worker is, with the list that it holds. */
  datatype Worker = Idle | Fetching | Nothing | Refetching | Dropping(l: EventList) | Sending(l: EventList)

  ghost predicate Models(s: State, b: MultiFile.MultiFileEventBatch, w: Worker)
    reads b, b.disk, b.oldest, b.newest
  {
    b.Valid() && s.files.Ok() && SameFiles(s.files, b.Layout())
    && s.limits.fileMaxEvents == b.fileMaxEvents && s.limits.fileMaxSize == b.fileMaxSize && Holds(s, w, b.pending)
  }

  ghost predicate Holds(s: State, w: Worker, pending: Option<EventList>) {
    match w
    case Idle => s.main.MainIdle?
    case Fetching => s.main.MainFetching?
    case Nothing => s.main.MainNothing?
    case Refetching => s.main.MainRefetching?
    case Dropping(l) => pending == Some(l) && s.main.MainDropping? && |s.main.drop| == l.count
    case Sending(l) => pending == Some(l) && s.main.MainSending? && |s.main.list| == l.count
  }

  /** hasEvents answers what the state machine says. */
  lemma CheckFollows(s: State, b: MultiFile.MultiFileEventBatch, w: Worker)
    requires Models(s, b, w)
    ensures b.HasEvents() <==> s.files.HasEvents()
  {
    b.LayoutFacts();
  }

  lemma StoreFollows(f: Files<Event>, g: Files<Bytes>, e: Event, data: Bytes, lim: Limits)
    requires f.Ok() && SameFiles(f, g) && e.size == |data|
    ensures var room := MultiFile.RoomFor(g.newest, |data|, lim.fileMaxEvents, lim.fileMaxSize);
            g.Ok() && SameFiles(Store(f, e, lim), Put(g, data, room, lim.Fits(e)))
  {
    SameRoom(f.newest, g.newest, e, lim);
    SamePut(f, g, e, data, RoomFor(f.newest, e, lim), lim.Fits(e));
    hide SameFiles, Put, RoomFor, MultiFile.RoomFor;
  }

  lemma FitsAlike(b: MultiFile.MultiFileEventBatch, lim: Limits, e: Event)
    requires lim.fileMaxSize == b.fileMaxSize
    ensures lim.Fits(e) <==> b.Fits(e.size)
  {
  }

  /** addEvent stores in the files as the state machine does. */
  method Add(b: MultiFile.MultiFileEventBatch, data: Bytes, ghost f: Files<Event>, ghost e: Event, ghost lim: Limits)
    returns (ok: bool)
    requires b.Valid() && f.Ok() && SameFiles(f, b.Layout()) && IsRecord(data) && e.size == |data|
    requires lim.fileMaxEvents == b.fileMaxEvents && lim.fileMaxSize == b.fileMaxSize
    modifies b, b.disk, b.newest
    ensures b.Valid() && SameFiles(Store(f, e, lim), b.Layout()) && (ok <==> lim.Fits(e))
    ensures b.fileMaxEvents == old(b.fileMaxEvents) && b.fileMaxSize == old(b.fileMaxSize)
            && b.pending == old(b.pending)
    ensures b.newest == old(b.newest) || fresh(b.newest)
    ensures b.oldest == old(b.oldest) || b.oldest == old(b.newest)
  {
    hide *;
    ghost var g := b.Layout();
    FitsAlike(b, lim, e);
    ok := b.AddEvent(data);
    StoreFollows(f, g, e, data, lim);
  }

  /** What a fetch from the files returns is what the state machine fetches. */
  lemma FetchFollows(f: Files<Event>, g: Files<Bytes>, maxCount: nat, maxSize: nat, r: Option<EventList>)
    requires f.Ok() && g.Ok() && SameFiles(f, g) && AllRecords(Examined(g).First())
    requires r.None? <==> maxCount == 0 || Examined(g).First() == []
    requires r.Some? ==> LongestFit(Examined(g).First(), maxCount, maxSize, r.value.count)
    ensures SameFiles(Examined(f), Examined(g))
    ensures var x := Fetched(Examined(f), maxCount, maxSize);
            (r.Some? <==> x.Some?) && (r.Some? ==> |x.value| == r.value.count)
  {
    SameExamined(f, g);
    SameFirst(Examined(f), Examined(g));
    if r.Some? { SameFit(Examined(f).First(), Examined(g).First(), maxCount, maxSize, r.value.count); }
    hide Examined, FitCount, SameFiles;
  }

  /** getEventsForUpload is the step MainFetch, or MainRefetch on the drop path. */
  method Fetch(b: MultiFile.MultiFileEventBatch, maxCount: nat, maxSize: nat, ghost f: Files<Event>)
    returns (r: Option<EventList>)
    requires b.Valid() && f.Ok() && SameFiles(f, b.Layout())
    modifies b, b.disk, b.oldest, b.newest
    ensures b.Valid() && SameFiles(Examined(f), b.Layout()) && b.pending == r
    ensures b.fileMaxEvents == old(b.fileMaxEvents) && b.fileMaxSize == old(b.fileMaxSize)
    ensures var x := Fetched(Examined(f), maxCount, Min(maxSize, MEBIBYTE));
            (r.Some? <==> x.Some?) && (r.Some? ==> |x.value| == r.value.count)
    ensures b.newest == old(b.newest) && (b.oldest == old(b.oldest) || fresh(b.oldest))
  {
    hide *;
    ghost var g := b.Layout();
    r := b.GetEventsForUpload(maxCount, maxSize);
    b.LayoutFacts();
    FetchFollows(f, g, maxCount, Min(maxSize, MEBIBYTE), r);
  }

  predicate CanCut<T>(f: Files<T>, k: nat) { f.Ready() && k <= |f.First()| }

  lemma AckFollows(f: Files<Event>, g: Files<Bytes>, k: nat)
    requires SameFiles(f, g) && CanCut(g, k)
    ensures CanCut(f, k) && SameFiles(Cut(f, k), Cut(g, k))
  {
    SameReady(f, g);
    SameFirst(f, g);
    SameCut(f, g, k);
  }

  /** onEventsUploaded takes the list off the files as the state machine does. */
  method Ack(b: MultiFile.MultiFileEventBatch, l: EventList, ghost f: Files<Event>)
    requires b.Valid() && f.Ok() && SameFiles(f, b.Layout()) && b.pending == Some(l)
    modifies b, b.disk, b.oldest, b.newest
    ensures b.Valid() && CanCut(f, l.count) && SameFiles(Cut(f, l.count), b.Layout())
    ensures b.fileMaxEvents == old(b.fileMaxEvents) && b.fileMaxSize == old(b.fileMaxSize)
    ensures b.newest == old(b.newest) && (b.oldest == old(b.oldest) || b.oldest == null)
  {
    hide *;
    ghost var g := b.Layout();
    b.OnEventsUploaded(l);
    AckFollows(f, g, l.count);
  }

  /** A call on the critical queue, or a step of its worker. */
  datatype Call =
    | StoreEvent(data: Bytes, id: nat)
    | SetLimits(limits: Limits)
    | Check
    | FetchList
    | CheckAgain
    | FetchOne
    | AckDropped
    | Answer(ok: bool)

  function StepOf(call: Call): Step {
    match call
    case StoreEvent(data, id) => AddStored(Event(id, true, |data|))
    case SetLimits(limits) => Configure(limits)
    case Check => MainCheck
    case FetchList => MainFetch
    case CheckAgain => MainRecheck
    case FetchOne => MainRefetch
    case AckDropped => MainDropAck
    case Answer(ok) => MainAnswer(ok)
  }

  predicate IsWorkerCall(call: Call) { !call.StoreEvent? && !call.SetLimits? }

  /** One step of the worker. A step that it cannot take does nothing. */
  method DoWork(b: MultiFile.MultiFileEventBatch, call: Call, w: Worker, lim: Limits, ghost s: State)
    returns (w': Worker)
    requires Models(s, b, w) && lim == s.limits && IsWorkerCall(call)
    modifies b, b.disk, b.oldest, b.newest
    ensures Models(Apply(s, StepOf(call)), b, w') && lim == Apply(s, StepOf(call)).limits
    ensures b.newest == old(b.newest)
    ensures b.oldest == null || b.oldest == old(b.oldest) || fresh(b.oldest)
  {
    hide MultiFile.MultiFileEventBatch.Valid, MultiFile.MultiFileEventBatch.Layout, SameFiles, Examined, Fetched, Cut,
      Files.HasEvents;
    w' := w;
    if call.Check? {
      CheckFollows(s, b, w);
      if w.Idle? && b.HasEvents() {
        w' := Fetching;
      }
    } else if call.FetchList? {
      if w.Fetching? {
        var r := Fetch(b, lim.maxCount, lim.maxSize, s.files);
        w' := if r.None? then Nothing else Sending(r.value);
      }
    } else if call.CheckAgain? {
      CheckFollows(s, b, w);
      if w.Nothing? {
        w' := if b.HasEvents() then Refetching else Idle;
      }
    } else if call.FetchOne? {
      if w.Refetching? {
        var r := Fetch(b, 1, SIZE_MAX, s.files);
        w' := if r.None? then Idle else Dropping(r.value);
      }
    } else if call.AckDropped? {
      if w.Dropping? {
        Ack(b, w.l, s.files);
        w' := Fetching;
      }
    } else if w.Sending? {
      if call.ok {
        Ack(b, w.l, s.files);
      }
      w' := Idle;
    }
  }

  method DoCall(b: MultiFile.MultiFileEventBatch, call: Call, w: Worker, lim: Limits, ghost s: State)
    returns (w': Worker, lim': Limits)
    requires Models(s, b, w) && lim == s.limits && (call.StoreEvent? ==> IsRecord(call.data))
    modifies b, b.disk, b.oldest, b.newest
    ensures Models(Apply(s, StepOf(call)), b, w') && lim' == Apply(s, StepOf(call)).limits
    ensures b.newest == old(b.newest) || fresh(b.newest)
    ensures b.oldest == null || b.oldest == old(b.oldest) || b.oldest == old(b.newest) || fresh(b.oldest)
  {
    hide MultiFile.MultiFileEventBatch.Valid, MultiFile.MultiFileEventBatch.Layout, SameFiles, Store;
    w', lim' := w, lim;
    if call.StoreEvent? {
      var _ := Add(b, call.data, s.files, Event(call.id, true, |call.data|), lim);
    } else if call.SetLimits? {
      b.SetFileLimits(call.limits.fileMaxEvents, call.limits.fileMaxSize);
      lim' := call.limits;
    } else {
      w' := DoWork(b, call, w, lim, s);
    }
  }

  function StepsOf(calls: seq<Call>): (steps: seq<Step>)
    ensures |steps| == |calls| && forall i :: 0 <= i < |calls| ==> steps[i] == StepOf(calls[i])
  {
    seq(|calls|, i requires 0 <= i < |calls| => StepOf(calls[i]))
  }

  /** Any sequence of adds, changes of limits and steps of the main worker on the batch is a run of the state
      machine: the files, the limits and the worker end up where the machine does. */
  method Session(b: MultiFile.MultiFileEventBatch, calls: seq<Call>, w: Worker, lim: Limits, ghost s: State)
    returns (w': Worker, lim': Limits)
    requires Models(s, b, w) && lim == s.limits
    requires forall i :: 0 <= i < |calls| && calls[i].StoreEvent? ==> IsRecord(calls[i].data)
    modifies b, b.disk, b.oldest, b.newest
    ensures Models(Run(s, StepsOf(calls)), b, w') && lim' == Run(s, StepsOf(calls)).limits
  {
    hide Models, Apply, StepOf, IsRecord;
    ModelsOk(s, b, w);
    w', lim' := w, lim;
    ghost var now := s;
    for i := 0 to |calls|
      invariant now.files.Ok() && Run(now, StepsOf(calls[i..])) == Run(s, StepsOf(calls))
      invariant Models(now, b, w') && lim' == now.limits
      invariant b.newest == old(b.newest) || fresh(b.newest)
      invariant b.oldest == null || b.oldest == old(b.oldest) || b.oldest == old(b.newest) || fresh(b.oldest)
    {
      assert StepsOf(calls[i..])[1..] == StepsOf(calls[i + 1..]);
      w', lim' := DoCall(b, calls[i], w', lim', now);
      now := Apply(now, StepOf(calls[i]));
    }
  }

  lemma ModelsOk(s: State, b: MultiFile.MultiFileEventBatch, w: Worker)
    requires Models(s, b, w)
    ensures s.files.Ok()
  {
  }

  /** The loss on a real batch: of two empty files the fetch deletes one and returns null; the record that arrives
      then is accepted, makes hasEvents true again and is dropped without having been posted. */
  method LeftoverLoses(disk: Disk, data: Bytes, maxCount: nat, maxSize: nat)
    returns (b: MultiFile.MultiFileEventBatch, had: bool, r: Option<EventList>, ok: bool, again: bool, dropped: bool)
    requires !disk.faulty && disk.files == map[0 := [], 1 := []] && IsRecord(data) && |data| <= MEBIBYTE
    modifies disk
    ensures fresh(b) && b.Valid() && had && r == None && ok && again && dropped && b.Queue() == []
  {
    hide MultiFile.MultiFileEventBatch.Valid, MultiFile.MultiFileEventBatch.Queue, MultiFile.MultiFileEventBatch.Layout,
      MultiFile.MultiFileEventBatch.NoEmptyFiles, MultiFile.RoomFor, MultiFile.IsHead, Put, Examined, LongestFit,
      IsRecord;
    b := OpenTwoEmpty(disk);
    had := b.HasEvents();
    r := b.GetEventsForUpload(maxCount, maxSize);
    ok := b.AddEvent(data);
    b.HasEventsExact();
    again := b.HasEvents();
    var fetched;
    fetched, dropped := Uploader.DropFirst(b);
  }

  method OpenTwoEmpty(disk: Disk) returns (b: MultiFile.MultiFileEventBatch)
    requires !disk.faulty && disk.files == map[0 := [], 1 := []]
    modifies disk
    ensures fresh(b) && b.disk == disk && b.Valid() && fresh(b.newest) && b.oldest == null && b.fileMaxSize == 0
    ensures b.HasEvents() && b.Queue() == []
  {
    hide MultiFile.MultiFileEventBatch.Valid, MultiFile.MultiFileEventBatch.Queue, MultiFile.MultiFileEventBatch.Layout,
      MultiFile.Stored, MultiFile.IdSet, MultiFile.PerFile, MultiFile.RecordsOf;
    ghost var files := disk.files;
    assert 0 in files && 1 in files && files != map[];
    b := new MultiFile.MultiFileEventBatch(disk, 0, 0);
    NothingIn(files, b.Ids());
    TwoIds(files, b.oldIds, b.newestId);
  }

  lemma TwoIds(files: map<nat, Bytes>, oldIds: seq<nat>, id: nat)
    requires 0 in files && 1 in files && files.Keys == MultiFile.IdSet(oldIds + [id])
    ensures oldIds != []
  {
    assert 0 in MultiFile.IdSet(oldIds + [id]) && 1 in MultiFile.IdSet(oldIds + [id]);
  }

  lemma {:induction false} NothingIn(files: map<nat, Bytes>, ids: seq<nat>)
    requires forall id :: id in files ==> files[id] == []
    ensures MultiFile.Stored(files, ids) == []
  {
    if ids == [] {
    } else {
      NothingIn(files, ids[1..]);
    }
  }
}

/** BufferedEventBatch: an in-memory buffer in front of the persistent queue. */
module BufferedBatch {
  import opened Common
  import opened Records
  import opened Posix
  import opened FileBatch
  import FileQueue
  import opened MultiFile
  import opened MemoryBatch

  /** The three kinds of list a fetch may return. A memory list may wrap a null pointer. */
  datatype BufferedList =
    | Wrapped(list: EventList, hasMemoryEvents: bool)
    | Memory(mem: Option<EventList>)
    | Merged(list: EventList, fromMem: EventList)
  {
    predicate NonNull() { Memory? ==> mem.Some? }

    /** How many records an acknowledgement takes from disk, and from memory. */
    function DiskCount(): nat { if Memory? then 0 else list.count }

    function MemoryCount(): nat {
      match this
      case Wrapped(_, _) => 0
      case Memory(m) => if m.Some? then m.value.count else 0
      case Merged(_, m) => m.count
    }

    function MemoryData(): Bytes {
      match this
      case Wrapped(_, _) => []
      case Memory(m) => if m.Some? then m.value.data else []
      case Merged(_, m) => m.data
    }

    /** getData, getEventCount and hasMoreEvents; on a null memory list they would dereference null. */
    function Flattened(): EventList
      requires NonNull()
    {
      match this
      case Wrapped(w, hasMem) => EventList(w.data, w.count, hasMem || w.more)
      case Memory(m) => m.value
      case Merged(w, m) => EventList(w.data + m.data, w.count + m.count, w.more || m.more)
    }
  }

  /** The records among `items` that the persistent queue accepts. */
  ghost function Kept(items: seq<Bytes>, maxSize: nat): seq<Bytes>
    requires NewlineFree(items)
  {
    if items == [] then []
    else
      var front, r := items[..|items| - 1], Record(items[|items| - 1]);
      Kept(front, maxSize) + if maxSize == 0 || |r| <= maxSize then [r] else []
  }

  ghost predicate AllFit(items: seq<Bytes>, maxSize: nat) {
    maxSize == 0 || forall i :: 0 <= i < |items| ==> |items[i]| + 2 <= maxSize
  }

  lemma KeptNothing(maxSize: nat)
    ensures Kept([], maxSize) == []
  {
  }

  lemma KeptNext(items: seq<Bytes>, i: nat, maxSize: nat)
    requires NewlineFree(items) && i < |items|
    ensures Kept(items[..i + 1], maxSize) ==
              Kept(items[..i], maxSize)
              + if maxSize == 0 || |Record(items[i])| <= maxSize then [Record(items[i])] else []
  {
    assert items[..i + 1][..i] == items[..i];
  }

  /** Nothing is dropped exactly if every record fits an empty file. */
  lemma {:induction false} KeptIffFit(items: seq<Bytes>, maxSize: nat)
    requires NewlineFree(items)
    ensures |Kept(items, maxSize)| <= |items|
    ensures AllFit(items, maxSize) ==> Kept(items, maxSize) == Serialized(items)
    ensures !AllFit(items, maxSize) ==> |Kept(items, maxSize)| < |items|
  {
    if items == [] {
    } else {
      var front, last := items[..|items| - 1], items[|items| - 1];
      KeptIffFit(front, maxSize);
      SerializedAppend(front, last);
      assert items == front + [last];
    }
  }

  lemma FlushKeepsQueue(q: seq<Bytes>, items: seq<Bytes>, maxSize: nat)
    requires NewlineFree(items)
    ensures (q + Kept(items, maxSize)) + [] == q + Serialized(items) <==> AllFit(items, maxSize)
  {
    KeptIffFit(items, maxSize);
    assert |q + Kept(items, maxSize)| == |q| + |Kept(items, maxSize)|;
  }

  lemma SerializedAppend(items: seq<Bytes>, event: Bytes)
    requires NewlineFree(items) && NEWLINE !in event
    ensures Serialized(items + [event]) == Serialized(items) + [Record(event)]
  {
  }

  /** `l` is a prefix of `q` within both limits that is empty only if the first record exceeds them, and does
      not claim to be everything unless it is. */
  ghost predicate IsPrefix(l: EventList, q: seq<Bytes>, maxCount: nat, maxSize: nat) {
    l.count <= |q| && l.count <= maxCount && l.data == Flat(q[..l.count]) && |l.data| <= maxSize
    && (l.count == 0 ==> q == [] || maxCount == 0 || |q[0]| > Min(maxSize, MEBIBYTE))
    && (l.count < |q| ==> l.more)
  }

  class BufferedEventBatch {
    const wrapped: MultiFileEventBatch
    const mem: MemoryEventBatch

    /** The list that was fetched and not yet acknowledged. */
    ghost var pending: Option<BufferedList>
    /** The buffer was flushed since that fetch, or the fetch skipped a stuck file. */
    ghost var disturbed: bool

    ghost predicate Valid()
      reads this, mem, wrapped, wrapped.disk, wrapped.oldest, wrapped.newest
    {
      wrapped.Valid() && mem.Valid() && (pending.Some? ==> PendingOk(pending.value))
    }

    ghost predicate PendingOk(l: BufferedList)
      reads this, mem, wrapped, wrapped.disk, wrapped.oldest, wrapped.newest
      requires mem.Valid()
    {
      (!l.Memory? ==> wrapped.pending == Some(l.list)) && (!disturbed ==> InFront(l))
    }

    /** The memory part of `l` follows everything on disk and is still the first part of the buffer. */
    ghost predicate InFront(l: BufferedList)
      reads mem, wrapped, wrapped.disk, wrapped.oldest, wrapped.newest
      requires mem.Valid()
    {
      (!l.Wrapped? && l.NonNull() ==> wrapped.Queue() == if l.Merged? then Lines(l.list.data) else [])
      && l.MemoryCount() <= |mem.items| && l.MemoryData() == Flat(mem.Queue()[..l.MemoryCount()])
    }

    ghost function Queue(): seq<Bytes>
      reads mem, wrapped, wrapped.disk, wrapped.oldest, wrapped.newest
      requires mem.Valid()
    {
      wrapped.Queue() + mem.Queue()
    }

    ghost function Split(): Layers
      reads this, mem, wrapped, wrapped.disk, wrapped.oldest, wrapped.newest
    {
      Layers(wrapped.Queue(), mem.items, disturbed)
    }

    constructor (wrapped: MultiFileEventBatch, bufferedItemCount: nat)
      requires wrapped.Valid()
      ensures this.wrapped == wrapped && mem.limit == bufferedItemCount && fresh(mem)
      ensures Valid() && Queue() == wrapped.Queue() && pending == None && Split() == Layers(wrapped.Queue(), [], false)
    {
      this.wrapped, pending, disturbed := wrapped, None, false;
      mem := new MemoryEventBatch(bufferedItemCount);
      new;
      assert mem.Queue() == [];
    }

    /** Moves the buffered events to disk. The queue stays what it was exactly if they all fit. */
    method FlushInternal()
      requires Valid()
      modifies this`disturbed, mem, wrapped, wrapped.disk, wrapped.newest
      ensures Valid() && mem.items == [] && disturbed
      ensures wrapped.newest == old(wrapped.newest) || fresh(wrapped.newest)
      ensures wrapped.oldest == old(wrapped.oldest) || wrapped.oldest == old(wrapped.newest) || fresh(wrapped.oldest)
      ensures wrapped.pending == old(wrapped.pending) && wrapped.fileMaxSize == old(wrapped.fileMaxSize)
      ensures wrapped.Queue() == old(wrapped.Queue()) + Kept(old(mem.items), wrapped.fileMaxSize)
      ensures AllFit(old(mem.items), wrapped.fileMaxSize) ==> wrapped.Stuck() == old(wrapped.Stuck())
      ensures Queue() == old(Queue()) <==> AllFit(old(mem.items), wrapped.fileMaxSize)
    {
      hide MultiFileEventBatch.Valid, MultiFileEventBatch.Queue, Kept, AllFit;
      ghost var q := wrapped.Queue();
      var items := mem.TransferAllEvents();
      ForwardAll(items);
      disturbed := true;
      FlushKeepsQueue(q, items, wrapped.fileMaxSize);
      assert mem.Queue() == [];
    }

    method ForwardAll(items: seq<Bytes>)
      requires wrapped.Valid() && NewlineFree(items)
      modifies wrapped, wrapped.disk, wrapped.newest
      ensures wrapped.Valid() && wrapped.Queue() == old(wrapped.Queue()) + Kept(items, wrapped.fileMaxSize)
      ensures AllFit(items, wrapped.fileMaxSize) ==> wrapped.Stuck() == old(wrapped.Stuck())
      ensures wrapped.newest == old(wrapped.newest) || fresh(wrapped.newest)
      ensures wrapped.oldest == old(wrapped.oldest) || wrapped.oldest == old(wrapped.newest) || fresh(wrapped.oldest)
      ensures wrapped.pending == old(wrapped.pending) && wrapped.fileMaxSize == old(wrapped.fileMaxSize)
    {
      hide MultiFileEventBatch.Valid, MultiFileEventBatch.Queue, MultiFileEventBatch.Layout,
        MultiFileEventBatch.NoEmptyFiles, RoomFor, Kept;
      KeptNothing(wrapped.fileMaxSize);
      for i := 0 to |items|
        invariant wrapped.Valid()
        invariant wrapped.newest == old(wrapped.newest) || fresh(wrapped.newest)
        invariant wrapped.oldest == old(wrapped.oldest) || wrapped.oldest == old(wrapped.newest)
                  || fresh(wrapped.oldest)
        invariant wrapped.pending == old(wrapped.pending) && wrapped.fileMaxSize == old(wrapped.fileMaxSize)
        invariant wrapped.Queue() == old(wrapped.Queue()) + Kept(items[..i], wrapped.fileMaxSize)
        invariant AllFit(items, wrapped.fileMaxSize) ==> wrapped.Stuck() == old(wrapped.Stuck())
      {
        KeptNext(items, i, wrapped.fileMaxSize);
        var _ := wrapped.AddEvent(Record(items[i]));
      }
      assert items[..|items|] == items;
    }

    method AddEvent(event: Bytes) returns (ok: bool)
      requires Valid() && NEWLINE !in event
      modifies this`disturbed, mem, wrapped, wrapped.disk, wrapped.newest
      ensures Valid() && (ok <==> mem.limit > 0) && wrapped.fileMaxSize == old(wrapped.fileMaxSize)
      ensures wrapped.newest == old(wrapped.newest) || fresh(wrapped.newest)
      ensures wrapped.oldest == old(wrapped.oldest) || wrapped.oldest == old(wrapped.newest) || fresh(wrapped.oldest)
      ensures |old(mem.items)| < mem.limit ==> unchanged(wrapped)
      ensures Split() == Put(old(Split()), event, mem.limit, wrapped.fileMaxSize)
      ensures AllFit(old(mem.items), wrapped.fileMaxSize) ==> wrapped.Stuck() == old(wrapped.Stuck())
      ensures |old(mem.items)| < mem.limit || AllFit(old(mem.items), wrapped.fileMaxSize) ==>
                Queue() == if ok then old(Queue()) + [Record(event)] else old(Queue())
    {
      hide MultiFileEventBatch.Valid, MultiFileEventBatch.Queue, Queue, Kept, AllFit, PendingOk;
      ok := AddToMemory(event);
      if !ok {
        FlushInternal();
        ok := AddToMemory(event);
      }
    }

    method AddToMemory(event: Bytes) returns (ok: bool)
      requires Valid() && NEWLINE !in event
      modifies mem
      ensures Valid() && (ok <==> |old(mem.items)| < mem.limit)
      ensures mem.items == if ok then old(mem.items) + [event] else old(mem.items)
      ensures Queue() == if ok then old(Queue()) + [Record(event)] else old(Queue())
      ensures wrapped.Queue() == old(wrapped.Queue())
    {
      hide MultiFileEventBatch.Valid, MultiFileEventBatch.Queue, Serialized, Flat, Lines;
      SerializedAppend(mem.items, event);
      ghost var w, m := wrapped.Queue(), mem.Queue();
      ok := mem.AddEvent(event);
      if ok {
        assert w + (m + [Record(event)]) == (w + m) + [Record(event)];
        assert mem.Queue() == m + [Record(event)];
        if pending.Some? && !disturbed {
          var k := pending.value.MemoryCount();
          assert mem.Queue()[..k] == m[..k];
        }
      }
    }

    /** Fetches from disk, tops the list up from memory when the disk has nothing more, or
        falls back to memory alone, which overtakes the files if they are stuck. */
    method GetEventsForUpload(maxCount: nat, maxSize: nat) returns (l: BufferedList)
      requires Valid()
      modifies this`pending, this`disturbed
      modifies wrapped`oldest, wrapped`oldIds, wrapped`pending, wrapped.disk, wrapped.oldest, wrapped.newest
      ensures Valid() && pending == Some(l) && disturbed == old(wrapped.Stuck())
      ensures Queue() == old(Queue()) && mem.items == old(mem.items) && wrapped.Queue() == old(wrapped.Queue())
      ensures wrapped.newest == old(wrapped.newest) && wrapped.Stuck() == old(wrapped.Stuck())
      ensures wrapped.oldest == old(wrapped.oldest) || fresh(wrapped.oldest)
      ensures !disturbed ==> (l.NonNull() <==> Queue() != [] && maxCount > 0 && (l.Memory? ==> maxSize > 0))
      ensures !disturbed && l.NonNull() ==> IsPrefix(l.Flattened(), Queue(), maxCount, maxSize)
      ensures !disturbed ==> (l.Memory? <==> maxCount == 0 || wrapped.Queue() == [])
      ensures l.Memory? && l.NonNull() ==> IsFetchOf(l.Flattened(), mem.Queue(), maxCount, maxSize)
      ensures !l.Memory? ==>
                old(wrapped.Layout()).Ok() && wrapped.Layout() == FileQueue.Examined(old(wrapped.Layout()))
                && Takes(l.Flattened(), wrapped.Layout(), mem.Queue(), maxCount, maxSize)
      ensures disturbed ==> l.Memory? && (l.NonNull() <==> maxCount > 0 && maxSize > 0 && mem.items != [])
      ensures disturbed && l.NonNull() ==> IsPrefix(l.Flattened(), mem.Queue(), maxCount, maxSize)
    {
      hide MultiFileEventBatch.Valid, MultiFileEventBatch.Queue, MultiFileEventBatch.Layout,
        MultiFileEventBatch.NoEmptyFiles, IsFetchOf, IsHead, IsPrefix, LongestFit, Serialized, Lines, Flat, InFront,
        Takes, FrontOfFirst, FileQueue.Examined;
      wrapped.HasEventsExact();
      ghost var stuck := wrapped.Stuck();
      var ret: Option<EventList> := None;
      if wrapped.HasEvents() {
        ret := wrapped.GetEventsForUpload(maxCount, maxSize);
      }
      if ret.Some? {
        l := TopUp(ret.value, maxCount, maxSize);
      } else {
        l := FromMemory(maxCount, maxSize);
      }
      pending, disturbed := Some(l), stuck;
    }

    method TopUp(w: EventList, maxCount: nat, maxSize: nat) returns (l: BufferedList)
      requires wrapped.Valid() && mem.Valid() && wrapped.pending == Some(w) && wrapped.Queue() != []
      requires IsHead(w, wrapped.Queue(), maxCount, Min(maxSize, MEBIBYTE))
      requires wrapped.Layout().Ready() && FrontOfFirst(w, wrapped.Layout())
      requires LongestFit(wrapped.Layout().First(), maxCount, Min(maxSize, MEBIBYTE), w.count)
      ensures !l.Memory? && l.list == w && InFront(l) && IsPrefix(l.Flattened(), Queue(), maxCount, maxSize)
      ensures Takes(l.Flattened(), wrapped.Layout(), mem.Queue(), maxCount, maxSize)
    {
      hide MultiFileEventBatch.Valid, MultiFileEventBatch.Queue, MultiFileEventBatch.Layout, IsFetchOf, IsHead,
        IsPrefix, Serialized, Lines, Takes, FrontOfFirst, LongestFit;
      SerializedRecords(mem.items);
      wrapped.LayoutFacts();
      if !w.more && mem.HasEvents() {
        HeadFits(w, wrapped.Queue(), maxCount, maxSize);
        var m := mem.GetEventsForUpload(maxCount - w.count, maxSize - |w.data|);
        if m.Some? {
          l := Merged(w, m.value);
          MergedParts(l, wrapped.Queue(), mem.Queue(), maxCount, maxSize);
          MergedPrefix(l, wrapped.Queue(), mem.Queue(), maxCount, maxSize);
          TakesMerged(l, wrapped.Layout(), mem.Queue(), maxCount, maxSize);
          wrapped.PendingIsFront(w);
          assert wrapped.Queue()[..w.count] == wrapped.Queue();
          return;
        }
      }
      l := Wrapped(w, mem.HasEvents());
      WrappedPrefix(l, wrapped.Queue(), mem.Queue(), maxCount, maxSize);
      HeadFits(w, wrapped.Queue(), maxCount, maxSize);
      TakesWrapped(l, wrapped.Layout(), mem.Queue(), maxCount, maxSize);
    }

    method FromMemory(maxCount: nat, maxSize: nat) returns (l: BufferedList)
      requires mem.Valid()
      ensures l.Memory? && (l.NonNull() <==> maxCount > 0 && maxSize > 0 && mem.items != [])
      ensures l.NonNull() ==> IsPrefix(l.Flattened(), mem.Queue(), maxCount, maxSize)
      ensures l.NonNull() ==> IsFetchOf(l.Flattened(), mem.Queue(), maxCount, maxSize)
      ensures l.NonNull() && wrapped.Queue() == [] ==>
                InFront(l) && IsPrefix(l.Flattened(), Queue(), maxCount, maxSize)
      ensures !l.NonNull() ==> InFront(l)
    {
      hide MultiFileEventBatch.Queue, IsFetchOf, IsPrefix, Serialized;
      var m := mem.GetEventsForUpload(maxCount, maxSize);
      l := Memory(m);
      if m.Some? {
        MemoryPrefix(l, wrapped.Queue(), mem.Queue(), maxCount, maxSize);
      }
    }

    predicate HasEvents()
      reads mem, wrapped, wrapped.newest
    {
      mem.HasEvents() || wrapped.HasEvents()
    }

    lemma QueueRecords()
      requires Valid()
      ensures AllRecords(Queue())
    {
      wrapped.QueueRecords();
      SerializedRecords(mem.items);
    }

    lemma HasEventsExact()
      requires Valid() && wrapped.NoEmptyFiles()
      ensures HasEvents() <==> Queue() != []
    {
      wrapped.HasEventsExact();
    }

    /** Acknowledges both parts of a list, and says whether the erasure from memory was in bounds. It removes
        exactly the fetched prefix if the buffer was not flushed since the fetch, and always if no part of the
        list came from memory. */
    method OnEventsUploaded(l: BufferedList) returns (inBounds: bool)
      requires Valid() && pending == Some(l) && l.NonNull()
      modifies this`pending, mem
      modifies wrapped`oldest, wrapped`pending, wrapped.disk, wrapped.oldest, wrapped.newest
      ensures Valid() && pending == None
      ensures old(wrapped.Queue()) == (if l.Memory? then [] else Lines(l.list.data)) + wrapped.Queue()
      ensures wrapped.Stuck() ==> old(wrapped.Stuck())
      ensures wrapped.newest == old(wrapped.newest) && (wrapped.oldest == null || wrapped.oldest == old(wrapped.oldest))
      ensures inBounds <==> l.MemoryCount() <= |old(mem.items)|
      ensures mem.items == if inBounds then old(mem.items)[l.MemoryCount()..] else old(mem.items)
      ensures mem.Queue() == if inBounds then old(mem.Queue())[l.MemoryCount()..] else old(mem.Queue())
      ensures !old(disturbed) || l.Wrapped? ==> inBounds && old(Queue()) == Lines(l.Flattened().data) + Queue()
    {
      hide MultiFileEventBatch.Valid, MultiFileEventBatch.Queue, Serialized, Lines, Flat;
      ghost var wq, mq := wrapped.Queue(), mem.Queue();
      SerializedRecords(mem.items);
      if !l.Memory? { wrapped.PendingComplete(l.list); }
      if l.MemoryCount() <= |mem.items| { AckedSplits(l, wq, mq); }
      inBounds := AckParts(l);
      if inBounds { Regroup(l, wq, mq, wrapped.Queue(), mem.Queue()); }
    }

    method AckParts(l: BufferedList) returns (inBounds: bool)
      requires Valid() && pending == Some(l) && l.NonNull()
      modifies this`pending, mem
      modifies wrapped`oldest, wrapped`pending, wrapped.disk, wrapped.oldest, wrapped.newest
      ensures Valid() && pending == None
      ensures old(wrapped.Queue()) == (if l.Memory? then [] else Lines(l.list.data)) + wrapped.Queue()
      ensures wrapped.Stuck() ==> old(wrapped.Stuck())
      ensures wrapped.newest == old(wrapped.newest) && (wrapped.oldest == null || wrapped.oldest == old(wrapped.oldest))
      ensures inBounds <==> l.MemoryCount() <= |old(mem.items)|
      ensures mem.items == if inBounds then old(mem.items)[l.MemoryCount()..] else old(mem.items)
      ensures mem.Queue() == if inBounds then old(mem.Queue())[l.MemoryCount()..] else old(mem.Queue())
    {
      hide MultiFileEventBatch.Valid, MultiFileEventBatch.Queue, MultiFileEventBatch.Layout,
        MultiFileEventBatch.NoEmptyFiles, InFront, Serialized, Lines, Flat;
      pending := None;
      match l {
        case Wrapped(w, _) =>
          wrapped.OnEventsUploaded(w);
          inBounds := true;
        case Memory(m) =>
          inBounds := mem.OnEventsUploaded(m.value);
        case Merged(w, m) =>
          wrapped.OnEventsUploaded(w);
          inBounds := mem.OnEventsUploaded(m);
      }
    }
  }

  lemma SerializedRecords(items: seq<Bytes>)
    requires NewlineFree(items)
    ensures AllRecords(Serialized(items))
  {
  }

  /** The bytes of a list whose memory part is in place are its disk records and its memory records. */
  lemma AckedSplits(l: BufferedList, wq: seq<Bytes>, mq: seq<Bytes>)
    requires l.NonNull() && l.MemoryCount() <= |mq| && AllRecords(mq)
    requires !l.Memory? ==> Complete(l.list.data)
    ensures l.MemoryData() == Flat(mq[..l.MemoryCount()]) ==>
              Lines(l.Flattened().data) == (if l.Memory? then [] else Lines(l.list.data)) + mq[..l.MemoryCount()]
  {
    hide Lines, Flat, Complete;
    if l.MemoryData() == Flat(mq[..l.MemoryCount()]) {
      LinesFlat(mq[..l.MemoryCount()]);
      if !l.Memory? {
        LinesConcat(l.list.data, l.MemoryData());
        assert l.list.data + [] == l.list.data;
      }
    }
  }

  /** Removing all of the disk queue and then a prefix of the buffer removes a prefix of the whole. */
  lemma Regroup(l: BufferedList, wq: seq<Bytes>, mq: seq<Bytes>, wq': seq<Bytes>, mq': seq<Bytes>)
    requires l.MemoryCount() <= |mq| && mq' == mq[l.MemoryCount()..]
    requires wq == (if l.Memory? then [] else Lines(l.list.data)) + wq'
    ensures wq' == [] || l.MemoryCount() == 0 ==>
              wq + mq == ((if l.Memory? then [] else Lines(l.list.data)) + mq[..l.MemoryCount()]) + (wq' + mq')
  {
  }

  lemma HeadFits(w: EventList, q: seq<Bytes>, maxCount: nat, maxSize: nat)
    requires IsHead(w, q, maxCount, Min(maxSize, MEBIBYTE))
    ensures w.count <= maxCount && |w.data| <= maxSize
  {
  }

  lemma WrappedPrefix(l: BufferedList, wq: seq<Bytes>, mq: seq<Bytes>, maxCount: nat, maxSize: nat)
    requires wq != [] && l.Wrapped? && IsHead(l.list, wq, maxCount, Min(maxSize, MEBIBYTE))
    requires l.hasMemoryEvents <==> mq != []
    ensures IsPrefix(l.Flattened(), wq + mq, maxCount, maxSize)
  {
    assert (wq + mq)[..l.list.count] == wq[..l.list.count];
  }

  /** How much a fetch with records on disk takes: if the newest file is the only one and all of it lies within the
      limits, the longest prefix of disk and memory together; otherwise the longest prefix of the file that is
      read, with more to come. */
  ghost predicate Takes(l: EventList, f: FileQueue.Files<Bytes>, mq: seq<Bytes>, maxCount: nat, maxSize: nat)
    requires f.Ready()
  {
    var first, z := f.First(), Min(maxSize, MEBIBYTE);
    if !f.reading && |first| <= maxCount && |Flat(first)| <= z then IsFetchOf(l, first + mq, maxCount, maxSize)
    else LongestFit(first, maxCount, z, l.count) && l.data == Flat(first[..l.count]) && l.more
  }

  /** A fetch of the only file took all of it exactly if all of it lies within the limits. */
  lemma WholeIffFits(w: EventList, f: FileQueue.Files<Bytes>, maxCount: nat, z: nat)
    requires f.Ready() && FrontOfFirst(w, f) && LongestFit(f.First(), maxCount, z, w.count) && AllRecords(f.First())
    ensures !w.more <==> !f.reading && |f.First()| <= maxCount && |Flat(f.First())| <= z
    ensures !w.more ==> w.count == |f.First()| && w.data == Flat(f.First())
  {
    var first := f.First();
    assert first[..|first|] == first;
    if |first| <= maxCount && |Flat(first)| <= z { LongestFitIsMaximal(first, maxCount, z, w.count, |first|); }
    hide Flat;
  }

  lemma FlatOfFront(a: seq<Bytes>, b: seq<Bytes>, k: nat)
    requires k <= |b|
    ensures (a + b)[..|a| + k] == a + b[..k] && |Flat((a + b)[..|a| + k])| == |Flat(a)| + |Flat(b[..k])|
  {
    assert (a + b)[..|a| + k] == a + b[..k];
    FlatConcat(a, b[..k]);
  }

  lemma TakesMerged(l: BufferedList, f: FileQueue.Files<Bytes>, mq: seq<Bytes>, maxCount: nat, maxSize: nat)
    requires l.Merged? && f.Ready() && FrontOfFirst(l.list, f) && AllRecords(f.First())
    requires LongestFit(f.First(), maxCount, Min(maxSize, MEBIBYTE), l.list.count) && !l.list.more
    requires l.list.count <= maxCount && |l.list.data| <= maxSize
    requires IsFetchOf(l.fromMem, mq, maxCount - l.list.count, maxSize - |l.list.data|)
    ensures Takes(l.Flattened(), f, mq, maxCount, maxSize)
  {
    hide Flat, FrontOfFirst;
    var first, k := f.First(), l.fromMem.count;
    WholeIffFits(l.list, f, maxCount, Min(maxSize, MEBIBYTE));
    FlatOfFront(first, mq, k);
    FlatConcat(first, mq[..k]);
    if k < |mq| { FlatOfFront(first, mq, k + 1); }
  }

  lemma TakesWrapped(l: BufferedList, f: FileQueue.Files<Bytes>, mq: seq<Bytes>, maxCount: nat, maxSize: nat)
    requires l.Wrapped? && f.Ready() && FrontOfFirst(l.list, f) && AllRecords(f.First()) && AllRecords(mq)
    requires LongestFit(f.First(), maxCount, Min(maxSize, MEBIBYTE), l.list.count)
    requires l.hasMemoryEvents <==> mq != []
    requires !l.list.more && mq != [] ==> l.list.count == maxCount || |l.list.data| == maxSize
    ensures Takes(l.Flattened(), f, mq, maxCount, maxSize)
  {
    var first := f.First();
    WholeIffFits(l.list, f, maxCount, Min(maxSize, MEBIBYTE));
    if !l.list.more {
      FlatOfFront(first, mq, 0);
      if mq != [] {
        FlatOfFront(first, mq, 1);
        FlatOfOne(mq);
      }
    }
    assert (first + mq)[..|first|] == first;
    hide Flat;
  }

  lemma FlatOfOne(rs: seq<Bytes>)
    requires AllRecords(rs) && rs != []
    ensures |Flat(rs[..1])| > 0 && Flat(rs[..0]) == []
  {
    hide Flat;
    FlatNothing();
    FlatAppend([], rs[0]);
    assert rs[..1] == [] + [rs[0]] && rs[..0] == [];
    assert IsRecord(rs[0]);
  }

  lemma MergedParts(l: BufferedList, wq: seq<Bytes>, mq: seq<Bytes>, maxCount: nat, maxSize: nat)
    requires l.Merged? && IsHead(l.list, wq, maxCount, Min(maxSize, MEBIBYTE)) && !l.list.more
    requires l.list.count <= maxCount && |l.list.data| <= maxSize
    requires IsFetchOf(l.fromMem, mq, maxCount - l.list.count, maxSize - |l.list.data|)
    ensures l.list.count == |wq| && l.list.data == Flat(wq)
    ensures l.fromMem.count <= |mq| && l.fromMem.data == Flat(mq[..l.fromMem.count])
    ensures l.list.count + l.fromMem.count <= maxCount && |l.list.data| + |l.fromMem.data| <= maxSize
    ensures l.fromMem.count < |mq| ==> l.fromMem.more
  {
    assert wq[..|wq|] == wq;
    hide Flat;
  }

  lemma MergedPrefix(l: BufferedList, wq: seq<Bytes>, mq: seq<Bytes>, maxCount: nat, maxSize: nat)
    requires wq != [] && l.Merged? && l.list.count == |wq| && l.list.data == Flat(wq)
    requires l.fromMem.count <= |mq| && l.fromMem.data == Flat(mq[..l.fromMem.count])
    requires l.list.count + l.fromMem.count <= maxCount && |l.list.data| + |l.fromMem.data| <= maxSize
    requires l.fromMem.count < |mq| ==> l.fromMem.more
    ensures IsPrefix(l.Flattened(), wq + mq, maxCount, maxSize)
  {
    hide Flat;
    var k := l.fromMem.count;
    assert l.list.data + l.fromMem.data == Flat((wq + mq)[..|wq| + k]) by {
      FlatConcat(wq, mq[..k]);
      assert (wq + mq)[..|wq| + k] == wq + mq[..k];
    }
  }

  lemma MemoryPrefix(l: BufferedList, wq: seq<Bytes>, mq: seq<Bytes>, maxCount: nat, maxSize: nat)
    requires l.Memory? && l.mem.Some? && IsFetchOf(l.mem.value, mq, maxCount, maxSize)
    ensures l.mem.value.count <= |mq| && l.mem.value.data == Flat(mq[..l.mem.value.count])
    ensures IsPrefix(l.Flattened(), mq, maxCount, maxSize)
    ensures wq == [] ==> IsPrefix(l.Flattened(), wq + mq, maxCount, maxSize)
  {
    if wq == [] { assert wq + mq == mq; }
  }

  // ---- fetch, add, acknowledge ----

  /** What is on disk, what is in memory, and whether the fetch was disturbed. */
  datatype Layers = Layers(disk: seq<Bytes>, items: seq<Bytes>, disturbed: bool) {
    ghost predicate Ok(limit: nat) { NewlineFree(items) && |items| <= limit }

    ghost function Queue(): seq<Bytes>
      requires NewlineFree(items)
    {
      disk + Serialized(items)
    }
  }

  /** An add that finds the buffer full flushes it first; a buffer of no size accepts nothing. */
  ghost function Put(s: Layers, event: Bytes, limit: nat, maxSize: nat): (s': Layers)
    requires s.Ok(limit) && NEWLINE !in event
    ensures s'.Ok(limit)
  {
    if |s.items| < limit then s.(items := s.items + [event])
    else Layers(s.disk + Kept(s.items, maxSize), if limit > 0 then [event] else [], true)
  }

  ghost function PutAll(s: Layers, events: seq<Bytes>, limit: nat, maxSize: nat): (s': Layers)
    requires s.Ok(limit) && NewlineFree(events)
    ensures s'.Ok(limit)
    decreases |events|
  {
    if events == [] then s else PutAll(Put(s, events[0], limit, maxSize), events[1..], limit, maxSize)
  }

  /** The records of the events that a buffer of this size accepts. */
  ghost function Accepted(events: seq<Bytes>, limit: nat): seq<Bytes>
    requires NewlineFree(events)
  {
    if limit > 0 then Serialized(events) else []
  }

  lemma PutQueue(s: Layers, event: Bytes, limit: nat, maxSize: nat)
    requires s.Ok(limit) && NEWLINE !in event && (|s.items| < limit || AllFit(s.items, maxSize))
    ensures Put(s, event, limit, maxSize).Queue() == s.Queue() + Accepted([event], limit)
  {
    hide Kept, AllFit;
    assert Serialized([event]) == [Record(event)] && Serialized([]) == [];
    if |s.items| < limit {
      SerializedAppend(s.items, event);
    } else {
      KeptIffFit(s.items, maxSize);
    }
  }

  /** While the events fit the buffer, nothing is flushed. */
  lemma {:induction false} PutUndisturbed(s: Layers, events: seq<Bytes>, limit: nat, maxSize: nat)
    requires s.Ok(limit) && NewlineFree(events)
    ensures var s' := PutAll(s, events, limit, maxSize);
            (s'.disturbed <==> s.disturbed || |s.items| + |events| > limit)
            && (|s.items| + |events| <= limit ==> s'.disk == s.disk && s'.Queue() == s.Queue() + Serialized(events))
    decreases |events|
  {
    hide Kept;
    if events == [] {
    } else {
      var s1 := Put(s, events[0], limit, maxSize);
      PutUndisturbed(s1, events[1..], limit, maxSize);
      if |s.items| + |events| <= limit {
        PutQueue(s, events[0], limit, maxSize);
        SerializedCons(events);
      }
    }
  }

  lemma PutFits(s: Layers, event: Bytes, limit: nat, maxSize: nat)
    requires s.Ok(limit) && NEWLINE !in event && AllFit(s.items, maxSize) && AllFit([event], maxSize)
    ensures var s' := Put(s, event, limit, maxSize);
            AllFit(s'.items, maxSize) && |s'.disk| + |s'.items| >= |s.disk| + |s.items| && |s'.disk| >= |s.disk|
            && (|s.items| >= limit ==> |s'.disk| >= |s.disk| + |s.items|)
  {
    KeptIffFit(s.items, maxSize);
    assert AllFit(s.items + [event], maxSize);
    hide Kept;
  }

  /** Once the buffer has overflowed, what it held at first is on disk. */
  lemma {:induction false} PutFlushes(s: Layers, events: seq<Bytes>, limit: nat, maxSize: nat)
    requires s.Ok(limit) && NewlineFree(events) && AllFit(s.items, maxSize) && AllFit(events, maxSize)
    ensures var s' := PutAll(s, events, limit, maxSize);
            |s'.disk| >= |s.disk| && (|s.items| + |events| > limit ==> |s'.disk| >= |s.disk| + |s.items|)
    decreases |events|
  {
    if events == [] {
    } else {
      assert AllFit([events[0]], maxSize) && AllFit(events[1..], maxSize);
      hide AllFit, Kept;
      PutFits(s, events[0], limit, maxSize);
      PutFlushes(Put(s, events[0], limit, maxSize), events[1..], limit, maxSize);
    }
  }

  /** If all events fit a file, none is dropped. */
  lemma {:induction false} PutKeeps(s: Layers, events: seq<Bytes>, limit: nat, maxSize: nat)
    requires s.Ok(limit) && NewlineFree(events) && AllFit(s.items, maxSize) && AllFit(events, maxSize)
    ensures PutAll(s, events, limit, maxSize).Queue() == s.Queue() + Accepted(events, limit)
    decreases |events|
  {
    if events == [] {
      assert Serialized(events) == [];
    } else {
      hide AllFit, Kept, Put, Layers.Queue, Serialized;
      AllFitCons(events, maxSize);
      PutFits(s, events[0], limit, maxSize);
      PutQueue(s, events[0], limit, maxSize);
      PutKeeps(Put(s, events[0], limit, maxSize), events[1..], limit, maxSize);
      SerializedCons(events);
    }
  }

  lemma AllFitCons(events: seq<Bytes>, maxSize: nat)
    requires AllFit(events, maxSize) && events != []
    ensures AllFit([events[0]], maxSize) && AllFit(events[1..], maxSize)
  {
  }

  lemma SerializedCons(events: seq<Bytes>)
    requires NewlineFree(events) && events != []
    ensures Serialized(events) == Serialized([events[0]]) + Serialized(events[1..])
  {
  }

  lemma {:induction false} PutNext(s: Layers, events: seq<Bytes>, event: Bytes, limit: nat, maxSize: nat)
    requires s.Ok(limit) && NewlineFree(events) && NEWLINE !in event
    ensures PutAll(s, events + [event], limit, maxSize) == Put(PutAll(s, events, limit, maxSize), event, limit, maxSize)
    decreases |events|
  {
    hide Kept;
    if events == [] {
      assert (events + [event])[1..] == [];
    } else {
      assert (events + [event])[1..] == events[1..] + [event];
      PutNext(Put(s, events[0], limit, maxSize), events[1..], event, limit, maxSize);
    }
  }

  method AddAll(b: BufferedEventBatch, events: seq<Bytes>)
    requires b.Valid() && NewlineFree(events)
    modifies b`disturbed, b.mem, b.wrapped, b.wrapped.disk, b.wrapped.newest
    ensures b.Valid() && b.wrapped.fileMaxSize == old(b.wrapped.fileMaxSize)
    ensures b.wrapped.newest == old(b.wrapped.newest) || fresh(b.wrapped.newest)
    ensures b.wrapped.oldest == old(b.wrapped.oldest) || b.wrapped.oldest == old(b.wrapped.newest)
            || fresh(b.wrapped.oldest)
    ensures b.Split() == PutAll(old(b.Split()), events, b.mem.limit, b.wrapped.fileMaxSize)
  {
    hide MultiFileEventBatch.Valid, MultiFileEventBatch.Queue, BufferedEventBatch.Queue,
      BufferedEventBatch.PendingOk, Kept, AllFit, Put;
    for i := 0 to |events|
      invariant b.Valid() && b.wrapped.fileMaxSize == old(b.wrapped.fileMaxSize)
      invariant b.wrapped.newest == old(b.wrapped.newest) || fresh(b.wrapped.newest)
      invariant b.wrapped.oldest == old(b.wrapped.oldest) || b.wrapped.oldest == old(b.wrapped.newest)
                || fresh(b.wrapped.oldest)
      invariant b.Split() == PutAll(old(b.Split()), events[..i], b.mem.limit, b.wrapped.fileMaxSize)
    {
      PutNext(old(b.Split()), events[..i], events[i], b.mem.limit, b.wrapped.fileMaxSize);
      assert events[..i + 1] == events[..i] + [events[i]];
      var _ := b.AddEvent(events[i]);
    }
    assert events[..|events|] == events;
  }

  ghost predicate Distinct(q: seq<Bytes>) {
    forall i, j :: 0 <= i < j < |q| ==> q[i] != q[j]
  }

  /** After a flush the fetched memory records are on disk, in front of everything still in memory. An
      acknowledgement that takes the first `a` records from disk and the first `c` from memory then takes the
      first `a + c` of the queue only if `c` is zero. */
  lemma FlushedAckIsWrong(w: seq<Bytes>, m: seq<Bytes>, a: nat, c: nat)
    requires Distinct(w + m) && a + c <= |w| && c <= |m|
    ensures (w + m)[..a + c] + (w[a..] + m[c..]) == w + m <==> c == 0
  {
    var q := (w + m)[..a + c] + (w[a..] + m[c..]);
    if c > 0 {
      assert q[a + c] == w[a] == (w + m)[a];
      assert (w + m)[a] != (w + m)[a + c];
    } else {
      assert m[0..] == m;
      assert (w + m)[..a] == w[..a];
    }
  }

  ghost predicate FirstFits(q: seq<Bytes>, maxCount: nat, maxSize: nat) {
    q != [] && maxCount > 0 && 0 < |q[0]| <= Min(maxSize, MEBIBYTE)
  }

  /** The records of a list that is a prefix of a queue. */
  lemma PrefixLinesOf(l: EventList, q: seq<Bytes>, maxCount: nat, maxSize: nat)
    requires IsPrefix(l, q, maxCount, maxSize) && AllRecords(q)
    ensures l.count <= |q| && l.count <= maxCount && Lines(l.data) == q[..l.count]
    ensures FirstFits(q, maxCount, maxSize) ==> l.count > 0
  {
    LinesFlat(q[..l.count]);
  }

  /** One round in which the buffer overflowed between the fetch from `s` and the acknowledgement, which took the
      first `a` records from disk and the first `c` from memory. */
  lemma OverflowedRound(s: Layers, events: seq<Bytes>, limit: nat, maxSize: nat, a: nat, c: nat,
                        disk': seq<Bytes>, mem': seq<Bytes>, inBounds: bool)
    requires s.Ok(limit) && NewlineFree(events) && AllFit(s.items, maxSize) && AllFit(events, maxSize)
    requires |s.items| + |events| > limit && c <= |s.items| && a <= |s.disk| && (c > 0 ==> a == |s.disk|)
    requires Distinct(s.Queue() + Accepted(events, limit))
    requires var s' := PutAll(s, events, limit, maxSize);
             (inBounds <==> c <= |s'.items|) && (inBounds ==> mem' == Serialized(s'.items)[c..])
             && a <= |s'.disk| && disk' == s'.disk[a..]
    ensures inBounds && s.Queue()[..a + c] + (disk' + mem') == s.Queue() + Accepted(events, limit) <==> c == 0
  {
    hide Kept, AllFit, Distinct;
    PutKeeps(s, events, limit, maxSize);
    PutFlushes(s, events, limit, maxSize);
    var s' := PutAll(s, events, limit, maxSize);
    assert s'.Queue()[..a + c] == s.Queue()[..a + c];
    if inBounds { FlushedAckIsWrong(s'.disk, Serialized(s'.items), a, c); }
  }

  /** The records that an uploaded list carries. */
  ghost function Uploaded(l: BufferedList): seq<Bytes> {
    if l.NonNull() then Lines(l.Flattened().data) else []
  }

  /** `l` was fetched from `s`: the first records on disk, and if that is all of them the first in memory. */
  ghost predicate FetchedFrom(l: BufferedList, s: Layers)
    requires NewlineFree(s.items)
  {
    l.MemoryCount() <= |s.items| && l.DiskCount() <= |s.disk| && (l.MemoryCount() > 0 ==> l.DiskCount() == |s.disk|)
    && Uploaded(l) == s.Queue()[..l.DiskCount() + l.MemoryCount()] && (Uploaded(l) != [] ==> l.NonNull())
  }

  method Fetch(b: BufferedEventBatch, maxCount: nat, maxSize: nat) returns (l: BufferedList)
    requires b.Valid() && !b.wrapped.Stuck()
    modifies b, b.wrapped, b.wrapped.disk, b.wrapped.oldest, b.wrapped.newest
    ensures b.Valid() && b.pending == Some(l) && !b.disturbed && b.wrapped.fileMaxSize == old(b.wrapped.fileMaxSize)
    ensures b.Split() == old(b.Split()).(disturbed := false) && FetchedFrom(l, b.Split())
    ensures b.wrapped.newest == old(b.wrapped.newest) && !b.wrapped.Stuck()
    ensures b.wrapped.oldest == old(b.wrapped.oldest) || fresh(b.wrapped.oldest)
    ensures |Uploaded(l)| <= maxCount
    ensures FirstFits(b.Queue(), maxCount, maxSize) ==> Uploaded(l) != []
  {
    hide MultiFileEventBatch.Valid, MultiFileEventBatch.Queue, MultiFileEventBatch.Layout, Lines, Flat, IsPrefix,
      IsFetchOf, Takes, FileQueue.Examined, Serialized;
    l := b.GetEventsForUpload(maxCount, maxSize);
    b.QueueRecords();
    if !l.Memory? { b.wrapped.PendingIsFront(l.list); }
    if l.NonNull() { PrefixLinesOf(l.Flattened(), b.Queue(), maxCount, maxSize); }
  }

  method Acknowledge(b: BufferedEventBatch, l: BufferedList) returns (inBounds: bool)
    requires b.Valid() && b.pending == Some(l) && l.NonNull()
    modifies b, b.mem, b.wrapped, b.wrapped.disk, b.wrapped.oldest, b.wrapped.newest
    ensures b.Valid() && b.pending == None && b.disturbed == old(b.disturbed)
            && b.wrapped.fileMaxSize == old(b.wrapped.fileMaxSize)
    ensures b.wrapped.newest == old(b.wrapped.newest)
            && (b.wrapped.oldest == null || b.wrapped.oldest == old(b.wrapped.oldest))
    ensures b.wrapped.Stuck() ==> old(b.wrapped.Stuck())
    ensures inBounds <==> l.MemoryCount() <= |old(b.mem.items)|
    ensures l.DiskCount() <= |old(b.wrapped.Queue())| && b.wrapped.Queue() == old(b.wrapped.Queue())[l.DiskCount()..]
    ensures inBounds ==> b.mem.items == old(b.mem.items)[l.MemoryCount()..]
    ensures inBounds ==> b.mem.Queue() == old(b.mem.Queue())[l.MemoryCount()..]
    ensures !old(b.disturbed) ==> inBounds && old(b.Queue()) == Uploaded(l) + b.Queue()
  {
    hide MultiFileEventBatch.Valid, MultiFileEventBatch.Queue, BufferedEventBatch.InFront, Lines, Serialized;
    if !l.Memory? { b.wrapped.PendingIsFront(l.list); }
    inBounds := b.OnEventsUploaded(l);
  }

  /** A fetch, any adds and an acknowledgement. While the adds fit the buffer the acknowledgement removes exactly
      the fetched records. If distinct events all fit a file, it is defined and removes exactly those if and only
      if the adds fit the buffer or no fetched record came from memory. */
  method FetchAddAck(b: BufferedEventBatch, maxCount: nat, maxSize: nat, events: seq<Bytes>)
    returns (l: BufferedList, inBounds: bool)
    requires b.Valid() && !b.wrapped.Stuck() && NewlineFree(events)
    modifies b, b.mem, b.wrapped, b.wrapped.disk, b.wrapped.oldest, b.wrapped.newest
    ensures b.Valid()
    ensures |old(b.mem.items)| + |events| <= b.mem.limit ==>
              inBounds && Uploaded(l) + b.Queue() == old(b.Queue()) + Serialized(events)
    ensures AllFit(old(b.mem.items), old(b.wrapped.fileMaxSize)) && AllFit(events, old(b.wrapped.fileMaxSize))
            && Distinct(old(b.Queue()) + Accepted(events, b.mem.limit)) ==>
              (inBounds && Uploaded(l) + b.Queue() == old(b.Queue()) + Accepted(events, b.mem.limit)
               <==> l.MemoryCount() == 0 || |old(b.mem.items)| + |events| <= b.mem.limit)
  {
    hide BufferedEventBatch.PendingOk, MultiFileEventBatch.Valid, MultiFileEventBatch.Queue, Uploaded, AllFit, Distinct,
      PutAll, Serialized, FetchedFrom, Accepted;
    l := Fetch(b, maxCount, maxSize);
    ghost var s := b.Split();
    AddAll(b, events);
    ghost var s' := b.Split();
    inBounds := true;
    if l.NonNull() {
      inBounds := Acknowledge(b, l);
    } else {
      NullList(l, s, s');
    }
    Round(s, events, b.mem.limit, b.wrapped.fileMaxSize, l, b.wrapped.Queue(), b.mem.Queue(), inBounds);
  }

  /** A list that wraps null took nothing. */
  lemma NullList(l: BufferedList, s: Layers, s': Layers)
    requires NewlineFree(s.items) && NewlineFree(s'.items) && FetchedFrom(l, s) && !l.NonNull()
    ensures Uploaded(l) == [] && l.DiskCount() == 0 && l.MemoryCount() == 0
    ensures s'.disk[0..] == s'.disk && Serialized(s'.items)[0..] == Serialized(s'.items)
            && s'.Queue() == [] + s'.Queue()
  {
  }

  lemma Round(s: Layers, events: seq<Bytes>, limit: nat, maxSize: nat, l: BufferedList,
              disk': seq<Bytes>, mem': seq<Bytes>, inBounds: bool)
    requires s.Ok(limit) && NewlineFree(events) && FetchedFrom(l, s) && !s.disturbed
    requires var s' := PutAll(s, events, limit, maxSize);
             (inBounds <==> l.MemoryCount() <= |s'.items|)
             && (inBounds ==> mem' == Serialized(s'.items)[l.MemoryCount()..])
             && l.DiskCount() <= |s'.disk| && disk' == s'.disk[l.DiskCount()..]
             && (!s'.disturbed ==> inBounds && s'.Queue() == Uploaded(l) + (disk' + mem'))
    ensures |s.items| + |events| <= limit ==> inBounds && Uploaded(l) + (disk' + mem') == s.Queue() + Serialized(events)
    ensures AllFit(s.items, maxSize) && AllFit(events, maxSize) && Distinct(s.Queue() + Accepted(events, limit)) ==>
              (inBounds && Uploaded(l) + (disk' + mem') == s.Queue() + Accepted(events, limit)
               <==> l.MemoryCount() == 0 || |s.items| + |events| <= limit)
  {
    hide Uploaded, AllFit, Distinct, PutAll, Serialized;
    PutUndisturbed(s, events, limit, maxSize);
    if |s.items| + |events| > limit && AllFit(s.items, maxSize) && AllFit(events, maxSize)
       && Distinct(s.Queue() + Accepted(events, limit)) {
      OverflowedRound(s, events, limit, maxSize, l.DiskCount(), l.MemoryCount(), disk', mem', inBounds);
    } else if |s.items| + |events| <= limit {
      AcceptedFits(events, limit);
    }
  }

  /** A buffer with room for an event accepts it. */
  lemma AcceptedFits(events: seq<Bytes>, limit: nat)
    requires NewlineFree(events) && |events| <= limit
    ensures Accepted(events, limit) == Serialized(events)
  {
  }

  /** A failing round: with a buffer of one, the event that arrives between fetch and acknowledgement is erased,
      and the uploaded one stays. */
  method FlushedAckErasesNewer(disk: Disk, x: Bytes, y: Bytes)
    returns (b: BufferedEventBatch, l: BufferedList, inBounds: bool)
    requires !disk.faulty && disk.files == map[] && NEWLINE !in x && NEWLINE !in y && |x| + 2 <= MEBIBYTE
    modifies disk
    ensures b.Valid() && inBounds && Uploaded(l) == [Record(x)] && b.Queue() == [Record(x)]
  {
    hide MultiFileEventBatch.Valid, MultiFileEventBatch.Queue, BufferedEventBatch.PendingOk, Uploaded, IsPrefix,
      MultiFileEventBatch.Stuck, Serialized, Kept, AllFit;
    b := BufferOfOne(disk, x);
    l := FetchOne(b, x);
    KeptOne(x);
    var _ := b.AddEvent(y);
    inBounds := Acknowledge(b, l);
    SerializedNothing(b.mem.items);
  }

  lemma KeptOne(x: Bytes)
    requires NEWLINE !in x
    ensures Kept([x], 0) == [Record(x)]
  {
    KeptIffFit([x], 0);
  }

  lemma SerializedNothing(items: seq<Bytes>)
    ensures items == [] ==> Serialized(items) == []
  {
  }

  /** Another: after a flush there is nothing left to erase. */
  method FlushedAckOutOfBounds(disk: Disk, x: Bytes) returns (l: BufferedList, inBounds: bool)
    requires !disk.faulty && disk.files == map[] && NEWLINE !in x && |x| + 2 <= MEBIBYTE
    modifies disk
    ensures Uploaded(l) == [Record(x)] && !inBounds
  {
    hide MultiFileEventBatch.Valid, MultiFileEventBatch.Queue, BufferedEventBatch.PendingOk, Uploaded, IsPrefix;
    var b := BufferOfOne(disk, x);
    l := FetchOne(b, x);
    b.FlushInternal();
    inBounds := Acknowledge(b, l);
  }

  method BufferOfOne(disk: Disk, x: Bytes) returns (b: BufferedEventBatch)
    requires !disk.faulty && disk.files == map[] && NEWLINE !in x
    modifies disk
    ensures fresh(b) && fresh(b.mem) && fresh(b.wrapped) && b.wrapped.disk == disk && fresh(b.wrapped.newest)
    ensures b.Valid() && b.Split() == Layers([], [x], false) && b.mem.limit == 1 && b.wrapped.fileMaxSize == 0
    ensures b.wrapped.oldest == null
  {
    hide MultiFileEventBatch.Valid, MultiFileEventBatch.Queue, BufferedEventBatch.PendingOk;
    var files := new MultiFileEventBatch(disk, 0, 0);
    NothingStored(files.Ids());
    b := new BufferedEventBatch(files, 1);
    var _ := b.AddEvent(x);
  }

  lemma {:induction false} NothingStored(ids: seq<nat>)
    ensures Stored(map[], ids) == []
  {
    if ids == [] {
    } else {
      NothingStored(ids[1..]);
    }
  }

  method FetchOne(b: BufferedEventBatch, x: Bytes) returns (l: BufferedList)
    requires b.Valid() && NEWLINE !in x && b.Split() == Layers([], [x], false) && b.wrapped.oldest == null
             && |x| + 2 <= MEBIBYTE
    modifies b, b.wrapped, b.wrapped.disk, b.wrapped.newest
    ensures b.Valid() && b.pending == Some(l) && b.Split() == Layers([], [x], false)
    ensures b.wrapped.fileMaxSize == old(b.wrapped.fileMaxSize) && b.wrapped.newest == old(b.wrapped.newest)
    ensures b.wrapped.oldest == null || fresh(b.wrapped.oldest)
    ensures l.NonNull() && l.MemoryCount() == 1 && l.DiskCount() == 0 && Uploaded(l) == [Record(x)]
  {
    hide MultiFileEventBatch.Valid, MultiFileEventBatch.Queue, BufferedEventBatch.PendingOk, Uploaded;
    assert Serialized([x]) == [Record(x)];
    l := Fetch(b, 1, |x| + 2);
  }
}

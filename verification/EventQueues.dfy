/** EventManager::add over the three queues: realtime events in memory, critical ones on disk, the others buffered. */
module EventQueues {
  import opened Common
  import opened Records
  import opened FileBatch
  import FileQueue
  import opened MemoryBatch
  import opened MultiFile
  import opened BufferedBatch

  /** Which worker is asked to run, and whether at once. */
  datatype Request = NoRun | RealtimeRun(immediate: bool) | MainRun(immediate: bool)

  /** The three queues share nothing. */
  ghost predicate Apart(realtime: MemoryEventBatch, critical: MultiFileEventBatch, normal: BufferedEventBatch)
    reads critical, normal
  {
    realtime != normal.mem && critical != normal.wrapped && critical.disk != normal.wrapped.disk
  }

  ghost predicate Valid(realtime: MemoryEventBatch, critical: MultiFileEventBatch, normal: BufferedEventBatch)
    reads realtime, critical, critical.disk, critical.oldest, critical.newest
    reads normal, normal.mem, normal.wrapped, normal.wrapped.disk, normal.wrapped.oldest, normal.wrapped.newest
  {
    Apart(realtime, critical, normal) && realtime.Valid() && critical.Valid() && normal.Valid()
  }

  lemma FilesApart(critical: MultiFileEventBatch, normal: BufferedEventBatch)
    requires critical.Valid() && normal.Valid() && critical.disk != normal.wrapped.disk
    ensures critical.newest != normal.wrapped.newest && critical.newest != normal.wrapped.oldest
    ensures critical.oldest != null ==>
              critical.oldest != normal.wrapped.newest && critical.oldest != normal.wrapped.oldest
  {
  }

  /** The event goes to the end of one queue and the other two stay as they are: a realtime event to memory while that
      has room, any other critical event to disk, the rest to the buffer. The run that is asked for is immediate exactly
      if a realtime event did not find room in memory. Only an event that no file takes, or an unbuffered one, is
      dropped. */
  method Add(realtime: MemoryEventBatch, critical: MultiFileEventBatch, normal: BufferedEventBatch, event: Bytes,
             isRealtime: bool, isCritical: bool)
    returns (r: Request)
    requires Valid(realtime, critical, normal) && NEWLINE !in event
    modifies realtime, critical, critical.disk, critical.newest
    modifies normal, normal.mem, normal.wrapped, normal.wrapped.disk, normal.wrapped.newest
    ensures Valid(realtime, critical, normal)
    ensures r.RealtimeRun? <==> isRealtime && |old(realtime.items)| < realtime.limit
    ensures r.NoRun? <==> !r.RealtimeRun? && if isCritical then !critical.Fits(|event| + 2) else normal.mem.limit == 0
    ensures !r.NoRun? ==> (r.immediate <==> r.MainRun? && isRealtime)
    ensures realtime.items == old(realtime.items) + if r.RealtimeRun? then [event] else []
    ensures critical.Queue() == old(critical.Queue()) + if r.MainRun? && isCritical then [Record(event)] else []
    ensures r.RealtimeRun? || isCritical ==> normal.Split() == old(normal.Split())
    ensures !r.RealtimeRun? && !isCritical ==>
              normal.Split() == Put(old(normal.Split()), event, normal.mem.limit, normal.wrapped.fileMaxSize)
    ensures !r.RealtimeRun? && !isCritical && AllFit(old(normal.mem.items), normal.wrapped.fileMaxSize) ==>
              normal.Queue() == old(normal.Queue()) + if r.NoRun? then [] else [Record(event)]
  {
    hide MultiFileEventBatch.Valid, MultiFileEventBatch.Queue, MultiFileEventBatch.Fits, BufferedEventBatch.Valid,
      BufferedEventBatch.Queue, BufferedEventBatch.Split, AllFit, Put;
    if isRealtime {
      var ok := realtime.AddEvent(event);
      if ok {
        return RealtimeRun(false);
      }
    }
    var added := AddStored(critical, normal, event, isCritical);
    return if added then MainRun(isRealtime) else NoRun;
  }

  /** The second half: disk or buffer. */
  method AddStored(critical: MultiFileEventBatch, normal: BufferedEventBatch, event: Bytes, isCritical: bool)
    returns (added: bool)
    requires critical.Valid() && normal.Valid() && critical != normal.wrapped && critical.disk != normal.wrapped.disk
    requires NEWLINE !in event
    modifies critical, critical.disk, critical.newest
    modifies normal, normal.mem, normal.wrapped, normal.wrapped.disk, normal.wrapped.newest
    ensures critical.Valid() && normal.Valid() && critical.fileMaxSize == old(critical.fileMaxSize)
    ensures added <==> if isCritical then critical.Fits(|event| + 2) else normal.mem.limit > 0
    ensures critical.Queue() == old(critical.Queue()) + if added && isCritical then [Record(event)] else []
    ensures isCritical ==> normal.Split() == old(normal.Split())
    ensures !isCritical ==>
              normal.Split() == Put(old(normal.Split()), event, normal.mem.limit, normal.wrapped.fileMaxSize)
    ensures !isCritical && AllFit(old(normal.mem.items), normal.wrapped.fileMaxSize) ==>
              normal.Queue() == old(normal.Queue()) + if added then [Record(event)] else []
  {
    hide MultiFileEventBatch.Valid, MultiFileEventBatch.Queue, MultiFileEventBatch.Layout, MultiFileEventBatch.Fits,
      BufferedEventBatch.Valid, BufferedEventBatch.Queue, AllFit, Put, RoomFor, FileQueue.Put;
    FilesApart(critical, normal);
    if isCritical {
      added := critical.AddEvent(Record(event));
    } else {
      added := normal.AddEvent(event);
    }
  }
}

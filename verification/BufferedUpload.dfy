/** sendEvents on the buffered queue of normal events, whose fetch never returns null but may return a list that
    wraps null. */
module BufferedUpload {
  import opened Common
  import opened Records
  import opened Posix
  import opened FileBatch
  import FileQueue
  import opened MultiFile
  import opened MemoryBatch
  import opened BufferedBatch
  import opened Uploader
  import CriticalQueue

  /** One upload of a prefix of `before` that leaves `after`: as much as a fetch from disk and memory takes is
      posted, and is gone exactly if the last answer was a 200. */
  ghost predicate UploadedPrefix(before: seq<Bytes>, disk: Option<FileQueue.Files<Bytes>>, mem: seq<Bytes>,
                                 after: seq<Bytes>, sent: seq<Post>, maxCount: nat, maxSize: nat) {
    exists l: EventList ::
      UploadOf(sent, l, l.count > 1, true) && IsPrefix(l, before, maxCount, maxSize)
      && (if disk.None? then IsFetchOf(l, mem, maxCount, maxSize)
          else disk.value.Ready() && Takes(l, disk.value, mem, maxCount, maxSize))
      && before == (if Delivered(sent) then Lines(l.data) else []) + after
  }

  /** The files that a fetch reads, if they hold anything. */
  ghost function DiskOf(b: BufferedEventBatch): Option<FileQueue.Files<Bytes>>
    reads b, b.wrapped, b.wrapped.oldest, b.wrapped.disk
  {
    if b.wrapped.Queue() == [] || !b.wrapped.Layout().Ok() then None
    else Some(FileQueue.Examined(b.wrapped.Layout()))
  }

  /** The fetch finds nothing and wraps null. */
  ghost predicate WrapsNull(b: BufferedEventBatch, maxCount: nat, maxSize: nat)
    reads b, b.mem, b.wrapped, b.wrapped.disk, b.wrapped.oldest, b.wrapped.newest
    requires b.Valid()
  {
    if b.wrapped.Stuck() then maxCount == 0 || maxSize == 0 || b.mem.items == []
    else b.Queue() == [] || maxCount == 0 || (b.wrapped.Queue() == [] && maxSize == 0)
  }

  /** Asks the list for its number of events, which dereferences null exactly if the fetch found nothing; the
      null test before it is on the wrapper. Otherwise posts the list and acknowledges it after a 200. */
  method SendEvents(server: Server, b: BufferedEventBatch, maxCount: nat, maxSize: nat)
    returns (s: Status, crashes: bool, ghost sent: seq<Post>)
    requires b.Valid()
    modifies server, b, b.mem, b.wrapped, b.wrapped.disk, b.wrapped.oldest, b.wrapped.newest
    ensures b.Valid() && server.posts == old(server.posts) + sent
    ensures crashes <==> old(WrapsNull(b, maxCount, maxSize))
    ensures crashes ==> sent == [] && b.Queue() == old(b.Queue())
    ensures !crashes ==> sent != [] && Means(sent[|sent| - 1].response, s)
    ensures !crashes && !old(b.wrapped.Stuck()) ==>
              UploadedPrefix(old(b.Queue()), old(DiskOf(b)), old(b.mem.Queue()), b.Queue(), sent, maxCount, maxSize)
    ensures !crashes && old(b.wrapped.Stuck()) ==>
              b.wrapped.Queue() == old(b.wrapped.Queue())
              && UploadedPrefix(old(b.mem.Queue()), None, old(b.mem.Queue()), b.mem.Queue(), sent, maxCount, maxSize)
  {
    hide MultiFileEventBatch.Valid, MultiFileEventBatch.Queue, MultiFileEventBatch.Layout, BufferedEventBatch.Queue,
      BufferedEventBatch.PendingOk, Lines, IsPrefix, IsFetchOf, Takes, Serialized, FileQueue.Examined, UploadOf,
      UploadedPrefix;
    MemoryEmpty(b);
    var l := b.GetEventsForUpload(maxCount, maxSize);
    sent := [];
    if !l.NonNull() {
      return ErrorGeneric, true, [];
    }
    crashes := false;
    var f := l.Flattened();
    if b.wrapped.Stuck() { TakenOff(b.mem.items, f, maxCount, maxSize); }
    assert [] + b.wrapped.Queue() == b.wrapped.Queue() && [] + b.mem.Queue() == b.mem.Queue();
    s, sent := SendList(server, f, f.count > 1, true);
    ghost var q, mq, files := b.Queue(), b.mem.Queue(), old(DiskOf(b));
    if s == Success {
      var _ := b.OnEventsUploaded(l);
    }
    if old(b.wrapped.Stuck()) {
      Posted(mq, None, mq, b.mem.Queue(), sent, f, maxCount, maxSize);
    } else {
      Posted(q, files, mq, b.Queue(), sent, f, maxCount, maxSize);
    }
  }

  lemma Posted(before: seq<Bytes>, disk: Option<FileQueue.Files<Bytes>>, mem: seq<Bytes>, after: seq<Bytes>,
               sent: seq<Post>, l: EventList, maxCount: nat, maxSize: nat)
    requires UploadOf(sent, l, l.count > 1, true) && IsPrefix(l, before, maxCount, maxSize)
    requires if disk.None? then IsFetchOf(l, mem, maxCount, maxSize)
             else disk.value.Ready() && Takes(l, disk.value, mem, maxCount, maxSize)
    requires before == (if Delivered(sent) then Lines(l.data) else []) + after
    ensures UploadedPrefix(before, disk, mem, after, sent, maxCount, maxSize)
  {
    hide IsPrefix, IsFetchOf, Takes, UploadOf, Lines;
  }

  /** Taking the list off the front of the buffer. */
  lemma TakenOff(items: seq<Bytes>, l: EventList, maxCount: nat, maxSize: nat)
    requires NewlineFree(items) && IsFetchOf(l, Serialized(items), maxCount, maxSize)
    ensures l.count <= |items| && Serialized(items) == Lines(l.data) + Serialized(items)[l.count..]
  {
    var q := Serialized(items);
    SerializedRecords(items);
    hide Serialized, Lines, Flat;
    LinesFlat(q[..l.count]);
  }

  /** An empty buffer holds no records. */
  lemma MemoryEmpty(b: BufferedEventBatch)
    requires b.Valid()
    ensures b.Queue() == [] <==> b.wrapped.Queue() == [] && b.mem.items == []
  {
    hide MultiFileEventBatch.Queue;
  }

  /** A crash: an empty file is left over and nothing is stored, so hasEvents is true and the fetch finds nothing. */
  method LeftoverCrashes(disk: Disk, server: Server, limit: nat, maxCount: nat, maxSize: nat)
    returns (had: bool, crashes: bool)
    requires !disk.faulty && disk.files == map[0 := [], 1 := []]
    modifies disk, server
    ensures had && crashes
  {
    hide MultiFileEventBatch.Valid, MultiFileEventBatch.Queue, BufferedEventBatch.PendingOk;
    var files := CriticalQueue.OpenTwoEmpty(disk);
    var b := new BufferedEventBatch(files, limit);
    had := b.HasEvents();
    ghost var sent;
    var s;
    s, crashes, sent := SendEvents(server, b, maxCount, maxSize);
  }
}

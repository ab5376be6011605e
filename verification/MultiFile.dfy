/** MultiFileEventBatch: a FIFO of records spread over files oldest + old ids + newest. */
module MultiFile {
  import opened Common
  import opened Records
  import opened Posix
  import opened FileBatch
  import opened FileQueue

  ghost predicate Ascending(ids: seq<nat>) {
    |ids| > 1 ==> ids[0] < ids[1] && Ascending(ids[1..])
  }

  lemma {:induction false} AscendingAt(ids: seq<nat>, i: nat, j: nat)
    requires Ascending(ids) && i < j < |ids|
    ensures ids[i] < ids[j]
  {
    if i > 0 {
      AscendingAt(ids[1..], i - 1, j - 1);
    } else if j > 1 {
      AscendingAt(ids[1..], 0, j - 1);
    }
  }

  lemma {:induction false} AscendingAppend(ids: seq<nat>, id: nat)
    requires Ascending(ids) && (ids != [] ==> ids[|ids| - 1] < id)
    ensures Ascending(ids + [id])
  {
    if |ids| > 1 {
      AscendingAppend(ids[1..], id);
      assert (ids + [id])[1..] == ids[1..] + [id];
    }
  }

  /** The ids of an ascending list are exactly the ids of the files. */
  ghost predicate Listing(files: map<nat, Bytes>, ids: seq<nat>) {
    Ascending(ids) && files.Keys == IdSet(ids)
  }

  function IdSet(ids: seq<nat>): set<nat> {
    set id | id in ids
  }

  function RecordsOf(files: map<nat, Bytes>, id: nat): seq<Bytes> {
    if id in files then Lines(files[id]) else []
  }

  /** The records stored in the given files, in the given order. */
  function Stored(files: map<nat, Bytes>, ids: seq<nat>): seq<Bytes> {
    if ids == [] then [] else RecordsOf(files, ids[0]) + Stored(files, ids[1..])
  }

  lemma {:induction false} StoredAreRecords(files: map<nat, Bytes>, ids: seq<nat>)
    ensures AllRecords(Stored(files, ids))
  {
    if ids == [] {
    } else {
      StoredAreRecords(files, ids[1..]);
      if ids[0] in files { LinesAreRecords(files[ids[0]]); }
    }
  }

  lemma {:induction false} StoredConcat(files: map<nat, Bytes>, a: seq<nat>, b: seq<nat>)
    ensures Stored(files, a + b) == Stored(files, a) + Stored(files, b)
  {
    if a == [] {
      assert a + b == b;
    } else {
      assert (a + b)[1..] == a[1..] + b;
      StoredConcat(files, a[1..], b);
    }
  }

  lemma StoredOne(files: map<nat, Bytes>, id: nat)
    ensures Stored(files, [id]) == RecordsOf(files, id)
  {
    assert [id][1..] == [];
  }

  /** Only the records of the listed files matter. */
  lemma {:induction false} StoredFrame(files: map<nat, Bytes>, files': map<nat, Bytes>, ids: seq<nat>)
    requires forall i :: 0 <= i < |ids| ==> RecordsOf(files, ids[i]) == RecordsOf(files', ids[i])
    ensures Stored(files, ids) == Stored(files', ids)
  {
    if ids == [] {
    } else {
      StoredFrame(files, files', ids[1..]);
    }
  }

  lemma TailSet(ids: seq<nat>)
    requires ids != [] && Ascending(ids)
    ensures IdSet(ids[1..]) == IdSet(ids) - {ids[0]} && Ascending(ids[1..])
  {
    forall i | 1 <= i < |ids| ensures ids[0] < ids[i] { AscendingAt(ids, 0, i); }
  }

  lemma HeadIsLeast(ids: seq<nat>, id: nat)
    requires Ascending(ids) && id in ids
    ensures ids[0] <= id
  {
    var i :| 0 <= i < |ids| && ids[i] == id;
    if i > 0 { AscendingAt(ids, 0, i); }
  }

  /** A set of ids has one ascending listing. */
  lemma {:induction false} ListingUnique(a: seq<nat>, b: seq<nat>)
    requires Ascending(a) && Ascending(b) && IdSet(a) == IdSet(b)
    ensures a == b
  {
    assert a == [] || a[0] in IdSet(a);
    assert b == [] || b[0] in IdSet(b);
    if a != [] && b != [] {
      HeadIsLeast(a, b[0]);
      HeadIsLeast(b, a[0]);
      TailSet(a);
      TailSet(b);
      ListingUnique(a[1..], b[1..]);
    }
  }

  function InsertSorted(ids: seq<nat>, id: nat): (r: seq<nat>)
    ensures IdSet(r) == IdSet(ids) + {id}
  {
    if ids == [] || id <= ids[0] then [id] + ids
    else
      assert ids == [ids[0]] + ids[1..];
      var r := InsertSorted(ids[1..], id);
      assert IdSet([ids[0]] + r) == {ids[0]} + IdSet(r);
      assert IdSet([ids[0]] + ids[1..]) == {ids[0]} + IdSet(ids[1..]);
      [ids[0]] + r
  }

  lemma {:induction false} InsertKeepsAscending(ids: seq<nat>, id: nat)
    requires Ascending(ids) && id !in ids
    ensures Ascending(InsertSorted(ids, id))
  {
    if ids != [] && ids[0] < id {
      InsertKeepsAscending(ids[1..], id);
      assert ([ids[0]] + InsertSorted(ids[1..], id))[1..] == InsertSorted(ids[1..], id);
    } else {
      assert ([id] + ids)[1..] == ids;
    }
  }

  /** The ids found in the directory, in whatever order it lists them, sorted. */
  method GetBatches(disk: Disk) returns (ids: seq<nat>)
    ensures Listing(disk.files, ids)
  {
    ids := [];
    var rest := disk.files.Keys;
    while rest != {}
      invariant Ascending(ids) && rest <= disk.files.Keys
      invariant IdSet(ids) == disk.files.Keys - rest
      decreases rest
    {
      var id :| id in rest;
      assert id !in IdSet(ids);
      InsertKeepsAscending(ids, id);
      ids := InsertSorted(ids, id);
      rest := rest - {id};
    }
  }

  class MultiFileEventBatch {
    const disk: Disk
    var fileMaxEvents: nat
    var fileMaxSize: nat
    var oldest: FileEventBatch?
    var oldIds: seq<nat>
    var newest: FileEventBatch
    var newestId: nat

    /** The list that was fetched and not yet acknowledged; each batch has one consumer. */
    ghost var pending: Option<EventList>

    /** The ids of all files but the newest, oldest first. */
    ghost function Older(): seq<nat>
      reads this, oldest
    {
      if oldest != null then [oldest.path] + oldIds else oldIds
    }

    ghost function Ids(): seq<nat>
      reads this, oldest
    {
      Older() + [newestId]
    }

    /** The FIFO that the files represent. It depends on nothing but the disk and the id order. */
    ghost function Queue(): seq<Bytes>
      reads this, oldest, disk
    {
      Stored(disk.files, Ids())
    }

    /** The records file by file. */
    ghost function Layout(): Files<Bytes>
      reads this, oldest, disk
    {
      Files(PerFile(disk.files, Older()), RecordsOf(disk.files, newestId), oldest != null)
    }

    /** The records of the file that the next fetch reads. */
    ghost function NextFile(): seq<Bytes>
      reads this, oldest, disk
    {
      if Layout().Ok() then Examined(Layout()).First() else []
    }

    ghost predicate NewestValid()
      reads this, disk, newest
    {
      newest.disk == disk && newest.path == newestId && newest.Valid() && newest.fdOpen && !newest.finalized
      && newest.maxCount == fileMaxEvents && newest.maxSize == fileMaxSize
    }

    ghost predicate OldestValid()
      reads this, disk, oldest
    {
      oldest != null ==> oldest.disk == disk && oldest.Valid() && oldest.fdOpen && oldest.finalized
    }

    ghost predicate IdsValid()
      reads this, disk, oldest
    {
      Listing(disk.files, Ids())
    }

    ghost predicate Valid()
      reads this, disk, oldest, newest
    {
      !disk.faulty && oldest != newest && NewestValid() && OldestValid() && IdsValid()
      && (pending.Some? ==> Outstanding(pending.value))
    }

    /** `l` may be acknowledged: it is still the first part of the file that an acknowledgement hits. */
    ghost predicate Outstanding(l: EventList)
      reads this, disk, oldest, newest
    {
      if oldest != null then oldest.disk == disk && oldest.Outstanding(l)
      else oldIds == [] && newest.disk == disk && newest.Outstanding(l)
    }

    /** A rolled-over file without events hides everything behind it. */
    ghost predicate Stuck()
      reads this, oldest
    {
      oldest != null && !oldest.HasEvents()
    }

    /** No file but the newest is empty. */
    ghost predicate NoEmptyFiles()
      reads this, disk, oldest
    {
      AllNonEmpty(disk.files, Older())
    }

    predicate Fits(size: nat)
      reads this`fileMaxSize
    {
      fileMaxSize == 0 || size <= fileMaxSize
    }

    /** Opening a directory, after a restart or for the first time, yields what its files hold. */
    constructor (disk: Disk, fileMaxEvents: nat, fileMaxSize: nat)
      requires !disk.faulty
      modifies disk
      ensures this.disk == disk && this.fileMaxEvents == fileMaxEvents && this.fileMaxSize == fileMaxSize
      ensures Valid() && oldest == null && pending == None && fresh(newest)
      ensures Queue() == Stored(old(disk.files), Ids())
      ensures old(disk.files) == map[] || old(disk.files).Keys == IdSet(Ids())
      ensures Layout() == Files(PerFile(old(disk.files), oldIds), RecordsOf(old(disk.files), newestId), false)
    {
      hide NewlineCount, Lines, Complete, Stored, Listing, RecordsOf, PerFile, FileEventBatch.Valid;
      var ids := GetBatches(disk);
      var newestBatchId := 0;
      var oldBatches := ids;
      if ids != [] {
        newestBatchId := ids[|ids| - 1];
        oldBatches := ids[..|ids| - 1];
        assert oldBatches + [newestBatchId] == ids;
      } else {
        assert oldBatches + [newestBatchId] == [0];
      }
      var batch := OpenBatch(disk, newestBatchId, fileMaxEvents, fileMaxSize, true);
      this.disk, this.fileMaxEvents, this.fileMaxSize := disk, fileMaxEvents, fileMaxSize;
      oldest, oldIds, newest, newestId := null, oldBatches, batch, newestBatchId;
      pending := None;
      new;
      DirectoryOpened(old(disk.files), disk.files, ids, newestBatchId, Ids());
      PerFileOpened(old(disk.files), disk.files, newestBatchId, oldIds, newestId);
    }

    /** Opens the oldest remaining file with events and deletes the empty ones before it. */
    method CheckOldestBatch()
      requires Valid()
      modifies this`oldest, this`oldIds, disk
      ensures Valid() && Queue() == old(Queue())
      ensures old(oldest) != null ==> oldest == old(oldest) && disk.files == old(disk.files)
      ensures old(oldest) == null && oldest != null ==> fresh(oldest) && oldest.HasEvents()
      ensures oldest == null ==> oldIds == []
      ensures old(NoEmptyFiles()) ==> NoEmptyFiles()
      ensures old(Layout()).Ok() && Layout() == Examined(old(Layout()))
    {
      hide Valid, Queue, NoEmptyFiles;
      if oldest == null {
        while oldIds != []
          invariant Valid() && oldest == null && Queue() == old(Queue())
          invariant old(Layout()).Ok() && Layout().Ok() && Examined(Layout()) == Examined(old(Layout()))
          invariant old(NoEmptyFiles()) ==> NoEmptyFiles()
          decreases |oldIds|
        {
          var found := OpenFront();
          if found {
            break;
          }
        }
      }
    }

    /** Takes the first old id; its file becomes the oldest batch, or is deleted if it holds no events. */
    method OpenFront() returns (found: bool)
      requires Valid() && oldest == null && oldIds != []
      modifies this`oldest, this`oldIds, disk
      ensures Valid() && Queue() == old(Queue()) && oldIds == old(oldIds)[1..]
      ensures if found then oldest != null && fresh(oldest) && oldest.HasEvents() else oldest == null
      ensures old(NoEmptyFiles()) ==> NoEmptyFiles()
      ensures var f := old(Layout());
              f.earlier != [] && (found <==> |f.earlier[0]| > 0)
              && Layout() == if found then f.(reading := true) else f.(earlier := f.earlier[1..])
    {
      hide NewlineCount, Lines, Complete, Stored, Ascending, IdSet, AllNonEmpty, RecordsOf;
      ghost var before := disk.files;
      var fr := oldIds[0];
      assert oldIds == [fr] + oldIds[1..];
      oldIds := oldIds[1..];
      FrontDiffers(before, ([fr] + oldIds) + [newestId]);
      var b := OpenBatch(disk, fr, fileMaxEvents, fileMaxSize, false);
      FrontOpened(before, disk.files, fr, oldIds, newestId);
      PerFileFront(before, disk.files, fr, oldIds, newestId);
      found := b.HasEvents();
      if found {
        oldest := b;
      } else {
        disk.Remove(fr);
      }
    }

    /** Finalizes the newest file and starts the next one under a fresh id. */
    method Rollover()
      requires Valid()
      modifies this`oldest, this`oldIds, this`newest, this`newestId, disk, newest`finalized
      ensures Valid() && Queue() == old(Queue())
      ensures newestId == old(newestId) + 1 && newestId !in old(disk.files)
      ensures fresh(newest) && newest.fileSize == newest.eventCount == 0
      ensures oldest == old(oldest) || (old(oldest) == null && oldest == old(newest))
      ensures NoEmptyFiles() <==> old(NoEmptyFiles() && newest.HasEvents())
      ensures Stuck() <==> old(Stuck() || (oldest == null && oldIds == [] && !newest.HasEvents()))
      ensures old(Layout()).Ok() && Layout() == Rolled(old(Layout()))
    {
      hide NewlineCount, Lines, Complete, Stored, Ascending, IdSet, AllNonEmpty, PerFile, RecordsOf,
        FileEventBatch.Valid, FileEventBatch.Outstanding;
      ghost var older, before := Older(), disk.files;
      OpenIsSized(newest);
      if oldest != null { FrontDiffers(before, Ids()); }
      PushNewest();
      label Pushed:
      newestId := newestId + 1;
      newest := OpenBatch(disk, newestId, fileMaxEvents, fileMaxSize, true);
      RolledOver(before, disk.files, older, newestId - 1);
      PerFileRolled(before, disk.files, older, newestId - 1);
      if oldest != null { StaysValid@Pushed(oldest); }
    }

    /** The newest file becomes the last of the older ones. */
    method PushNewest()
      requires Valid()
      modifies this`oldest, this`oldIds, newest`finalized
      ensures Older() == old(Older()) + [newestId] && OldestValid() && newest.finalized
      ensures oldest == old(oldest) || (old(oldest) == null && old(oldIds) == [] && oldest == newest)
      ensures pending.Some? ==> oldest != null && oldest.disk == disk && oldest.Outstanding(pending.value)
      ensures old(oldest) == null ==> (oldest != null <==> old(oldIds) == [])
    {
      hide NewlineCount, Lines, Complete, Stored, Ascending, IdSet, AllNonEmpty;
      newest.SetFinalized();
      if oldest == null && oldIds == [] {
        oldest := newest;
      } else {
        oldIds := oldIds + [newestId];
      }
    }

    /** Appends to the newest file if its limits allow. */
    method AddToNewest(data: Bytes) returns (ok: bool)
      requires Valid() && IsRecord(data)
      modifies disk, newest
      ensures Valid() && (ok <==> old(newest.CanAdd(|data|)))
      ensures Queue() == old(Queue()) + if ok then [data] else []
      ensures (NoEmptyFiles() <==> old(NoEmptyFiles())) && (Stuck() <==> old(Stuck()))
      ensures Layout() == if ok then Appended(old(Layout()), data) else old(Layout())
    {
      hide NewlineCount, Lines, Complete, Stored, Ascending, IdSet, AllNonEmpty, PerFile, RecordsOf;
      ghost var before := disk.files;
      if oldest != null { FrontDiffers(before, Ids()); }
      var outcome := newest.AddEvent(data);
      ok := outcome.Added?;
      if ok {
        LastExtended(before, disk.files, Older(), newestId, data);
      }
    }

    /** Appends one record, exactly if it fits an empty file. A record that fits none leaves an empty
        file behind when the newest was empty, and gets the batch stuck when it was the only one. */
    method AddEvent(data: Bytes) returns (ok: bool)
      requires Valid() && IsRecord(data)
      modifies this`oldest, this`oldIds, this`newest, this`newestId, disk, newest
      ensures Valid() && (ok <==> Fits(|data|))
      ensures Queue() == old(Queue()) + if ok then [data] else []
      ensures NoEmptyFiles() <==> old(NoEmptyFiles()) && (ok || old(newest.HasEvents()))
      ensures Stuck() <==> old(Stuck()) || (!ok && old(oldest == null && oldIds == [] && !newest.HasEvents()))
      ensures newest == old(newest) || fresh(newest)
      ensures oldest == old(oldest) || oldest == old(newest)
      ensures old(Layout()).Ok()
      ensures var room := RoomFor(old(Layout()).newest, |data|, fileMaxEvents, fileMaxSize);
              Layout() == Put(old(Layout()), data, room, ok)
    {
      hide Valid, Queue, Layout, NoEmptyFiles, RoomFor, Rolled, Appended, Fits, FileEventBatch.CanAdd;
      NewestRoom(|data|);
      if !newest.CanAdd(|data|) {
        Rollover();
        NewestRoom(|data|);
      }
      ok := AddToNewest(data);
    }

    /** The newest file's cached figures are those of its records. */
    lemma NewestRoom(size: nat)
      requires Valid()
      ensures newest.CanAdd(size) <==> RoomFor(Layout().newest, size, fileMaxEvents, fileMaxSize)
      ensures Layout().Ok() && (newest.CanAdd(size) ==> Fits(size))
      ensures !newest.HasEvents() && Fits(size) ==> newest.CanAdd(size)
    {
      FlatOfComplete(newest.Contents());
    }

    /** Returns records from the front of the queue, all of them from one file. */
    method GetEventsForUpload(maxCount: nat, maxSize: nat) returns (r: Option<EventList>)
      requires Valid()
      modifies this`oldest, this`oldIds, this`pending, disk, oldest, newest
      ensures Valid() && pending == r && Queue() == old(Queue())
      ensures newest == old(newest) && (oldest == old(oldest) || fresh(oldest))
      ensures Stuck() == old(Stuck()) && (oldest == null ==> oldIds == [])
      ensures r.None? <==> maxCount == 0 || old(Stuck()) || Queue() == []
      ensures r.Some? ==> IsHead(r.value, Queue(), maxCount, Min(maxSize, MEBIBYTE))
      ensures old(NoEmptyFiles()) ==> NoEmptyFiles() && !old(Stuck())
      ensures old(Layout()).Ok() && Layout() == Examined(old(Layout()))
      ensures r.None? <==> maxCount == 0 || Layout().First() == []
      ensures r.Some? ==> LongestFit(Layout().First(), maxCount, Min(maxSize, MEBIBYTE), r.value.count)
      ensures r.Some? ==> FrontOfFirst(r.value, Layout())
    {
      hide NewestValid, OldestValid, IdsValid, Outstanding, Queue, Layout, NoEmptyFiles, LongestFit, FrontOfFirst;
      NotStuck();
      SetPending(None);
      CheckOldestBatch();
      if oldest != null {
        r := FetchOldest(maxCount, maxSize);
      } else {
        r := FetchNewest(maxCount, maxSize);
      }
      SetPending(r);
    }

    lemma NotStuck()
      requires Valid()
      ensures NoEmptyFiles() ==> !Stuck()
    {
      if Stuck() {
        assert Older()[0] == oldest.path;
        EmptyIffNoLines(oldest.Contents());
      }
    }

    ghost method SetPending(l: Option<EventList>)
      requires Valid() && (l.Some? ==> Outstanding(l.value))
      modifies this`pending
      ensures Valid() && pending == l && Queue() == old(Queue()) && Stuck() == old(Stuck()) && Layout() == old(Layout())
      ensures NoEmptyFiles() == old(NoEmptyFiles())
    {
      pending := l;
    }

    method FetchOldest(maxCount: nat, maxSize: nat) returns (r: Option<EventList>)
      requires Valid() && oldest != null && pending == None
      modifies oldest
      ensures Valid() && Queue() == old(Queue()) && Stuck() == old(Stuck()) && NoEmptyFiles() == old(NoEmptyFiles())
      ensures Queue() == [] ==> Stuck()
      ensures r.None? <==> maxCount == 0 || Stuck()
      ensures r.Some? ==> Outstanding(r.value) && IsHead(r.value, Queue(), maxCount, Min(maxSize, MEBIBYTE))
      ensures Layout() == old(Layout()) && (Layout().First() == [] <==> Stuck())
      ensures r.Some? ==> LongestFit(Layout().First(), maxCount, Min(maxSize, MEBIBYTE), r.value.count)
      ensures r.Some? ==> FrontOfFirst(r.value, Layout())
    {
      hide NewlineCount, Complete, Stored, Ascending, IdSet, LongestFit, IsFetchOf, FrontOfFirst, IsHead, Flat;
      r := oldest.GetEventsForUpload(maxCount, maxSize);
      FirstFileEvents(disk.files, Ids());
      if r.Some? {
        HeadOfFile(r.value, disk.files, Ids(), maxCount, Min(maxSize, MEBIBYTE));
        FetchIsFront(r.value, Layout(), maxCount, Min(maxSize, MEBIBYTE));
        r := Some(r.value.(more := true));
      }
    }

    method FetchNewest(maxCount: nat, maxSize: nat) returns (r: Option<EventList>)
      requires Valid() && oldest == null && oldIds == [] && pending == None
      modifies newest
      ensures Valid() && Queue() == old(Queue()) && NoEmptyFiles() == old(NoEmptyFiles())
      ensures r.None? <==> maxCount == 0 || Queue() == []
      ensures r.Some? ==> Outstanding(r.value) && IsHead(r.value, Queue(), maxCount, Min(maxSize, MEBIBYTE))
      ensures Layout() == old(Layout()) && (Layout().First() == [] <==> Queue() == [])
      ensures r.Some? ==> LongestFit(Layout().First(), maxCount, Min(maxSize, MEBIBYTE), r.value.count)
      ensures r.Some? ==> FrontOfFirst(r.value, Layout())
    {
      hide NewlineCount, Complete, Stored, Ascending, IdSet, LongestFit, IsFetchOf, FrontOfFirst, IsHead, Flat;
      r := newest.GetEventsForUpload(maxCount, maxSize);
      assert Ids() == [newestId];
      FirstFileEvents(disk.files, Ids());
      if r.Some? {
        HeadOfFile(r.value, disk.files, Ids(), maxCount, Min(maxSize, MEBIBYTE));
        FetchIsFront(r.value, Layout(), maxCount, Min(maxSize, MEBIBYTE));
      }
    }

    /** Removes exactly the records that were fetched, whatever was added or rolled over since. */
    method OnEventsUploaded(l: EventList)
      requires Valid() && pending == Some(l)
      modifies this`oldest, this`pending, disk, oldest, newest
      ensures Valid() && pending == None
      ensures newest == old(newest) && !Stuck()
      ensures oldest == old(oldest) || oldest == null
      ensures old(Queue()) == Lines(l.data) + Queue()
      ensures old(NoEmptyFiles()) ==> NoEmptyFiles()
      ensures old(Layout()).Ready() && l.count <= |old(Layout()).First()| && Layout() == Cut(old(Layout()), l.count)
    {
      hide Valid, Queue, Layout, Lines, NoEmptyFiles;
      PendingIsFront(l);
      if oldest != null {
        AckOldest(l);
      } else {
        AckNewest(l);
      }
    }

    lemma PendingComplete(l: EventList)
      requires Valid() && pending == Some(l)
      ensures Complete(l.data)
    {
    }

    lemma QueueRecords()
      requires Valid()
      ensures AllRecords(Queue())
    {
      StoredAreRecords(disk.files, Ids());
    }

    /** Nothing that happened since the fetch has moved the fetched records. */
    lemma PendingIsFront(l: EventList)
      requires Valid() && pending == Some(l)
      ensures l.count <= |Queue()| && Queue()[..l.count] == Lines(l.data)
    {
      hide NewlineCount, Complete, Ascending, IdSet;
      var ids := Ids();
      var c := disk.files[ids[0]];
      PrefixLines(c, l.data);
      assert |Lines(l.data)| == l.count;
      assert Queue() == Lines(c) + Stored(disk.files, ids[1..]);
    }

    method AckOldest(l: EventList)
      requires Valid() && pending == Some(l) && oldest != null
      modifies this`oldest, this`pending, disk, oldest
      ensures Valid() && pending == None && (oldest == old(oldest) || oldest == null) && !Stuck()
      ensures old(NoEmptyFiles()) ==> NoEmptyFiles()
      ensures l.count <= |old(Queue())| && Queue() == old(Queue())[l.count..]
      ensures old(Layout()).Ready() && l.count <= |old(Layout()).First()| && Layout() == Cut(old(Layout()), l.count)
    {
      hide NewlineCount, Lines, Complete, Stored, Listing, RecordsOf, AllNonEmpty, PerFile, FileEventBatch.Valid,
        FileEventBatch.Outstanding;
      ghost var before := disk.files;
      CutOldest(l);
      OldestDropped(before, disk.files, oldest.path, oldIds, newestId, l.count);
      PerFileCut(before, disk.files, oldest.path, oldIds, newestId, l.count);
      if !oldest.HasEvents() {
        oldest := null;
      }
    }

    /** The oldest file loses its acknowledged records, and is gone with its last one. */
    method CutOldest(l: EventList)
      requires Valid() && pending == Some(l) && oldest != null
      modifies this`pending, disk, oldest
      ensures pending == None && !disk.faulty && NewestValid() && (oldest.HasEvents() ==> OldestValid())
      ensures var fr, before, after := oldest.path, old(disk.files), disk.files;
              l.count <= |RecordsOf(before, fr)| && RecordsOf(after, fr) == RecordsOf(before, fr)[l.count..]
              && after == (if fr in after then before[fr := after[fr]] else before - {fr})
              && (fr in after <==> oldest.HasEvents())
              && (oldest.HasEvents() ==> Complete(after[fr]) && after[fr] != [])
              && (oldest.HasEvents() <==> l.count < |RecordsOf(before, fr)|)
    {
      hide NewlineCount, Lines, Complete, Stored, Ascending, IdSet, FileEventBatch.Cached, FileEventBatch.IsFront;
      FrontDiffers(disk.files, Ids());
      var _ := oldest.OnEventsUploaded(l);
      pending := None;
      StaysValid(newest);
      OpenIsSized(oldest);
      RecordsAreBytes(disk.files, oldest.path);
    }

    method AckNewest(l: EventList)
      requires Valid() && pending == Some(l) && oldest == null
      modifies this`pending, disk, newest
      ensures Valid() && pending == None && NoEmptyFiles()
      ensures l.count <= |old(Queue())| && Queue() == old(Queue())[l.count..]
      ensures old(Layout()).Ready() && l.count <= |old(Layout()).First()| && Layout() == Cut(old(Layout()), l.count)
    {
      hide NewlineCount, Lines, Complete, Stored, Listing, RecordsOf, FileEventBatch.Valid, FileEventBatch.Outstanding;
      ghost var before := disk.files;
      assert Ids() == [newestId];
      CutNewest(l);
      FrontDropped(before, disk.files, Ids(), l.count);
    }

    /** The newest file loses its acknowledged records. */
    method CutNewest(l: EventList)
      requires Valid() && pending == Some(l) && oldest == null
      modifies this`pending, disk, newest
      ensures pending == None && !disk.faulty && NewestValid()
      ensures var id, before, after := newestId, old(disk.files), disk.files;
              id in after && l.count <= |RecordsOf(before, id)|
              && RecordsOf(after, id) == RecordsOf(before, id)[l.count..]
              && after == before[id := after[id]]
    {
      hide NewlineCount, Lines, Complete, Stored, Ascending, IdSet, FileEventBatch.Cached, FileEventBatch.IsFront;
      var _ := newest.OnEventsUploaded(l);
      pending := None;
      OpenIsSized(newest);
    }

    predicate HasEvents()
      reads this, newest
    {
      oldIds != [] || oldest != null || newest.HasEvents()
    }

    /** Without empty files behind the newest one, hasEvents means what it says. */
    lemma HasEventsExact()
      requires Valid()
      ensures HasEvents() <==> Queue() != [] || Older() != []
      ensures NoEmptyFiles() ==> (HasEvents() <==> Queue() != [])
    {
      StoredConcat(disk.files, Older(), [newestId]);
      StoredOne(disk.files, newestId);
      EmptyIffNoLines(newest.Contents());
    }

    lemma ListsFiles()
      requires Valid()
      ensures Ascending(Ids())
    {
    }

    /** The layout says what the batch answers and holds. */
    lemma LayoutFacts()
      requires Valid()
      ensures Layout().Ok() && (HasEvents() <==> Layout().HasEvents()) && Layout().Queue() == Queue()
      ensures Layout().Ready() ==> AllRecords(Layout().First())
    {
      EmptyIffNoLines(newest.Contents());
      JoinedPerFile(disk.files, Older());
      StoredConcat(disk.files, Older(), [newestId]);
      StoredOne(disk.files, newestId);
      RecordsOfAreRecords(disk.files, newestId);
      if oldest != null { RecordsOfAreRecords(disk.files, oldest.path); }
    }

    /** After a fetch has dealt with the old files, hasEvents is exact unless the batch is stuck. */
    lemma HasEventsAfterFetch()
      requires Valid() && !Stuck() && (oldest == null ==> oldIds == [])
      ensures HasEvents() <==> Queue() != []
    {
      HasEventsExact();
      if oldest != null {
        FirstFileEvents(disk.files, Ids());
      }
    }

    method SetFileLimits(maxEvents: nat, maxSize: nat)
      requires Valid()
      modifies this`fileMaxEvents, this`fileMaxSize, oldest, newest
      ensures Valid() && fileMaxEvents == maxEvents && fileMaxSize == maxSize
      ensures Queue() == old(Queue()) && NoEmptyFiles() == old(NoEmptyFiles()) && Layout() == old(Layout())
    {
      hide NewlineCount, Lines, Complete, Stored, Ascending, IdSet;
      fileMaxSize := maxSize;
      fileMaxEvents := maxEvents;
      if oldest != null {
        oldest.SetLimit(maxEvents, maxSize);
      }
      newest.SetLimit(maxEvents, maxSize);
    }
  }

  // ---- how the disk operations act on the files' records ----

  ghost function PerFile(files: map<nat, Bytes>, ids: seq<nat>): (fs: seq<seq<Bytes>>)
    ensures |fs| == |ids| && forall i :: 0 <= i < |ids| ==> fs[i] == RecordsOf(files, ids[i])
  {
    seq(|ids|, i requires 0 <= i < |ids| => RecordsOf(files, ids[i]))
  }

  /** A file with these records has room for one more of the given size. */
  ghost predicate RoomFor(rs: seq<Bytes>, size: nat, maxEvents: nat, maxSize: nat) {
    (maxSize == 0 || |Flat(rs)| + size <= maxSize) && (maxEvents == 0 || |rs| + 1 <= maxEvents)
  }

  lemma {:induction false} JoinedPerFile(files: map<nat, Bytes>, ids: seq<nat>)
    ensures Joined(PerFile(files, ids)) == Stored(files, ids)
  {
    if ids == [] {
    } else {
      JoinedPerFile(files, ids[1..]);
      assert PerFile(files, ids)[1..] == PerFile(files, ids[1..]);
    }
  }

  lemma RecordsOfAreRecords(files: map<nat, Bytes>, id: nat)
    ensures AllRecords(RecordsOf(files, id))
  {
    if id in files { LinesAreRecords(files[id]); }
  }

  lemma PerFileSame(before: map<nat, Bytes>, after: map<nat, Bytes>, ids: seq<nat>)
    requires forall i :: 0 <= i < |ids| ==> RecordsOf(after, ids[i]) == RecordsOf(before, ids[i])
    ensures PerFile(after, ids) == PerFile(before, ids)
  {
  }

  lemma OpenedRecords(before: map<nat, Bytes>, after: map<nat, Bytes>, id: nat)
    requires Opened(before, after, id)
    ensures forall x :: RecordsOf(after, x) == RecordsOf(before, x)
  {
  }

  lemma PerFileOpened(before: map<nat, Bytes>, after: map<nat, Bytes>, fr: nat, ids: seq<nat>, id: nat)
    requires Opened(before, after, fr)
    ensures PerFile(after, ids) == PerFile(before, ids) && RecordsOf(after, id) == RecordsOf(before, id)
  {
    OpenedRecords(before, after, fr);
    hide RecordsOf;
    PerFileSame(before, after, ids);
  }

  /** The first old file was opened, and is kept or removed. */
  lemma PerFileFront(before: map<nat, Bytes>, after: map<nat, Bytes>, fr: nat, oldIds: seq<nat>, id: nat)
    requires Listing(before, ([fr] + oldIds) + [id]) && Opened(before, after, fr)
    ensures PerFile(after, [fr] + oldIds) == PerFile(before, [fr] + oldIds)
            && RecordsOf(after, id) == RecordsOf(before, id)
    ensures PerFile(after - {fr}, oldIds) == PerFile(before, [fr] + oldIds)[1..]
    ensures RecordsOf(after - {fr}, id) == RecordsOf(before, id) && RecordsOf(after, fr) == RecordsOf(before, fr)
  {
    PerFileOpened(before, after, fr, [fr] + oldIds, id);
    OpenedRecords(before, after, fr);
    FrontUnique(before, fr, oldIds, id);
    PerFileRemoved(after, fr, oldIds);
    RemovedElsewhere(after, fr, id);
    PerFileTail(after, fr, oldIds);
    hide Listing, Opened, RecordsOf, PerFile;
  }

  /** The first old file lost its first `k` records, and is gone with its last one. */
  lemma PerFileCut(before: map<nat, Bytes>, after: map<nat, Bytes>, fr: nat, oldIds: seq<nat>, id: nat, k: nat)
    requires Listing(before, ([fr] + oldIds) + [id]) && k <= |RecordsOf(before, fr)|
    requires after == if fr in after then before[fr := after[fr]] else before - {fr}
    ensures PerFile(after, oldIds) == PerFile(before, [fr] + oldIds)[1..]
            && RecordsOf(after, id) == RecordsOf(before, id)
    ensures PerFile(before, [fr] + oldIds)[0] == RecordsOf(before, fr)
    ensures PerFile(after, [fr] + oldIds) == [RecordsOf(after, fr)] + PerFile(before, [fr] + oldIds)[1..]
  {
    FrontUnique(before, fr, oldIds, id);
    hide RecordsOf, Listing, PerFile;
    ChangedElsewhere(before, after, fr, id);
    forall i | 0 <= i < |oldIds| ensures RecordsOf(after, oldIds[i]) == RecordsOf(before, oldIds[i]) {
      ChangedElsewhere(before, after, fr, oldIds[i]);
    }
    PerFileSame(before, after, oldIds);
    PerFileTail(before, fr, oldIds);
    PerFileTail(after, fr, oldIds);
  }

  lemma ChangedElsewhere(before: map<nat, Bytes>, after: map<nat, Bytes>, fr: nat, x: nat)
    requires after == if fr in after then before[fr := after[fr]] else before - {fr}
    requires x != fr
    ensures RecordsOf(after, x) == RecordsOf(before, x)
  {
  }

  /** A file without records has no bytes, and is gone or empty. */
  lemma RecordsAreBytes(files: map<nat, Bytes>, id: nat)
    requires id in files ==> Complete(files[id])
    ensures RecordsOf(files, id) == [] <==> id !in files || files[id] == []
  {
    if id in files { EmptyIffNoLines(files[id]); }
  }

  lemma PerFileTail(files: map<nat, Bytes>, fr: nat, ids: seq<nat>)
    ensures PerFile(files, [fr] + ids)[1..] == PerFile(files, ids)
    ensures PerFile(files, [fr] + ids) == [RecordsOf(files, fr)] + PerFile(files, ids)
  {
    hide RecordsOf;
  }

  lemma FrontUnique(files: map<nat, Bytes>, fr: nat, oldIds: seq<nat>, id: nat)
    requires Listing(files, ([fr] + oldIds) + [id])
    ensures id != fr && forall i :: 0 <= i < |oldIds| ==> oldIds[i] != fr
  {
    var ids := ([fr] + oldIds) + [id];
    hide Ascending;
    forall i | 0 <= i < |oldIds| ensures oldIds[i] != fr { AscendingAt(ids, 0, i + 1); assert ids[i + 1] == oldIds[i]; }
    AscendingAt(ids, 0, |ids| - 1);
  }

  lemma PerFileRemoved(files: map<nat, Bytes>, fr: nat, ids: seq<nat>)
    requires forall i :: 0 <= i < |ids| ==> ids[i] != fr
    ensures PerFile(files - {fr}, ids) == PerFile(files, ids)
  {
    forall i | 0 <= i < |ids| ensures RecordsOf(files - {fr}, ids[i]) == RecordsOf(files, ids[i]) {
      RemovedElsewhere(files, fr, ids[i]);
    }
    hide RecordsOf;
    PerFileSame(files, files - {fr}, ids);
  }

  lemma RemovedElsewhere(files: map<nat, Bytes>, fr: nat, x: nat)
    requires x != fr
    ensures RecordsOf(files - {fr}, x) == RecordsOf(files, x)
  {
  }

  lemma PerFileRolled(before: map<nat, Bytes>, after: map<nat, Bytes>, ids: seq<nat>, last: nat)
    requires Opened(before, after, last + 1) && last + 1 !in before
    ensures PerFile(after, ids + [last]) == PerFile(before, ids) + [RecordsOf(before, last)]
    ensures RecordsOf(after, last + 1) == []
  {
    OpenedRecords(before, after, last + 1);
    assert RecordsOf(before, last + 1) == [];
    hide RecordsOf;
  }


  ghost predicate AllNonEmpty(files: map<nat, Bytes>, ids: seq<nat>) {
    forall i :: 0 <= i < |ids| ==> RecordsOf(files, ids[i]) != []
  }

  lemma OpenedNonEmpty(before: map<nat, Bytes>, after: map<nat, Bytes>, id: nat, ids: seq<nat>)
    requires Opened(before, after, id)
    ensures AllNonEmpty(after, ids) <==> AllNonEmpty(before, ids)
  {
    assert forall x :: RecordsOf(after, x) == RecordsOf(before, x);
  }

  lemma FrontDroppedNonEmpty(before: map<nat, Bytes>, after: map<nat, Bytes>, older: seq<nat>, id: nat)
    requires Listing(before, older + [id]) && older != []
    requires after == if older[0] in after then before[older[0] := after[older[0]]] else before - {older[0]}
    ensures AllNonEmpty(before, older) ==> AllNonEmpty(after, older[1..])
    ensures older[0] in after && Complete(after[older[0]]) && after[older[0]] != [] && AllNonEmpty(before, older)
            ==> AllNonEmpty(after, older)
  {
    forall i | 1 <= i < |older| ensures older[i] != older[0] { AscendingAt(older + [id], 0, i); }
    if older[0] in after && Complete(after[older[0]]) { EmptyIffNoLines(after[older[0]]); }
  }

  lemma RolledNonEmpty(before: map<nat, Bytes>, after: map<nat, Bytes>, id: nat, older: seq<nat>, last: nat)
    requires Opened(before, after, id) && last in before && Complete(before[last])
    ensures AllNonEmpty(after, older + [last]) <==> AllNonEmpty(before, older) && before[last] != []
  {
    OpenedNonEmpty(before, after, id, older + [last]);
    EmptyIffNoLines(before[last]);
    var all := older + [last];
    assert all[|older|] == last && forall i :: 0 <= i < |older| ==> all[i] == older[i];
  }

  lemma OlderDiffer(files: map<nat, Bytes>, older: seq<nat>, id: nat)
    requires Listing(files, older + [id])
    ensures forall i :: 0 <= i < |older| ==> older[i] != id
  {
    forall i | 0 <= i < |older| ensures older[i] != id { AscendingAt(older + [id], i, |older|); }
  }

  lemma FrontDiffers(files: map<nat, Bytes>, ids: seq<nat>)
    requires Listing(files, ids) && |ids| > 1
    ensures ids[0] < ids[|ids| - 1] && ids[0] in files && ids[|ids| - 1] in files
  {
    AscendingAt(ids, 0, |ids| - 1);
    assert ids[0] in IdSet(ids) && ids[|ids| - 1] in IdSet(ids);
  }

  /** What opening the first old file means, whether it is kept or deleted. */
  lemma FrontOpened(before: map<nat, Bytes>, after: map<nat, Bytes>, fr: nat, oldIds: seq<nat>, id: nat)
    requires Listing(before, ([fr] + oldIds) + [id]) && Opened(before, after, fr)
    ensures Listing(after, ([fr] + oldIds) + [id])
    ensures Stored(after, ([fr] + oldIds) + [id]) == Stored(before, ([fr] + oldIds) + [id])
    ensures AllNonEmpty(before, [fr] + oldIds) ==> AllNonEmpty(after, [fr] + oldIds)
    ensures RecordsOf(after, fr) == [] ==>
      Listing(after - {fr}, oldIds + [id])
      && Stored(after - {fr}, oldIds + [id]) == Stored(before, ([fr] + oldIds) + [id])
      && (AllNonEmpty(before, [fr] + oldIds) ==> AllNonEmpty(after - {fr}, oldIds))
  {
    var ids := ([fr] + oldIds) + [id];
    assert fr == ids[0] && fr in IdSet(ids);
    StoredFrame(before, after, ids);
    OpenedNonEmpty(before, after, fr, [fr] + oldIds);
    if RecordsOf(after, fr) == [] {
      OldestDropped(after, after - {fr}, fr, oldIds, id, 0);
    }
  }

  lemma FirstFileEvents(files: map<nat, Bytes>, ids: seq<nat>)
    requires ids != [] && ids[0] in files && Complete(files[ids[0]])
    ensures files[ids[0]] != [] <==> RecordsOf(files, ids[0]) != []
    ensures files[ids[0]] != [] ==> Stored(files, ids) != []
    ensures |ids| == 1 && files[ids[0]] == [] ==> Stored(files, ids) == []
  {
    EmptyIffNoLines(files[ids[0]]);
  }

  lemma FrontChangedListing(before: map<nat, Bytes>, after: map<nat, Bytes>, ids: seq<nat>)
    requires Listing(before, ids) && ids != []
    requires after == if ids[0] in after then before[ids[0] := after[ids[0]]] else before - {ids[0]}
    ensures if ids[0] in after then Listing(after, ids) else Listing(after, ids[1..])
    ensures Stored(after, ids[1..]) == Stored(before, ids[1..])
  {
    assert ids[0] in IdSet(ids);
    TailSet(ids);
    forall i | 0 <= i < |ids[1..]| ensures ids[1..][i] != ids[0] { AscendingAt(ids, 0, i + 1); }
    hide Lines, Ascending, Stored;
    StoredFrame(before, after, ids[1..]);
  }

  /** A file batch does not notice what happens to other files. */
  twostate lemma StaysValid(b: FileEventBatch)
    requires old(b.Valid()) && unchanged(b) && b.path in old(b.disk.files) && b.path in b.disk.files
    requires b.disk.files[b.path] == old(b.disk.files)[b.path]
    ensures b.Valid() && b.Contents() == old(b.Contents())
    ensures forall l :: b.Outstanding(l) <==> old(b.Outstanding(l))
  {
  }

  lemma OpenIsSized(b: FileEventBatch)
    requires b.Valid()
    ensures b.fdOpen ==>
              b.path in b.disk.files && Complete(b.disk.files[b.path]) && b.fileSize == |b.disk.files[b.path]|
  {
  }

  /** Records left the front file: it was cut, or removed with its last record. */
  lemma FrontDropped(before: map<nat, Bytes>, after: map<nat, Bytes>, ids: seq<nat>, k: nat)
    requires Listing(before, ids) && ids != [] && k <= |RecordsOf(before, ids[0])|
    requires RecordsOf(after, ids[0]) == RecordsOf(before, ids[0])[k..]
    requires after == if ids[0] in after then before[ids[0] := after[ids[0]]] else before - {ids[0]}
    ensures k <= |Stored(before, ids)|
    ensures ids[0] in after ==> Listing(after, ids) && Stored(after, ids) == Stored(before, ids)[k..]
    ensures ids[0] !in after ==> Listing(after, ids[1..]) && Stored(after, ids[1..]) == Stored(before, ids)[k..]
  {
    FrontChangedListing(before, after, ids);
    DropOfConcat(RecordsOf(before, ids[0]), Stored(before, ids[1..]), k);
    hide Lines, Ascending, IdSet, Listing;
  }

  lemma DropOfConcat<T>(a: seq<T>, b: seq<T>, k: nat)
    requires k <= |a|
    ensures (a + b)[k..] == a[k..] + b
    ensures k == |a| ==> (a + b)[k..] == b
  {
  }

  lemma OldestDropped(before: map<nat, Bytes>, after: map<nat, Bytes>, fr: nat, oldIds: seq<nat>, id: nat, k: nat)
    requires Listing(before, ([fr] + oldIds) + [id]) && k <= |RecordsOf(before, fr)|
    requires RecordsOf(after, fr) == RecordsOf(before, fr)[k..]
    requires after == if fr in after then before[fr := after[fr]] else before - {fr}
    ensures var q := Stored(before, ([fr] + oldIds) + [id]);
            k <= |q|
            && (fr in after ==>
                  Listing(after, ([fr] + oldIds) + [id]) && Stored(after, ([fr] + oldIds) + [id]) == q[k..])
            && (fr !in after ==> Listing(after, oldIds + [id]) && Stored(after, oldIds + [id]) == q[k..])
    ensures AllNonEmpty(before, [fr] + oldIds) ==> AllNonEmpty(after, oldIds)
    ensures AllNonEmpty(before, [fr] + oldIds) && fr in after && Complete(after[fr]) && after[fr] != []
            ==> AllNonEmpty(after, [fr] + oldIds)
  {
    var ids := ([fr] + oldIds) + [id];
    assert ids[0] == fr && ids[1..] == oldIds + [id];
    FrontDropped(before, after, ids, k);
    FrontDroppedNonEmpty(before, after, [fr] + oldIds, id);
    assert ([fr] + oldIds)[1..] == oldIds;
  }

  /** `l` is a prefix of the queue `q` within both limits; it is empty only if it has to be, and it
      does not claim to be everything unless it is. */
  ghost predicate IsHead(l: EventList, q: seq<Bytes>, maxCount: nat, maxSize: nat) {
    l.count <= |q| && l.count <= maxCount && l.data == Flat(q[..l.count]) && |l.data| <= maxSize
    && (l.count == 0 ==> q == [] || maxCount == 0 || |q[0]| > maxSize)
    && (l.count < |q| ==> l.more)
  }

  /** `l` holds the first records of the file that is read, and says that there are more exactly if an old file
      is read or records of the newest remain. */
  ghost predicate FrontOfFirst(l: EventList, f: Files<Bytes>)
    requires f.Ready()
  {
    l.count <= |f.First()| && l.data == Flat(f.First()[..l.count]) && (l.more <==> f.reading || l.count < |f.First()|)
  }

  lemma FetchIsFront(l: EventList, f: Files<Bytes>, maxCount: nat, maxSize: nat)
    requires f.Ready() && IsFetchOf(l, f.First(), maxCount, maxSize)
    ensures LongestFit(f.First(), maxCount, maxSize, l.count)
    ensures FrontOfFirst(if f.reading then l.(more := true) else l, f)
  {
    hide Flat;
  }

  lemma HeadOfFile(l: EventList, files: map<nat, Bytes>, ids: seq<nat>, maxCount: nat, maxSize: nat)
    requires ids != [] && IsFetchOf(l, RecordsOf(files, ids[0]), maxCount, maxSize)
    requires RecordsOf(files, ids[0]) != []
    ensures IsHead(l.(more := true), Stored(files, ids), maxCount, maxSize)
    ensures |ids| == 1 ==> IsHead(l, Stored(files, ids), maxCount, maxSize)
  {
    var rs, tail := RecordsOf(files, ids[0]), Stored(files, ids[1..]);
    assert Stored(files, ids) == rs + tail && (|ids| == 1 ==> tail == []);
    hide Stored, Lines;
    HeadOfConcat(l, rs, tail, maxCount, maxSize);
  }

  lemma HeadOfConcat(l: EventList, rs: seq<Bytes>, tail: seq<Bytes>, maxCount: nat, maxSize: nat)
    requires rs != [] && IsFetchOf(l, rs, maxCount, maxSize)
    ensures IsHead(l.(more := true), rs + tail, maxCount, maxSize)
    ensures tail == [] ==> IsHead(l, rs + tail, maxCount, maxSize)
  {
    assert (rs + tail)[..l.count] == rs[..l.count];
    assert Flat(rs[..1]) == rs[0] by {
      assert rs[..1] == [] + [rs[0]];
      FlatAppend([], rs[0]);
    }
    hide Flat;
  }

  lemma FreshId(files: map<nat, Bytes>, ids: seq<nat>, id: nat)
    requires Listing(files, ids) && ids != [] && id == ids[|ids| - 1] + 1
    ensures id !in files
  {
    forall i | 0 <= i < |ids| ensures ids[i] != id {
      if i < |ids| - 1 { AscendingAt(ids, i, |ids| - 1); }
    }
  }

  lemma RolledOver(before: map<nat, Bytes>, after: map<nat, Bytes>, older: seq<nat>, last: nat)
    requires Listing(before, older + [last]) && Opened(before, after, last + 1)
    requires last in before && Complete(before[last])
    ensures last + 1 !in before && Listing(after, (older + [last]) + [last + 1])
    ensures Stored(after, (older + [last]) + [last + 1]) == Stored(before, older + [last])
    ensures AllNonEmpty(after, older + [last]) <==> AllNonEmpty(before, older) && before[last] != []
  {
    var ids, id := older + [last], last + 1;
    FreshId(before, ids, id);
    AscendingAppend(ids, id);
    assert IdSet(ids + [id]) == IdSet(ids) + {id};
    StoredFrame(before, after, ids);
    StoredConcat(after, ids, [id]);
    StoredOne(after, id);
    RolledNonEmpty(before, after, id, older, last);
  }

  lemma AppendedRecord(before: Bytes, r: Bytes)
    requires Complete(before) && IsRecord(r)
    ensures Lines(before + Hole(0) + r) == Lines(before) + [r]
  {
    assert before + Hole(0) + r == before + r;
    LinesAppend(before, r);
  }

  lemma LastExtended(before: map<nat, Bytes>, after: map<nat, Bytes>, front: seq<nat>, id: nat, r: Bytes)
    requires Listing(before, front + [id]) && IsRecord(r)
    requires id in before && Complete(before[id]) && after == before[id := before[id] + Hole(0) + r]
    ensures Listing(after, front + [id]) && Stored(after, front + [id]) == Stored(before, front + [id]) + [r]
    ensures AllNonEmpty(after, front) <==> AllNonEmpty(before, front)
    ensures PerFile(after, front) == PerFile(before, front) && RecordsOf(after, id) == RecordsOf(before, id) + [r]
  {
    AppendedRecord(before[id], r);
    OlderDiffer(before, front, id);
    hide Lines, Complete, Hole, Ascending;
    assert id in IdSet(front + [id]);
    StoredFrame(before, after, front);
    LastReplaced(before, after, front, id, r);
  }

  lemma LastReplaced(before: map<nat, Bytes>, after: map<nat, Bytes>, front: seq<nat>, id: nat, r: Bytes)
    requires Stored(after, front) == Stored(before, front) && RecordsOf(after, id) == RecordsOf(before, id) + [r]
    ensures Stored(after, front + [id]) == Stored(before, front + [id]) + [r]
  {
    hide RecordsOf;
    calc {
      Stored(after, front + [id]);
      { StoredConcat(after, front, [id]); StoredOne(after, id); }
      Stored(before, front) + (RecordsOf(before, id) + [r]);
      (Stored(before, front) + RecordsOf(before, id)) + [r];
      { StoredConcat(before, front, [id]); StoredOne(before, id); }
      Stored(before, front + [id]) + [r];
    }
  }

  /** A file was opened: created or trimmed to its complete records, which are the same as before. */
  ghost predicate Opened(before: map<nat, Bytes>, after: map<nat, Bytes>, id: nat) {
    id in after && after == before[id := after[id]] && RecordsOf(before, id) == RecordsOf(after, id)
  }

  method OpenBatch(disk: Disk, id: nat, maxEvents: nat, maxSize: nat, write: bool) returns (b: FileEventBatch)
    modifies disk
    ensures fresh(b) && b.disk == disk && b.path == id && b.Valid() && b.fdOpen && b.finalized == !write
    ensures b.maxCount == maxEvents && b.maxSize == maxSize
    ensures Opened(old(disk.files), disk.files, id)
    ensures b.HasEvents() <==> RecordsOf(disk.files, id) != []
    ensures id !in old(disk.files) ==> b.fileSize == b.eventCount == 0
  {
    b := new FileEventBatch(disk, id);
    b.SetLimit(maxEvents, maxSize);
    if !write {
      b.SetFinalized();
    }
    EmptyIffNoLines(b.Contents());
  }

  lemma DirectoryOpened(before: map<nat, Bytes>, after: map<nat, Bytes>, ids: seq<nat>, id: nat, all: seq<nat>)
    requires Listing(before, ids) && Opened(before, after, id)
    requires all == (if ids != [] then ids else [0]) && id == all[|all| - 1]
    ensures Listing(after, all) && Stored(after, all) == Stored(before, all)
    ensures before == map[] || before.Keys == IdSet(all)
  {
    assert id in IdSet(all);
    StoredFrame(before, after, all);
  }

  // ---- the limits of a file ----

  /** A file with these records respects the limits; 0 means none. */
  ghost predicate Within(rs: seq<Bytes>, maxEvents: nat, maxSize: nat) {
    (maxEvents == 0 || |rs| <= maxEvents) && (maxSize == 0 || |Flat(rs)| <= maxSize)
  }

  ghost predicate AllWithin(f: Files<Bytes>, maxEvents: nat, maxSize: nat) {
    Within(f.newest, maxEvents, maxSize)
    && forall i :: 0 <= i < |f.earlier| ==> Within(f.earlier[i], maxEvents, maxSize)
  }

  /** There is room for a record exactly if the file respects the limits with it; a record fits exactly if a file with
      nothing else does. */
  lemma RoomIffWithin(rs: seq<Bytes>, r: Bytes, maxEvents: nat, maxSize: nat)
    ensures RoomFor(rs, |r|, maxEvents, maxSize) <==> Within(rs + [r], maxEvents, maxSize)
    ensures RoomFor([], |r|, maxEvents, maxSize) <==> Within([r], maxEvents, maxSize)
    ensures RoomFor([], |r|, maxEvents, maxSize) <==> maxSize == 0 || |r| <= maxSize
  {
    FlatAppend(rs, r);
    FlatAppend([], r);
    assert [] + [r] == [r];
    assert |Flat([])| == 0;
    hide Flat;
  }

  lemma NothingWithin(maxEvents: nat, maxSize: nat)
    ensures Within([], maxEvents, maxSize)
  {
  }

  lemma PutWithin(f: Files<Bytes>, r: Bytes, maxEvents: nat, maxSize: nat)
    requires f.Ok() && AllWithin(f, maxEvents, maxSize)
    ensures var room := RoomFor(f.newest, |r|, maxEvents, maxSize);
            AllWithin(Put(f, r, room, maxSize == 0 || |r| <= maxSize), maxEvents, maxSize)
  {
    RoomIffWithin(f.newest, r, maxEvents, maxSize);
    NothingWithin(maxEvents, maxSize);
    assert [] + [r] == [r];
    hide RoomFor, Within;
  }

  lemma {:induction false} ExaminedWithin(f: Files<Bytes>, maxEvents: nat, maxSize: nat)
    requires f.Ok() && AllWithin(f, maxEvents, maxSize)
    ensures AllWithin(Examined(f), maxEvents, maxSize)
    decreases |f.earlier|
  {
    hide Within;
    if !f.reading && f.earlier != [] && |f.earlier[0]| == 0 {
      ExaminedWithin(f.(earlier := f.earlier[1..]), maxEvents, maxSize);
    }
  }

  lemma CutWithin(f: Files<Bytes>, k: nat, maxEvents: nat, maxSize: nat)
    requires f.Ready() && k <= |f.First()| && AllWithin(f, maxEvents, maxSize)
    ensures AllWithin(Cut(f, k), maxEvents, maxSize)
  {
    DropWithin(f.First(), k, maxEvents, maxSize);
    hide Within;
  }

  lemma DropWithin(rs: seq<Bytes>, k: nat, maxEvents: nat, maxSize: nat)
    requires k <= |rs| && Within(rs, maxEvents, maxSize)
    ensures Within(rs[k..], maxEvents, maxSize)
  {
    FlatConcat(rs[..k], rs[k..]);
    assert rs[..k] + rs[k..] == rs;
    hide Flat;
  }

  // ---- whole runs ----

  /** Rebuilding the batch from the files that any completed operation left yields the same queue. */
  method Restart(b: MultiFileEventBatch, maxEvents: nat, maxSize: nat) returns (b': MultiFileEventBatch)
    requires b.Valid()
    modifies b.disk
    ensures fresh(b') && b'.disk == b.disk && b'.Valid() && b'.pending == None
    ensures b'.Queue() == old(b.Queue()) && b'.Ids() == old(b.Ids())
    ensures b'.Layout() == old(b.Layout()).(reading := false)
    ensures fresh(b'.newest) && b'.oldest == null && b'.fileMaxSize == maxSize && b'.fileMaxEvents == maxEvents
  {
    assert b.newestId in IdSet(b.Ids());
    ghost var files, ids, older, last := b.disk.files, b.Ids(), b.Older(), b.newestId;
    ListingIsSet(files, ids);
    hide MultiFileEventBatch.Valid, Listing, Stored, PerFile, RecordsOf, Ascending, IdSet;
    b' := new MultiFileEventBatch(b.disk, maxEvents, maxSize);
    b'.ListsFiles();
    ListingUnique(b'.Ids(), ids);
    LastApart(b'.oldIds, b'.newestId, older, last);
  }

  lemma ListingIsSet(files: map<nat, Bytes>, ids: seq<nat>)
    requires Listing(files, ids)
    ensures files.Keys == IdSet(ids) && Ascending(ids)
  {
  }

  lemma LastApart<T>(a: seq<T>, x: T, b: seq<T>, y: T)
    requires a + [x] == b + [y]
    ensures a == b && x == y
  {
    assert a == (a + [x])[..|a|] && b == (b + [y])[..|b|];
    assert (a + [x])[|a|] == x && (b + [y])[|b|] == y;
  }

  /** What clients of one batch may do, in any order; `Ack` acknowledges the last fetch, if any. */
  datatype Op =
    | Add(event: Bytes)
    | Limits(maxEvents: nat, maxSize: nat)
    | Fetch(maxCount: nat, maxBytes: nat)
    | Ack
    | Reopen(newMaxEvents: nat, newMaxSize: nat)

  ghost predicate WellFormed(ops: seq<Op>) {
    forall i :: 0 <= i < |ops| && ops[i].Add? ==> NEWLINE !in ops[i].event
  }

  function LimitAfter(op: Op, maxSize: nat): nat {
    match op
    case Limits(_, size) => size
    case Reopen(_, size) => size
    case _ => maxSize
  }

  function EventsAfter(op: Op, maxEvents: nat): nat {
    match op
    case Limits(events, _) => events
    case Reopen(events, _) => events
    case _ => maxEvents
  }

  /** The limits stay what they are. */
  predicate Steady(ops: seq<Op>, maxEvents: nat, maxSize: nat) {
    forall i :: 0 <= i < |ops| ==> EventsAfter(ops[i], maxEvents) == maxEvents && LimitAfter(ops[i], maxSize) == maxSize
  }

  /** The record an operation contributes: an added one, if it fits an empty file. */
  function Given(op: Op, maxSize: nat): seq<Bytes>
    requires op.Add? ==> NEWLINE !in op.event
  {
    if op.Add? && (maxSize == 0 || |Record(op.event)| <= maxSize) then [Record(op.event)] else []
  }

  function AllGiven(ops: seq<Op>, maxSize: nat): seq<Bytes>
    requires WellFormed(ops)
  {
    if ops == [] then [] else Given(ops[0], maxSize) + AllGiven(ops[1..], LimitAfter(ops[0], maxSize))
  }

  /** One operation: the records it takes from the front and the record it gives at the end. */
  method Step(b: MultiFileEventBatch, op: Op, fetched: Option<EventList>)
    returns (b': MultiFileEventBatch, fetched': Option<EventList>, taken: seq<Bytes>)
    requires b.Valid() && b.pending == fetched && (op.Add? ==> NEWLINE !in op.event)
    modifies b, b.disk, b.oldest, b.newest
    ensures b'.Valid() && b'.pending == fetched'
    ensures b'.disk == b.disk && (b' == b || fresh(b'))
    ensures b'.newest == old(b.newest) || fresh(b'.newest)
    ensures b'.oldest == null || b'.oldest == old(b.oldest) || b'.oldest == old(b.newest) || fresh(b'.oldest)
    ensures b'.fileMaxSize == LimitAfter(op, old(b.fileMaxSize))
    ensures b'.fileMaxEvents == EventsAfter(op, old(b.fileMaxEvents))
    ensures old(AllWithin(b.Layout(), b.fileMaxEvents, b.fileMaxSize)) ==>
              AllWithin(b'.Layout(), old(b.fileMaxEvents), old(b.fileMaxSize))
    ensures taken == if op.Ack? && fetched.Some? then Lines(fetched.value.data) else []
    ensures taken + b'.Queue() == old(b.Queue()) + Given(op, old(b.fileMaxSize))
  {
    hide Lines, MultiFileEventBatch.Valid, MultiFileEventBatch.Queue, MultiFileEventBatch.Layout,
      MultiFileEventBatch.NoEmptyFiles, MultiFileEventBatch.Stuck, RoomFor, IsHead, LongestFit, FrontOfFirst, Within,
      Put, Examined, Cut;
    b', fetched', taken := b, fetched, [];
    ghost var f, most, size := b.Layout(), b.fileMaxEvents, b.fileMaxSize;
    match op
    case Add(event) =>
      var ok := b.AddEvent(Record(event));
      if AllWithin(f, most, size) { PutWithin(f, Record(event), most, size); }
    case Limits(maxEvents, maxSize) =>
      b.SetFileLimits(maxEvents, maxSize);
    case Fetch(maxCount, maxBytes) =>
      fetched' := b.GetEventsForUpload(maxCount, maxBytes);
      if AllWithin(f, most, size) { ExaminedWithin(f, most, size); }
    case Ack =>
      if fetched.Some? {
        b.OnEventsUploaded(fetched.value);
        if AllWithin(f, most, size) { CutWithin(f, fetched.value.count, most, size); }
        fetched', taken := None, Lines(fetched.value.data);
      }
    case Reopen(maxEvents, maxSize) =>
      b' := Restart(b, maxEvents, maxSize);
      fetched' := None;
  }

  /** Over every run, whatever rolls over or restarts in between, the uploaded and acknowledged
      records followed by the stored ones are the initial records followed by the accepted ones. While the limits
      stay the same no file ever exceeds them. */
  method Run(b: MultiFileEventBatch, ops: seq<Op>, fetched: Option<EventList>)
    returns (b': MultiFileEventBatch, uploaded: seq<Bytes>)
    requires b.Valid() && b.pending == fetched && WellFormed(ops)
    modifies b, b.disk, b.oldest, b.newest
    ensures b'.Valid()
    ensures uploaded + b'.Queue() == old(b.Queue()) + AllGiven(ops, old(b.fileMaxSize))
    ensures Steady(ops, old(b.fileMaxEvents), old(b.fileMaxSize))
            && old(AllWithin(b.Layout(), b.fileMaxEvents, b.fileMaxSize)) ==>
              AllWithin(b'.Layout(), old(b.fileMaxEvents), old(b.fileMaxSize))
    decreases |ops|
  {
    hide Lines, MultiFileEventBatch.Valid, MultiFileEventBatch.Queue, MultiFileEventBatch.Layout, Given, LimitAfter,
      EventsAfter, AllWithin;
    if ops == [] {
      return b, [];
    }
    ghost var q, given := b.Queue(), Given(ops[0], b.fileMaxSize);
    var b1, fetched1, taken := Step(b, ops[0], fetched);
    ghost var q1, rest := b1.Queue(), AllGiven(ops[1..], b1.fileMaxSize);
    b', uploaded := Run(b1, ops[1..], fetched1);
    RunsCompose(taken, uploaded, q, q1, b'.Queue(), given, rest);
    uploaded := taken + uploaded;
  }

  lemma RunsCompose<T>(taken: seq<T>, later: seq<T>, q: seq<T>, q1: seq<T>, q2: seq<T>, given: seq<T>, rest: seq<T>)
    requires taken + q1 == q + given && later + q2 == q1 + rest
    ensures (taken + later) + q2 == q + (given + rest)
  {
    calc {
      (taken + later) + q2;
      taken + (later + q2);
      (taken + q1) + rest;
      q + (given + rest);
    }
  }
}

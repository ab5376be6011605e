/** FileEventBatch: one file of newline-terminated records behind cached size, count and offset. */
module FileBatch {
  import opened Common
  import opened Records
  import opened Posix

  /** What a fetch hands to the uploader: VectorBatchedEventList. */
  datatype EventList = EventList(data: Bytes, count: nat, more: bool)

  /** Result of addEvent; only `Added` is the source's `true`. */
  datatype AddOutcome = Added | Refused | Failed(written: nat)


  class FileEventBatch {
    const disk: Disk
    const path: nat
    var fdOpen: bool
    var offset: nat
    var fileSize: nat
    var eventCount: nat
    var streamAtEnd: bool
    var finalized: bool
    var maxCount: nat
    var maxSize: nat

    /** The real contents of the file behind the descriptor. */
    ghost function Contents(): Bytes
      reads this, disk
    {
      if fdOpen && path in disk.files then disk.files[path] else []
    }

    /** The cached figures equal the real byte length and newline count. */
    ghost predicate Cached()
      reads this, disk
    {
      (fdOpen ==> path in disk.files)
      && Complete(Contents()) && fileSize == |Contents()| && eventCount == NewlineCount(Contents())
    }

    /** How far beyond the end the next append would land. */
    ghost function Gap(): int
      reads this, disk
    {
      if streamAtEnd then offset - |Contents()| else 0
    }

    ghost predicate Valid()
      reads this, disk
    {
      Cached() && (fdOpen ==> Gap() == 0)
    }

    /** `l` is still the first part of the file. */
    ghost predicate IsFront(l: EventList)
      reads this, disk
    {
      l.data <= Contents() && Complete(l.data) && l.count == NewlineCount(l.data)
    }

    /** `l` may be acknowledged, and the offset will be right afterwards. */
    ghost predicate Outstanding(l: EventList)
      reads this, disk
    {
      IsFront(l) && (|l.data| == |Contents()| ==> !streamAtEnd)
    }

    /** The gap after `l` is acknowledged. Truncating the whole file leaves the descriptor where it is, which a
        failed append since the fetch has moved to the old end or beyond; compaction moves it to the new end. */
    ghost function GapAfter(l: EventList): nat
      reads this, disk
    {
      if |l.data| == |Contents()| && streamAtEnd then offset else 0
    }

    predicate CanAddInt(size: nat)
      reads this
    {
      (maxSize == 0 || fileSize + size <= maxSize) && (maxCount == 0 || eventCount + 1 <= maxCount)
    }

    predicate CanAdd(size: nat)
      reads this
    {
      !finalized && CanAddInt(size)
    }

    predicate HasEvents()
      reads this
    {
      fileSize != 0
    }

    /** Opening recovers exactly the complete records of whatever the file holds. */
    constructor (disk: Disk, path: nat)
      modifies disk
      ensures this.disk == disk && this.path == path
      ensures Valid() && fdOpen && !finalized && maxCount == 0 && maxSize == 0
      ensures var before := if path in old(disk.files) then old(disk.files)[path] else [];
              Contents() == before[..Recovered(before)]
              && disk.files == old(disk.files)[path := Contents()]
              && Lines(Contents()) == Lines(before)
    {
      this.disk, this.path := disk, path;
      fdOpen, offset, fileSize, eventCount := true, 0, 0, 0;
      streamAtEnd, finalized, maxCount, maxSize := false, false, 0, 0;
      new;
      if path !in disk.files {
        disk.files := disk.files[path := []];
      }
      ghost var before := disk.files[path];
      SeekToEndAndGetFileSize();
      CountEventsInFile();
      RecoveredIsLongest(before);
      FlatLines(before);
      LinesAreRecords(before);
      LinesFlat(Lines(before));
    }

    method SetLimit(maxCount: nat, maxSize: nat)
      modifies this`maxCount, this`maxSize
      ensures this.maxCount == maxCount && this.maxSize == maxSize
    {
      this.maxCount, this.maxSize := maxCount, maxSize;
    }

    method SetFinalized()
      modifies this`finalized
      ensures finalized
    {
      finalized := true;
    }

    method SeekToEndAndGetFileSize()
      requires path in disk.files
      modifies this`offset, this`streamAtEnd, this`fileSize
      ensures offset == |disk.files[path]| && streamAtEnd && fileSize == offset
    {
      offset := |disk.files[path]|;
      streamAtEnd := true;
      fileSize := offset;
    }

    /** Counts newlines in chunks of whatever size the reads return and trims a torn last record. */
    method CountEventsInFile()
      requires path in disk.files && fileSize == |disk.files[path]|
      modifies this`offset, this`streamAtEnd, this`fileSize, this`eventCount, disk
      ensures var before := old(disk.files)[path];
              disk.files == old(disk.files)[path := before[..Recovered(before)]]
              && fileSize == Recovered(before) && eventCount == NewlineCount(before) && !streamAtEnd
    {
      eventCount := 0;
      offset := 0;
      streamAtEnd := false;
      var b := disk.files[path];
      var lastNewline := 0;
      var buf := disk.Read(path, offset, 16 * 1024);
      assert b[..0] == [];
      while buf != []
        invariant disk.files == old(disk.files) && fileSize == |b|
        invariant offset <= |b| && !streamAtEnd
        invariant offset + |buf| <= |b| && buf == b[offset..offset + |buf|]
        invariant buf == [] ==> offset == |b|
        invariant eventCount == NewlineCount(b[..offset]) && lastNewline == Recovered(b[..offset])
        decreases |b| - offset
      {
        lastNewline := CountNewlines(b, buf, lastNewline);
        offset := offset + |buf|;
        buf := disk.Read(path, offset, 16 * 1024);
      }
      assert b[..|b|] == b;
      if lastNewline != fileSize {
        disk.Truncate(path, lastNewline);
        fileSize := lastNewline;
      } else {
        assert disk.files == disk.files[path := b[..fileSize]];
      }
    }

    /** The inner memchr loop over one chunk that starts at the descriptor offset. */
    method CountNewlines(ghost b: Bytes, buf: Bytes, last: nat) returns (lastNewline: nat)
      requires offset + |buf| <= |b| && buf == b[offset..offset + |buf|]
      requires eventCount == NewlineCount(b[..offset]) && last == Recovered(b[..offset])
      modifies this`eventCount
      ensures eventCount == NewlineCount(b[..offset + |buf|])
      ensures lastNewline == Recovered(b[..offset + |buf|])
    {
      lastNewline := last;
      var p := 0;
      while p < |buf|
        invariant p <= |buf|
        invariant eventCount == NewlineCount(b[..offset + p]) && lastNewline == Recovered(b[..offset + p])
      {
        assert b[..offset + p + 1] == b[..offset + p] + [buf[p]];
        assert b[..offset + p + 1][..offset + p] == b[..offset + p];
        p := p + 1;
        if buf[p - 1] == NEWLINE {
          lastNewline := offset + p;
          eventCount := eventCount + 1;
        }
      }
    }

    /** Appends one record. With the descriptor where the cached flag says it is, the record lands
        right after the last one; after a partial write that failed, the next append leaves a hole
        of that many zero bytes and the cached size is wrong. */
    method AddEvent(data: Bytes) returns (outcome: AddOutcome)
      requires Cached() && Gap() >= 0 && IsRecord(data)
      modifies this`offset, this`streamAtEnd, this`fileSize, this`eventCount, disk
      ensures outcome.Refused? <==> !fdOpen || !old(CanAdd(|data|))
      ensures outcome.Refused? ==> disk.files == old(disk.files) && fileSize == old(fileSize)
                                   && eventCount == old(eventCount) && offset == old(offset)
                                   && streamAtEnd == old(streamAtEnd)
      ensures outcome.Added? ==> Contents() == old(Contents()) + Hole(old(Gap())) + data
                                 && disk.files == old(disk.files)[path := Contents()]
                                 && (Valid() <==> old(Gap()) == 0)
      ensures outcome.Failed? ==> disk.faulty && disk.files == old(disk.files) && Cached()
                                  && Gap() == old(Gap()) + outcome.written
    {
      if !fdOpen || finalized || !CanAddInt(|data|) {
        return Refused;
      }
      if !streamAtEnd {
        SeekToEndAndGetFileSize();
      }
      ghost var gap := Gap();
      var ok, o := WriteAll(data);
      if !ok {
        return Failed(o);
      }
      fileSize := fileSize + o;
      eventCount := eventCount + 1;
      AppendedCounts(old(Contents()), gap, data);
      return Added;
    }

    /** The write loop: all of `data`, or nothing but a moved offset. */
    method WriteAll(data: Bytes) returns (ok: bool, o: nat)
      requires path in disk.files && fileSize == |disk.files[path]| <= offset
      modifies this`offset, disk
      ensures offset == old(offset) + o
      ensures ok ==> o == |data|
      ensures ok && data != [] ==>
        disk.files == old(disk.files)[path := old(disk.files)[path] + Hole(old(offset) - fileSize) + data]
      ensures !ok ==> disk.faulty && disk.files == old(disk.files)
    {
      ghost var before, gap := disk.files[path], offset - fileSize;
      o := 0;
      while o < |data|
        invariant o <= |data|
        invariant offset == |before| + gap + o
        invariant o == 0 ==> disk.files == old(disk.files)
        invariant o > 0 ==> disk.files == old(disk.files)[path := before + Hole(gap) + data[..o]]
      {
        var ret := disk.Write(path, offset, data[o..]);
        if ret < 0 {
          if o > 0 {
            disk.Truncate(path, fileSize);
            assert disk.files[path] == before;
            assert disk.files == old(disk.files);
          }
          return false, o;
        }
        NextPiece(data, o, ret);
        AppendHole(before, gap, data[..o], data[o..][..ret]);
        o := o + ret;
        offset := offset + ret;
      }
      assert data[..|data|] == data;
      return true, o;
    }

    /** Returns the longest whole-record prefix within both limits and 1 MiB. Reading makes the descriptor's
        offset right again if a failed write had left it wrong. */
    method GetEventsForUpload(maxCount: nat, maxSize: nat) returns (r: Option<EventList>)
      requires Cached()
      modifies this`offset, this`streamAtEnd
      ensures Cached() && fdOpen == old(fdOpen) && (old(Valid()) || r.Some? ==> Valid())
      ensures r.None? <==> !HasEvents() || maxCount == 0
      ensures r.Some? ==> Outstanding(r.value)
                          && IsFetchOf(r.value, Lines(Contents()), maxCount, Min(maxSize, MEBIBYTE))
    {
      if !fdOpen || fileSize == 0 || maxCount == 0 {
        return None;
      }
      offset := 0;
      streamAtEnd := false;
      var cap := Min(Min(maxSize, MEBIBYTE), fileSize);
      var data := ReadUpTo(cap);
      var n, events := ScanRecords(data, maxCount, Contents());
      ScannedIsFetch(Contents(), maxCount, Min(maxSize, MEBIBYTE), data, n, events);
      return Some(EventList(data[..n], events, n < fileSize));
    }

    /** The read loop: whatever the reads return, it fills the buffer. */
    method ReadUpTo(cap: nat) returns (data: Bytes)
      requires path in disk.files && offset == 0 && cap <= |disk.files[path]|
      modifies this`offset
      ensures data == disk.files[path][..cap]
    {
      data := [];
      var chunk := disk.Read(path, offset, cap);
      while chunk != []
        invariant |data| + |chunk| <= cap && offset == |data|
        invariant data + chunk == disk.files[path][..|data| + |chunk|]
        invariant chunk == [] ==> |data| == cap
        decreases cap - |data|
      {
        data := data + chunk;
        offset := offset + |chunk|;
        chunk := disk.Read(path, offset, cap - |data|);
      }
    }

    /** Acknowledges a fetched list. If a write failed, which only a faulty disk does, bytes behind the
        acknowledged ones are lost. */
    method OnEventsUploaded(l: EventList) returns (failed: bool)
      requires Cached() && (fdOpen ==> IsFront(l))
      modifies this`fdOpen, this`offset, this`fileSize, this`eventCount, disk
      ensures failed ==> disk.faulty
      ensures !failed ==> Cached() && (fdOpen ==> Gap() == old(GapAfter(l)))
      ensures !failed && (!old(fdOpen) || old(Outstanding(l))) ==> Valid()
      ensures !old(fdOpen) ==> !failed && !fdOpen && disk.files == old(disk.files)
      ensures old(fdOpen) && !failed ==> DroppedFrom(old(disk.files), l)
      ensures failed ==> LostFrom(old(disk.files), l)
    {
      failed := false;
      if fdOpen {
        failed := DropPrefix(l);
      }
    }

    /** The cached size is right, and the file is shorter than it should be. */
    ghost predicate LostFrom(before: map<nat, Bytes>, l: EventList)
      reads this, disk
    {
      path in before && fdOpen && path in disk.files && disk.files == before[path := Contents()]
      && fileSize == |Contents()| < |before[path]| - |l.data|
    }

    /** The acknowledged bytes, and with them the acknowledged records, are gone; a finalized file
        disappears with its last record. */
    ghost predicate DroppedFrom(before: map<nat, Bytes>, l: EventList)
      reads this, disk
    {
      path in before && l.data <= before[path] && l.count <= |Lines(before[path])|
      && Contents() == before[path][|l.data|..]
      && (if fdOpen && path in disk.files then Lines(disk.files[path]) else []) == Lines(before[path])[l.count..]
      && (fdOpen <==> !(finalized && !HasEvents()))
      && disk.files == if fdOpen then before[path := Contents()] else before - {path}
    }

    /** Removes an acknowledged prefix: by truncation, by deleting a finalized file, or by
        moving the rest of the file to its front. */
    method DropPrefix(l: EventList) returns (failed: bool)
      requires Cached() && fdOpen && IsFront(l)
      modifies this`fdOpen, this`offset, this`fileSize, this`eventCount, disk
      ensures failed ==> disk.faulty && LostFrom(old(disk.files), l)
      ensures !failed ==> Cached() && DroppedFrom(old(disk.files), l) && (fdOpen ==> Gap() == old(GapAfter(l)))
    {
      hide LostFrom, DroppedFrom;
      if fileSize == |l.data| {
        DropAll(l);
        failed := false;
      } else {
        failed := DropFront(l);
      }
    }

    /** Something remains. */
    method DropFront(l: EventList) returns (failed: bool)
      requires Cached() && fdOpen && IsFront(l) && fileSize != |l.data|
      modifies this`offset, this`fileSize, this`eventCount, disk
      ensures failed ==> disk.faulty && LostFrom(old(disk.files), l)
      ensures !failed ==> Cached() && DroppedFrom(old(disk.files), l) && Gap() == 0
    {
      ghost var before := Contents();
      PrefixLines(before, l.data);
      hide Lines, Complete, NewlineCount;
      var n;
      n, failed := CompactFrom(|l.data|);
      fileSize := n;
      eventCount := eventCount - l.count;
      assert Contents() == disk.files[path];
      if !failed {
        assert Contents() == before[|l.data|..];
      }
    }

    /** Everything was acknowledged. */
    method DropAll(l: EventList)
      requires Cached() && fdOpen && IsFront(l) && fileSize == |l.data|
      modifies this`fdOpen, this`fileSize, this`eventCount, disk
      ensures Cached() && DroppedFrom(old(disk.files), l)
      ensures fdOpen ==> Gap() == if streamAtEnd then offset else 0
    {
      ghost var before := Contents();
      PrefixLines(before, l.data);
      NoBytes();
      assert before[|l.data|..] == [];
      hide Lines, Complete, NewlineCount;
      fileSize := 0;
      eventCount := 0;
      if finalized {
        fdOpen := false;
        disk.Remove(path);
      } else {
        disk.Truncate(path, 0);
        assert disk.files[path] == [];
      }
    }

    /** In-place compaction through a second descriptor. A write that fails abandons the rest of its buffer, yet
        the loop goes on with the next one: the result is right exactly if no write failed. */
    method CompactFrom(k: nat) returns (n: nat, failed: bool)
      requires path in disk.files && k <= |disk.files[path]|
      modifies this`offset, disk
      ensures path in disk.files && n == offset == |disk.files[path]|
      ensures disk.files == old(disk.files)[path := disk.files[path]] && (failed ==> disk.faulty)
      ensures failed <==> disk.files[path] != old(disk.files)[path][k..]
      ensures failed ==> n < |old(disk.files)[path]| - k
    {
      ghost var before, w := disk.files[path], [];
      assert w + before[0..] == before;
      assert disk.files == disk.files[path := before];
      var fdIn := k;
      offset, n, failed := 0, 0, false;
      var buf := ReadRest(fdIn, before, w);
      while buf != []
        invariant offset == n == |w| && k + n <= fdIn && fdIn + |buf| <= |before|
        invariant disk.files == old(disk.files)[path := w + before[n..]]
        invariant buf == before[fdIn..fdIn + |buf|] && (buf == [] ==> fdIn == |before|)
        invariant if failed then disk.faulty && k + n < fdIn else fdIn == k + n && w == before[k..fdIn]
        decreases |before| - fdIn
      {
        var m, broke := WriteBuffer(buf, before, w);
        if !failed && !broke { WholePiece(before, k, fdIn, buf); }
        w := w + buf[..m];
        fdIn, n, failed := fdIn + |buf|, n + m, failed || broke;
        buf := ReadRest(fdIn, before, w);
      }
      disk.Truncate(path, n);
      assert (w + before[n..])[..n] == w;
    }

    /** The next part of the file, which the compaction has not overwritten. */
    method ReadRest(fdIn: nat, ghost before: Bytes, ghost w: Bytes) returns (buf: Bytes)
      requires path in disk.files && |w| <= fdIn <= |before| && disk.files[path] == w + before[|w|..]
      ensures fdIn + |buf| <= |before| && buf == before[fdIn..fdIn + |buf|] && (buf == [] <==> fdIn == |before|)
    {
      buf := disk.Read(path, fdIn, MEBIBYTE);
      UnreadStays(before, w, fdIn, |buf|);
    }

    /** The inner loop of the compaction: short writes of one buffer, until one fails. */
    method WriteBuffer(buf: Bytes, ghost before: Bytes, ghost w: Bytes) returns (o: nat, broke: bool)
      requires path in disk.files && offset == |w| && |w| + |buf| <= |before| && disk.files[path] == w + before[|w|..]
      modifies this`offset, disk
      ensures o <= |buf| && (broke <==> o < |buf|) && (broke ==> disk.faulty) && offset == |w| + o
      ensures disk.files == old(disk.files)[path := (w + buf[..o]) + before[offset..]]
    {
      o, broke := 0, false;
      assert w + buf[..0] == w;
      while o < |buf|
        invariant o <= |buf| && offset == |w| + o
        invariant disk.files == old(disk.files)[path := (w + buf[..o]) + before[offset..]]
      {
        var m2 := disk.Write(path, offset, buf[o..]);
        if m2 < 0 {
          return o, true;
        }
        NextPiece(buf, o, m2);
        assert (w + buf[..o]) + buf[o..][..m2] == w + (buf[..o] + buf[o..][..m2]);
        OverwriteFront(before, w + buf[..o], buf[o..][..m2]);
        o := o + m2;
        offset := offset + m2;
      }
    }
  }

  // ---- fetch ----

  /** `l` is the longest prefix of `rs` within the limits, and says whether anything remains. */
  ghost predicate IsFetchOf(l: EventList, rs: seq<Bytes>, maxCount: nat, maxSize: nat) {
    LongestFit(rs, maxCount, maxSize, l.count)
    && l.data == Flat(rs[..l.count]) && (l.more <==> l.count < |rs|)
  }

  /** memchr for a newline: its index, or the length. */
  function FirstNewline(b: Bytes): (k: nat)
    ensures k <= |b| && (k < |b| ==> b[k] == NEWLINE)
    ensures forall i :: 0 <= i < k ==> b[i] != NEWLINE
  {
    if b == [] || b[0] == NEWLINE then 0 else 1 + FirstNewline(b[1..])
  }

  /** Counts whole records in the buffer that was read from the front of `b`. */
  method ScanRecords(data: Bytes, maxCount: nat, ghost b: Bytes) returns (n: nat, events: nat)
    requires maxCount > 0 && Complete(b) && data <= b
    ensures n <= |data| && events <= |Lines(b)| && events <= maxCount && n == |Flat(Lines(b)[..events])|
    ensures events < |Lines(b)| && events < maxCount ==> |Flat(Lines(b)[..events + 1])| > |data|
  {
    n, events := 0, 0;
    while true
      invariant n <= |data| && events <= |Lines(b)| && events < maxCount && n == |Flat(Lines(b)[..events])|
      decreases maxCount - events
    {
      var k := FirstNewline(data[n..]);
      NextRecord(b, data, events);
      if k == |data| - n {
        break;
      }
      n := n + k + 1;
      events := events + 1;
      if events == maxCount {
        break;
      }
    }
  }

  lemma FlatCons(rs: seq<Bytes>, k: nat)
    requires k < |rs|
    ensures Flat(rs[k..]) == rs[k] + Flat(rs[k + 1..])
    ensures Flat(rs[..k + 1]) == Flat(rs[..k]) + rs[k]
  {
    FlatConcat([rs[k]], rs[k + 1..]);
    FlatAppend([], rs[k]);
    assert [] + [rs[k]] == [rs[k]];
    assert [rs[k]] + rs[k + 1..] == rs[k..];
    FlatAppend(rs[..k], rs[k]);
    assert rs[..k] + [rs[k]] == rs[..k + 1];
  }

  /** The next newline in the buffer ends the next record, if that record lies in the buffer. */
  lemma NextRecord(b: Bytes, data: Bytes, e: nat)
    requires Complete(b) && data <= b && e <= |Lines(b)| && |Flat(Lines(b)[..e])| <= |data|
    ensures var rs, n := Lines(b), |Flat(Lines(b)[..e])|;
            var k := FirstNewline(data[n..]);
            if e < |rs| && |Flat(rs[..e + 1])| <= |data|
            then k < |data| - n && n + k + 1 == |Flat(rs[..e + 1])|
            else k == |data| - n
  {
    var rs, n := Lines(b), |Flat(Lines(b)[..e])|;
    CutAt(b, e);
    assert data[n..] <= b[n..];
    if e < |rs| {
      FlatCons(rs, e);
      LinesAreRecords(b);
      NewlineEndsRecord(data[n..], rs[e], Flat(rs[e + 1..]));
    }
  }

  lemma NewlineEndsRecord(s: Bytes, r: Bytes, rest: Bytes)
    requires IsRecord(r) && s <= r + rest
    ensures FirstNewline(s) == if |r| <= |s| then |r| - 1 else |s|
  {
    assert forall i :: 0 <= i < |r| - 1 ==> r[i] == r[..|r| - 1][i];
    assert forall i :: 0 <= i < |s| && i < |r| ==> s[i] == (r + rest)[i] == r[i];
  }

  /** Scanning the first `cap` bytes finds the longest whole-record prefix. */
  lemma ScannedIsFetch(b: Bytes, maxCount: nat, maxSize: nat, data: Bytes, n: nat, events: nat)
    requires Complete(b) && data == b[..Min(maxSize, |b|)]
    requires n <= |data| && events <= |Lines(b)| && events <= maxCount && n == |Flat(Lines(b)[..events])|
    requires events < |Lines(b)| && events < maxCount ==> |Flat(Lines(b)[..events + 1])| > |data|
    ensures data[..n] <= b && Complete(data[..n]) && events == NewlineCount(data[..n])
    ensures IsFetchOf(EventList(data[..n], events, n < |b|), Lines(b), maxCount, maxSize)
  {
    hide Lines, Flat, Complete, NewlineCount;
    CutAt(b, events);
    MoreIffShorter(b, events);
    if events < |Lines(b)| { CutAt(b, events + 1); }
    assert data[..n] == b[..n];
    assert |Lines(b[..n])| == events;
  }

  lemma MoreIffShorter(b: Bytes, k: nat)
    requires Complete(b) && k <= |Lines(b)|
    ensures |Flat(Lines(b)[..k])| < |b| <==> k < |Lines(b)|
  {
    CutAt(b, k);
    LinesAreRecords(b);
    FlatMonotone(Lines(b), k, |Lines(b)|);
    CutAt(b, |Lines(b)|);
    assert Lines(b)[|Lines(b)|..] == [];
  }

  lemma EmptyIffNoLines(b: Bytes)
    requires Complete(b)
    ensures b == [] <==> Lines(b) == []
  {
  }

  // ---- acknowledge ----

  lemma NoBytes()
    ensures Complete([]) && NewlineCount([]) == 0 && Lines([]) == []
  {
  }

  lemma PrefixLines(b: Bytes, data: Bytes)
    requires Complete(b) && data <= b && Complete(data)
    ensures Complete(b[|data|..]) && Lines(b) == Lines(data) + Lines(b[|data|..])
    ensures Lines(b[|data|..]) == Lines(b)[NewlineCount(data)..]
    ensures NewlineCount(b) == NewlineCount(data) + NewlineCount(b[|data|..])
  {
    assert data + b[|data|..] == b;
    LinesConcat(data, b[|data|..]);
  }

  lemma NextPiece(b: Bytes, o: nat, n: nat)
    requires o + n <= |b|
    ensures b[..o] + b[o..][..n] == b[..o + n]
  {
  }

  lemma WholePiece(b: Bytes, k: nat, i: nat, piece: Bytes)
    requires k <= i && i + |piece| <= |b| && piece == b[i..i + |piece|]
    ensures b[k..i] + piece[..|piece|] == b[k..i + |piece|]
  {
    assert piece[..|piece|] == piece;
  }

  lemma OverwriteFront(before: Bytes, w: Bytes, b: Bytes)
    requires |w| + |b| <= |before|
    ensures Overwrite(w + before[|w|..], |w|, b) == (w + b) + before[|w| + |b|..]
  {
    var c := w + before[|w|..];
    assert c[..|w|] == w;
    if |w| < |c| {
      assert c[|w| + |b|..] == before[|w| + |b|..];
    }
  }

  /** The bytes still to be read have not been overwritten. */
  lemma UnreadStays(before: Bytes, w: Bytes, i: nat, m: nat)
    requires |w| <= i && i + m <= |before|
    ensures (w + before[|w|..])[i..i + m] == before[i..i + m]
  {
    var c, j := w + before[|w|..], i - |w|;
    calc {
      c[i..i + m];
      c[|w|..][j..j + m];
      { assert c[|w|..] == before[|w|..]; }
      before[|w|..][j..j + m];
      before[i..i + m];
    }
  }

  lemma AppendHole(before: Bytes, gap: nat, a: Bytes, b: Bytes)
    ensures Overwrite(before, |before| + gap, b) == before + Hole(gap) + b
    ensures Overwrite(before + Hole(gap) + a, |before| + gap + |a|, b) == before + Hole(gap) + (a + b)
  {
    assert Hole(0) == [];
  }

  lemma {:induction false} HoleHasNoNewline(n: nat)
    ensures NewlineCount(Hole(n)) == 0
  {
    if n > 0 {
      HoleHasNoNewline(n - 1);
      assert Hole(n)[..n - 1] == Hole(n - 1);
    }
  }

  lemma {:induction false} CountConcat(a: Bytes, b: Bytes)
    ensures NewlineCount(a + b) == NewlineCount(a) + NewlineCount(b)
  {
    if b == [] {
      assert a + b == a;
    } else {
      CountConcat(a, b[..|b| - 1]);
      assert (a + b)[..|a + b| - 1] == a + b[..|b| - 1];
    }
  }

  lemma AppendedCounts(before: Bytes, gap: nat, data: Bytes)
    requires IsRecord(data)
    ensures NewlineCount(before + Hole(gap) + data) == NewlineCount(before) + 1
    ensures Complete(before + Hole(gap) + data)
  {
    CountConcat(before + Hole(gap), data);
    CountConcat(before, Hole(gap));
    HoleHasNoNewline(gap);
    LinesOfRecord(data);
    assert |Lines(data)| == 1;
  }
}

/** MemoryEventBatch: a bounded in-memory list of events. */
module MemoryBatch {
  import opened Common
  import opened Records
  import opened FileBatch

  ghost predicate NewlineFree(items: seq<Bytes>) {
    forall i :: 0 <= i < |items| ==> NEWLINE !in items[i]
  }

  /** The records that the events serialize to. */
  ghost function Serialized(items: seq<Bytes>): (rs: seq<Bytes>)
    requires NewlineFree(items)
    ensures |rs| == |items|
  {
    seq(|items|, i requires 0 <= i < |items| => Record(items[i]))
  }

  class MemoryEventBatch {
    var items: seq<Bytes>
    const limit: nat

    ghost predicate Valid()
      reads this
    {
      NewlineFree(items) && |items| <= limit
    }

    ghost function Queue(): seq<Bytes>
      reads this
      requires Valid()
    {
      Serialized(items)
    }

    predicate HasEvents()
      reads this
    {
      items != []
    }

    constructor (limit: nat)
      ensures Valid() && items == [] && this.limit == limit
    {
      this.limit := limit;
      items := [];
    }

    method AddEvent(event: Bytes) returns (ok: bool)
      requires Valid() && NEWLINE !in event
      modifies this
      ensures Valid() && (ok <==> |old(items)| < limit)
      ensures items == if ok then old(items) + [event] else old(items)
    {
      ok := |items| < limit;
      if ok {
        items := items + [event];
      }
    }

    /** Serializes the longest prefix of whole events within both limits. */
    method GetEventsForUpload(maxCount: nat, maxSize: nat) returns (r: Option<EventList>)
      requires Valid()
      ensures r.None? <==> maxCount == 0 || maxSize == 0 || items == []
      ensures r.Some? ==> IsFetchOf(r.value, Queue(), maxCount, maxSize)
    {
      if maxCount == 0 || maxSize == 0 || items == [] {
        return None;
      }
      var ret, count := [], 0;
      ghost var rs := Queue();
      while count < |items|
        invariant count <= |items| && count < maxCount
        invariant ret == Flat(rs[..count]) && |ret| <= maxSize
      {
        assert rs[..count + 1] == rs[..count] + [rs[count]];
        FlatAppend(rs[..count], rs[count]);
        var ns := |ret| + |items[count]| + 2;
        if ns > maxSize {
          break;
        }
        ret := ret + (items[count] + [CR, NEWLINE]);
        count := count + 1;
        if count == maxCount {
          break;
        }
      }
      return Some(EventList(ret, count, count < |items|));
    }

    /** Erases as many events as the list counts. Erasing more than there are is undefined: the result says
        whether it was in bounds, and out of bounds the model erases nothing. */
    method OnEventsUploaded(l: EventList) returns (inBounds: bool)
      requires Valid()
      modifies this
      ensures Valid() && (inBounds <==> l.count <= |old(items)|)
      ensures items == if inBounds then old(items)[l.count..] else old(items)
      ensures Queue() == if inBounds then old(Queue())[l.count..] else old(Queue())
    {
      inBounds := l.count <= |items|;
      if inBounds {
        items := items[l.count..];
      }
    }

    method TransferAllEvents() returns (all: seq<Bytes>)
      requires Valid()
      modifies this
      ensures Valid() && items == [] && all == old(items)
    {
      all := items;
      items := [];
    }
  }

  /** The file scan and the memory loop agree: on the same records and limits up to 1 MiB they
      return the same bytes, count and flag. */
  lemma FileAndMemoryAgree(file: EventList, mem: EventList, rs: seq<Bytes>, maxCount: nat, maxSize: nat)
    requires AllRecords(rs) && maxSize <= MEBIBYTE
    requires IsFetchOf(file, rs, maxCount, Min(maxSize, MEBIBYTE)) && IsFetchOf(mem, rs, maxCount, maxSize)
    ensures file == mem
  {
    LongestFitIsMaximal(rs, maxCount, maxSize, file.count, mem.count);
    LongestFitIsMaximal(rs, maxCount, maxSize, mem.count, file.count);
  }
}

/** EventUploader: fetch, post, and acknowledge only what the server answered with 200. */
module Uploader {
  import opened Common
  import opened Records
  import opened Posix
  import opened FileBatch
  import opened FileQueue
  import opened MultiFile

  datatype Status = Success | ErrorGeneric | ErrorRateLimit(retryAfter: nat)

  /** `NoResponse` is an HttpError thrown by the client. */
  datatype Response = NoResponse | Response(status: int, retryAfter: Option<nat>)

  /** A post, its answer, and whether the upload steps ask for a retry when that is a 401. */
  datatype Post = Post(body: Bytes, compressed: bool, response: Response, renewed: bool)

  /** The remote end and the upload steps: they may answer anything, and what was asked is remembered. */
  class Server {
    var posts: seq<Post>

    method Send(body: Bytes, compressed: bool) returns (r: Response, renewed: bool)
      modifies this
      ensures posts == old(posts) + [Post(body, compressed, r, renewed)]
    {
      r, renewed := *, *;
      posts := posts + [Post(body, compressed, r, renewed)];
    }
  }

  predicate Answers(r: Response, status: int) { r.Response? && r.status == status }

  /** What an answer means: success is 200 and nothing else; a rate limit is 429 or 503 with a delay. */
  ghost predicate Means(r: Response, s: Status) {
    (s == Success <==> Answers(r, 200))
    && (s.ErrorRateLimit? <==> (Answers(r, 429) || Answers(r, 503)) && r.retryAfter.Some?)
    && (s.ErrorRateLimit? ==> r.retryAfter == Some(s.retryAfter))
  }

  /** `posts` are one upload of `l`: a single post, or a 401 that the steps want retried and one retry. */
  ghost predicate UploadOf(posts: seq<Post>, l: EventList, compress: bool, canRetry: bool) {
    1 <= |posts| <= 2
    && (forall i :: 0 <= i < |posts| ==> posts[i].body == l.data && posts[i].compressed == compress)
    && (|posts| == 2 <==> canRetry && Answers(posts[0].response, 401) && posts[0].renewed)
  }

  /** Posts one list; a 401 is retried at most once, when an upload step asks for it. */
  method SendList(server: Server, l: EventList, compress: bool, canRetry: bool)
    returns (s: Status, ghost sent: seq<Post>)
    modifies server
    ensures server.posts == old(server.posts) + sent && UploadOf(sent, l, compress, canRetry)
    ensures Means(sent[|sent| - 1].response, s)
    decreases canRetry
  {
    var res, renewed := server.Send(l.data, compress);
    sent := [Post(l.data, compress, res, renewed)];
    s := ErrorGeneric;
    if res.NoResponse? {
      return;
    }
    if res.status == 200 {
      s := Success;
    } else if res.status == 429 || res.status == 503 {
      if res.retryAfter.Some? {
        s := ErrorRateLimit(res.retryAfter.value);
      }
    } else if res.status == 401 {
      if renewed && canRetry {
        ghost var more;
        s, more := SendList(server, l, compress, false);
        sent := sent + more;
      }
    }
  }

  /** The last answer to an upload was a 200. */
  predicate Delivered(sent: seq<Post>) { sent != [] && Answers(sent[|sent| - 1].response, 200) }

  /** One upload from `before` that leaves `after`: the longest prefix of the first file within the limits is
      posted, compressed if it has more than one event, and is gone exactly if the last answer was a 200. */
  ghost predicate UploadedFront(before: seq<Bytes>, first: seq<Bytes>, after: seq<Bytes>, sent: seq<Post>,
                                maxCount: nat, maxSize: nat) {
    exists l: EventList ::
      UploadOf(sent, l, l.count > 1, true) && IsHead(l, before, maxCount, maxSize)
      && LongestFit(first, maxCount, maxSize, l.count) && l.data == Flat(first[..l.count])
      && before == (if Delivered(sent) then Lines(l.data) else []) + after
  }

  /** How many records precede the first one over 1 MiB. */
  function Droppable(q: seq<Bytes>): (n: nat)
    ensures n <= |q| && (n < |q| ==> |q[n]| > MEBIBYTE)
    ensures forall i :: 0 <= i < n ==> |q[i]| <= MEBIBYTE
  {
    if q == [] || |q[0]| > MEBIBYTE then 0 else 1 + Droppable(q[1..])
  }

  lemma DroppableNext(q: seq<Bytes>)
    requires q != [] && |q[0]| <= MEBIBYTE
    ensures Droppable(q) == 1 + Droppable(q[1..]) && q[1..][Droppable(q[1..])..] == q[Droppable(q)..]
  {
  }

  /** Sends the front of the queue and acknowledges it after a 200. An empty fetch from a batch that
      claims to have events drops the first event unsent and tries again: with a limit of no events
      per post the queue is dropped up to the first record over 1 MiB. If there is none, success is reported; if
      there is one, the source calls itself again with nothing changed, for ever, and `ends` is false. A stuck
      batch stays as it is. */
  method SendEvents(server: Server, batch: MultiFileEventBatch, maxCount: nat, maxSize: nat)
    returns (s: Status, ends: bool, ghost sent: seq<Post>)
    requires batch.Valid()
    modifies server, batch, batch.disk, batch.oldest, batch.newest
    ensures batch.Valid() && server.posts == old(server.posts) + sent
    ensures old(batch.Stuck()) ==> ends && s == ErrorGeneric && sent == [] && batch.Queue() == old(batch.Queue())
    ensures !old(batch.Stuck()) && (maxCount == 0 || old(batch.Queue()) == []) ==>
              sent == [] && batch.Queue() == old(batch.Queue())[Droppable(old(batch.Queue()))..]
              && (ends <==> batch.Queue() == []) && (ends ==> s == Success)
    ensures !old(batch.Stuck()) && maxCount > 0 && old(batch.Queue()) != [] ==>
              ends && sent != [] && Means(sent[|sent| - 1].response, s)
              && UploadedFront(old(batch.Queue()), old(batch.NextFile()), batch.Queue(), sent, maxCount,
                               Min(maxSize, MEBIBYTE))
    decreases |batch.Queue()|
  {
    hide MultiFileEventBatch.Valid, MultiFileEventBatch.Queue, MultiFileEventBatch.Layout,
      MultiFileEventBatch.NoEmptyFiles, Lines, Flat, IsHead, LongestFit, Droppable, Examined;
    var events := batch.GetEventsForUpload(maxCount, maxSize);
    ghost var q := batch.Queue();
    sent, ends := [], true;
    if events.None? {
      if !batch.Stuck() { batch.HasEventsAfterFetch(); }
      if !batch.HasEvents() {
        return Success, true, [];
      }
      var ok, dropped := DropFirst(batch);
      if !ok {
        return ErrorGeneric, true, [];
      }
      if !dropped {
        return ErrorGeneric, false, [];
      }
      DroppableNext(q);
      s, ends, sent := SendEvents(server, batch, maxCount, maxSize);
      return;
    }
    var l := events.value;
    s, sent := SendList(server, l, l.count > 1, true);
    if s == Success {
      batch.OnEventsUploaded(l);
    }
  }

  /** The drop path: takes the first event off the queue without sending it, unless the batch is stuck or
      empty. It acknowledges nothing if the event is over 1 MiB, which one read cannot hold. */
  method DropFirst(batch: MultiFileEventBatch) returns (ok: bool, dropped: bool)
    requires batch.Valid()
    modifies batch, batch.disk, batch.oldest, batch.newest
    ensures batch.Valid() && (ok <==> !old(batch.Stuck()) && old(batch.Queue()) != [])
            && batch.newest == old(batch.newest)
    ensures batch.oldest == null || batch.oldest == old(batch.oldest) || fresh(batch.oldest)
    ensures ok ==> !batch.Stuck() && (dropped <==> |old(batch.Queue())[0]| <= MEBIBYTE)
    ensures ok ==> batch.Queue() == if dropped then old(batch.Queue())[1..] else old(batch.Queue())
    ensures !ok ==> batch.Queue() == old(batch.Queue()) && !dropped
  {
    hide MultiFileEventBatch.Valid, MultiFileEventBatch.Queue, MultiFileEventBatch.Layout,
      MultiFileEventBatch.NoEmptyFiles, Lines, IsHead, LongestFit;
    var ev := batch.GetEventsForUpload(1, SIZE_MAX);
    if ev.None? {
      return false, false;
    }
    ghost var q := batch.Queue();
    batch.QueueRecords();
    HeadEmptyIff(ev.value, q, 1, MEBIBYTE);
    batch.PendingIsFront(ev.value);
    batch.OnEventsUploaded(ev.value);
    assert q[..ev.value.count] + q[ev.value.count..] == q;
    return true, ev.value.count > 0;
  }

  /** A successful upload shortens the queue exactly if the first record fits the limits; otherwise an
      empty body is posted and the same record stays in front. */
  lemma ProgressIffFits(before: seq<Bytes>, first: seq<Bytes>, after: seq<Bytes>, sent: seq<Post>, maxCount: nat,
                        maxSize: nat)
    requires AllRecords(before) && before != [] && maxCount > 0
    requires UploadedFront(before, first, after, sent, maxCount, maxSize) && Delivered(sent)
    ensures |after| < |before| <==> |before[0]| <= maxSize
  {
    var l: EventList :|
      UploadOf(sent, l, l.count > 1, true) && IsHead(l, before, maxCount, maxSize)
      && LongestFit(first, maxCount, maxSize, l.count) && l.data == Flat(first[..l.count])
      && before == Lines(l.data) + after;
    hide Lines, UploadOf, LongestFit;
    HeadEmptyIff(l, before, maxCount, maxSize);
    LinesFlat(before[..l.count]);
  }

  lemma HeadEmptyIff(l: EventList, q: seq<Bytes>, maxCount: nat, maxSize: nat)
    requires AllRecords(q) && q != [] && maxCount > 0 && IsHead(l, q, maxCount, maxSize)
    ensures l.count <= maxCount && (l.count == 0 <==> |q[0]| > maxSize)
  {
    if l.count > 0 {
      FlatMonotone(q, 1, l.count);
      assert q[..1] == [] + [q[0]];
      FlatAppend([], q[0]);
    }
  }
}

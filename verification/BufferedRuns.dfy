/** Whole runs of the buffered queue: exactly when every accepted event is uploaded or stored, in order. */
module BufferedRuns {
  import opened Common
  import opened Records
  import MultiFile
  import opened MemoryBatch
  import opened BufferedBatch

  /** A fetched list: how many records it took from disk and from memory, and which. */
  datatype Taken = Taken(disk: nat, mem: nat, lines: seq<Bytes>)

  /** `defined` is lost when an acknowledgement erases past the end of the buffer. */
  datatype State = State(layers: Layers, taken: Option<Taken>, uploaded: seq<Bytes>, accepted: seq<Bytes>,
                         defined: bool)

  datatype Step = Add(event: Bytes) | Flush | Take(disk: nat, mem: nat) | TakeNothing | Ack

  /** The buffer's size and the largest file, 0 for no limit. */
  datatype Limits = Limits(items: nat, fileSize: nat)

  ghost predicate Fine(s: Layers, lim: Limits) {
    s.Ok(lim.items) && AllFit(s.items, lim.fileSize)
  }

  /** Events fit a file, and a fetch takes from memory only behind everything on disk. */
  ghost predicate Possible(s: Layers, step: Step, lim: Limits) {
    match step
    case Add(event) => NEWLINE !in event && AllFit([event], lim.fileSize)
    case Take(a, c) => a <= |s.disk| && c <= |s.items| && (c > 0 ==> a == |s.disk|)
    case _ => true
  }

  ghost function Apply(r: State, step: Step, lim: Limits): (r': State)
    requires Fine(r.layers, lim) && Possible(r.layers, step, lim)
    ensures Fine(r'.layers, lim)
  {
    var s := r.layers;
    if !r.defined then r
    else match step
      case Add(event) =>
        PutFits(s, event, lim.items, lim.fileSize);
        r.(layers := Put(s, event, lim.items, lim.fileSize), accepted := r.accepted + Accepted([event], lim.items))
      case Flush => r.(layers := Layers(s.disk + Kept(s.items, lim.fileSize), [], true))
      case Take(a, c) => r.(layers := s.(disturbed := false), taken := Some(Taken(a, c, s.Queue()[..a + c])))
      case TakeNothing => r.(layers := s.(disturbed := false), taken := None)
      case Ack =>
        if r.taken.None? then r
        else if r.taken.value.mem > |s.items| || r.taken.value.disk > |s.disk| then r.(defined := false)
        else r.(layers := s.(disk := s.disk[r.taken.value.disk..], items := s.items[r.taken.value.mem..]),
                taken := None, uploaded := r.uploaded + r.taken.value.lines)
  }

  ghost predicate AllPossible(r: State, steps: seq<Step>, lim: Limits)
    requires Fine(r.layers, lim)
    decreases |steps|, 0
  {
    steps == []
    || (AllPossible(r, steps[..|steps| - 1], lim)
        && Possible(Run(r, steps[..|steps| - 1], lim).layers, steps[|steps| - 1], lim))
  }

  ghost function Run(r: State, steps: seq<Step>, lim: Limits): (r': State)
    requires Fine(r.layers, lim) && AllPossible(r, steps, lim)
    ensures Fine(r'.layers, lim)
    decreases |steps|
  {
    if steps == [] then r else Apply(Run(r, steps[..|steps| - 1], lim), steps[|steps| - 1], lim)
  }

  /** No flush came between a fetch that took from memory and its acknowledgement. */
  ghost predicate Sound(r: State, step: Step) {
    step.Ack? && r.taken.Some? && r.taken.value.mem > 0 ==> !r.layers.disturbed
  }

  ghost predicate AllSound(r: State, steps: seq<Step>, lim: Limits)
    requires Fine(r.layers, lim) && AllPossible(r, steps, lim)
    decreases |steps|
  {
    steps == []
    || (AllSound(r, steps[..|steps| - 1], lim) && Sound(Run(r, steps[..|steps| - 1], lim), steps[|steps| - 1]))
  }

  /** Nothing lost, doubled or out of order. */
  ghost predicate Conserved(r: State, initial: seq<Bytes>)
    requires NewlineFree(r.layers.items)
  {
    r.defined && r.uploaded + r.layers.Queue() == initial + r.accepted
  }

  /** A fetched list is still the front of the queue: behind everything on disk while undisturbed, on disk once
      flushed. */
  ghost predicate TakenOk(r: State)
    requires NewlineFree(r.layers.items)
  {
    r.taken.Some? ==>
      var t := r.taken.value;
      var s := r.layers;
      t.disk <= |s.disk| && t.disk + t.mem <= |s.Queue()| && t.lines == s.Queue()[..t.disk + t.mem]
      && (t.mem > 0 ==> if s.disturbed then t.disk + t.mem <= |s.disk| else t.disk == |s.disk| && t.mem <= |s.items|)
  }

  ghost predicate Good(r: State, initial: seq<Bytes>)
    requires NewlineFree(r.layers.items)
  {
    Conserved(r, initial) && TakenOk(r)
  }

  /** `y` was accepted and is nowhere any more. */
  ghost predicate Gone(r: State, initial: seq<Bytes>, y: Bytes)
    requires NewlineFree(r.layers.items)
  {
    y in initial + r.accepted && y !in r.uploaded && y !in r.layers.Queue()
    && (r.taken.Some? ==> y !in r.taken.value.lines)
  }

  ghost predicate Broken(r: State, initial: seq<Bytes>)
    requires NewlineFree(r.layers.items)
  {
    !r.defined || exists y :: Gone(r, initial, y)
  }

  // ---- single steps ----

  lemma GoodAdd(r: State, event: Bytes, lim: Limits, initial: seq<Bytes>)
    requires Fine(r.layers, lim) && Good(r, initial) && Possible(r.layers, Add(event), lim)
    ensures Good(Apply(r, Add(event), lim), initial)
  {
    var s := r.layers;
    PutQueue(s, event, lim.items, lim.fileSize);
    PutFits(s, event, lim.items, lim.fileSize);
    var r' := Apply(r, Add(event), lim);
    if r.taken.Some? { AddKeepsTaken(r, event, lim); }
    hide Kept, AllFit, Put, Layers.Queue, TakenOk, Accepted;
    assert r'.uploaded + r'.layers.Queue() == (r.uploaded + s.Queue()) + Accepted([event], lim.items);
    assert initial + r'.accepted == (initial + r.accepted) + Accepted([event], lim.items);
  }

  lemma AddKeepsTaken(r: State, event: Bytes, lim: Limits)
    requires Fine(r.layers, lim) && r.defined && TakenOk(r) && r.taken.Some? && Possible(r.layers, Add(event), lim)
    ensures TakenOk(Apply(r, Add(event), lim))
  {
    var s := r.layers;
    PutQueue(s, event, lim.items, lim.fileSize);
    PutFits(s, event, lim.items, lim.fileSize);
    hide Kept, AllFit, Layers.Queue, Accepted;
    QueueSize(s);
    var n := r.taken.value.disk + r.taken.value.mem;
    assert Apply(r, Add(event), lim).layers.Queue()[..n] == s.Queue()[..n];
  }

  lemma QueueSize(s: Layers)
    requires NewlineFree(s.items)
    ensures |s.Queue()| == |s.disk| + |s.items|
  {
  }

  lemma FlushKeeps(s: Layers, lim: Limits)
    requires Fine(s, lim)
    ensures Layers(s.disk + Kept(s.items, lim.fileSize), [], true).Queue() == s.Queue()
    ensures |Kept(s.items, lim.fileSize)| == |s.items|
  {
    KeptIffFit(s.items, lim.fileSize);
    assert Serialized([]) == [];
  }

  lemma SerializedFrom(items: seq<Bytes>, k: nat)
    requires NewlineFree(items) && k <= |items|
    ensures Serialized(items[k..]) == Serialized(items)[k..]
  {
  }

  lemma FrontSplits(d: seq<Bytes>, m: seq<Bytes>, a: nat, c: nat, up: seq<Bytes>)
    requires a <= |d| && c <= |m| && (c > 0 ==> a == |d|)
    ensures up + (d + m) == (up + (d + m)[..a + c]) + (d[a..] + m[c..])
  {
    assert d + m == (d + m)[..a + c] + (d[a..] + m[c..]);
  }

  lemma GoodAck(r: State, lim: Limits, initial: seq<Bytes>)
    requires Fine(r.layers, lim) && Good(r, initial) && Sound(r, Ack)
    ensures Good(Apply(r, Ack, lim), initial)
  {
    if r.taken.Some? {
      var t, s := r.taken.value, r.layers;
      SerializedFrom(s.items, t.mem);
      hide Serialized, AllFit;
      FrontSplits(s.disk, Serialized(s.items), t.disk, t.mem, r.uploaded);
    }
  }

  lemma GoodStep(r: State, step: Step, lim: Limits, initial: seq<Bytes>)
    requires Fine(r.layers, lim) && Good(r, initial) && Possible(r.layers, step, lim) && Sound(r, step)
    ensures Good(Apply(r, step, lim), initial)
  {
    hide Kept, AllFit, Serialized;
    match step
    case Add(event) => GoodAdd(r, event, lim, initial);
    case Flush => FlushKeeps(r.layers, lim);
    case Ack => GoodAck(r, lim, initial);
    case _ =>
  }

  /** An acknowledgement after a flush erases an event that was not in its list, if it stays in bounds. */
  lemma BadAck(r: State, lim: Limits, initial: seq<Bytes>)
    requires Fine(r.layers, lim) && Good(r, initial) && !Sound(r, Ack) && Distinct(initial + r.accepted)
    ensures Broken(Apply(r, Ack, lim), initial)
  {
    var t, s := r.taken.value, r.layers;
    if t.mem <= |s.items| {
      var r' := Apply(r, Ack, lim);
      var y := Serialized(s.items)[0];
      var n := |r.uploaded| + |s.disk|;
      assert (r.uploaded + s.Queue())[n] == y;
      SerializedFrom(s.items, t.mem);
      OnlyAt(initial + r.accepted, n, r.uploaded + s.disk, Serialized(s.items)[1..], y);
      assert Gone(r', initial, y);
    }
  }

  /** In a sequence without repetitions an element is in no other part of it. */
  lemma OnlyAt(q: seq<Bytes>, n: nat, before: seq<Bytes>, after: seq<Bytes>, y: Bytes)
    requires Distinct(q) && q == before + [y] + after && n == |before|
    ensures y !in before && y !in after
  {
    forall i | 0 <= i < |before| ensures before[i] != y { assert q[i] != q[n]; }
    forall i | 0 <= i < |after| ensures after[i] != y { assert q[n + 1 + i] != q[n]; }
  }

  lemma GoneStays(r: State, step: Step, lim: Limits, initial: seq<Bytes>, y: Bytes)
    requires Fine(r.layers, lim) && r.defined && Gone(r, initial, y) && Possible(r.layers, step, lim)
    requires Distinct(initial + Apply(r, step, lim).accepted)
    ensures Apply(r, step, lim).defined ==> Gone(Apply(r, step, lim), initial, y)
  {
    hide Kept, AllFit;
    var s, r' := r.layers, Apply(r, step, lim);
    match step
    case Add(event) =>
      PutQueue(s, event, lim.items, lim.fileSize);
      assert initial + r'.accepted == (initial + r.accepted) + Accepted([event], lim.items);
      NewDiffers(initial + r.accepted, Accepted([event], lim.items), y);
    case Flush =>
      FlushKeeps(s, lim);
    case Ack =>
      if r.taken.Some? && r'.defined {
        SerializedFrom(s.items, r.taken.value.mem);
      }
    case _ =>
  }

  lemma NewDiffers(q: seq<Bytes>, added: seq<Bytes>, y: Bytes)
    requires Distinct(q + added) && y in q
    ensures y !in added
  {
    var i :| 0 <= i < |q| && q[i] == y;
    forall j | 0 <= j < |added| ensures added[j] != y { assert (q + added)[i] != (q + added)[|q| + j]; }
  }

  lemma BrokenStays(r: State, step: Step, lim: Limits, initial: seq<Bytes>)
    requires Fine(r.layers, lim) && Broken(r, initial) && Possible(r.layers, step, lim)
    requires Distinct(initial + Apply(r, step, lim).accepted)
    ensures Broken(Apply(r, step, lim), initial)
  {
    hide Gone, Distinct;
    if r.defined {
      var y :| Gone(r, initial, y);
      GoneStays(r, step, lim, initial, y);
    }
  }

  // ---- whole runs ----

  ghost predicate Starts(r: State, lim: Limits) {
    Fine(r.layers, lim) && r.taken.None? && r.uploaded == [] && r.accepted == [] && r.defined
  }

  lemma DistinctBefore(initial: seq<Bytes>, r: State, step: Step, lim: Limits)
    requires Fine(r.layers, lim) && Possible(r.layers, step, lim) && Distinct(initial + Apply(r, step, lim).accepted)
    ensures Distinct(initial + r.accepted)
  {
    var a, a' := initial + r.accepted, initial + Apply(r, step, lim).accepted;
    assert forall i :: 0 <= i < |a| ==> a[i] == a'[i];
  }

  lemma {:induction false} GoodWhileSound(r: State, steps: seq<Step>, lim: Limits)
    requires Starts(r, lim) && AllPossible(r, steps, lim) && Distinct(r.layers.Queue() + Run(r, steps, lim).accepted)
    ensures if AllSound(r, steps, lim) then Good(Run(r, steps, lim), r.layers.Queue())
            else Broken(Run(r, steps, lim), r.layers.Queue())
    decreases |steps|
  {
    hide Distinct, Good, Broken, Apply, AllFit, Sound, Possible;
    var initial := r.layers.Queue();
    if steps == [] {
      GoodAtStart(r, lim);
    } else {
      var front, step := steps[..|steps| - 1], steps[|steps| - 1];
      var before := Run(r, front, lim);
      DistinctBefore(initial, before, step, lim);
      GoodWhileSound(r, front, lim);
      if !AllSound(r, front, lim) {
        BrokenStays(before, step, lim, initial);
      } else if Sound(before, step) {
        GoodStep(before, step, lim, initial);
      } else {
        UnsoundIsAck(before, step);
        BadAck(before, lim, initial);
      }
    }
  }

  lemma GoodAtStart(r: State, lim: Limits)
    requires Starts(r, lim)
    ensures Good(r, r.layers.Queue())
  {
    assert [] + r.layers.Queue() == r.layers.Queue() + [];
  }

  lemma UnsoundIsAck(r: State, step: Step)
    requires !Sound(r, step)
    ensures step == Ack
  {
  }

  /** In a run with distinct events that all fit a file, every accepted event is uploaded or stored, once and in
      order, if and only if no flush comes between a fetch that takes from memory and its acknowledgement. */
  lemma ConservedIffSound(r: State, steps: seq<Step>, lim: Limits)
    requires Starts(r, lim) && AllPossible(r, steps, lim) && Distinct(r.layers.Queue() + Run(r, steps, lim).accepted)
    ensures Conserved(Run(r, steps, lim), r.layers.Queue()) <==> AllSound(r, steps, lim)
  {
    hide Run, AllSound, AllPossible, Distinct, AllFit;
    GoodWhileSound(r, steps, lim);
    var end := Run(r, steps, lim);
    if !AllSound(r, steps, lim) && end.defined {
      var y :| Gone(end, r.layers.Queue(), y);
      assert y !in end.uploaded + end.layers.Queue();
    }
  }

  // ---- the batch follows the runs ----

  datatype Call = AddEvent(event: Bytes) | FlushBuffer | FetchList(maxCount: nat, maxSize: nat) | AckList

  ghost predicate CallOk(call: Call, lim: Limits) {
    call.AddEvent? ==> NEWLINE !in call.event && AllFit([call.event], lim.fileSize)
  }

  /** A fetch takes some records, or returns a list that wraps null. */
  predicate IsStepOf(step: Step, call: Call) {
    match call
    case AddEvent(event) => step == Add(event)
    case FlushBuffer => step == Flush
    case FetchList(_, _) => step.Take? || step == TakeNothing
    case AckList => step == Ack
  }

  /** The list that the caller holds is the one the state says was taken. */
  ghost predicate Holding(held: Option<BufferedList>, taken: Option<Taken>) {
    held.Some? == taken.Some?
    && (held.Some? ==> held.value.NonNull()
                       && taken.value == Taken(held.value.DiskCount(), held.value.MemoryCount(), Uploaded(held.value)))
  }

  /** `b` is in the state that the run has reached. */
  ghost predicate Follows(b: BufferedEventBatch, r: State, held: Option<BufferedList>, lim: Limits)
    reads b, b.mem, b.wrapped, b.wrapped.disk, b.wrapped.oldest, b.wrapped.newest
  {
    b.Valid() && lim == Limits(b.mem.limit, b.wrapped.fileMaxSize) && !b.wrapped.Stuck() && r.defined
    && Fine(r.layers, lim) && b.Split() == r.layers && Holding(held, r.taken) && (held.Some? ==> b.pending == held)
  }

  /** What an acknowledgement says was uploaded. */
  ghost function Sent(call: Call, held: Option<BufferedList>, inBounds: bool): seq<Bytes> {
    if call.AckList? && held.Some? && inBounds then Uploaded(held.value) else []
  }

  method DoCall(b: BufferedEventBatch, call: Call, held: Option<BufferedList>, ghost r: State, ghost lim: Limits)
    returns (ghost step: Step, held': Option<BufferedList>, inBounds: bool)
    requires Follows(b, r, held, lim) && CallOk(call, lim)
    modifies b, b.mem, b.wrapped, b.wrapped.disk, b.wrapped.oldest, b.wrapped.newest
    ensures IsStepOf(step, call) && Possible(r.layers, step, lim) && inBounds == Apply(r, step, lim).defined
    ensures inBounds ==> Follows(b, Apply(r, step, lim), held', lim)
    ensures Apply(r, step, lim).uploaded == r.uploaded + Sent(call, held, inBounds)
    ensures b.wrapped.newest == old(b.wrapped.newest) || fresh(b.wrapped.newest)
    ensures b.wrapped.oldest == null || b.wrapped.oldest == old(b.wrapped.oldest)
            || b.wrapped.oldest == old(b.wrapped.newest) || fresh(b.wrapped.oldest)
  {
    hide BufferedEventBatch.PendingOk, MultiFile.MultiFileEventBatch.Valid, MultiFile.MultiFileEventBatch.Queue,
      Kept, AllFit, Uploaded, Serialized;
    held', inBounds := held, true;
    match call {
      case AddEvent(event) =>
        step := Add(event);
        var _ := b.AddEvent(event);
      case FlushBuffer =>
        step := Flush;
        b.FlushInternal();
      case FetchList(maxCount, maxSize) =>
        var l := Fetch(b, maxCount, maxSize);
        held' := if l.NonNull() then Some(l) else None;
        step := if l.NonNull() then Take(l.DiskCount(), l.MemoryCount()) else TakeNothing;
      case AckList =>
        step := Ack;
        held' := None;
        if held.Some? {
          inBounds := Acknowledge(b, held.value);
        }
    }
  }

  /** Every sequence of calls is a run; it ends early if an acknowledgement is out of bounds. With distinct events
      that fit a file, the uploaded and the stored records are the initial and the accepted ones, in order, if
      and only if no acknowledgement came after a flush of records that it had fetched from memory. */
  method Session(b: BufferedEventBatch, calls: seq<Call>, ghost lim: Limits)
    returns (ghost steps: seq<Step>, ghost start: State, inBounds: bool, ghost uploaded: seq<Bytes>)
    requires b.Valid() && lim == Limits(b.mem.limit, b.wrapped.fileMaxSize) && !b.wrapped.Stuck()
    requires AllFit(b.mem.items, lim.fileSize) && forall i :: 0 <= i < |calls| ==> CallOk(calls[i], lim)
    modifies b, b.mem, b.wrapped, b.wrapped.disk, b.wrapped.oldest, b.wrapped.newest
    ensures |steps| <= |calls| && (inBounds ==> |steps| == |calls|)
    ensures forall i :: 0 <= i < |steps| ==> IsStepOf(steps[i], calls[i])
    ensures start == State(old(b.Split()), None, [], [], true) && Starts(start, lim) && AllPossible(start, steps, lim)
    ensures uploaded == Run(start, steps, lim).uploaded
    ensures Distinct(old(b.Queue()) + Run(start, steps, lim).accepted) ==>
              (inBounds && b.Valid() && uploaded + b.Queue() == old(b.Queue()) + Run(start, steps, lim).accepted
               <==> AllSound(start, steps, lim))
  {
    hide BufferedEventBatch.PendingOk, MultiFile.MultiFileEventBatch.Valid, MultiFile.MultiFileEventBatch.Queue,
      Kept, AllFit, Uploaded, Serialized, Apply, Possible, AllSound, Distinct;
    start := State(b.Split(), None, [], [], true);
    steps, inBounds, uploaded := [], true, [];
    ghost var r := start;
    var held: Option<BufferedList> := None;
    var i := 0;
    while i < |calls| && inBounds
      invariant |steps| == i <= |calls| && forall j :: 0 <= j < i ==> IsStepOf(steps[j], calls[j])
      invariant AllPossible(start, steps, lim) && r == Run(start, steps, lim)
      invariant uploaded == r.uploaded
      invariant inBounds == r.defined && (inBounds ==> Follows(b, r, held, lim))
      invariant b.wrapped.newest == old(b.wrapped.newest) || fresh(b.wrapped.newest)
      invariant b.wrapped.oldest == null || b.wrapped.oldest == old(b.wrapped.oldest)
                || b.wrapped.oldest == old(b.wrapped.newest) || fresh(b.wrapped.oldest)
    {
      ghost var step;
      ghost var acked := held;
      step, held, inBounds := DoCall(b, calls[i], held, r, lim);
      uploaded := uploaded + Sent(calls[i], acked, inBounds);
      assert (steps + [step])[..i] == steps;
      steps := steps + [step];
      r := Apply(r, step, lim);
      i := i + 1;
    }
    if Distinct(start.layers.Queue() + r.accepted) { ConservedIffSound(start, steps, lim); }
  }
}

/** A queue in numbered files: what MultiFileEventBatch does to its files, whatever they hold. */
module FileQueue {
  /** The contents of all files but the newest, oldest first, and of the newest; `reading` says that the first of
      the earlier files is open for fetching. */
  datatype Files<T> = Files(earlier: seq<seq<T>>, newest: seq<T>, reading: bool) {
    predicate Ok() { reading ==> earlier != [] }

    /** What hasEvents answers: it looks at the contents of the newest file only. */
    predicate HasEvents() { earlier != [] || |newest| > 0 }

    /** The open file is empty, which no fetch gets over. */
    predicate Stuck() { reading && earlier != [] && |earlier[0]| == 0 }

    /** A file is open for fetching, or there is only one. */
    predicate Ready() { if reading then earlier != [] else earlier == [] }

    /** The file that a fetch reads. */
    function First(): seq<T>
      requires Ready()
    {
      if reading then earlier[0] else newest
    }

    function Queue(): seq<T> { Joined(earlier) + newest }

    /** The last of the earlier files is empty, and so is the newest. */
    predicate EmptyTail() { earlier != [] && |earlier[|earlier| - 1]| == 0 && |newest| == 0 }
  }

  function Joined<T>(fs: seq<seq<T>>): seq<T> {
    if fs == [] then [] else fs[0] + Joined(fs[1..])
  }

  // ---- what the operations do ----

  /** checkOldestBatch: deletes the empty files before the first one that is not, and opens that one. */
  function Examined<T>(f: Files<T>): (f': Files<T>)
    requires f.Ok()
    ensures f'.Ready() && f'.newest == f.newest
    decreases |f.earlier|
  {
    if f.reading || f.earlier == [] then f
    else if |f.earlier[0]| > 0 then f.(reading := true)
    else Examined(f.(earlier := f.earlier[1..]))
  }

  /** The newest file becomes the last of the earlier ones; it is fetched from directly if it is the only one. */
  function Rolled<T>(f: Files<T>): (f': Files<T>)
    requires f.Ok()
    ensures f'.Ok()
  {
    Files(f.earlier + [f.newest], [], f.reading || f.earlier == [])
  }

  function Appended<T>(f: Files<T>, x: T): Files<T> { f.(newest := f.newest + [x]) }

  /** addEvent: appends to the newest file if that has `room`, or else to a new one if the entry `fits` it. */
  function Put<T>(f: Files<T>, x: T, room: bool, fits: bool): (f': Files<T>)
    requires f.Ok()
    ensures f'.Ok()
  {
    if room then Appended(f, x) else if fits then Appended(Rolled(f), x) else Rolled(f)
  }

  /** The first `k` entries of the file that is fetched from are gone, and an earlier file with its last one. */
  function Cut<T>(f: Files<T>, k: nat): (f': Files<T>)
    requires f.Ready() && k <= |f.First()|
    ensures f'.Ok()
  {
    if !f.reading then f.(newest := f.newest[k..])
    else if k == |f.earlier[0]| then Files(f.earlier[1..], f.newest, false)
    else f.(earlier := [f.earlier[0][k..]] + f.earlier[1..])
  }

  // ---- what that means for the queue ----

  lemma {:induction false} JoinedConcat<T>(a: seq<seq<T>>, b: seq<seq<T>>)
    ensures Joined(a + b) == Joined(a) + Joined(b)
  {
    if a == [] {
      assert a + b == b;
    } else {
      assert (a + b)[1..] == a[1..] + b;
      JoinedConcat(a[1..], b);
    }
  }

  lemma JoinedOne<T>(q: seq<T>)
    ensures Joined([q]) == q
  {
    assert [q][1..] == [];
  }

  lemma {:induction false} ExaminedQueue<T>(f: Files<T>)
    requires f.Ok()
    ensures Examined(f).Queue() == f.Queue() && (Examined(f).Stuck() <==> f.Stuck())
    ensures f.Queue() == [] && !f.Stuck() ==> Examined(f) == Files([], [], false)
    decreases |f.earlier|
  {
    assert f.earlier != [] ==> |f.Queue()| >= |f.earlier[0]|;
    if f.reading || f.earlier == [] || |f.earlier[0]| > 0 {
    } else {
      ExaminedQueue(f.(earlier := f.earlier[1..]));
    }
  }

  lemma RolledQueue<T>(f: Files<T>)
    requires f.Ok()
    ensures Rolled(f).Queue() == f.Queue()
    ensures Rolled(f).Stuck() <==> f.Stuck() || (f.earlier == [] && |f.newest| == 0)
  {
    JoinedConcat(f.earlier, [f.newest]);
    JoinedOne(f.newest);
  }

  lemma AppendedQueue<T>(f: Files<T>, x: T)
    ensures Appended(f, x).Queue() == f.Queue() + [x]
  {
  }

  lemma FirstIsFront<T>(f: Files<T>)
    requires f.Ready()
    ensures |f.First()| <= |f.Queue()| && f.Queue()[..|f.First()|] == f.First()
    ensures f.Queue() == [] ==> f.First() == []
  {
    if f.reading { assert f.Queue() == f.earlier[0] + (Joined(f.earlier[1..]) + f.newest); }
  }

  lemma CutQueue<T>(f: Files<T>, k: nat)
    requires f.Ready() && k <= |f.First()|
    ensures k <= |f.Queue()| && Cut(f, k).Queue() == f.Queue()[k..]
    ensures |f.First()| > 0 ==> !Cut(f, k).Stuck()
  {
    FirstIsFront(f);
    if f.reading {
      var rest := Joined(f.earlier[1..]) + f.newest;
      assert f.Queue() == f.earlier[0] + rest;
      if k < |f.earlier[0]| {
        var cut := [f.earlier[0][k..]] + f.earlier[1..];
        assert cut[1..] == f.earlier[1..];
        assert Joined(cut) + f.newest == f.earlier[0][k..] + rest;
      }
    }
  }

  /** What was fetched stays in front while other operations add to the queue. */
  lemma AppendedFirst<T>(f: Files<T>, x: T)
    requires f.Ready()
    ensures Appended(f, x).Ready() && f.First() <= Appended(f, x).First()
  {
  }

  lemma RolledFirst<T>(f: Files<T>)
    requires f.Ready()
    ensures Rolled(f).Ready() && Rolled(f).First() == f.First()
  {
  }

  // ---- an empty file behind everything ----

  lemma {:induction false} LastJoined<T>(fs: seq<seq<T>>)
    requires fs != []
    ensures |fs[|fs| - 1]| <= |Joined(fs)|
  {
    if |fs| == 1 {
    } else {
      LastJoined(fs[1..]);
    }
  }

  /** Without an empty tail hasEvents is exact. */
  lemma HasEventsExact<T>(f: Files<T>)
    requires !f.EmptyTail()
    ensures f.HasEvents() <==> f.Queue() != []
  {
    if f.earlier == [] {
    } else {
      LastJoined(f.earlier);
    }
  }

  /** A fetch with something to fetch reads a file that has it. */
  lemma ExaminedFirst<T>(f: Files<T>)
    requires f.Ok() && !f.Stuck() && f.Queue() != []
    ensures |Examined(f).First()| > 0
  {
    ExaminedQueue(f);
  }

  lemma OneEmpty<T>(f: Files<T>)
    requires |f.earlier| == 1 && |f.earlier[0]| == 0
    ensures f.Queue() == f.newest
  {
    assert f.earlier == [f.earlier[0]];
    JoinedOne(f.earlier[0]);
  }

  lemma {:induction false} ExaminedTail<T>(f: Files<T>)
    requires f.Ok()
    ensures !f.EmptyTail() ==> !Examined(f).EmptyTail()
    ensures f.EmptyTail() && f.Queue() != [] ==> Examined(f).EmptyTail()
    decreases |f.earlier|
  {
    if f.reading || f.earlier == [] || |f.earlier[0]| > 0 {
    } else {
      ExaminedTail(f.(earlier := f.earlier[1..]));
      if |f.earlier| == 1 { OneEmpty(f); }
    }
  }

  lemma CutTail<T>(f: Files<T>, k: nat)
    requires f.Ready() && !f.Stuck() && k <= |f.First()|
    ensures !Cut(f, k).Stuck() && (!f.EmptyTail() ==> !Cut(f, k).EmptyTail())
    ensures f.EmptyTail() ==> Cut(f, k).EmptyTail()
  {
    CutQueue(f, k);
  }

  /** The first of some files that holds anything, or nothing if none does. */
  function FirstNonEmpty<T>(fs: seq<seq<T>>): seq<T> {
    if fs == [] then [] else if |fs[0]| > 0 then fs[0] else FirstNonEmpty(fs[1..])
  }

  /** Unless the batch is stuck, a fetch reads the first file that holds anything. */
  lemma {:induction false} ExaminedIsFirst<T>(f: Files<T>)
    requires f.Ok() && !f.Stuck()
    ensures Examined(f).First() == FirstNonEmpty(f.earlier + [f.newest])
    decreases |f.earlier|
  {
    var all := f.earlier + [f.newest];
    if f.reading || f.earlier == [] || |f.earlier[0]| > 0 {
      assert f.earlier == [] ==> all == [f.newest] && all[1..] == [];
    } else {
      assert all[1..] == f.earlier[1..] + [f.newest];
      ExaminedIsFirst(f.(earlier := f.earlier[1..]));
    }
  }
}

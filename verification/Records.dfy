/** Newline-terminated records: the byte format that every telemetry batch stores and uploads.
    The abstract value of a batch is a sequence of records; `Lines` reads it off the bytes. */
module Records {
  import opened Common

  const CR: Byte := 13
  const NEWLINE: Byte := 10

  /** A record ends in its only newline. */
  predicate IsRecord(r: Bytes) {
    r != [] && r[|r| - 1] == NEWLINE && NEWLINE !in r[..|r| - 1]
  }

  predicate AllRecords(rs: seq<Bytes>) {
    forall i :: 0 <= i < |rs| ==> IsRecord(rs[i])
  }

  /** The record that stores one event, given the newline-free text of the event. */
  function Record(event: Bytes): (r: Bytes)
    requires NEWLINE !in event
    ensures IsRecord(r) && |r| == |event| + 2
  {
    event + [CR, NEWLINE]
  }

  /** Length of the longest newline-terminated prefix. */
  function Recovered(b: Bytes): (n: nat)
    ensures n <= |b|
  {
    if b == [] then 0
    else if b[|b| - 1] == NEWLINE then |b|
    else Recovered(b[..|b| - 1])
  }

  lemma {:induction false} RecoveredIsLongest(b: Bytes)
    ensures Complete(b[..Recovered(b)])
    ensures NEWLINE !in b[Recovered(b)..]
  {
    if !Complete(b) {
      var front := b[..|b| - 1];
      RecoveredIsLongest(front);
      assert b[Recovered(b)..] == front[Recovered(b)..] + [b[|b| - 1]];
      assert b[..Recovered(b)] == front[..Recovered(b)];
    }
  }

  predicate Complete(b: Bytes) {
    b == [] || b[|b| - 1] == NEWLINE
  }

  function NewlineCount(b: Bytes): nat {
    if b == [] then 0
    else NewlineCount(b[..|b| - 1]) + if b[|b| - 1] == NEWLINE then 1 else 0
  }

  /** The complete records of `b`; a torn record at the end is ignored. */
  function Lines(b: Bytes): (rs: seq<Bytes>)
    ensures |rs| == NewlineCount(b)
  {
    if b == [] then []
    else
      var front := b[..|b| - 1];
      if b[|b| - 1] == NEWLINE then Lines(front) + [b[Recovered(front)..]] else Lines(front)
  }

  lemma {:induction false} LinesAreRecords(b: Bytes)
    ensures AllRecords(Lines(b))
  {
    if b == [] {
    } else {
      var front := b[..|b| - 1];
      LinesAreRecords(front);
      RecoveredIsLongest(front);
      var r := b[Recovered(front)..];
      assert r[..|r| - 1] == front[Recovered(front)..];
    }
  }

  function Flat(rs: seq<Bytes>): Bytes {
    if rs == [] then [] else Flat(rs[..|rs| - 1]) + rs[|rs| - 1]
  }

  lemma FlatAppend(rs: seq<Bytes>, r: Bytes)
    ensures Flat(rs + [r]) == Flat(rs) + r
  {
    assert (rs + [r])[..|rs|] == rs;
  }

  lemma {:induction false} FlatConcat(rs: seq<Bytes>, ss: seq<Bytes>)
    ensures Flat(rs + ss) == Flat(rs) + Flat(ss)
  {
    if ss == [] {
      assert rs + ss == rs;
    } else {
      var front, last := ss[..|ss| - 1], ss[|ss| - 1];
      calc {
        Flat(rs + ss);
        { assert rs + ss == (rs + front) + [last]; }
        Flat((rs + front) + [last]);
        { FlatAppend(rs + front, last); }
        Flat(rs + front) + last;
        { FlatConcat(rs, front); }
        (Flat(rs) + Flat(front)) + last;
        Flat(rs) + (Flat(front) + last);
      }
    }
  }

  lemma FlatNothing()
    ensures Flat([]) == []
  {
  }

  /** Reading a file back loses exactly the torn tail. */
  lemma {:induction false} FlatLines(b: Bytes)
    ensures Flat(Lines(b)) == b[..Recovered(b)]
  {
    hide Flat;
    if b == [] {
      FlatNothing();
    } else {
      var front := b[..|b| - 1];
      FlatLines(front);
      if b[|b| - 1] == NEWLINE {
        FlatAppend(Lines(front), b[Recovered(front)..]);
        assert b[..Recovered(front)] == front[..Recovered(front)];
        assert Flat(Lines(b)) == b;
      } else {
        assert b[..Recovered(b)] == front[..Recovered(front)];
      }
    }
  }

  lemma {:induction false} RecoveredConcat(a: Bytes, b: Bytes)
    requires Complete(a)
    ensures Recovered(a + b) == |a| + Recovered(b)
  {
    if b == [] {
      assert a + b == a;
    } else {
      RecoveredConcat(a, b[..|b| - 1]);
      assert (a + b)[..|a + b| - 1] == a + b[..|b| - 1];
    }
  }

  lemma LinesSnoc(b: Bytes, c: Byte)
    ensures Lines(b + [c]) == Lines(b) + LastLine(b, c)
  {
    assert (b + [c])[..|b|] == b;
    assert (b + [c])[Recovered(b)..] == b[Recovered(b)..] + [c];
  }

  /** The record, if any, that the byte `c` completes when it follows `b`. */
  function LastLine(b: Bytes, c: Byte): seq<Bytes> {
    if c == NEWLINE then [b[Recovered(b)..] + [c]] else []
  }

  lemma LastLineLocal(a: Bytes, b: Bytes, c: Byte)
    requires Complete(a)
    ensures LastLine(a + b, c) == LastLine(b, c)
  {
    RecoveredConcat(a, b);
    assert (a + b)[Recovered(a + b)..] == b[Recovered(b)..];
  }

  /** What follows a newline is split independently of what precedes it. */
  lemma {:induction false} LinesConcat(a: Bytes, b: Bytes)
    requires Complete(a)
    ensures Lines(a + b) == Lines(a) + Lines(b)
  {
    if b == [] {
      assert a + b == a;
    } else {
      var front, last := b[..|b| - 1], b[|b| - 1];
      calc {
        Lines(a + b);
        { assert a + b == (a + front) + [last]; }
        Lines((a + front) + [last]);
        { LinesSnoc(a + front, last); }
        Lines(a + front) + LastLine(a + front, last);
        { LastLineLocal(a, front, last); }
        Lines(a + front) + LastLine(front, last);
        { LinesConcat(a, front); }
        (Lines(a) + Lines(front)) + LastLine(front, last);
        Lines(a) + (Lines(front) + LastLine(front, last));
        { LinesSnoc(front, last); assert front + [last] == b; }
        Lines(a) + Lines(b);
      }
    }
  }

  lemma {:induction false} NoNewlineNoLines(b: Bytes)
    requires NEWLINE !in b
    ensures Lines(b) == [] && Recovered(b) == 0
  {
    if b == [] {
    } else {
      NoNewlineNoLines(b[..|b| - 1]);
    }
  }

  lemma LinesOfRecord(r: Bytes)
    requires IsRecord(r)
    ensures Lines(r) == [r] && Complete(r)
  {
    NoNewlineNoLines(r[..|r| - 1]);
  }

  lemma LinesAppend(b: Bytes, r: Bytes)
    requires Complete(b) && IsRecord(r)
    ensures Lines(b + r) == Lines(b) + [r] && Complete(b + r)
  {
    LinesConcat(b, r);
    LinesOfRecord(r);
  }

  /** Writing records and reading them back is the identity. */
  lemma {:induction false} LinesFlat(rs: seq<Bytes>)
    requires AllRecords(rs)
    ensures Lines(Flat(rs)) == rs && Complete(Flat(rs))
  {
    if rs == [] {
    } else {
      var front, last := rs[..|rs| - 1], rs[|rs| - 1];
      LinesFlat(front);
      assert IsRecord(last);
      LinesAppend(Flat(front), last);
      assert rs == front + [last];
    }
  }

  /** Cutting complete bytes after a number of records cuts the record sequence there. */
  lemma CutAt(b: Bytes, k: nat)
    requires Complete(b) && k <= |Lines(b)|
    ensures var n := |Flat(Lines(b)[..k])|;
            n <= |b| && b[..n] == Flat(Lines(b)[..k]) && b[n..] == Flat(Lines(b)[k..])
            && Lines(b[..n]) == Lines(b)[..k] && Lines(b[n..]) == Lines(b)[k..]
            && Complete(b[..n]) && Complete(b[n..])
  {
    hide Lines, Flat, IsRecord, Complete;
    var rs := Lines(b);
    LinesAreRecords(b);
    FlatOfComplete(b);
    FlatConcat(rs[..k], rs[k..]);
    assert rs[..k] + rs[k..] == rs;
    LinesFlat(rs[..k]);
    LinesFlat(rs[k..]);
  }

  lemma FlatOfComplete(b: Bytes)
    requires Complete(b)
    ensures Flat(Lines(b)) == b
  {
    FlatLines(b);
    assert b[..Recovered(b)] == b;
  }

  // ---- the longest whole-record prefix within an upload's limits ----

  /** `k` records are the longest prefix of `rs` within `maxCount` records and `maxSize` bytes. */
  ghost predicate LongestFit(rs: seq<Bytes>, maxCount: nat, maxSize: nat, k: nat) {
    k <= |rs| && k <= maxCount && |Flat(rs[..k])| <= maxSize
    && (k < |rs| && k < maxCount ==> |Flat(rs[..k + 1])| > maxSize)
  }

  lemma {:induction false} FlatMonotone(rs: seq<Bytes>, j: nat, k: nat)
    requires j <= k <= |rs| && AllRecords(rs)
    ensures |Flat(rs[..j])| + (k - j) <= |Flat(rs[..k])|
  {
    if j < k {
      FlatMonotone(rs, j, k - 1);
      assert rs[..k] == rs[..k - 1] + [rs[k - 1]];
      FlatAppend(rs[..k - 1], rs[k - 1]);
    }
  }

  /** No prefix within both limits is longer, so the limits determine the prefix. */
  lemma LongestFitIsMaximal(rs: seq<Bytes>, maxCount: nat, maxSize: nat, k: nat, other: nat)
    requires AllRecords(rs) && LongestFit(rs, maxCount, maxSize, k)
    requires other <= |rs| && other <= maxCount && |Flat(rs[..other])| <= maxSize
    ensures other <= k
  {
    if k < other { FlatMonotone(rs, k + 1, other); }
  }
}

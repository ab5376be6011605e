/** epoll on kqueue: per-descriptor state kept as a set of registered user events, and epoll_ctl. */
module EpollState {
  import opened Common

  const KEYS: nat := 0x10_0000 // 20 bits of key
  const VALUES: nat := 0x1000  // 12 bits of value
  const VAL_BITS: nat := 12

  function Pow2(i: nat): (p: nat)
    ensures p > 0
  {
    if i == 0 then 1 else 2 * Pow2(i - 1)
  }

  /** The user event that stands for bit `i` of the value of `key`. */
  function Ident(key: nat, i: nat): nat { key + Pow2(i) * KEYS }

  lemma {:induction false} Pow2Less(i: nat, j: nat)
    requires i < j
    ensures Pow2(i) < Pow2(j)
  {
    if i + 1 < j { Pow2Less(i, j - 1); }
  }

  /** Different keys or bits never share a user event. */
  lemma IdentInjective(key: nat, i: nat, key': nat, i': nat)
    requires key < KEYS && key' < KEYS && Ident(key, i) == Ident(key', i')
    ensures key == key' && i == i'
  {
    assert Pow2(i) == Pow2(i');
    if i < i' { Pow2Less(i, i'); } else if i' < i { Pow2Less(i', i); }
  }

  // ---- binary digits ----

  function Shift(v: nat, i: nat): nat { if i == 0 then v else Shift(v / 2, i - 1) }

  predicate Bit(v: nat, i: nat) { Shift(v, i) % 2 == 1 }

  lemma {:induction false} ShiftNext(v: nat, i: nat)
    ensures Shift(v, i + 1) == Shift(v, i) / 2
  {
    if i > 0 { ShiftNext(v / 2, i - 1); }
  }

  lemma {:induction false} ShiftAll(v: nat, n: nat)
    requires v < Pow2(n)
    ensures Shift(v, n) == 0
  {
    if n > 0 { ShiftAll(v / 2, n - 1); }
  }

  // ---- the store ----

  /** The bits from `i` on, read off the registered events. */
  function ValueFrom(users: set<nat>, key: nat, i: nat): nat
    requires i <= VAL_BITS
    decreases VAL_BITS - i
  {
    if i == VAL_BITS then 0 else (if Ident(key, i) in users then 1 else 0) + 2 * ValueFrom(users, key, i + 1)
  }

  function Value(users: set<nat>, key: nat): nat { ValueFrom(users, key, 0) }

  lemma {:induction false} ValueIsShifted(users: set<nat>, key: nat, v: nat, i: nat)
    requires v < VALUES && i <= VAL_BITS
    requires forall j :: 0 <= j < VAL_BITS ==> (Ident(key, j) in users <==> Bit(v, j))
    ensures ValueFrom(users, key, i) == Shift(v, i)
    decreases VAL_BITS - i
  {
    if i == VAL_BITS {
      PowTwelve();
      ShiftAll(v, VAL_BITS);
    } else {
      ValueIsShifted(users, key, v, i + 1);
      ShiftNext(v, i);
    }
  }

  lemma PowTwelve()
    ensures Pow2(VAL_BITS) == VALUES
  {
    assert Pow2(4) == 16;
    assert Pow2(8) == 256;
  }

  lemma {:induction false} ValueFrame(users: set<nat>, users': set<nat>, key: nat, i: nat)
    requires i <= VAL_BITS && forall j :: 0 <= j < VAL_BITS ==> (Ident(key, j) in users <==> Ident(key, j) in users')
    ensures ValueFrom(users, key, i) == ValueFrom(users', key, i)
    decreases VAL_BITS - i
  {
    if i < VAL_BITS { ValueFrame(users, users', key, i + 1); }
  }

  /** The events of the first `n` bits of `key` spell `v`. */
  ghost predicate Spelled(users: set<nat>, key: nat, v: nat, n: nat) {
    forall j: nat :: j < n ==> (Ident(key, j) in users <==> Bit(v, j))
  }

  /** No event of another key was touched. */
  ghost predicate OthersKept(users: set<nat>, users': set<nat>, key: nat) {
    forall k: nat, j: nat :: k < KEYS && k != key ==> (Ident(k, j) in users <==> Ident(k, j) in users')
  }

  function WithBit(users: set<nat>, key: nat, v: nat, i: nat): set<nat> {
    if Bit(v, i) then users + {Ident(key, i)} else users + {Ident(key, i)} - {Ident(key, i)}
  }

  lemma BitSpelled(users: set<nat>, key: nat, v: nat, i: nat)
    requires key < KEYS && Spelled(users, key, v, i)
    ensures Spelled(WithBit(users, key, v, i), key, v, i + 1)
    ensures OthersKept(users, WithBit(users, key, v, i), key)
  {
    forall k: nat, j: nat | k < KEYS && (k != key || j != i) ensures Ident(k, j) != Ident(key, i) {
      if Ident(k, j) == Ident(key, i) { IdentInjective(k, j, key, i); }
    }
    hide Ident, Bit;
  }

  lemma StoredValue(users: set<nat>, users': set<nat>, key: nat, v: nat)
    requires v < VALUES && Spelled(users', key, v, VAL_BITS) && OthersKept(users, users', key)
    ensures Value(users', key) == v
    ensures forall k: nat :: k < KEYS && k != key ==> Value(users', k) == Value(users, k)
  {
    ValueIsShifted(users', key, v, 0);
    forall k: nat | k < KEYS && k != key ensures Value(users', k) == Value(users, k) {
      ValueFrame(users, users', k, 0);
    }
  }

  datatype SaveResult = Saved | BadArgument
  datatype LoadResult = Loaded(val: nat) | BadKey

  class Kqueue {
    /** The registered EVFILT_USER idents. */
    var users: set<nat>

    constructor ()
      ensures users == {}
    {
      users := {};
    }

    /** kqueue_save_state: registers the event of every bit and deletes those of the clear ones. */
    method SaveState(key: nat, val: nat) returns (r: SaveResult)
      modifies this
      ensures r.Saved? <==> key < KEYS && val < VALUES
      ensures r.BadArgument? ==> users == old(users)
      ensures r.Saved? ==> Value(users, key) == val
      ensures r.Saved? ==> forall k: nat :: k < KEYS && k != key ==> Value(users, k) == old(Value(users, k))
    {
      if key >= KEYS || val >= VALUES {
        return BadArgument;
      }
      hide Ident, Bit, Value;
      for i := 0 to VAL_BITS
        invariant Spelled(users, key, val, i) && OthersKept(old(users), users, key)
      {
        BitSpelled(users, key, val, i);
        users := users + {Ident(key, i)};
        if !Bit(val, i) {
          users := users - {Ident(key, i)};
        }
      }
      StoredValue(old(users), users, key, val);
      return Saved;
    }

    /** kqueue_load_state: asks for every bit whether its event is registered. */
    method LoadState(key: nat) returns (r: LoadResult)
      ensures r == if key < KEYS then Loaded(Value(users, key)) else BadKey
    {
      if key >= KEYS {
        return BadKey;
      }
      hide Ident, Pow2, ValueFrom;
      FirstPower();
      var nval := 0;
      for i := 0 to VAL_BITS
        invariant nval + Pow2(i) * ValueFrom(users, key, i) == Value(users, key)
      {
        Horner(users, key, i);
        if Ident(key, i) in users {
          nval := nval + Pow2(i);
        }
      }
      return Loaded(nval);
    }
  }

  lemma FirstPower()
    ensures Pow2(0) == 1
  {
  }

  lemma Horner(users: set<nat>, key: nat, i: nat)
    requires i < VAL_BITS
    ensures ValueFrom(users, key, VAL_BITS) == 0
    ensures Pow2(i) * ValueFrom(users, key, i) ==
              (if Ident(key, i) in users then Pow2(i) else 0) + Pow2(i + 1) * ValueFrom(users, key, i + 1)
  {
    Distribute(Pow2(i), if Ident(key, i) in users then 1 else 0, ValueFrom(users, key, i + 1));
    hide Ident;
  }

  lemma Distribute(p: nat, b: nat, v: nat)
    requires b <= 1
    ensures p * (b + 2 * v) == (if b == 1 then p else 0) + (2 * p) * v
  {
    assert p * (b + 2 * v) == p * b + p * (2 * v);
    assert p * (2 * v) == (2 * p) * v;
  }

  // ---- whole runs of the store ----

  /** What was saved last under `key`, starting from `v`. */
  function LastSaved(saves: seq<(nat, nat)>, key: nat, v: nat): nat {
    if saves == [] then v
    else
      var (k, val) := saves[|saves| - 1];
      if k == key && k < KEYS && val < VALUES then val else LastSaved(saves[..|saves| - 1], key, v)
  }

  /** Loading any key after any saves yields what was last saved under it. */
  method SavesThenLoad(q: Kqueue, saves: seq<(nat, nat)>, key: nat) returns (r: LoadResult)
    requires key < KEYS
    modifies q
    ensures r == Loaded(LastSaved(saves, key, old(Value(q.users, key))))
  {
    hide Value;
    for i := 0 to |saves|
      invariant Value(q.users, key) == LastSaved(saves[..i], key, old(Value(q.users, key)))
    {
      assert saves[..i + 1][..i] == saves[..i];
      var _ := q.SaveState(saves[i].0, saves[i].1);
    }
    assert saves[..|saves|] == saves;
    r := q.LoadState(key);
  }

  // ---- epoll_ctl ----

  /** The state word of a descriptor, bit by bit from KQUEUE_STATE_REGISTERED up. */
  datatype Flags = Flags(registered: bool, epollIn: bool, epollOut: bool, epollRdHup: bool, epollPri: bool,
                         nycss: bool, isFifo: bool, isSock: bool)

  const NOTHING := Flags(false, false, false, false, false, false, false, false)

  function FromDigits(d: seq<bool>): nat {
    if d == [] then 0 else (if d[0] then 1 else 0) + 2 * FromDigits(d[1..])
  }

  lemma {:induction false} DigitAt(d: seq<bool>, i: nat)
    requires i < |d|
    ensures Bit(FromDigits(d), i) == d[i]
  {
    var v := FromDigits(d[1..]);
    assert FromDigits(d) / 2 == v;
    if i > 0 { DigitAt(d[1..], i - 1); }
  }

  lemma {:induction false} DigitsBound(d: seq<bool>)
    ensures FromDigits(d) < Pow2(|d|)
  {
    if d == [] {
    } else {
      DigitsBound(d[1..]);
    }
  }

  function Digits(f: Flags): seq<bool> {
    [f.registered, f.epollIn, f.epollOut, f.epollRdHup, f.epollPri, f.nycss, f.isFifo, f.isSock]
  }

  function Bits(f: Flags): nat { FromDigits(Digits(f)) }

  function FlagsOf(v: nat): Flags {
    Flags(Bit(v, 0), Bit(v, 1), Bit(v, 2), Bit(v, 3), Bit(v, 4), Bit(v, 5), Bit(v, 6), Bit(v, 7))
  }

  lemma FlagsRoundTrip(f: Flags)
    ensures FlagsOf(Bits(f)) == f && Bits(f) < VALUES
  {
    var d := Digits(f);
    forall i | 0 <= i < 8 ensures Bit(FromDigits(d), i) == d[i] { DigitAt(d, i); }
    DigitsBound(d);
    PowTwelve();
    Pow2Less(8, VAL_BITS);
    hide Bit, FromDigits, Pow2;
  }

  datatype Op = Add | Mod | Del | UnknownOp

  /** The requested events; `unsupported` stands for any bit that epoll_ctl does not know. */
  datatype Events = Events(epollIn: bool, epollOut: bool, epollRdHup: bool, epollPri: bool, unsupported: bool)

  datatype FileKind = Fifo | Sock | OtherFile

  /** One call: its arguments, whether the kernel accepts the filters, and what fstat says. */
  datatype Call = Call(op: Op, fd2: int, ev: Option<Events>, kernelOk: bool, kind: Option<FileKind>)

  predicate WellFormed(c: Call) {
    (c.ev.None? ==> c.op == Del) && (c.ev.Some? ==> !c.ev.value.unsupported) && 0 <= c.fd2 < KEYS && !c.op.UnknownOp?
  }

  /** A call takes effect unless it is malformed or refers to an unregistered descriptor. */
  predicate Applies(c: Call, f: Flags) { WellFormed(c) && (c.op == Add || f.registered) }

  /** The flags that a call asks for. */
  function Requested(c: Call, f: Flags): Flags
    requires Applies(c, f)
  {
    match c.op
    case Add => var e := c.ev.value; Flags(true, e.epollIn, e.epollOut, e.epollRdHup, e.epollPri, false, false, false)
    case Mod =>
      var e := c.ev.value;
      f.(epollIn := e.epollIn, epollOut := e.epollOut, epollRdHup := e.epollRdHup, epollPri := e.epollPri)
    case _ => NOTHING
  }

  function WithKind(f: Flags, kind: FileKind): Flags {
    match kind
    case Fifo => f.(isFifo := true)
    case Sock => f.(isSock := true)
    case OtherFile => f
  }

  /** The flags of the descriptor after the call, also when it fails late. */
  function After(c: Call, f: Flags): Flags {
    if !Applies(c, f) then f
    else if c.kernelOk && c.kind.Some? then WithKind(Requested(c, f), c.kind.value)
    else Requested(c, f)
  }

  function FlagsAt(users: set<nat>, fd: nat): Flags { FlagsOf(Value(users, fd)) }

  /** epoll_ctl: the new flags are saved before the kernel is asked, so a call that fails there has
      taken effect all the same. */
  method EpollCtl(q: Kqueue, c: Call) returns (ok: bool)
    modifies q
    ensures ok <==> 0 <= c.fd2 && Applies(c, old(FlagsAt(q.users, c.fd2))) && c.kernelOk && c.kind.Some?
    ensures forall fd: nat :: fd < KEYS ==>
              FlagsAt(q.users, fd) ==
                if fd == c.fd2 then After(c, old(FlagsAt(q.users, fd))) else old(FlagsAt(q.users, fd))
  {
    hide Value, FlagsOf, Bits;
    if (c.ev.None? && c.op != Del) || (c.ev.Some? && c.ev.value.unsupported) {
      return false;
    }
    if c.fd2 < 0 || c.fd2 >= KEYS {
      return false;
    }
    var loaded := q.LoadState(c.fd2);
    var flags := FlagsOf(loaded.val);
    if c.op == Add {
      var e := c.ev.value;
      flags := Flags(true, e.epollIn, e.epollOut, e.epollRdHup, e.epollPri, false, false, false);
    } else if c.op == Del {
      if !flags.registered {
        return false;
      }
      flags := NOTHING;
    } else if c.op == Mod {
      if !flags.registered {
        return false;
      }
      var e := c.ev.value;
      flags := flags.(epollIn := e.epollIn, epollOut := e.epollOut, epollRdHup := e.epollRdHup, epollPri := e.epollPri);
    } else {
      return false;
    }
    FlagsRoundTrip(flags);
    var _ := q.SaveState(c.fd2, Bits(flags));
    if !c.kernelOk || c.kind.None? {
      return false;
    }
    flags := WithKind(flags, c.kind.value);
    FlagsRoundTrip(flags);
    var _ := q.SaveState(c.fd2, Bits(flags));
    return true;
  }

  // ---- whole runs ----

  /** The flags of `fd` after a run of calls. */
  function Replay(calls: seq<Call>, fd: nat, f: Flags): Flags {
    if calls == [] then f
    else
      var c, f' := calls[|calls| - 1], Replay(calls[..|calls| - 1], fd, f);
      if c.fd2 == fd then After(c, f') else f'
  }

  method CtlRun(q: Kqueue, calls: seq<Call>, ghost fd: nat)
    requires fd < KEYS
    modifies q
    ensures FlagsAt(q.users, fd) == Replay(calls, fd, old(FlagsAt(q.users, fd)))
  {
    hide FlagsAt, After;
    for i := 0 to |calls|
      invariant FlagsAt(q.users, fd) == Replay(calls[..i], fd, old(FlagsAt(q.users, fd)))
    {
      assert calls[..i + 1][..i] == calls[..i];
      var _ := EpollCtl(q, calls[i]);
    }
    assert calls[..|calls|] == calls;
  }

  /** `i` is the last call on `fd` that took effect. */
  ghost predicate LastApplied(calls: seq<Call>, fd: nat, f: Flags, i: nat) {
    i < |calls| && calls[i].fd2 == fd && Applies(calls[i], Replay(calls[..i], fd, f))
    && forall j :: i < j < |calls| && calls[j].fd2 == fd ==> !Applies(calls[j], Replay(calls[..j], fd, f))
  }

  /** The registered bit and the event bits are the ones that `c` asked for. */
  predicate Matches(g: Flags, c: Call)
    requires WellFormed(c)
  {
    if c.op == Del then !g.registered && !g.epollIn && !g.epollOut && !g.epollRdHup && !g.epollPri
    else
      var e := c.ev.value;
      g.registered && g.epollIn == e.epollIn && g.epollOut == e.epollOut && g.epollRdHup == e.epollRdHup
      && g.epollPri == e.epollPri
  }

  lemma RequestedMatches(c: Call, f: Flags)
    requires Applies(c, f)
    ensures Matches(Requested(c, f), c)
  {
  }

  lemma KindKeepsMatch(g: Flags, kind: FileKind, c: Call)
    requires WellFormed(c) && Matches(g, c)
    ensures Matches(WithKind(g, kind), c)
  {
    hide WellFormed;
    match kind
    case Fifo =>
    case Sock =>
    case OtherFile =>
  }

  lemma AfterMatches(c: Call, f: Flags)
    ensures Applies(c, f) ==> Matches(After(c, f), c)
    ensures !Applies(c, f) ==> After(c, f) == f
  {
    hide Matches, Requested, WithKind, WellFormed;
    if Applies(c, f) {
      RequestedMatches(c, f);
      if c.kind.Some? { KindKeepsMatch(Requested(c, f), c.kind.value, c); }
    }
  }

  /** After every run the state matches the last ADD, MOD or DEL that took effect. */
  lemma {:induction false} LastCallDecides(calls: seq<Call>, fd: nat, f: Flags, i: nat)
    requires LastApplied(calls, fd, f, i)
    ensures Matches(Replay(calls, fd, f), calls[i])
    decreases |calls|
  {
    var front, last := calls[..|calls| - 1], calls[|calls| - 1];
    AfterMatches(last, Replay(front, fd, f));
    assert WellFormed(calls[i]);
    hide Applies, After, Matches, WellFormed;
    if i < |calls| - 1 {
      assert front[..i] == calls[..i];
      forall j | i < j < |front| && front[j].fd2 == fd ensures !Applies(front[j], Replay(front[..j], fd, f)) {
        assert front[..j] == calls[..j] && front[j] == calls[j];
      }
      LastCallDecides(front, fd, f, i);
    }
  }

  // ---- which calls fail, and what kind of file is remembered ----

  /** The last well-formed ADD or DEL of `fd` is an ADD; `r` if there is none. */
  function RegisteredBy(calls: seq<Call>, fd: nat, r: bool): bool {
    if calls == [] then r
    else
      var c := calls[|calls| - 1];
      if c.fd2 == fd && WellFormed(c) && (c.op == Add || c.op == Del) then c.op == Add
      else RegisteredBy(calls[..|calls| - 1], fd, r)
  }

  /** After every run a descriptor is registered exactly if the last well-formed ADD or DEL of it was an ADD, whether or
      not the kernel accepted it. */
  lemma {:induction false} RegisteredIff(calls: seq<Call>, fd: nat, f: Flags)
    ensures Replay(calls, fd, f).registered <==> RegisteredBy(calls, fd, f.registered)
  {
    if calls == [] {
    } else {
      RegisteredIff(calls[..|calls| - 1], fd, f);
      RegisteredStep(calls[|calls| - 1], Replay(calls[..|calls| - 1], fd, f));
      hide After, WellFormed;
    }
  }

  lemma RegisteredStep(c: Call, f: Flags)
    ensures After(c, f).registered
            <==> if WellFormed(c) && (c.op == Add || c.op == Del) then c.op == Add else f.registered
  {
    AfterMatches(c, f);
    hide After;
  }

  /** What the kernel has accepted a call on, and fstat has called a `kind`. */
  predicate Saw(c: Call, kind: FileKind) { c.kernelOk && c.kind == Some(kind) }

  /** Since the last ADD or DEL of `fd` that took effect, that call included, some call of `fd` that took effect saw a
      file of this kind; `k` if there is no ADD or DEL and no such call. */
  function KindBy(calls: seq<Call>, fd: nat, r: bool, kind: FileKind, k: bool): bool {
    if calls == [] then k
    else
      var front, c := calls[..|calls| - 1], calls[|calls| - 1];
      if c.fd2 != fd || !WellFormed(c) || (c.op != Add && !RegisteredBy(front, fd, r))
      then KindBy(front, fd, r, kind, k)
      else Saw(c, kind) || (c.op == Mod && KindBy(front, fd, r, kind, k))
  }

  /** After every run the two kind bits tell what the calls since the last ADD or DEL saw. Neither ADD nor MOD nor DEL
      sets the third. */
  lemma {:induction false} KindsIff(calls: seq<Call>, fd: nat, f: Flags)
    ensures var g := Replay(calls, fd, f);
            (g.isFifo <==> KindBy(calls, fd, f.registered, Fifo, f.isFifo))
            && (g.isSock <==> KindBy(calls, fd, f.registered, Sock, f.isSock))
            && (g.nycss ==> f.nycss)
  {
    if calls == [] {
    } else {
      var front, c := calls[..|calls| - 1], calls[|calls| - 1];
      KindsIff(front, fd, f);
      RegisteredIff(front, fd, f);
      hide RegisteredBy, Replay, KindBy;
      KindStep(c, Replay(front, fd, f));
      KindUnfolds(calls, fd, f);
    }
  }

  lemma KindStep(c: Call, f: Flags)
    ensures var g := After(c, f);
            if !WellFormed(c) || (c.op != Add && !f.registered) then g == f
            else (g.isFifo <==> Saw(c, Fifo) || (c.op == Mod && f.isFifo))
                 && (g.isSock <==> Saw(c, Sock) || (c.op == Mod && f.isSock)) && (g.nycss ==> f.nycss)
  {
  }

  lemma KindUnfolds(calls: seq<Call>, fd: nat, f: Flags)
    requires calls != []
    ensures var front, c := calls[..|calls| - 1], calls[|calls| - 1];
            var applies := c.fd2 == fd && WellFormed(c) && (c.op == Add || RegisteredBy(front, fd, f.registered));
            Replay(calls, fd, f) == (if c.fd2 == fd then After(c, Replay(front, fd, f)) else Replay(front, fd, f))
            && forall kind, k ::
                 var before := KindBy(front, fd, f.registered, kind, k);
                 KindBy(calls, fd, f.registered, kind, k)
                 == if applies then Saw(c, kind) || (c.op == Mod && before) else before
  {
    hide After, WellFormed, RegisteredBy;
  }

  /** On a fresh queue, after any calls: a further call succeeds exactly if it is well formed, the kernel and fstat
      accept it, and it is an ADD or its descriptor was last added rather than deleted. */
  method CtlAfterRun(calls: seq<Call>, c: Call) returns (ok: bool)
    ensures ok <==> WellFormed(c) && c.kernelOk && c.kind.Some?
                    && (c.op == Add || RegisteredBy(calls, c.fd2, false))
  {
    hide FlagsAt, After;
    var q := new Kqueue();
    if 0 <= c.fd2 < KEYS {
      FreshFlags(c.fd2);
      RegisteredIff(calls, c.fd2, NOTHING);
      CtlRun(q, calls, c.fd2);
      ok := EpollCtl(q, c);
    } else {
      ok := EpollCtl(q, c);
    }
  }

  lemma FreshFlags(fd: nat)
    ensures FlagsAt({}, fd) == NOTHING
  {
    FlagsRoundTrip(NOTHING);
    NoValue(fd, 0);
    assert Digits(NOTHING) == [false, false, false, false, false, false, false, false];
    NoDigits(Digits(NOTHING));
  }

  lemma {:induction false} NoValue(fd: nat, i: nat)
    requires i <= VAL_BITS
    ensures ValueFrom({}, fd, i) == 0
    decreases VAL_BITS - i
  {
    if i < VAL_BITS { NoValue(fd, i + 1); }
  }

  lemma {:induction false} NoDigits(d: seq<bool>)
    requires forall i :: 0 <= i < |d| ==> !d[i]
    ensures FromDigits(d) == 0
  {
    if d != [] { NoDigits(d[1..]); }
  }
}

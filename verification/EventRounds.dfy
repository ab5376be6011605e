/** What whole rounds of the two workers do: fetch, post and acknowledge, with anything else happening meanwhile. */
module EventRounds {
  import opened Common
  import opened FileQueue
  import opened EventManager

  // ---- how much a fetch takes ----

  lemma TotalCons(e: Event, q: seq<Event>)
    ensures Total([e] + q) == e.size + Total(q)
  {
    if q == [] {
      assert [e] + q == [e] && [e][..0] == [];
    } else {
      var front := q[..|q| - 1];
      TotalCons(e, front);
      assert ([e] + q)[..|q|] == [e] + front;
    }
  }

  /** Of the prefixes of at most `maxCount` events and `maxSize` bytes, q[..k] is the longest. */
  ghost predicate LongestFront(q: seq<Event>, maxCount: nat, maxSize: nat, k: nat) {
    k <= |q| && k <= maxCount && Total(q[..k]) <= maxSize
    && (k < |q| && k < maxCount ==> Total(q[..k + 1]) > maxSize)
  }

  /** A fetch returns the longest prefix within both limits. */
  lemma {:induction false} FitCountIsLongest(q: seq<Event>, maxCount: nat, maxSize: nat)
    ensures LongestFront(q, maxCount, maxSize, FitCount(q, maxCount, maxSize))
  {
    hide Total;
    if q == [] || maxCount == 0 || q[0].size > maxSize {
      TotalNothing();
      assert q[..0] == [];
      if q != [] { TotalNext(q, 0); }
    } else {
      var j := FitCount(q[1..], maxCount - 1, maxSize - q[0].size);
      FitCountIsLongest(q[1..], maxCount - 1, maxSize - q[0].size);
      TotalNext(q, j);
      if j + 1 < |q| { TotalNext(q, j + 1); }
    }
  }

  lemma TotalNothing()
    ensures Total([]) == 0
  {
  }

  lemma TotalNext(q: seq<Event>, j: nat)
    requires j < |q|
    ensures Total(q[..j + 1]) == q[0].size + Total(q[1..][..j])
  {
    assert q[..j + 1] == [q[0]] + q[1..][..j];
    TotalCons(q[0], q[1..][..j]);
  }

  // ---- what a round of the realtime worker does ----

  lemma {:induction false} RunConcat(s: State, a: seq<Step>, b: seq<Step>)
    requires s.files.Ok()
    ensures Run(s, a + b) == Run(Run(s, a), b)
    decreases |a|
  {
    hide Apply;
    if a == [] {
      assert a + b == b;
    } else {
      assert (a + b)[1..] == a[1..] + b;
      RunConcat(Apply(s, a[0]), a[1..], b);
    }
  }

  lemma RunOne(s: State, step: Step)
    requires s.files.Ok()
    ensures Run(s, [step]) == Apply(s, step)
  {
    hide Apply;
    assert [step][1..] == [];
  }

  /** A step of an adder or of the main worker. */
  predicate Elsewhere(step: Step) {
    step.AddRealtime? || step.AddStored? || step.MainCheck? || step.MainFetch? || step.MainRecheck?
    || step.MainRefetch? || step.MainDropAck? || step.MainAnswer? || step.Configure?
  }

  predicate AllElsewhere(steps: seq<Step>) { forall i :: 0 <= i < |steps| ==> Elsewhere(steps[i]) }

  /** Only the realtime worker takes events out of the realtime queue; whatever others do meanwhile, they do the same
      wherever that worker is. */
  lemma ElsewhereGrows(s: State, step: Step)
    requires s.files.Ok() && Elsewhere(step)
    ensures var s' := Apply(s, step);
            s.rt <= s'.rt && s'.realtime == s.realtime && s'.rtUploaded == s.rtUploaded
    ensures forall pc :: Apply(s.(realtime := pc), step) == Apply(s, step).(realtime := pc)
  {
    hide Files.Queue, Examined, Fetched, Cut, Store;
  }

  lemma {:induction false} ElsewhereRun(s: State, steps: seq<Step>, pc: RealtimePc)
    requires s.files.Ok() && AllElsewhere(steps)
    ensures var s' := Run(s, steps);
            s.rt <= s'.rt && s'.realtime == s.realtime && s'.rtUploaded == s.rtUploaded
            && Run(s.(realtime := pc), steps) == s'.(realtime := pc)
    decreases |steps|
  {
    hide Apply, Elsewhere;
    if steps == [] {
    } else {
      assert Elsewhere(steps[0]);
      ElsewhereGrows(s, steps[0]);
      ElsewhereRun(Apply(s, steps[0]), steps[1..], pc);
    }
  }

  /** A round of the realtime worker that is answered with 200, with anything else happening during the post: exactly
      the longest prefix within both limits moves from the queue to the uploaded events, and nothing else changes. */
  lemma RealtimeRound(s: State, during: seq<Step>) returns (k: nat)
    requires s.files.Ok() && s.realtime.RealtimeIdle? && s.rt != []
    requires s.limits.maxCount > 0 && s.limits.maxSize > 0 && AllElsewhere(during)
    ensures LongestFront(s.rt, s.limits.maxCount, s.limits.maxSize, k) && (k > 0 <==> s.rt[0].size <= s.limits.maxSize)
    ensures var meanwhile := Run(s, during);
            k <= |meanwhile.rt|
            && Run(s, [RealtimeFetch] + during + [RealtimeAnswer(true)])
               == meanwhile.(rt := meanwhile.rt[k..], rtUploaded := s.rtUploaded + s.rt[..k])
  {
    k := FitCount(s.rt, s.limits.maxCount, s.limits.maxSize);
    FitCountIsLongest(s.rt, s.limits.maxCount, s.limits.maxSize);
    var sending := RealtimeSending(s.rt[..k]);
    hide FitCount, Run, LongestFront, AllElsewhere;
    assert Apply(s, RealtimeFetch) == s.(realtime := sending);
    RunConcat(s, [RealtimeFetch] + during, [RealtimeAnswer(true)]);
    RunConcat(s, [RealtimeFetch], during);
    RunOne(s, RealtimeFetch);
    ElsewhereRun(s, during, sending);
    RunOne(Run(s, [RealtimeFetch] + during), RealtimeAnswer(true));
  }

  function Rounds(n: nat): seq<Step> {
    if n == 0 then [] else [RealtimeFetch, RealtimeAnswer(true)] + Rounds(n - 1)
  }

  /** What a round uploads can be posted, and it uploads something if the first event can be. */
  lemma RoundAlone(s: State) returns (s': State, k: nat)
    requires s.files.Ok() && s.realtime.RealtimeIdle? && s.rt != [] && s.limits.maxCount > 0 && s.limits.maxSize > 0
    ensures k <= |s.rt| && Small(s.rt[..k], s.limits.maxSize) && (s.rt[0].size <= s.limits.maxSize ==> k > 0)
    ensures s' == s.(rt := s.rt[k..], rtUploaded := s.rtUploaded + s.rt[..k])
    ensures Run(s, [RealtimeFetch, RealtimeAnswer(true)]) == s'
  {
    k := RealtimeRound(s, []);
    s' := s.(rt := s.rt[k..], rtUploaded := s.rtUploaded + s.rt[..k]);
    RunNothing(s);
    FrontIsSmall(s.rt, k, s.limits.maxSize);
    hide Run, Apply, Small, LongestFront;
    assert [RealtimeFetch] + [] + [RealtimeAnswer(true)] == [RealtimeFetch, RealtimeAnswer(true)];
  }

  lemma {:induction false} FrontIsSmall(q: seq<Event>, k: nat, z: nat)
    requires k <= |q| && Total(q[..k]) <= z
    ensures Small(q[..k], z)
  {
    if k > 0 {
      assert q[..k][..k - 1] == q[..k - 1];
      FrontIsSmall(q, k - 1, z);
    }
  }

  lemma {:induction false} SmallDrains(s: State) returns (n: nat)
    requires s.files.Ok() && s.realtime.RealtimeIdle? && s.limits.maxCount > 0 && s.limits.maxSize > 0
    requires Small(s.rt, s.limits.maxSize)
    ensures n <= |s.rt| && Run(s, Rounds(n)) == s.(rt := [], rtUploaded := s.rtUploaded + s.rt)
    decreases |s.rt|
  {
    if s.rt == [] {
      n := 0;
      assert s.rtUploaded + s.rt == s.rtUploaded;
    } else {
      hide Run;
      var s', k := RoundAlone(s);
      SmallRest(s.rt, k, s.limits.maxSize);
      assert s.rt[0].size <= s.limits.maxSize;
      hide *;
      n := SmallDrains(s');
      OneRoundMore(s, s', k, n);
      n := n + 1;
    }
  }

  lemma OneRoundMore(s: State, s': State, k: nat, n: nat)
    requires s.files.Ok() && k <= |s.rt| && s' == s.(rt := s.rt[k..], rtUploaded := s.rtUploaded + s.rt[..k])
    requires Run(s, [RealtimeFetch, RealtimeAnswer(true)]) == s'
    requires Run(s', Rounds(n)) == s'.(rt := [], rtUploaded := s'.rtUploaded + s'.rt)
    ensures Run(s, Rounds(n + 1)) == s.(rt := [], rtUploaded := s.rtUploaded + s.rt)
  {
    RoundsNext(n + 1);
    hide *;
    RunConcat(s, [RealtimeFetch, RealtimeAnswer(true)], Rounds(n));
    Regrouped(s.rtUploaded, s.rt[..k], s.rt[k..]);
    assert s.rt[..k] + s.rt[k..] == s.rt;
  }

  lemma LargeRest(q: seq<Event>, k: nat, z: nat)
    requires k <= |q| && Small(q[..k], z) && Small(q[k..], z)
    ensures Small(q, z)
  {
    assert q == q[..k] + q[k..];
  }

  lemma {:induction false} LargeStays(s: State, n: nat)
    requires s.files.Ok() && s.realtime.RealtimeIdle? && s.limits.maxCount > 0 && s.limits.maxSize > 0
    requires !Small(s.rt, s.limits.maxSize)
    ensures Run(s, Rounds(n)).rt != []
    decreases n
  {
    AnyLarge(s.rt, s.limits.maxSize);
    if n == 0 {
      RunNothing(s);
    } else {
      hide Run, Rounds, Apply, Small;
      var s' := LargeRound(s);
      LargeStays(s', n - 1);
      RoundsNext(n);
      RunConcat(s, [RealtimeFetch, RealtimeAnswer(true)], Rounds(n - 1));
    }
  }

  lemma LargeRound(s: State) returns (s': State)
    requires s.files.Ok() && s.realtime.RealtimeIdle? && s.limits.maxCount > 0 && s.limits.maxSize > 0
    requires !Small(s.rt, s.limits.maxSize)
    ensures s'.files.Ok() && s'.realtime.RealtimeIdle? && s'.limits == s.limits && !Small(s'.rt, s.limits.maxSize)
    ensures Run(s, [RealtimeFetch, RealtimeAnswer(true)]) == s'
  {
    AnyLarge(s.rt, s.limits.maxSize);
    hide Run, Apply, Small;
    var k;
    s', k := RoundAlone(s);
    if Small(s.rt[k..], s.limits.maxSize) { LargeRest(s.rt, k, s.limits.maxSize); }
  }

  lemma RoundsNext(n: nat)
    requires n > 0
    ensures Rounds(n) == [RealtimeFetch, RealtimeAnswer(true)] + Rounds(n - 1)
  {
  }

  lemma AnyLarge(q: seq<Event>, z: nat)
    requires !Small(q, z)
    ensures q != []
  {
  }

  ghost predicate DrainedBy(s: State, n: nat)
    requires s.files.Ok()
  {
    Run(s, Rounds(n)).rt == []
  }

  /** Finitely many rounds, each answered with 200, upload the whole realtime queue in order, at most as many as there
      are events, exactly if each event can be posted. An event that cannot be stays in front for ever. */
  lemma RealtimeDrainsIff(s: State)
    requires s.files.Ok() && s.realtime.RealtimeIdle? && s.limits.maxCount > 0 && s.limits.maxSize > 0
    ensures (exists n: nat :: DrainedBy(s, n)) <==> Small(s.rt, s.limits.maxSize)
    ensures Small(s.rt, s.limits.maxSize) ==>
              exists n: nat :: n <= |s.rt| && Run(s, Rounds(n)) == s.(rt := [], rtUploaded := s.rtUploaded + s.rt)
  {
    hide Run, Rounds;
    if Small(s.rt, s.limits.maxSize) {
      var n := SmallDrains(s);
      assert DrainedBy(s, n);
    } else {
      forall n: nat ensures !DrainedBy(s, n) { LargeStays(s, n); }
    }
  }

  // ---- what a round of the main worker does ----

  /** A step of an adder or of the realtime worker. */
  predicate Aside(step: Step) { step.AddRealtime? || step.Configure? || step.AddStored? || !Elsewhere(step) }

  predicate AllAside(steps: seq<Step>) { forall i :: 0 <= i < |steps| ==> Aside(steps[i]) }

  /** From f to f' the queue grew at its end, and so did the file that is open for fetching. */
  ghost predicate Grew(f: Files<Event>, f': Files<Event>) {
    f.Ok() && f'.Ok() && f.Queue() <= f'.Queue() && (f.Ready() ==> f'.Ready() && f.First() <= f'.First())
  }

  lemma AsideGrows(s: State, step: Step)
    requires s.files.Ok() && Aside(step)
    ensures var s' := Apply(s, step); s'.main == s.main && s'.uploaded == s.uploaded && Grew(s.files, s'.files)
  {
    hide Store, Files.Queue, FitCount, Grew;
    GrewNot(s.files);
    if step.AddStored? { StoreGrows(s.files, step.e, s.limits); }
    if step.TransferOne? && s.realtime.Transferring? && s.realtime.hand != [] {
      StoreGrows(s.files, s.realtime.hand[0], s.limits);
    }
  }

  lemma GrewNot(f: Files<Event>)
    requires f.Ok()
    ensures Grew(f, f)
  {
  }

  lemma StoreGrows(f: Files<Event>, e: Event, lim: Limits)
    requires f.Ok()
    ensures Grew(f, Store(f, e, lim))
  {
    StoreKeeps(f, e, lim);
    hide Store, Files.Queue;
  }

  lemma {:induction false} AsideRun(s: State, steps: seq<Step>)
    requires s.files.Ok() && AllAside(steps)
    ensures var s' := Run(s, steps); s'.main == s.main && s'.uploaded == s.uploaded && Grew(s.files, s'.files)
    decreases |steps|
  {
    hide Apply, Aside, Files.Queue;
    if steps == [] {
    } else {
      assert Aside(steps[0]);
      AsideGrows(s, steps[0]);
      AsideRun(Apply(s, steps[0]), steps[1..]);
    }
  }

  /** A round of the main worker that is answered with 200, with anything else happening during the post: exactly the
      longest prefix within both limits of the first file that holds anything moves from the front of the critical
      queue to the uploaded events. */
  lemma MainRound(s: State, during: seq<Step>) returns (k: nat)
    requires s.files.Ok() && !s.files.Stuck() && s.main.MainIdle? && s.Crit() != []
    requires s.limits.maxCount > 0 && AllAside(during)
    ensures var first := FirstNonEmpty(s.files.earlier + [s.files.newest]);
            LongestFront(first, s.limits.maxCount, s.limits.FetchSize(), k) && k <= |s.Crit()|
            && first[..k] == s.Crit()[..k] && (k > 0 <==> s.Crit()[0].size <= s.limits.FetchSize())
    ensures var meanwhile := Run(s, [MainCheck, MainFetch] + during);
            var s' := Run(s, [MainCheck, MainFetch] + during + [MainAnswer(true)]);
            s.Crit() <= meanwhile.Crit() && s'.Crit() == meanwhile.Crit()[k..]
            && s'.uploaded == s.uploaded + s.Crit()[..k]
            && s'.main.MainIdle? && s' == meanwhile.(files := s'.files, main := s'.main, uploaded := s'.uploaded,
                                                     critOut := s'.critOut)
  {
    var f := Examined(s.files);
    k := FitCount(f.First(), s.limits.maxCount, s.limits.FetchSize());
    MainFetches(s);
    FitCountIsLongest(f.First(), s.limits.maxCount, s.limits.FetchSize());
    ExaminedIsFirst(s.files);
    FirstIsFront(f);
    hide Run, Apply, Examined, FitCount, LongestFront, Files.Queue, FirstNonEmpty;
    assert f.First()[..k] == s.Crit()[..|f.First()|][..k] == s.Crit()[..k];
    assert f.First()[0] == s.Crit()[0];
    var s2 := s.(files := f, main := MainSending(f.First()[..k]));
    RunConcat(s, [MainCheck, MainFetch], during);
    RunTwo(s, MainCheck, MainFetch);
    AsideRun(s2, during);
    var s3 := Run(s2, during);
    RunConcat(s, [MainCheck, MainFetch] + during, [MainAnswer(true)]);
    RunOne(s3, MainAnswer(true));
    MainAnswers(s3, f.First()[..k]);
  }

  lemma RunTwo(s: State, a: Step, b: Step)
    requires s.files.Ok()
    ensures Run(s, [a, b]) == Apply(Apply(s, a), b)
  {
    hide Run, Apply;
    RunConcat(s, [a], [b]);
    RunOne(s, a);
    RunOne(Apply(s, a), b);
    assert [a] + [b] == [a, b];
  }

  lemma MainFetches(s: State)
    requires s.files.Ok() && !s.files.Stuck() && s.main.MainIdle? && s.Crit() != [] && s.limits.maxCount > 0
    ensures var f := Examined(s.files);
            |f.First()| > 0 && f.Queue() == s.Crit()
            && Apply(Apply(s, MainCheck), MainFetch)
               == s.(files := f, main := MainSending(f.First()[..FitCount(f.First(), s.limits.maxCount,
                                                                           s.limits.FetchSize())]))
  {
    ExaminedQueue(s.files);
    ExaminedFirst(s.files);
    ExaminedAgain(s.files);
    hide Examined, FitCount, Files.Queue;
    assert Apply(s, MainCheck) == s.(main := MainFetching);
  }

  lemma MainAnswers(s: State, l: seq<Event>)
    requires s.files.Ok() && s.main == MainSending(l) && s.files.Ready() && l <= s.files.First()
    ensures var s' := Apply(s, MainAnswer(true));
            |l| <= |s.Crit()| && s'.Crit() == s.Crit()[|l|..] && s'.uploaded == s.uploaded + l && s'.main.MainIdle?
            && s' == s.(files := s'.files, main := s'.main, uploaded := s'.uploaded, critOut := s'.critOut)
  {
    CutQueue(s.files, |l|);
    hide Cut, Files.Queue;
  }

  // ---- what the drop path does, and what a change of limits ----

  /** With a zero limit a round of the realtime worker drops exactly the first event. */
  lemma RealtimeDropRound(s: State)
    requires s.files.Ok() && s.realtime.RealtimeIdle? && s.rt != [] && s.rt[0].size <= SIZE_MAX
    requires s.limits.maxCount == 0 || s.limits.maxSize == 0
    ensures Run(s, [RealtimeFetch, RealtimeDropAck]) == s.(rt := s.rt[1..], lost := s.lost + [s.rt[0]])
  {
    FitCountIsLongest(s.rt, 1, SIZE_MAX);
    assert s.rt[..1] == [s.rt[0]];
    hide FitCount, Run;
    RunTwo(s, RealtimeFetch, RealtimeDropAck);
    assert Apply(s, RealtimeFetch) == s.(realtime := RealtimeDropping([s.rt[0]]));
  }

  const DROP := [MainFetch, MainRecheck, MainRefetch, MainDropAck]

  /** The main worker is about to fetch with a limit of no events. */
  predicate AboutToDrop(s: State) {
    s.files.Ok() && !s.files.Stuck() && s.main.MainFetching? && s.limits.maxCount == 0
  }

  lemma DropRefetches(s: State)
    requires AboutToDrop(s) && s.Crit() != []
    ensures Apply(Apply(s, MainFetch), MainRecheck) == s.(files := Examined(s.files), main := MainRefetching)
    ensures Examined(s.files).Queue() == s.Crit() && Examined(Examined(s.files)) == Examined(s.files)
    ensures |Examined(s.files).First()| > 0
  {
    ExaminedQueue(s.files);
    ExaminedFirst(s.files);
    ExaminedAgain(s.files);
    hide Examined, FitCount, Files.Queue;
    assert Apply(s, MainFetch) == s.(files := Examined(s.files), main := MainNothing);
  }

  lemma DropFirst(s: State)
    requires s.files.Ready() && s.main.MainRefetching? && s.Crit() != [] && s.Crit()[0].size <= MEBIBYTE
    requires Examined(s.files) == s.files && |s.files.First()| > 0
    ensures var s' := Apply(Apply(s, MainRefetch), MainDropAck);
            s' == s.(files := s'.files, main := MainFetching, lost := s.lost + [s.Crit()[0]], critOut := s'.critOut)
            && s'.Crit() == s.Crit()[1..] && !s'.files.Stuck()
  {
    var f := s.files;
    FirstIsFront(f);
    CutQueue(f, 1);
    FitCountIsLongest(f.First(), 1, MEBIBYTE);
    hide Examined, FitCount, Cut, Files.Queue;
    assert f.First()[0] == s.Crit()[0] && f.First()[..1] == [s.Crit()[0]];
    assert Apply(s, MainRefetch) == s.(main := MainDropping([s.Crit()[0]]));
  }

  /** One turn of the drop path: the first event is gone unsent and the worker is about to fetch again. */
  lemma DropRound(s: State)
    requires AboutToDrop(s) && s.Crit() != [] && s.Crit()[0].size <= MEBIBYTE
    ensures var s' := Run(s, DROP);
            s' == s.(files := s'.files, lost := s.lost + [s.Crit()[0]], critOut := s'.critOut)
            && s'.Crit() == s.Crit()[1..] && AboutToDrop(s')
  {
    hide Run, Apply, Examined, Files.Queue;
    DropRefetches(s);
    DropFirst(s.(files := Examined(s.files), main := MainRefetching));
    assert DROP == [MainFetch, MainRecheck] + [MainRefetch, MainDropAck];
    RunConcat(s, [MainFetch, MainRecheck], [MainRefetch, MainDropAck]);
    RunTwo(s, MainFetch, MainRecheck);
    RunTwo(Apply(Apply(s, MainFetch), MainRecheck), MainRefetch, MainDropAck);
  }

  function Drops(n: nat): seq<Step> { if n == 0 then [] else DROP + Drops(n - 1) }

  /** From s to s' the first n events of the critical queue were dropped unsent. */
  ghost predicate DroppedFront(s: State, s': State, n: nat) {
    n <= |s.Crit()| && s'.lost == s.lost + s.Crit()[..n] && s'.Crit() == s.Crit()[n..] && s'.uploaded == s.uploaded
  }

  lemma DroppedMore(s: State, t: State, u: State, n: nat)
    requires DroppedFront(s, t, 1) && DroppedFront(t, u, n)
    ensures DroppedFront(s, u, n + 1)
  {
    var q := s.Crit();
    hide Files.Queue;
    assert q[1..][n..] == q[n + 1..] && q[..1] + q[1..][..n] == q[..n + 1];
    Regrouped(s.lost, q[..1], q[1..][..n]);
  }

  lemma SmallTail(q: seq<Event>, n: nat, z: nat)
    requires 0 < n <= |q| && Small(q[..n], z)
    ensures q[0].size <= z && Small(q[1..][..n - 1], z) && [q[0]] == q[..1]
  {
    assert q[..n][0] == q[0] && q[1..][..n - 1] == q[..n][1..];
  }

  /** With a limit of no events, turn by turn and without asking hasEvents at its start again, the drop path takes the
      whole front of the critical queue away unsent, for as long as it holds no event over 1 MiB. */
  lemma {:induction false} DropsAll(s: State, n: nat)
    requires AboutToDrop(s) && n <= |s.Crit()| && Small(s.Crit()[..n], MEBIBYTE)
    ensures DroppedFront(s, Run(s, Drops(n)), n) && AboutToDrop(Run(s, Drops(n)))
    decreases n
  {
    if n == 0 {
      var q := s.Crit();
      hide Files.Queue;
      assert q[..0] == [] && q[0..] == q && s.lost + [] == s.lost;
    } else {
      SmallTail(s.Crit(), n, MEBIBYTE);
      hide Run, Apply, Files.Queue, Small;
      DropRound(s);
      var s' := Run(s, DROP);
      assert DroppedFront(s, s', 1);
      DropsAll(s', n - 1);
      hide DroppedFront, AboutToDrop;
      RunConcat(s, DROP, Drops(n - 1));
      DroppedMore(s, s', Run(s', Drops(n - 1)), n - 1);
    }
  }

  /** The limits of the latest change. */
  function LatestLimits(steps: seq<Step>, lim: Limits): Limits {
    if steps == [] then lim
    else LatestLimits(steps[1..], if steps[0].Configure? then steps[0].limits else lim)
  }

  /** Every worker goes by the limits of the latest change. */
  lemma {:induction false} LimitsAreLatest(s: State, steps: seq<Step>)
    requires s.files.Ok()
    ensures Run(s, steps).limits == LatestLimits(steps, s.limits)
    decreases |steps|
  {
    if steps == [] {
    } else {
      LimitsAreLatest(Apply(s, steps[0]), steps[1..]);
      hide Examined, FitCount, Store, Cut, Fetched;
    }
  }

  // ---- what a failed realtime post does ----

  /** The critical events that fit a file, or that do not. */
  function Critical(q: seq<Event>, lim: Limits, fit: bool): seq<Event> {
    if q == [] then []
    else (if q[0].critical && lim.Fits(q[0]) == fit then [q[0]] else []) + Critical(q[1..], lim, fit)
  }

  function Transfers(n: nat): seq<Step> {
    if n == 0 then [TransferDone] else [TransferOne] + Transfers(n - 1)
  }

  /** From s to s' the events of `hand` went to the critical queue. */
  ghost predicate HandedOver(s: State, s': State, hand: seq<Event>) {
    s' == s.(files := s'.files, realtime := s'.realtime, critLog := s.critLog + Critical(hand, s.limits, true),
             lost := s.lost + Critical(hand, s.limits, false))
    && s'.files.Ok() && s'.Crit() == s.Crit() + Critical(hand, s.limits, true)
  }

  lemma HandedOn(s: State, t: State, u: State, hand: seq<Event>)
    requires hand != [] && HandedOver(s, t, hand[..1]) && HandedOver(t, u, hand[1..])
    ensures HandedOver(s, u, hand)
  {
    hide Files.Queue;
    assert hand[..1] == [hand[0]];
    CriticalOne(hand[0], s.limits, true);
    CriticalOne(hand[0], s.limits, false);
    Regrouped(s.critLog, Critical(hand[..1], s.limits, true), Critical(hand[1..], s.limits, true));
    Regrouped(s.lost, Critical(hand[..1], s.limits, false), Critical(hand[1..], s.limits, false));
    Regrouped(s.Crit(), Critical(hand[..1], s.limits, true), Critical(hand[1..], s.limits, true));
  }

  lemma NothingHandedOver(s: State, s': State)
    requires s.files.Ok() && s' == s.(realtime := s'.realtime)
    ensures HandedOver(s, s', [])
  {
    hide Files.Queue;
    assert s.critLog + [] == s.critLog && s.lost + [] == s.lost && s.Crit() + [] == s.Crit();
  }

  lemma TransferStores(s: State)
    requires s.files.Ok() && s.realtime.Transferring? && s.realtime.hand != []
    ensures var s' := Apply(s, TransferOne);
            HandedOver(s, s', s.realtime.hand[..1]) && s'.realtime == Transferring(s.realtime.hand[1..])
  {
    StoreKeeps(s.files, s.realtime.hand[0], s.limits);
    hide Store, Files.Queue;
    var e := s.realtime.hand[0];
    CriticalOne(e, s.limits, true);
    CriticalOne(e, s.limits, false);
    assert s.realtime.hand[..1] == [e];
    assert s.critLog + [] == s.critLog && s.lost + [] == s.lost && s.Crit() + [] == s.Crit();
  }

  lemma CriticalOne(e: Event, lim: Limits, fit: bool)
    ensures Critical([e], lim, fit) == if e.critical && lim.Fits(e) == fit then [e] else []
  {
    assert [e][1..] == [];
  }

  lemma TransferEnds(s: State)
    requires s.files.Ok() && s.realtime == Transferring([])
    ensures Apply(s, TransferDone) == s.(realtime := RealtimeIdle)
  {
  }

  lemma {:induction false} HandIsStored(s: State)
    requires s.files.Ok() && s.realtime.Transferring?
    ensures var s' := Run(s, Transfers(|s.realtime.hand|));
            HandedOver(s, s', s.realtime.hand) && s'.realtime.RealtimeIdle?
    decreases |s.realtime.hand|
  {
    var hand := s.realtime.hand;
    hide Apply, Run, Files.Queue, HandedOver;
    if hand == [] {
      RunOne(s, TransferDone);
      TransferEnds(s);
      NothingHandedOver(s, Apply(s, TransferDone));
    } else {
      var s' := Apply(s, TransferOne);
      TransferStores(s);
      HandIsStored(s');
      RunConcat(s, [TransferOne], Transfers(|hand| - 1));
      RunOne(s, TransferOne);
      HandedOn(s, s', Run(s', Transfers(|hand| - 1)), hand);
    }
  }

  /** A realtime post that fails, with anything else happening during it: the whole realtime queue of that moment,
      not only what was posted, goes to the critical queue, in order: the critical events that fit a file are
      appended to it, and those that fit none are lost. */
  lemma FailedRoundTransfers(s: State, during: seq<Step>)
    requires s.files.Ok() && s.realtime.RealtimeIdle? && s.rt != []
    requires s.limits.maxCount > 0 && s.limits.maxSize > 0 && AllElsewhere(during)
    ensures var meanwhile := Run(s, during);
            var s' := Run(s, [RealtimeFetch] + during + [RealtimeAnswer(false)] + Transfers(|meanwhile.rt|));
            HandedOver(meanwhile.(rt := []), s', meanwhile.rt) && s'.realtime.RealtimeIdle?
  {
    var meanwhile := Run(s, during);
    var failed := [RealtimeFetch] + during + [RealtimeAnswer(false)];
    FailedRound(s, during);
    RunConcat(s, failed, Transfers(|meanwhile.rt|));
    hide Run, Files.Queue, Critical, Transfers;
    HandIsStored(meanwhile.(rt := [], realtime := Transferring(meanwhile.rt)));
  }

  lemma FailedRound(s: State, during: seq<Step>)
    requires s.files.Ok() && s.realtime.RealtimeIdle? && s.rt != []
    requires s.limits.maxCount > 0 && s.limits.maxSize > 0 && AllElsewhere(during)
    ensures var meanwhile := Run(s, during);
            meanwhile.realtime.RealtimeIdle?
            && Run(s, [RealtimeFetch] + during + [RealtimeAnswer(false)])
               == meanwhile.(rt := [], realtime := Transferring(meanwhile.rt))
  {
    var sending := RealtimeSending(s.rt[..FitCount(s.rt, s.limits.maxCount, s.limits.maxSize)]);
    hide FitCount, Run, AllElsewhere;
    assert Apply(s, RealtimeFetch) == s.(realtime := sending);
    RunConcat(s, [RealtimeFetch] + during, [RealtimeAnswer(false)]);
    RunConcat(s, [RealtimeFetch], during);
    RunOne(s, RealtimeFetch);
    ElsewhereRun(s, during, sending);
    RunOne(Run(s, [RealtimeFetch] + during), RealtimeAnswer(false));
  }
}

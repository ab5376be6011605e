/** ModLoader::loadModMulti: depth-first loading over a shared, shrinking set of mods. Dependencies
    may be cyclic, repeated, or missing from the directory. */
module ModLoader {
  type Name = string
  type Graph = map<Name, seq<Name>>

  /** What getModDependencies finds; nothing for a file it cannot read. */
  function Needs(deps: Graph, m: Name): seq<Name> {
    if m in deps then deps[m] else []
  }

  ghost predicate IsPath(deps: Graph, p: seq<Name>) {
    forall i :: 0 <= i < |p| - 1 ==> p[i + 1] in Needs(deps, p[i])
  }

  /** `a` is `b`, or needs it directly or transitively. */
  ghost predicate Reaches(deps: Graph, a: Name, b: Name) {
    exists p :: IsPath(deps, p) && p != [] && p[0] == a && p[|p| - 1] == b
  }

  function SetOf(s: seq<Name>): set<Name> { set m | m in s }

  ghost predicate Distinct(s: seq<Name>) {
    forall i, j :: 0 <= i < j < |s| ==> s[i] != s[j]
  }

  /** Every dependency of a mod comes before it, unless it needs that mod itself. */
  ghost predicate Ordered(deps: Graph, all: set<Name>, order: seq<Name>) {
    forall i, d :: 0 <= i < |order| && d in Needs(deps, order[i]) && d in all ==>
      d in order[..i] || Reaches(deps, d, order[i])
  }

  lemma OrderedAppend(deps: Graph, all: set<Name>, order: seq<Name>, m: Name)
    requires Ordered(deps, all, order)
    requires forall d :: d in Needs(deps, m) && d in all ==> d in order || Reaches(deps, d, m)
    ensures Ordered(deps, all, order + [m])
  {
    var order' := order + [m];
    forall i, d | 0 <= i < |order'| && d in Needs(deps, order'[i]) && d in all
      ensures d in order'[..i] || Reaches(deps, d, order'[i])
    {
      if i < |order| {
        assert order'[..i] == order[..i];
      } else {
        assert order'[..i] == order;
      }
    }
  }

  /** Whoever is on the stack needs what is on top of it. */
  lemma StackReaches(deps: Graph, stack: seq<Name>, m: Name)
    requires stack != [] && IsPath(deps, stack) && m in stack
    ensures Reaches(deps, m, stack[|stack| - 1])
  {
    var i :| 0 <= i < |stack| && stack[i] == m;
    var p := stack[i..];
    assert p[0] == m && p[|p| - 1] == stack[|stack| - 1];
  }

  /** Every mod is attempted, in progress or waiting, and only one of these; each mod in progress
      needs the next one. */
  ghost predicate Progress(deps: Graph, all: set<Name>, attempted: seq<Name>, stack: seq<Name>, others: set<Name>) {
    Distinct(attempted) && Distinct(stack) && IsPath(deps, stack) && Ordered(deps, all, attempted)
    && SetOf(attempted) !! SetOf(stack) && SetOf(attempted) !! others && SetOf(stack) !! others
    && all == SetOf(attempted) + SetOf(stack) + others
  }

  /** A waiting dependency of the top is taken up. */
  lemma Push(deps: Graph, all: set<Name>, attempted: seq<Name>, stack: seq<Name>, others: set<Name>, dep: Name)
    requires Progress(deps, all, attempted, stack, others) && dep in others
    requires stack == [] || dep in Needs(deps, stack[|stack| - 1])
    ensures Progress(deps, all, attempted, stack + [dep], others - {dep})
  {
    assert SetOf(stack + [dep]) == SetOf(stack) + {dep};
    assert dep !in SetOf(stack);
  }

  /** The top is attempted once none of its dependencies is waiting. */
  lemma Pop(deps: Graph, all: set<Name>, attempted: seq<Name>, stack: seq<Name>, others: set<Name>, m: Name)
    requires Progress(deps, all, attempted, stack + [m], others)
    requires forall d :: d in Needs(deps, m) ==> d !in others
    ensures Progress(deps, all, attempted + [m], stack, others)
  {
    var full := stack + [m];
    assert SetOf(full) == SetOf(stack) + {m};
    assert SetOf(attempted + [m]) == SetOf(attempted) + {m};
    assert m in SetOf(full);
    forall d | d in Needs(deps, m) && d in all ensures d in attempted || Reaches(deps, d, m) {
      if d !in SetOf(attempted) {
        assert d in SetOf(full);
        StackReaches(deps, full, d);
      }
    }
    OrderedAppend(deps, all, attempted, m);
    assert forall i :: 0 <= i < |stack| ==> full[i] == stack[i];
    assert full[|stack|] == m;
  }

  class Loader {
    const deps: Graph
    const loadable: set<Name>
    var mods: seq<Name>      // the mods that were loaded
    var attempted: seq<Name> // the mods of this directory that loadMod was called on, in order

    /** The mods loaded from earlier directories. */
    ghost var earlier: seq<Name>

    constructor (deps: Graph, loadable: set<Name>)
      ensures this.deps == deps && this.loadable == loadable && mods == []
    {
      this.deps, this.loadable, mods, attempted, earlier := deps, loadable, [], [], [];
    }

    ghost predicate Valid()
      reads this
    {
      mods == earlier + Loaded(attempted, loadable)
    }

    /** Loads `fileName`, the newest of the mods in progress, after whatever it needs and is still
        waiting. Terminates because the set of waiting mods shrinks with every nested call. */
    method LoadModMulti(fileName: Name, otherMods: set<Name>, ghost all: set<Name>, ghost stack: seq<Name>)
      returns (rest: set<Name>)
      requires Valid() && Progress(deps, all, attempted, stack + [fileName], otherMods)
      modifies this`mods, this`attempted
      ensures rest <= otherMods && Valid() && Progress(deps, all, attempted, stack, rest)
      ensures old(attempted) < attempted && attempted[|attempted| - 1] == fileName
      decreases otherMods
    {
      hide Progress, Loaded;
      rest := otherMods;
      var needed := Needs(deps, fileName);
      for i := 0 to |needed|
        invariant rest <= otherMods && Valid() && Progress(deps, all, attempted, stack + [fileName], rest)
        invariant old(attempted) <= attempted
        invariant forall j :: 0 <= j < i ==> needed[j] !in rest
      {
        var dep := needed[i];
        if dep in rest {
          Push(deps, all, attempted, stack + [fileName], rest, dep);
          rest := rest - {dep};
          rest := LoadModMulti(dep, rest, all, stack + [fileName]);
          assert rest - {dep} == rest;
          rest := rest - {dep};
        }
      }
      Pop(deps, all, attempted, stack, rest, fileName);
      LoadMod(fileName);
    }

    method LoadMod(fileName: Name)
      requires Valid()
      modifies this`mods, this`attempted
      ensures Valid() && attempted == old(attempted) + [fileName]
    {
      assert (attempted + [fileName])[..|attempted|] == attempted;
      attempted := attempted + [fileName];
      if fileName in loadable {
        mods := mods + [fileName];
      }
    }

    /** Loads every mod of a directory: each is attempted exactly once, and if a mod comes before one
        of its dependencies then that dependency needs the mod itself. */
    method LoadMods(modsToLoad: set<Name>)
      modifies this
      ensures Distinct(attempted) && SetOf(attempted) == modsToLoad
      ensures old(mods) <= mods && Selects(mods[|old(mods)|..], attempted, loadable)
      ensures Ordered(deps, modsToLoad, attempted)
    {
      attempted, earlier := [], mods;
      var rest := modsToLoad;
      while rest != {}
        invariant Valid() && earlier == old(mods) && Progress(deps, modsToLoad, attempted, [], rest)
        decreases rest
      {
        var fileName :| fileName in rest;
        Push(deps, modsToLoad, attempted, [], rest, fileName);
        rest := rest - {fileName};
        rest := LoadModMulti(fileName, rest, modsToLoad, []);
      }
      LoadedSelects(attempted, loadable);
      assert mods[|earlier|..] == Loaded(attempted, loadable);
    }
  }

  function Loaded(order: seq<Name>, loadable: set<Name>): seq<Name> {
    if order == [] then []
    else Loaded(order[..|order| - 1], loadable) + if order[|order| - 1] in loadable then [order[|order| - 1]] else []
  }

  ghost predicate ComesBefore(order: seq<Name>, a: Name, b: Name) {
    forall i, j :: 0 <= i < |order| && 0 <= j < |order| && order[i] == a && order[j] == b ==> i < j
  }

  /** `s` holds exactly the loadable ones of `order`, each once, and in that order. */
  ghost predicate Selects(s: seq<Name>, order: seq<Name>, loadable: set<Name>) {
    Distinct(s) && (forall m :: m in s <==> m in order && m in loadable)
    && forall a, b :: 0 <= a < b < |s| ==> ComesBefore(order, s[a], s[b])
  }

  lemma {:induction false} LoadedSelects(order: seq<Name>, loadable: set<Name>)
    requires Distinct(order)
    ensures Selects(Loaded(order, loadable), order, loadable)
  {
    if order == [] {
    } else {
      var front, m := order[..|order| - 1], order[|order| - 1];
      assert order == front + [m];
      LoadedSelects(front, loadable);
      assert m !in front;
      forall n ensures n in Loaded(order, loadable) <==> n in order && n in loadable {
        assert n in order <==> n in front || n == m;
      }
    }
  }

  // ---- what the order means ----

  /** No mod needs itself, directly or transitively. */
  ghost predicate Acyclic(deps: Graph) {
    forall a, b :: b in Needs(deps, a) ==> !Reaches(deps, b, a)
  }

  /** Without cycles the order is topological. */
  lemma AcyclicIsTopological(deps: Graph, all: set<Name>, order: seq<Name>, i: nat, d: Name)
    requires Acyclic(deps) && Ordered(deps, all, order) && i < |order| && d in Needs(deps, order[i]) && d in all
    ensures exists j :: 0 <= j < i && order[j] == d
  {
    assert d in order[..i];
  }

  /** In general, two mods out of order lie on a common cycle. */
  lemma OutOfOrderIsCyclic(deps: Graph, all: set<Name>, order: seq<Name>, i: nat, j: nat)
    requires Ordered(deps, all, order) && Distinct(order) && SetOf(order) == all
    requires i < j < |order| && order[j] in Needs(deps, order[i])
    ensures Reaches(deps, order[j], order[i]) && Reaches(deps, order[i], order[j])
  {
    assert order[j] in SetOf(order);
    assert order[j] !in order[..i];
    var p := [order[i], order[j]];
    assert IsPath(deps, p);
  }
}

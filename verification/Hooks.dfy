/** HookManager: per symbol a doubly linked list of hooks whose `*orig` cells form a call-through
    chain, and the relocation slots that applyHooks patches. Memory is a map from addresses to words;
    address 0 is null. */
module Hooks {
  import opened Common

  type Address = nat

  /** What a hook is to its callers: where to jump, and the cell that says how to go on. */
  datatype Hook = Hook(replacement: Address, orig: Address)

  class Memory {
    var words: map<Address, Address>
  }

  class HookInstance {
    const symbol: HookedSymbol
    const replacement: Address
    const orig: Address
    var parent: HookInstance?
    var child: HookInstance?

    constructor (symbol: HookedSymbol, replacement: Address, orig: Address)
      ensures this.symbol == symbol && this.replacement == replacement && this.orig == orig
      ensures parent == null && child == null
    {
      this.symbol, this.replacement, this.orig := symbol, replacement, orig;
      parent, child := null, null;
    }
  }

  function View(hooks: seq<HookInstance>): (v: seq<Hook>)
    ensures |v| == |hooks|
    ensures forall i :: 0 <= i < |v| ==> v[i] == Hook(hooks[i].replacement, hooks[i].orig)
  {
    seq(|hooks|, i requires 0 <= i < |hooks| => Hook(hooks[i].replacement, hooks[i].orig))
  }

  class HookedSymbol {
    var original: Address
    var firstHook: HookInstance?
    var lastHook: HookInstance?

    /** The live hooks, oldest first. */
    ghost var hooks: seq<HookInstance>

    constructor ()
      ensures original == 0 && hooks == [] && Linked()
    {
      original, firstHook, lastHook, hooks := 0, null, null, [];
    }

    ghost predicate LinkedAt(i: nat)
      requires i < |hooks|
      reads this`hooks, hooks
    {
      hooks[i].symbol == this
      && hooks[i].parent == (if i == 0 then null else hooks[i - 1])
      && hooks[i].child == (if i + 1 == |hooks| then null else hooks[i + 1])
    }

    function Facts(): Info
      reads this, lastHook, firstHook
    {
      Info(original, if firstHook != null then Some(firstHook.orig) else None,
                if lastHook != null then lastHook.replacement else 0)
    }

    /** The pointers are those of the list `hooks`. */
    ghost predicate Linked()
      reads this`hooks, this`firstHook, this`lastHook, hooks
    {
      (forall i, j :: 0 <= i < j < |hooks| ==> hooks[i] != hooks[j])
      && (forall i :: 0 <= i < |hooks| ==> LinkedAt(i))
      && firstHook == (if hooks == [] then null else hooks[0])
      && lastHook == (if hooks == [] then null else hooks[|hooks| - 1])
    }
  }

  // ---- the call-through chain ----

  ghost predicate DistinctCells(v: seq<Hook>) {
    forall i, j :: 0 <= i < j < |v| ==> v[i].orig != v[j].orig
  }

  /** Every hook but the oldest goes on to the one before it. */
  ghost predicate Chained(v: seq<Hook>, words: map<Address, Address>) {
    forall i :: 0 < i < |v| ==> v[i].orig in words && words[v[i].orig] == v[i - 1].replacement
  }

  /** The oldest hook goes on to the original. */
  ghost predicate Grounded(v: seq<Hook>, words: map<Address, Address>, original: Address) {
    v != [] && original != 0 ==> v[0].orig in words && words[v[0].orig] == original
  }

  ghost predicate ChainOk(v: seq<Hook>, words: map<Address, Address>) {
    DistinctCells(v) && Chained(v, words)
  }

  /** Memory changed at most at `a`. */
  ghost predicate ChangedAt(before: map<Address, Address>, after: map<Address, Address>, a: Address) {
    after == before || (a in after && after == before[a := after[a]])
  }

  lemma ChainExtended(v: seq<Hook>, h: Hook, before: map<Address, Address>, after: map<Address, Address>,
                      original: Address)
    requires ChainOk(v, before) && forall i :: 0 <= i < |v| ==> v[i].orig != h.orig
    requires after == if v == [] then before else before[h.orig := v[|v| - 1].replacement]
    ensures ChainOk(v + [h], after)
    ensures Grounded(v + [h], after, original) <==>
              if v == [] then original == 0 || (h.orig in before && before[h.orig] == original)
              else Grounded(v, before, original)
  {
  }

  /** createHook: links the new hook in front of the newest one and lets it go on to that one. The
      first hook of a list gets no way on; if the original is already known nobody ever sets it. */
  method CreateHook(mem: Memory, symbol: HookedSymbol, replacement: Address, orig: Address) returns (ret: HookInstance)
    requires symbol.Linked() && ChainOk(View(symbol.hooks), mem.words)
    requires forall i :: 0 <= i < |symbol.hooks| ==> symbol.hooks[i].orig != orig
    modifies mem, symbol, symbol.lastHook
    ensures fresh(ret) && symbol.Linked() && symbol.hooks == old(symbol.hooks) + [ret]
    ensures ret.replacement == replacement && ret.orig == orig && symbol.original == old(symbol.original)
    ensures ChainOk(View(symbol.hooks), mem.words) && ChangedAt(old(mem.words), mem.words, orig)
    ensures Grounded(View(symbol.hooks), mem.words, symbol.original) <==>
              if old(symbol.hooks) == []
              then symbol.original == 0 || (orig in old(mem.words) && old(mem.words)[orig] == symbol.original)
              else old(Grounded(View(symbol.hooks), mem.words, symbol.original))
  {
    ghost var v := View(symbol.hooks);
    ChainExtended(v, Hook(replacement, orig), mem.words,
                  if v == [] then mem.words else mem.words[orig := v[|v| - 1].replacement], symbol.original);
    ret := new HookInstance(symbol, replacement, orig);
    if symbol.firstHook == null {
      symbol.firstHook := ret;
    } else if symbol.lastHook != null {
      ret.parent := symbol.lastHook;
      ret.parent.child := ret;
      mem.words := mem.words[orig := ret.parent.replacement];
    }
    symbol.lastHook := ret;
    symbol.hooks := symbol.hooks + [ret];
    forall i | 0 <= i < |symbol.hooks| ensures symbol.LinkedAt(i) {
      if i < |old(symbol.hooks)| { assert old(symbol.LinkedAt(i)); }
    }
    assert View(symbol.hooks) == v + [Hook(replacement, orig)];
  }

  function Without<T>(s: seq<T>, k: nat): seq<T>
    requires k < |s|
  {
    s[..k] + s[k + 1..]
  }

  lemma ChainSpliced(v: seq<Hook>, k: nat, before: map<Address, Address>, after: map<Address, Address>,
                     original: Address)
    requires ChainOk(v, before) && k < |v|
    requires after == if k + 1 == |v| then before
                      else before[v[k + 1].orig := if k > 0 then v[k - 1].replacement else original]
    ensures ChainOk(Without(v, k), after)
    ensures Grounded(Without(v, k), after, original) <==> k == 0 || Grounded(v, before, original)
  {
    var v' := Without(v, k);
    assert forall i :: 0 <= i < |v'| ==> v'[i] == if i < k then v[i] else v[i + 1];
  }

  /** deleteHook: takes a hook out of the list; its child goes on where the hook went on. */
  method DeleteHook(mem: Memory, hook: HookInstance, ghost k: nat)
    requires var symbol := hook.symbol;
             symbol.Linked() && ChainOk(View(symbol.hooks), mem.words) && k < |symbol.hooks| && symbol.hooks[k] == hook
    modifies mem, hook.symbol, hook.parent, hook.child
    ensures var symbol := hook.symbol;
            symbol.Linked() && symbol.hooks == Without(old(symbol.hooks), k) && symbol.original == old(symbol.original)
            && ChainOk(View(symbol.hooks), mem.words)
            && (Grounded(View(symbol.hooks), mem.words, symbol.original)
                <==> k == 0 || old(Grounded(View(symbol.hooks), mem.words, symbol.original)))
    ensures if k + 1 < |old(hook.symbol.hooks)|
            then ChangedAt(old(mem.words), mem.words, old(hook.symbol.hooks)[k + 1].orig)
            else mem.words == old(mem.words)
  {
    hide Chained, DistinctCells, Grounded;
    var symbol := hook.symbol;
    ghost var v := View(symbol.hooks);
    assert symbol.LinkedAt(k);
    if hook.child != null {
      if hook.parent != null {
        mem.words := mem.words[hook.child.orig := hook.parent.replacement];
      } else {
        mem.words := mem.words[hook.child.orig := symbol.original];
      }
    }
    ChainSpliced(v, k, old(mem.words), mem.words, symbol.original);
    Unlink(hook, k);
    assert View(symbol.hooks) == Without(v, k);
  }

  method Unlink(hook: HookInstance, ghost k: nat)
    requires hook.symbol.Linked() && k < |hook.symbol.hooks| && hook.symbol.hooks[k] == hook
    modifies hook.symbol, hook.parent, hook.child
    ensures hook.symbol.Linked() && hook.symbol.hooks == Without(old(hook.symbol.hooks), k)
    ensures hook.symbol.original == old(hook.symbol.original)
  {
    var symbol := hook.symbol;
    assert symbol.LinkedAt(k);
    if hook.child != null {
      hook.child.parent := hook.parent;
    }
    if hook.parent != null {
      hook.parent.child := hook.child;
    }
    if symbol.firstHook == hook {
      symbol.firstHook := hook.child;
    }
    if symbol.lastHook == hook {
      symbol.lastHook := hook.parent;
    }
    symbol.hooks := Without(symbol.hooks, k);
    forall i | 0 <= i < |symbol.hooks| ensures symbol.LinkedAt(i) {
      assert old(symbol.LinkedAt(if i < k then i else i + 1));
    }
  }

  // ---- patching the relocation slots ----

  /** A relocation entry; only known relocation types are patched. */
  datatype Reloc = Reloc(sym: nat, slot: Address, known: bool)

  ghost predicate IsSlotOf(rel: seq<Reloc>, i: int, sym: nat) {
    0 <= i < |rel| && rel[i].sym == sym && rel[i].known
  }

  /** What a slot holds after applyHooks. */
  function Patched(v: seq<Hook>, target: Address): Address {
    if v != [] then v[|v| - 1].replacement else target
  }

  /** The state of a symbol whose slots held `target` when its library was loaded, with its first `n`
      relocations patched. */
  ghost predicate SlotsOk(v: seq<Hook>, words: map<Address, Address>, original: Address,
                          rel: seq<Reloc>, sym: nat, target: Address, n: nat) {
    ChainOk(v, words) && (original == 0 || original == target)
    && (forall i :: IsSlotOf(rel, i, sym) ==> rel[i].slot in words && (original == 0 ==> words[rel[i].slot] == target))
    && (forall i :: IsSlotOf(rel, i, sym) && i < n ==>
          words[rel[i].slot] == Patched(v, target) && (v != [] ==> original == target))
  }

  ghost predicate CellsApart(v: seq<Hook>, rel: seq<Reloc>, sym: nat) {
    forall i, j :: IsSlotOf(rel, i, sym) && 0 <= j < |v| ==> v[j].orig != rel[i].slot
  }

  /** The addresses that belong to one symbol: the cells of its hooks and its slots. */
  ghost predicate Owns(v: seq<Hook>, rel: seq<Reloc>, sym: nat, a: Address) {
    (exists j :: 0 <= j < |v| && v[j].orig == a) || (exists i :: IsSlotOf(rel, i, sym) && rel[i].slot == a)
  }

  /** What applyHooks reads of a symbol: the original, the cell of the oldest hook, and where the newest one
      is, 0 if there is none. */
  datatype Info = Info(original: Address, first: Option<Address>, newest: Address)

  /** One relocation of a hooked symbol: the memory and the original afterwards. */
  function Relocated(words: map<Address, Address>, s: Info, r: Reloc): (map<Address, Address>, Address)
    requires r.known ==> r.slot in words
  {
    var replacement := if s.newest != 0 then s.newest else s.original;
    if replacement == 0 || !r.known then (words, s.original)
    else
      var held, patched := words[r.slot], words[r.slot := replacement];
      if s.original != 0 || held == 0 then (patched, s.original)
      else (if s.first.Some? then patched[s.first.value := held] else patched, held)
  }

  function InfoOf(v: seq<Hook>, original: Address): Info {
    if v == [] then Info(original, None, 0) else Info(original, Some(v[0].orig), v[|v| - 1].replacement)
  }

  lemma OwnPatched(v: seq<Hook>, words: map<Address, Address>, original: Address,
                   rel: seq<Reloc>, sym: nat, target: Address, n: nat)
    requires SlotsOk(v, words, original, rel, sym, target, n) && CellsApart(v, rel, sym)
    requires IsSlotOf(rel, n, sym) && target != 0 && (v != [] ==> v[|v| - 1].replacement != 0)
    ensures var (w, o) := Relocated(words, InfoOf(v, original), rel[n]);
            SlotsOk(v, w, o, rel, sym, target, n + 1) && (Grounded(v, w, o) <==> Grounded(v, words, original))
            && (o != 0 <==> original != 0 || v != [])
  {
  }

  lemma OtherPatched(v: seq<Hook>, words: map<Address, Address>, words': map<Address, Address>, original: Address,
                     rel: seq<Reloc>, sym: nat, target: Address, n: nat)
    requires SlotsOk(v, words, original, rel, sym, target, n) && !IsSlotOf(rel, n, sym)
    requires forall a :: Owns(v, rel, sym, a) ==> SameAt(words, words', a)
    ensures SlotsOk(v, words', original, rel, sym, target, n + 1)
    ensures Grounded(v, words', original) <==> Grounded(v, words, original)
  {
    assert forall j :: 0 <= j < |v| ==> Owns(v, rel, sym, v[j].orig);
    assert forall i :: IsSlotOf(rel, i, sym) ==> Owns(v, rel, sym, rel[i].slot);
  }

  ghost predicate SameAt(words: map<Address, Address>, words': map<Address, Address>, a: Address) {
    (a in words <==> a in words') && (a in words ==> words'[a] == words[a])
  }

  /** A relocation changes its slot and the first cell of its symbol and nothing else. */
  lemma RelocatedElsewhere(words: map<Address, Address>, s: Info, r: Reloc, a: Address)
    requires (r.known ==> r.slot in words) && a != r.slot && s.first != Some(a)
    ensures SameAt(words, Relocated(words, s, r).0, a)
  {
  }

  lemma UnknownStays(words: map<Address, Address>, s: Info, r: Reloc)
    requires !r.known
    ensures Relocated(words, s, r) == (words, s.original)
  {
  }

  method ApplyOne(mem: Memory, symInfo: HookedSymbol, r: Reloc)
    requires r.known ==> r.slot in mem.words
    modifies mem, symInfo`original
    ensures (mem.words, symInfo.original) == Relocated(old(mem.words), old(symInfo.Facts()), r)
  {
    var replacement := symInfo.original;
    var original := 0;
    if symInfo.lastHook != null && symInfo.lastHook.replacement != 0 {
      replacement := symInfo.lastHook.replacement;
    } else if replacement == 0 {
      return;
    }
    if r.known {
      original := mem.words[r.slot];
      mem.words := mem.words[r.slot := replacement];
    }
    if original != 0 && symInfo.original == 0 {
      symInfo.original := original;
      if symInfo.firstHook != null {
        mem.words := mem.words[symInfo.firstHook.orig := original];
      }
    }
  }

  /** No other symbol's slot or first cell belongs to `sym`. */
  ghost predicate OthersApart(symbols: map<nat, HookedSymbol>, rel: seq<Reloc>, sym: nat, v: seq<Hook>)
    reads symbols.Values
  {
    sym in symbols
    && (forall i :: 0 <= i < |rel| && rel[i].sym != sym ==> !Owns(v, rel, sym, rel[i].slot))
    && (forall k :: k in symbols && k != sym ==>
          symbols[k] != symbols[sym]
          && (symbols[k].firstHook != null ==> !Owns(v, rel, sym, symbols[k].firstHook.orig)))
  }

  /** What applyHooks relies on and keeps, as seen by the symbol `sym`, with `n` relocations done. */
  ghost predicate Applying(mem: Memory, symbols: map<nat, HookedSymbol>, rel: seq<Reloc>, sym: nat,
                           v: seq<Hook>, target: Address, n: nat)
    reads mem, symbols.Values, if sym in symbols then symbols[sym].hooks else []
  {
    sym in symbols && symbols[sym].Linked() && v == View(symbols[sym].hooks) && target != 0
    && (forall i :: 0 <= i < |rel| && rel[i].known ==> rel[i].slot in mem.words)
    && SlotsOk(v, mem.words, symbols[sym].original, rel, sym, target, n)
    && CellsApart(v, rel, sym) && OthersApart(symbols, rel, sym, v) && (v != [] ==> v[|v| - 1].replacement != 0)
  }

  lemma SlotsStay(words: map<Address, Address>, s: Info, r: Reloc, rel: seq<Reloc>)
    requires r.known ==> r.slot in words
    requires forall i :: 0 <= i < |rel| && rel[i].known ==> rel[i].slot in words
    ensures forall i :: 0 <= i < |rel| && rel[i].known ==> rel[i].slot in Relocated(words, s, r).0
  {
  }

  /** The address is no slot and no first cell. */
  ghost predicate Spare(symbols: map<nat, HookedSymbol>, rel: seq<Reloc>, a: Address)
    reads (set s | s in symbols.Values)`firstHook
  {
    (forall i :: 0 <= i < |rel| ==> rel[i].slot != a)
    && (forall k :: k in symbols && symbols[k].firstHook != null ==> symbols[k].firstHook.orig != a)
  }

  method ApplyNext(mem: Memory, symbols: map<nat, HookedSymbol>, rel: seq<Reloc>, i: nat,
                   ghost sym: nat, ghost v: seq<Hook>, ghost target: Address)
    requires i < |rel| && Applying(mem, symbols, rel, sym, v, target, i)
    modifies mem, (set s | s in symbols.Values)`original
    ensures Applying(mem, symbols, rel, sym, v, target, i + 1)
    ensures symbols[sym].original != 0 <==> old(symbols[sym].original) != 0 || (v != [] && IsSlotOf(rel, i, sym))
    ensures Grounded(v, mem.words, symbols[sym].original) <==> old(Grounded(v, mem.words, symbols[sym].original))
    ensures forall a :: old(Spare(symbols, rel, a)) ==> SameAt(old(mem.words), mem.words, a)
  {
    hide SlotsOk, CellsApart, Grounded, Relocated, Owns;
    ghost var s := symbols[sym];
    ghost var before, original := mem.words, s.original;
    if rel[i].sym in symbols {
      ghost var info := symbols[rel[i].sym].Facts();
      ApplyOne(mem, symbols[rel[i].sym], rel[i]);
      SlotsStay(before, info, rel[i], rel);
      forall a | a != rel[i].slot && info.first != Some(a) ensures SameAt(before, mem.words, a) {
        RelocatedElsewhere(before, info, rel[i], a);
      }
    }
    if IsSlotOf(rel, i, sym) {
      OwnPatched(v, before, original, rel, sym, target, i);
      assert old(s.Facts()) == InfoOf(v, original);
    } else {
      if rel[i].sym == sym { UnknownStays(before, old(s.Facts()), rel[i]); }
      OtherPatched(v, before, mem.words, original, rel, sym, target, i);
    }
  }

  /** One of the first `n` relocations is a slot of the symbol. */
  ghost predicate HasSlot(rel: seq<Reloc>, sym: nat, n: nat) {
    exists i :: IsSlotOf(rel, i, sym) && i < n
  }

  /** applyHooks, as seen by any one symbol: every slot of the symbol ends up at its newest hook, or at
      the original if it has none; its chain ends at the original exactly if it did before. */
  method ApplyHooks(mem: Memory, symbols: map<nat, HookedSymbol>, rel: seq<Reloc>, ghost sym: nat,
                    ghost v: seq<Hook>, ghost target: Address)
    requires Applying(mem, symbols, rel, sym, v, target, 0)
    modifies mem, (set s | s in symbols.Values)`original
    ensures Applying(mem, symbols, rel, sym, v, target, |rel|) && symbols[sym].hooks == old(symbols[sym].hooks)
    ensures symbols[sym].original != 0 <==> old(symbols[sym].original) != 0 || (v != [] && HasSlot(rel, sym, |rel|))
    ensures forall a :: old(Spare(symbols, rel, a)) ==> SameAt(old(mem.words), mem.words, a)
    ensures Grounded(v, mem.words, symbols[sym].original) <==> old(Grounded(v, mem.words, symbols[sym].original))
  {
    hide SlotsOk, CellsApart, OthersApart, Grounded, HookedSymbol.Linked;
    for i := 0 to |rel|
      invariant Applying(mem, symbols, rel, sym, v, target, i)
      invariant symbols[sym].original != 0 <==> old(symbols[sym].original) != 0 || (v != [] && HasSlot(rel, sym, i))
      invariant forall a :: old(Spare(symbols, rel, a)) ==>
                  Spare(symbols, rel, a) && SameAt(old(mem.words), mem.words, a)
      invariant Grounded(v, mem.words, symbols[sym].original) <==> old(Grounded(v, mem.words, symbols[sym].original))
    {
      ApplyNext(mem, symbols, rel, i, sym, v, target);
      assert HasSlot(rel, sym, i + 1) <==> HasSlot(rel, sym, i) || IsSlotOf(rel, i, sym);
    }
  }

  // ---- what a call through a patched slot meets ----

  ghost predicate DistinctReplacements(v: seq<Hook>, target: Address) {
    (forall i, j :: 0 <= i < j < |v| ==> v[i].replacement != v[j].replacement)
    && forall i :: 0 <= i < |v| ==> v[i].replacement != target
  }

  /** The index of the hook at `a`, or the length if there is none. */
  function HookAt(v: seq<Hook>, a: Address): (k: nat)
    ensures k <= |v| && (k < |v| ==> v[k].replacement == a)
    ensures k == |v| ==> forall i :: 0 <= i < |v| ==> v[i].replacement != a
  {
    if v == [] then 0 else if v[0].replacement == a then 0 else 1 + HookAt(v[1..], a)
  }

  /** The addresses that are called, starting at `a`, when each hook calls what its cell holds. */
  function Calls(v: seq<Hook>, words: map<Address, Address>, a: Address, fuel: nat): seq<Address>
    decreases fuel
  {
    var k := HookAt(v, a);
    if k == |v| || fuel == 0 || v[k].orig !in words then [a]
    else [a] + Calls(v, words, words[v[k].orig], fuel - 1)
  }

  /** Newest to oldest, then the original. */
  function NewestFirst(v: seq<Hook>, target: Address): seq<Address> {
    if v == [] then [target] else [v[|v| - 1].replacement] + NewestFirst(v[..|v| - 1], target)
  }

  lemma {:induction false} CallsFrom(v: seq<Hook>, words: map<Address, Address>, target: Address, k: nat)
    requires ChainOk(v, words) && target != 0 && DistinctReplacements(v, target) && k <= |v|
    ensures Calls(v, words, Patched(v[..k], target), k) == NewestFirst(v[..k], target)
            <==> k == 0 || Grounded(v, words, target)
  {
    if k == 0 {
      assert HookAt(v, target) == |v|;
    } else {
      var h, rest := v[k - 1], v[..k - 1];
      assert HookAt(v, h.replacement) == k - 1;
      assert v[..k][..k - 1] == rest;
      CallsFrom(v, words, target, k - 1);
      if k > 1 {
        assert words[h.orig] == Patched(rest, target);
        assert Calls(v, words, h.replacement, k) == [h.replacement] + Calls(v, words, Patched(rest, target), k - 1);
        SameTail(h.replacement, Calls(v, words, Patched(rest, target), k - 1), NewestFirst(rest, target));
      } else {
        assert NewestFirst(v[..1], target) == [h.replacement] + [target];
        assert Patched(v[..1], target) == h.replacement;
        if h.orig in words {
          assert Calls(v, words, h.replacement, 1) == [h.replacement] + [words[h.orig]];
          SameTail(h.replacement, [words[h.orig]], [target]);
          assert [words[h.orig]][0] == words[h.orig] && [target][0] == target;
        } else {
          assert |Calls(v, words, h.replacement, 1)| == 1;
        }
      }
    }
  }

  lemma SameTail<T>(x: T, a: seq<T>, b: seq<T>)
    ensures [x] + a == [x] + b <==> a == b
  {
    assert ([x] + a)[1..] == a && ([x] + b)[1..] == b;
  }

  /** After applyHooks, a call through any slot of the symbol meets every live hook once, newest to
      oldest, and ends at the original, exactly if the oldest hook knows the original. With no live
      hook it goes straight to the original. */
  lemma CallsMeetEveryHook(v: seq<Hook>, words: map<Address, Address>, original: Address,
                           rel: seq<Reloc>, sym: nat, target: Address, i: nat)
    requires SlotsOk(v, words, original, rel, sym, target, |rel|) && IsSlotOf(rel, i, sym)
    requires target != 0 && DistinctReplacements(v, target)
    ensures Calls(v, words, words[rel[i].slot], |v|) == NewestFirst(v, target) <==> Grounded(v, words, original)
  {
    CallsFrom(v, words, target, |v|);
    assert v[..|v|] == v;
  }

  // ---- whole sessions ----

  datatype Op = Create(replacement: Address, orig: Address) | Delete(k: nat) | Apply

  /** Whether the chain of a symbol ends at its original after `ops`: it has `n` hooks now, `known` says whether
      its original is known, `grounded` whether the chain ends there now, `patchable` whether the library has a
      slot of it, and `holds` which of the cells hold the original already. A hook created on an empty list
      after the original has become known gets no way to it, until the oldest hook is deleted. */
  predicate EndsAtOriginal(ops: seq<Op>, n: nat, known: bool, grounded: bool, patchable: bool, holds: set<Address>)
    decreases |ops|
  {
    if ops == [] then grounded
    else
      match ops[0]
      case Create(_, orig) =>
        EndsAtOriginal(ops[1..], n + 1, known, if n == 0 then !known || orig in holds else grounded, patchable, holds)
      case Delete(k) =>
        if k < n then EndsAtOriginal(ops[1..], n - 1, known, k == 0 || grounded, patchable, holds)
        else EndsAtOriginal(ops[1..], n, known, grounded, patchable, holds)
      case Apply => EndsAtOriginal(ops[1..], n, known || (n > 0 && patchable), grounded, patchable, holds)
  }

  /** `holds` are the session's cells that hold `target`. */
  ghost predicate HoldsOk(ops: seq<Op>, holds: set<Address>, words: map<Address, Address>, target: Address) {
    forall i :: 0 <= i < |ops| && ops[i].Create? ==>
      (ops[i].orig in holds <==> ops[i].orig in words && words[ops[i].orig] == target)
  }

  /** The session's cells are distinct, unused so far, and nobody's slot or cell. */
  ghost predicate CellsUsable(ops: seq<Op>, foreign: set<Address>, rel: seq<Reloc>, v: seq<Hook>) {
    (forall i, j :: 0 <= i < j < |ops| && ops[i].Create? && ops[j].Create? ==> ops[i].orig != ops[j].orig)
    && (forall i :: 0 <= i < |ops| && ops[i].Create? ==> CellUsable(ops[i].orig, foreign, rel, v))
  }

  ghost predicate CellUsable(a: Address, foreign: set<Address>, rel: seq<Reloc>, v: seq<Hook>) {
    a !in foreign && (forall j :: 0 <= j < |v| ==> v[j].orig != a) && (forall j :: 0 <= j < |rel| ==> rel[j].slot != a)
  }

  /** The first cells of all other symbols are among the `foreign` addresses. */
  ghost predicate Others(symbols: map<nat, HookedSymbol>, sym: nat, foreign: set<Address>)
    requires sym in symbols
    reads symbols.Values
  {
    forall k :: k in symbols && k != sym ==>
      symbols[k] != symbols[sym] && (symbols[k].firstHook != null ==> symbols[k].firstHook.orig in foreign)
  }

  ghost predicate NotOwned(v: seq<Hook>, rel: seq<Reloc>, sym: nat, foreign: set<Address>) {
    (forall a :: a in foreign ==> !Owns(v, rel, sym, a))
    && (forall i :: 0 <= i < |rel| && rel[i].sym != sym ==> !Owns(v, rel, sym, rel[i].slot))
  }

  ghost predicate ViewOk(v: seq<Hook>, words: map<Address, Address>, original: Address,
                         rel: seq<Reloc>, sym: nat, target: Address, foreign: set<Address>) {
    (forall i :: 0 <= i < |rel| && rel[i].known ==> rel[i].slot in words)
    && (forall j :: 0 <= j < |v| ==> v[j].replacement != 0)
    && SlotsOk(v, words, original, rel, sym, target, 0) && CellsApart(v, rel, sym) && NotOwned(v, rel, sym, foreign)
  }

  ghost predicate SessionOk(mem: Memory, symbols: map<nat, HookedSymbol>, rel: seq<Reloc>, sym: nat,
                            target: Address, foreign: set<Address>)
    reads mem, symbols.Values, if sym in symbols then symbols[sym].hooks else []
  {
    sym in symbols && target != 0 && symbols[sym].Linked() && Others(symbols, sym, foreign)
    && ViewOk(View(symbols[sym].hooks), mem.words, symbols[sym].original, rel, sym, target, foreign)
  }

  lemma CreatedOk(v: seq<Hook>, h: Hook, words: map<Address, Address>, words': map<Address, Address>, original: Address,
                  rel: seq<Reloc>, sym: nat, target: Address, foreign: set<Address>)
    requires ViewOk(v, words, original, rel, sym, target, foreign) && CellUsable(h.orig, foreign, rel, v)
             && h.replacement != 0
    requires ChainOk(v + [h], words') && ChangedAt(words, words', h.orig)
    ensures ViewOk(v + [h], words', original, rel, sym, target, foreign)
  {
    forall a ensures Owns(v + [h], rel, sym, a) ==> Owns(v, rel, sym, a) || a == h.orig {
      OwnsExtended(v, h, rel, sym, a);
    }
    SlotsUntouched(v, v + [h], words, words', original, rel, sym, target, h.orig);
    hide SlotsOk, Owns;
  }

  lemma DeletedOk(v: seq<Hook>, k: nat, words: map<Address, Address>, words': map<Address, Address>, original: Address,
                  rel: seq<Reloc>, sym: nat, target: Address, foreign: set<Address>)
    requires ViewOk(v, words, original, rel, sym, target, foreign) && k < |v| && ChainOk(Without(v, k), words')
    requires if k + 1 < |v| then ChangedAt(words, words', v[k + 1].orig) else words' == words
    ensures ViewOk(Without(v, k), words', original, rel, sym, target, foreign)
  {
    forall a ensures Owns(Without(v, k), rel, sym, a) ==> Owns(v, rel, sym, a) { OwnsSpliced(v, k, rel, sym, a); }
    SlotsUntouched(v, Without(v, k), words, words', original, rel, sym, target,
                   if k + 1 < |v| then v[k + 1].orig else v[k].orig);
    hide SlotsOk, Owns;
  }

  lemma OwnsExtended(v: seq<Hook>, h: Hook, rel: seq<Reloc>, sym: nat, a: Address)
    ensures Owns(v + [h], rel, sym, a) ==> Owns(v, rel, sym, a) || a == h.orig
  {
  }

  lemma OwnsSpliced(v: seq<Hook>, k: nat, rel: seq<Reloc>, sym: nat, a: Address)
    requires k < |v|
    ensures Owns(Without(v, k), rel, sym, a) ==> Owns(v, rel, sym, a)
  {
    if j :| 0 <= j < |Without(v, k)| && Without(v, k)[j].orig == a {
      assert v[if j < k then j else j + 1].orig == a;
    }
  }

  lemma SlotsUntouched(v: seq<Hook>, v': seq<Hook>, words: map<Address, Address>, words': map<Address, Address>,
                       original: Address, rel: seq<Reloc>, sym: nat, target: Address, cell: Address)
    requires SlotsOk(v, words, original, rel, sym, target, 0) && ChainOk(v', words') && ChangedAt(words, words', cell)
    requires forall i :: IsSlotOf(rel, i, sym) ==> rel[i].slot != cell
    ensures SlotsOk(v', words', original, rel, sym, target, 0)
  {
  }

  method SessionCreate(mem: Memory, symbols: map<nat, HookedSymbol>, ghost rel: seq<Reloc>, sym: nat,
                       ghost target: Address, ghost foreign: set<Address>,
                       replacement: Address, orig: Address) returns (ret: HookInstance)
    requires SessionOk(mem, symbols, rel, sym, target, foreign) && replacement != 0
    requires CellUsable(orig, foreign, rel, View(symbols[sym].hooks))
    modifies mem, symbols[sym], symbols[sym].hooks
    ensures SessionOk(mem, symbols, rel, sym, target, foreign) && fresh(ret) && ret.orig == orig
            && ret.replacement == replacement
    ensures symbols[sym].hooks == old(symbols[sym].hooks) + [ret] && symbols[sym].original == old(symbols[sym].original)
    ensures forall a :: a != orig ==> SameAt(old(mem.words), mem.words, a)
    ensures Grounded(View(symbols[sym].hooks), mem.words, symbols[sym].original) <==>
              if old(symbols[sym].hooks) == []
              then symbols[sym].original == 0 || (orig in old(mem.words) && old(mem.words)[orig] == target)
              else old(Grounded(View(symbols[sym].hooks), mem.words, symbols[sym].original))
  {
    var s := symbols[sym];
    ghost var v, words, h := View(s.hooks), mem.words, Hook(replacement, orig);
    OriginalIsTarget(v, words, s.original, rel, sym, target, foreign);
    hide SlotsOk, CellsApart, NotOwned, Grounded, Chained, DistinctCells;
    ret := CreateHook(mem, s, replacement, orig);
    assert View(s.hooks) == v + [h];
    CreatedOk(v, h, words, mem.words, s.original, rel, sym, target, foreign);
  }

  lemma OriginalIsTarget(v: seq<Hook>, words: map<Address, Address>, original: Address,
                         rel: seq<Reloc>, sym: nat, target: Address, foreign: set<Address>)
    requires ViewOk(v, words, original, rel, sym, target, foreign)
    ensures ChainOk(v, words) && (original == 0 || original == target)
  {
  }

  method SessionDelete(mem: Memory, symbols: map<nat, HookedSymbol>, ghost rel: seq<Reloc>, ghost sym: nat,
                       ghost target: Address, ghost foreign: set<Address>, hook: HookInstance, ghost k: nat)
    requires SessionOk(mem, symbols, rel, sym, target, foreign) && k < |symbols[sym].hooks|
             && symbols[sym].hooks[k] == hook
    modifies mem, symbols[sym], symbols[sym].hooks
    ensures SessionOk(mem, symbols, rel, sym, target, foreign)
    ensures symbols[sym].hooks == Without(old(symbols[sym].hooks), k)
            && symbols[sym].original == old(symbols[sym].original)
    ensures if k + 1 < |old(symbols[sym].hooks)|
            then ChangedAt(old(mem.words), mem.words, old(symbols[sym].hooks)[k + 1].orig)
            else mem.words == old(mem.words)
    ensures Grounded(View(symbols[sym].hooks), mem.words, symbols[sym].original)
            <==> k == 0 || old(Grounded(View(symbols[sym].hooks), mem.words, symbols[sym].original))
  {
    ghost var s := symbols[sym];
    ghost var v, words := View(s.hooks), mem.words;
    OriginalIsTarget(v, words, s.original, rel, sym, target, foreign);
    hide SlotsOk, CellsApart, NotOwned, Grounded, Chained, DistinctCells, ViewOk;
    assert s.LinkedAt(k);
    DeleteHook(mem, hook, k);
    assert View(s.hooks) == Without(v, k);
    DeletedOk(v, k, words, mem.words, s.original, rel, sym, target, foreign);
  }

  method SessionApply(mem: Memory, symbols: map<nat, HookedSymbol>, rel: seq<Reloc>, ghost sym: nat,
                      ghost target: Address, ghost foreign: set<Address>)
    requires SessionOk(mem, symbols, rel, sym, target, foreign)
    modifies mem, (set s | s in symbols.Values)`original
    ensures SessionOk(mem, symbols, rel, sym, target, foreign) && symbols[sym].hooks == old(symbols[sym].hooks)
    ensures SlotsOk(View(symbols[sym].hooks), mem.words, symbols[sym].original, rel, sym, target, |rel|)
    ensures symbols[sym].original != 0 <==>
              old(symbols[sym].original) != 0 || (symbols[sym].hooks != [] && HasSlot(rel, sym, |rel|))
    ensures forall a :: CellUsable(a, foreign, rel, View(symbols[sym].hooks)) ==> SameAt(old(mem.words), mem.words, a)
    ensures old(Grounded(View(symbols[sym].hooks), mem.words, symbols[sym].original))
            <==> Grounded(View(symbols[sym].hooks), mem.words, symbols[sym].original)
  {
    ApplyHooks(mem, symbols, rel, sym, View(symbols[sym].hooks), target);
    forall a | CellUsable(a, foreign, rel, View(symbols[sym].hooks)) ensures old(Spare(symbols, rel, a)) {
    }
  }

  lemma UsableAfterCreate(ops: seq<Op>, foreign: set<Address>, rel: seq<Reloc>, v: seq<Hook>, h: Hook)
    requires ops != [] && CellsUsable(ops, foreign, rel, v) && ops[0].Create? && h.orig == ops[0].orig
    ensures CellsUsable(ops[1..], foreign, rel, v + [h])
  {
  }

  lemma UsableAfterDelete(ops: seq<Op>, foreign: set<Address>, rel: seq<Reloc>, v: seq<Hook>, k: nat)
    requires ops != [] && CellsUsable(ops, foreign, rel, v) && k < |v|
    ensures CellsUsable(ops[1..], foreign, rel, Without(v, k))
  {
  }

  lemma HoldsAfter(ops: seq<Op>, holds: set<Address>, words: map<Address, Address>, words': map<Address, Address>,
                   target: Address)
    requires ops != [] && HoldsOk(ops, holds, words, target)
    requires forall i :: 0 < i < |ops| && ops[i].Create? ==> SameAt(words, words', ops[i].orig)
    ensures HoldsOk(ops[1..], holds, words', target)
  {
    forall i | 0 <= i < |ops[1..]| && ops[1..][i].Create?
      ensures ops[1..][i].orig in holds <==> ops[1..][i].orig in words' && words'[ops[1..][i].orig] == target
    {
      assert ops[1..][i] == ops[i + 1];
    }
  }

  /** The hooks that are live after `ops`, oldest first. */
  function LiveAfter(ops: seq<Op>, v: seq<Hook>): seq<Hook>
    decreases |ops|
  {
    if ops == [] then v
    else
      match ops[0]
      case Create(replacement, orig) => LiveAfter(ops[1..], v + [Hook(replacement, orig)])
      case Delete(k) => LiveAfter(ops[1..], if k < |v| then Without(v, k) else v)
      case Apply => LiveAfter(ops[1..], v)
  }

  ghost predicate OpsOk(ops: seq<Op>, foreign: set<Address>, rel: seq<Reloc>, v: seq<Hook>,
                        holds: set<Address>, words: map<Address, Address>, target: Address) {
    CellsUsable(ops, foreign, rel, v) && HoldsOk(ops, holds, words, target)
    && forall i :: 0 <= i < |ops| && ops[i].Create? ==> ops[i].replacement != 0
  }

  lemma OkAfterCreate(ops: seq<Op>, foreign: set<Address>, rel: seq<Reloc>, v: seq<Hook>, h: Hook,
                      holds: set<Address>, words: map<Address, Address>, words': map<Address, Address>, target: Address)
    requires ops != [] && OpsOk(ops, foreign, rel, v, holds, words, target) && ops[0] == Create(h.replacement, h.orig)
    requires forall a :: a != h.orig ==> SameAt(words, words', a)
    ensures OpsOk(ops[1..], foreign, rel, v + [h], holds, words', target)
  {
    UsableAfterCreate(ops, foreign, rel, v, h);
    HoldsAfter(ops, holds, words, words', target);
    hide HoldsOk, CellsUsable;
  }

  lemma OkAfterDelete(ops: seq<Op>, foreign: set<Address>, rel: seq<Reloc>, v: seq<Hook>, k: nat,
                      holds: set<Address>, words: map<Address, Address>, words': map<Address, Address>, target: Address)
    requires ops != [] && OpsOk(ops, foreign, rel, v, holds, words, target) && k < |v|
    requires if k + 1 < |v| then ChangedAt(words, words', v[k + 1].orig) else words' == words
    ensures OpsOk(ops[1..], foreign, rel, Without(v, k), holds, words', target)
  {
    UsableAfterDelete(ops, foreign, rel, v, k);
    HoldsAfter(ops, holds, words, words', target);
    hide HoldsOk;
  }

  lemma OkAfterOther(ops: seq<Op>, foreign: set<Address>, rel: seq<Reloc>, v: seq<Hook>,
                     holds: set<Address>, words: map<Address, Address>, words': map<Address, Address>, target: Address)
    requires ops != [] && OpsOk(ops, foreign, rel, v, holds, words, target)
    requires forall a :: CellUsable(a, foreign, rel, v) ==> SameAt(words, words', a)
    ensures OpsOk(ops[1..], foreign, rel, v, holds, words', target)
  {
    HoldsAfter(ops, holds, words, words', target);
    hide HoldsOk, CellUsable;
  }

  /** After any creations, deletions and patchings of one symbol, its live hooks are those of the operations, and
      their chain ends at the original exactly if the operations say so. */
  method Session(mem: Memory, symbols: map<nat, HookedSymbol>, rel: seq<Reloc>, sym: nat, ghost target: Address,
                 ghost foreign: set<Address>, ops: seq<Op>, live: seq<HookInstance>, ghost holds: set<Address>)
    returns (live': seq<HookInstance>)
    requires SessionOk(mem, symbols, rel, sym, target, foreign) && live == symbols[sym].hooks
    requires OpsOk(ops, foreign, rel, View(live), holds, mem.words, target)
    modifies mem, symbols.Values, symbols[sym].hooks
    ensures SessionOk(mem, symbols, rel, sym, target, foreign) && live' == symbols[sym].hooks
    ensures View(live') == LiveAfter(ops, View(live))
    ensures Grounded(View(live'), mem.words, symbols[sym].original) <==>
              EndsAtOriginal(ops, |live|, old(symbols[sym].original) != 0,
                             old(Grounded(View(live), mem.words, symbols[sym].original)),
                             HasSlot(rel, sym, |rel|), holds)
    decreases |ops|
  {
    hide ViewOk, Others, Grounded, HookedSymbol.Linked, OpsOk;
    live' := live;
    if ops == [] {
      return;
    }
    if ops[0].Create? { FirstOp(ops, foreign, rel, View(live), holds, mem.words, target); }
    ghost var words := mem.words;
    match ops[0]
    case Create(replacement, orig) =>
      var ret := SessionCreate(mem, symbols, rel, sym, target, foreign, replacement, orig);
      OkAfterCreate(ops, foreign, rel, View(live), Hook(replacement, orig), holds, words, mem.words, target);
      assert View(live + [ret]) == View(live) + [Hook(replacement, orig)];
      live' := Session(mem, symbols, rel, sym, target, foreign, ops[1..], live + [ret], holds);
    case Delete(k) =>
      if k < |live| {
        SessionDelete(mem, symbols, rel, sym, target, foreign, live[k], k);
        OkAfterDelete(ops, foreign, rel, View(live), k, holds, words, mem.words, target);
        assert View(Without(live, k)) == Without(View(live), k);
        live' := Session(mem, symbols, rel, sym, target, foreign, ops[1..], Without(live, k), holds);
      } else {
        OkAfterOther(ops, foreign, rel, View(live), holds, words, mem.words, target);
        live' := Session(mem, symbols, rel, sym, target, foreign, ops[1..], live, holds);
      }
    case Apply =>
      SessionApply(mem, symbols, rel, sym, target, foreign);
      OkAfterOther(ops, foreign, rel, View(live), holds, words, mem.words, target);
      live' := Session(mem, symbols, rel, sym, target, foreign, ops[1..], live, holds);
  }

  lemma FirstOp(ops: seq<Op>, foreign: set<Address>, rel: seq<Reloc>, v: seq<Hook>,
                holds: set<Address>, words: map<Address, Address>, target: Address)
    requires ops != [] && OpsOk(ops, foreign, rel, v, holds, words, target) && ops[0].Create?
    ensures ops[0].replacement != 0 && CellUsable(ops[0].orig, foreign, rel, v)
    ensures ops[0].orig in holds <==> ops[0].orig in words && words[ops[0].orig] == target
  {
  }

  /** Such a session followed by applyHooks: a call through any slot of the symbol meets every live hook
      once, newest to oldest, and then the original, exactly if the operations say so. */
  method PatchedSession(mem: Memory, symbols: map<nat, HookedSymbol>, rel: seq<Reloc>, sym: nat, ghost target: Address,
                        ghost foreign: set<Address>, ops: seq<Op>, ghost holds: set<Address>)
    returns (live: seq<HookInstance>)
    requires SessionOk(mem, symbols, rel, sym, target, foreign) && symbols[sym].hooks == []
    requires OpsOk(ops, foreign, rel, [], holds, mem.words, target)
    modifies mem, symbols.Values
    ensures live == symbols[sym].hooks && View(live) == LiveAfter(ops, [])
    ensures DistinctReplacements(View(live), target) ==>
              forall i :: IsSlotOf(rel, i, sym) ==>
                rel[i].slot in mem.words
                && (Calls(View(live), mem.words, mem.words[rel[i].slot], |live|) == NewestFirst(View(live), target)
                    <==> EndsAtOriginal(ops, 0, old(symbols[sym].original) != 0, true, true, holds))
  {
    hide CellsApart, NotOwned, Others, HookedSymbol.Linked, OpsOk, LiveAfter, EndsAtOriginal;
    assert View([]) == [];
    live := Session(mem, symbols, rel, sym, target, foreign, ops, [], holds);
    SessionApply(mem, symbols, rel, sym, target, foreign);
    ghost var v := View(live);
    if DistinctReplacements(v, target) {
      forall i | IsSlotOf(rel, i, sym)
        ensures Calls(v, mem.words, mem.words[rel[i].slot], |v|) == NewestFirst(v, target)
                <==> EndsAtOriginal(ops, 0, old(symbols[sym].original) != 0, true, true, holds)
      {
        assert HasSlot(rel, sym, |rel|);
        CallsMeetEveryHook(v, mem.words, symbols[sym].original, rel, sym, target, i);
      }
    }
  }

  function Rehook(a: Hook, b: Hook): seq<Op> {
    [Create(a.replacement, a.orig), Apply, Delete(0), Create(b.replacement, b.orig)]
  }

  lemma RehookMisses(a: Hook, b: Hook, known: bool, holds: set<Address>)
    requires b.orig !in holds
    ensures LiveAfter(Rehook(a, b), []) == [b] && !EndsAtOriginal(Rehook(a, b), 0, known, true, true, holds)
  {
    var ops := Rehook(a, b);
    assert ops[1..] == [Apply, Delete(0), ops[3]] && ops[1..][1..] == [Delete(0), ops[3]]
           && ops[1..][1..][1..] == [ops[3]];
    assert [Apply, Delete(0), ops[3]][1..] == [Delete(0), ops[3]] && [Delete(0), ops[3]][1..] == [ops[3]];
    assert [ops[3]][1..] == [] && Without([a], 0) == [] && [] + [a] == [a] && [] + [b] == [b];
    calc {
      EndsAtOriginal(ops, 0, known, true, true, holds);
      EndsAtOriginal([Apply, Delete(0), ops[3]], 1, known, !known || a.orig in holds, true, holds);
      EndsAtOriginal([Delete(0), ops[3]], 1, true, !known || a.orig in holds, true, holds);
      EndsAtOriginal([ops[3]], 0, true, true, true, holds);
      EndsAtOriginal([], 1, true, b.orig in holds, true, holds);
      b.orig in holds;
    }
    calc {
      LiveAfter(ops, []);
      LiveAfter([Apply, Delete(0), ops[3]], [a]);
      LiveAfter([Delete(0), ops[3]], [a]);
      LiveAfter([ops[3]], []);
      [b];
    }
  }

  /** Hook a symbol, patch, unhook it and hook it again: a call through its slots does not get to the original. */
  method RehookedCallsMiss(mem: Memory, symbols: map<nat, HookedSymbol>, rel: seq<Reloc>, sym: nat,
                           ghost target: Address, ghost foreign: set<Address>, a: Hook, b: Hook)
    requires SessionOk(mem, symbols, rel, sym, target, foreign) && symbols[sym].hooks == []
    requires CellUsable(a.orig, foreign, rel, []) && CellUsable(b.orig, foreign, rel, []) && a.orig != b.orig
    requires a.replacement != 0 && b.replacement != 0 && b.replacement != target
    requires b.orig in mem.words ==> mem.words[b.orig] != target
    modifies mem, symbols.Values
    ensures View(symbols[sym].hooks) == [b]
    ensures forall i :: IsSlotOf(rel, i, sym) ==>
              rel[i].slot in mem.words && Calls([b], mem.words, mem.words[rel[i].slot], 1) != [b.replacement, target]
  {
    hide ViewOk, HookedSymbol.Linked, CellUsable, Calls, LiveAfter, EndsAtOriginal;
    var ops := Rehook(a, b);
    ghost var holds := if a.orig in mem.words && mem.words[a.orig] == target then {a.orig} else {};
    RehookMisses(a, b, symbols[sym].original != 0, holds);
    var live := PatchedSession(mem, symbols, rel, sym, target, foreign, ops, holds);
    assert NewestFirst([b], target) == [b.replacement, target];
  }
}

// What the steps of creation and destruction return and do, in any state a run reaches.

module DynObjEffects {
  import opened Basics
  import opened Mem
  import opened Handles
  import opened DynObjs

  // Every slot but this one has the object, the generation and the construction it had.
  ghost predicate SlotsStay(f: Family, f1: Family, slot: nat) {
    && f1.kind == f.kind && f1.addrs == f.addrs && |f1.registry| == |f.registry| && |f1.gens| == |f.gens|
    && (forall b: nat :: b < |f.registry| && b != slot ==> f1.registry[b] == f.registry[b])
    && (forall b: nat :: b < |f.gens| && b != slot ==> f1.gens[b] == f.gens[b])
    && (forall b: nat :: b != slot ==> (b in f1.building <==> b in f.building))
  }

  ghost predicate Vacant(f: Family, slot: nat) {
    slot < |f.registry| && f.registry[slot] == None && slot !in f.building
  }

  // A block is under construction exactly if one was free: a vacant slot, with the generation it had.
  lemma BeginEffect(kind: Kind, n: nat, addrs: map<nat, nat>, ops: seq<Op>)
    requires BootArgs(n, addrs)
    ensures var f := Run(Boot(kind, n, addrs), ops); var f1 := Step(f, Begin);
      if f.pool.free == [] then f1 == f
      else
        var slot := f.pool.free[0];
        && Vacant(f, slot) && SlotsStay(f, f1, slot) && slot in f1.building && f1.registry == f.registry
        && f1.gens == f.gens && f1.pool.free == f.pool.free[1..] && f1.issues == f.issues
  {
    RunOk(kind, n, addrs, ops);
    var f := Run(Boot(kind, n, addrs), ops);
    if f.pool.free != [] { assert f.pool.free[0] in f.pool.free; }
  }

  // An abandoned block is the next free one, and its slot vacant; nothing else can be abandoned.
  lemma AbandonEffect(kind: Kind, n: nat, addrs: map<nat, nat>, ops: seq<Op>, slot: nat)
    requires BootArgs(n, addrs)
    ensures var f := Run(Boot(kind, n, addrs), ops); var f1 := Step(f, Abandon(slot));
      if slot !in f.building then f1 == f
      else
        && Vacant(f1, slot) && SlotsStay(f, f1, slot) && f1.registry == f.registry && f1.gens == f.gens
        && f1.pool.free == [slot] + f.pool.free && f1.issues == f.issues
  {
    RunOk(kind, n, addrs, ops);
  }

  // Publication succeeds exactly for a block under construction; the handle it returns resolves to the new
  // object, and no other slot changes.
  lemma PublishEffect(kind: Kind, n: nat, addrs: map<nat, nat>, ops: seq<Op>, slot: nat)
    requires BootArgs(n, addrs)
    ensures var f := Run(Boot(kind, n, addrs), ops); var (f1, h) := DoPublish(f, slot);
      Step(f, Publish(slot)) == f1 &&
      if slot !in f.building then h == None && f1 == f
      else
        && h.Some? && Resolve(f1, h.value) == Some(Obj(slot, |f.issues|)) && SlotsStay(f, f1, slot)
        && slot < |f.registry| && f.registry[slot] == None && f1.registry[slot] == Some(|f.issues|)
        && slot !in f1.building && f1.gens == f.gens && f1.pool == f.pool
  {
    RunOk(kind, n, addrs, ops);
    var f := Run(Boot(kind, n, addrs), ops);
    if slot in f.building {
      PublishOk(f, slot);
      ResolvesTo(DoPublish(f, slot).0, |f.issues|);
    }
  }

  ghost predicate Destroyed(f: Family, f1: Family, slot: nat) {
    && Vacant(f1, slot) && SlotsStay(f, f1, slot) && slot < |f.gens|
    && f1.gens[slot] == (if f.gens[slot] == 65535 then 1 else f.gens[slot] + 1)
    && f1.pool.free == [slot] + f.pool.free && f1.issues == f.issues
  }

  lemma DestroyIs(f: Family, h: nat)
    requires Inv(f) && Resolve(f, h).Some?
    ensures DoDestroy(f, h, true).1 && Destroyed(f, DoDestroy(f, h, true).0, Resolve(f, h).value.slot)
  {
    ResolvedIsRegistered(f, h);
  }

  lemma DestroyedIsGone(f: Family, f1: Family, h: nat)
    requires Inv(f) && Resolve(f, h).Some? && Destroyed(f, f1, Resolve(f, h).value.slot)
    ensures Resolve(f1, h) == None
  {
    ResolvedIsRegistered(f, h);
  }

  // Destruction succeeds exactly on a handle that resolves to an idle object. Its slot is vacant then, of the
  // next generation, and its block the next free one; no other slot changes, and the handle resolves to nothing.
  lemma DestroyEffect(kind: Kind, n: nat, addrs: map<nat, nat>, ops: seq<Op>, h: nat, idle: bool)
    requires BootArgs(n, addrs)
    ensures var f := Run(Boot(kind, n, addrs), ops); var (f1, ok) := DoDestroy(f, h, idle);
      && Step(f, Destroy(h, idle)) == f1 && (ok <==> idle && Resolve(f, h).Some?)
      && if ok then Destroyed(f, f1, Resolve(f, h).value.slot) && Resolve(f1, h) == None else f1 == f
  {
    RunOk(kind, n, addrs, ops);
    var f := Run(Boot(kind, n, addrs), ops);
    if Resolve(f, h).Some? && idle {
      DestroyIs(f, h);
      DestroyedIsGone(f, DoDestroy(f, h, true).0, h);
    }
  }

  // The address of a block resolves to the object registered there, if there is one; a word that is neither an
  // encoded handle of this family nor such an address resolves to nothing.
  lemma AddressEffect(kind: Kind, n: nat, addrs: map<nat, nat>, ops: seq<Op>, a: nat)
    requires BootArgs(n, addrs)
    ensures var f := Run(Boot(kind, n, addrs), ops);
      && (a in addrs ==> addrs[a] < |f.registry|)
      && (a in addrs ==>
            Resolve(f, a) == if f.registry[addrs[a]].Some? then Some(Obj(addrs[a], f.registry[addrs[a]].value)) else None)
      && (Decode(kind, a) == None && a !in addrs ==> Resolve(f, a) == None)
  {
    RunOk(kind, n, addrs, ops);
    RunKeepsPlaces(kind, n, addrs, ops);
    if a in addrs { EncodedIsNoAddress(kind, a); }
  }

  lemma {:induction false} RunKeepsPlaces(kind: Kind, n: nat, addrs: map<nat, nat>, ops: seq<Op>)
    ensures var f := Run(Boot(kind, n, addrs), ops); f.addrs == addrs && f.kind == kind && f.pool.nMax == n
  {
    if ops != [] { RunKeepsPlaces(kind, n, addrs, ops[..|ops| - 1]); }
  }

  lemma EncodedIsNoAddress(kind: Kind, a: nat)
    requires !IsEncoded(a)
    ensures Decode(kind, a) == None
  {
  }
}

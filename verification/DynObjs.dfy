// Dynamic kernel objects of core/src/kdynobjs.c: one object family with its fixed partition, its
// registry and its generation table. Creation takes a block and publishes it in two critical
// sections, so other calls may come between; destruction is one.
//
// An object is named by its life, the number of the publication that made it.

module DynObjs {
  import opened Basics
  import opened Mem
  import opened Handles

  datatype Obj = Obj(slot: nat, life: nat)

  // One publication: the handle given out and the bumps its slot had seen.
  datatype Issue = Issue(handle: nat, slot: nat, bumps: nat, life: nat)

  // `registry` holds the life of the object registered in each slot; `building` the slots between
  // allocation and publication; `addrs` the slot of each block address; the rest is history.
  datatype Family = Family(kind: Kind, pool: Pool, registry: seq<Option<nat>>, gens: seq<Generation>,
                           addrs: map<nat, nat>, building: set<nat>,
                           bumps: seq<nat>, issues: seq<Issue>)

  // kDynObjResolveDecoded_
  function ResolveDecoded(f: Family, slot: nat, gen: nat): Option<Obj> {
    if slot < |f.registry| && slot < |f.gens| && f.gens[slot] == gen && f.registry[slot].Some?
    then Some(Obj(slot, f.registry[slot].value)) else None
  }

  // kDynObjResolveDynamicHandle: an encoded handle of this family, or the address of a registered block.
  function Resolve(f: Family, h: nat): Option<Obj> {
    match Decode(f.kind, h)
    case Some((gen, slot)) => ResolveDecoded(f, slot, gen)
    case None =>
      if IsEncoded(h) || h !in f.addrs || f.addrs[h] >= |f.registry| || f.registry[f.addrs[h]].None? then None
      else Some(Obj(f.addrs[h], f.registry[f.addrs[h]].value))
  }

  // What a service call works on: an object of the family, or an address that is of no pool.
  datatype Target = Pooled(o: Obj) | Raw(address: nat)

  function AsTarget(o: Option<Obj>): Option<Target> {
    if o.Some? then Some(Pooled(o.value)) else None
  }

  // kDynObjResolveHandle
  function ResolveForService(f: Family, h: nat): Option<Target> {
    match Decode(f.kind, h)
    case Some((gen, slot)) => AsTarget(ResolveDecoded(f, slot, gen))
    case None =>
      if IsEncoded(h) then None
      else if h in f.addrs && f.addrs[h] < |f.registry| then
        if f.registry[f.addrs[h]].None? then None else Some(Pooled(Obj(f.addrs[h], f.registry[f.addrs[h]].value)))
      else Some(Raw(h))
  }

  // ---- steps ----------------------------------------------------------------------------------------

  datatype Op =
    | Begin                    // allocate and initialise a block
    | Abandon(slot: nat)       // initialisation failed: the block goes back
    | Publish(slot: nat)       // kDynObjPublishHandle
    | Destroy(handle: nat, idle: bool) // `idle`: nothing waits on the object

  function DoPublish(f: Family, slot: nat): (Family, Option<nat>) {
    if slot !in f.building || slot >= |f.registry| || slot >= |f.gens| || slot >= |f.bumps| || slot >= 0x100
       || f.registry[slot].Some?
    then (f, None)
    else
      var h := Encode(f.kind, f.gens[slot], slot);
      var life := |f.issues|;
      (f.(registry := f.registry[slot := Some(life)], building := f.building - {slot},
          issues := f.issues + [Issue(h, slot, f.bumps[slot], life)]), Some(h))
  }

  // kDynObjInvalidateHandle and kDynObjReleaseBlock_ inside one critical section.
  function DoDestroy(f: Family, h: nat, idle: bool): (Family, bool) {
    match Resolve(f, h)
    case None => (f, false)
    case Some(o) =>
      if !idle || o.slot >= |f.gens| || o.slot >= |f.bumps| || o.slot >= |f.registry| then (f, false)
      else (f.(registry := f.registry[o.slot := None], gens := f.gens[o.slot := Bump(f.gens[o.slot])],
               bumps := f.bumps[o.slot := f.bumps[o.slot] + 1], pool := f.pool.Give(o.slot)), true)
  }

  function Step(f: Family, op: Op): Family {
    match op
    case Begin =>
      var (pool, got) := f.pool.Take();
      if got.Some? then f.(pool := pool, building := f.building + {got.value}) else f
    case Abandon(slot) =>
      if slot in f.building then f.(building := f.building - {slot}, pool := f.pool.Give(slot)) else f
    case Publish(slot) => DoPublish(f, slot).0
    case Destroy(h, idle) => DoDestroy(f, h, idle).0
  }

  function Run(f: Family, ops: seq<Op>): Family {
    if ops == [] then f else Step(Run(f, ops[..|ops| - 1]), ops[|ops| - 1])
  }

  // A family of n slots whose blocks have the given addresses.
  function Boot(kind: Kind, n: nat, addrs: map<nat, nat>): Family {
    Family(kind, FreshPool(n), seq(n, _ => None), seq(n, _ => 0), addrs, {}, seq(n, _ => 0), [])
  }

  // ---- the invariant --------------------------------------------------------------------------------

  predicate Live(f: Family, e: Issue) {
    e.slot < |f.registry| && f.registry[e.slot] == Some(e.life)
  }

  ghost predicate Shape(f: Family) {
    && |f.registry| == |f.gens| == |f.bumps| == f.pool.nMax <= 0x100
    && forall a <- f.addrs :: !IsEncoded(a) && f.addrs[a] < f.pool.nMax
  }

  // The held blocks are the registered objects and those under construction.
  ghost predicate RegistryOk(f: Family) {
    && f.pool.Valid()
    && (forall b <- f.building :: b < f.pool.nMax)
    && (forall b: nat :: b < f.pool.nMax && b < |f.registry| ==>
          && (f.pool.Held(b) <==> f.registry[b].Some? || b in f.building)
          && (f.registry[b].Some? ==> b !in f.building))
  }

  ghost predicate GensOk(f: Family) {
    forall b: nat :: b < |f.gens| && b < |f.bumps| ==> f.gens[b] == GenAfter(f.bumps[b])
  }

  // An issue carries the handle of its time, and its object lives until its slot is bumped.
  ghost predicate IssueOk(f: Family, i: nat)
    requires i < |f.issues|
  {
    var e := f.issues[i];
    && e.life == i && e.slot < |f.bumps| && e.slot < 0x100 && e.bumps <= f.bumps[e.slot]
    && e.handle == Encode(f.kind, GenAfter(e.bumps), e.slot)
    && (e.bumps == f.bumps[e.slot] <==> Live(f, e))
  }

  ghost predicate LivesOk(f: Family) {
    && (forall i: nat :: i < |f.issues| ==> IssueOk(f, i))
    && (forall b: nat :: b < |f.registry| && f.registry[b].Some? ==>
          f.registry[b].value < |f.issues| && f.issues[f.registry[b].value].slot == b)
  }

  ghost predicate Inv(f: Family) {
    Shape(f) && RegistryOk(f) && GensOk(f) && LivesOk(f)
  }

  lemma BeginOk(f: Family)
    requires Inv(f)
    ensures Inv(Step(f, Begin))
  {
    TakeKeeps(f.pool);
    var f1 := Step(f, Begin);
    forall i: nat | i < |f1.issues| ensures IssueOk(f1, i) { assert IssueOk(f, i); }
  }

  lemma AbandonOk(f: Family, slot: nat)
    requires Inv(f)
    ensures Inv(Step(f, Abandon(slot)))
  {
    if slot in f.building {
      GiveKeeps(f.pool, slot);
      var f1 := Step(f, Abandon(slot));
      forall i: nat | i < |f1.issues| ensures IssueOk(f1, i) { assert IssueOk(f, i); }
    }
  }

  lemma PublishOk(f: Family, slot: nat)
    requires Inv(f) && slot in f.building
    ensures var (f1, h) := DoPublish(f, slot);
      && Inv(f1) && h.Some? && f1.issues == f.issues + [Issue(h.value, slot, f.bumps[slot], |f.issues|)]
      && Live(f1, f1.issues[|f.issues|])
  {
    var f1 := DoPublish(f, slot).0;
    forall i: nat | i < |f1.issues| ensures IssueOk(f1, i) {
      if i < |f.issues| { assert IssueOk(f, i); }
    }
  }

  lemma ResolvedIsRegistered(f: Family, h: nat)
    requires Inv(f) && Resolve(f, h).Some?
    ensures var o := Resolve(f, h).value;
      o.slot < f.pool.nMax && f.registry[o.slot] == Some(o.life) && f.pool.Held(o.slot)
  {
  }

  lemma DestroyOk(f: Family, h: nat, idle: bool)
    requires Inv(f)
    ensures Inv(DoDestroy(f, h, idle).0)
    ensures DoDestroy(f, h, idle).1 <==> Resolve(f, h).Some? && idle
  {
    if Resolve(f, h).Some? && idle {
      ResolvedIsRegistered(f, h);
      var slot := Resolve(f, h).value.slot;
      GiveKeeps(f.pool, slot);
      var f1 := DoDestroy(f, h, idle).0;
      assert GenAfter(f.bumps[slot] + 1) == Bump(f.gens[slot]);
      forall i: nat | i < |f1.issues| ensures IssueOk(f1, i) { assert IssueOk(f, i); }
    }
  }

  lemma StepOk(f: Family, op: Op)
    requires Inv(f)
    ensures Inv(Step(f, op))
  {
    match op
    case Begin => BeginOk(f);
    case Abandon(slot) => AbandonOk(f, slot);
    case Publish(slot) => if slot in f.building { PublishOk(f, slot); }
    case Destroy(h, idle) => DestroyOk(f, h, idle);
  }

  ghost predicate BootArgs(n: nat, addrs: map<nat, nat>) {
    n <= 0x100 && forall a <- addrs :: !IsEncoded(a) && addrs[a] < n
  }

  lemma {:induction false} RunOk(kind: Kind, n: nat, addrs: map<nat, nat>, ops: seq<Op>)
    requires BootArgs(n, addrs)
    ensures Inv(Run(Boot(kind, n, addrs), ops))
  {
    if ops == [] {
      var pool := FreshPool(n);
      forall b: nat ensures !pool.Held(b) { if b < n { assert pool.free[b] == b; } }
    } else {
      RunOk(kind, n, addrs, ops[..|ops| - 1]);
      StepOk(Run(Boot(kind, n, addrs), ops[..|ops| - 1]), ops[|ops| - 1]);
    }
  }

  // ---- what a handle resolves to ----------------------------------------------------------------------

  // What the handle of an issue resolves to, whatever happened since: its own object while that lives;
  // else nothing, unless the generations of the slot have come round to it and a new object sits there.
  lemma ResolvesTo(f: Family, i: nat)
    requires Inv(f) && i < |f.issues|
    ensures f.issues[i].slot < |f.bumps|
    ensures var e := f.issues[i]; var d := f.bumps[e.slot] - e.bumps;
      Resolve(f, e.handle) ==
        if d == 0 then Some(Obj(e.slot, e.life))
        else if f.registry[e.slot].Some? && e.bumps > 0 && d % CYCLE == 0
        then Some(Obj(e.slot, f.registry[e.slot].value)) else None
  {
    var e := f.issues[i];
    assert IssueOk(f, i);
    DecodeEncode(f.kind, GenAfter(e.bumps), e.slot, f.kind);
    GenRecurs(e.bumps, f.bumps[e.slot] - e.bumps);
  }

  // Over every run: while its object lives, a handle resolves to that object and differs from every
  // other live handle; a handle whose object was destroyed is rejected until its slot has been
  // bumped 65535 times, its own destruction included.
  lemma HandlesAreSafe(kind: Kind, n: nat, addrs: map<nat, nat>, ops: seq<Op>, i: nat)
    requires BootArgs(n, addrs) && i < |Run(Boot(kind, n, addrs), ops).issues|
    ensures var f := Run(Boot(kind, n, addrs), ops); var e := f.issues[i];
      && e.life == i && e.slot < |f.bumps|
      && (Live(f, e) <==> f.bumps[e.slot] == e.bumps)
      && (Live(f, e) ==> Resolve(f, e.handle) == Some(Obj(e.slot, e.life)))
      && (Live(f, e) ==> forall j: nat :: j < |f.issues| && j != i && Live(f, f.issues[j]) ==> f.issues[j].handle != e.handle)
      && (0 < f.bumps[e.slot] - e.bumps < CYCLE ==> Resolve(f, e.handle) == None)
  {
    var f := Run(Boot(kind, n, addrs), ops);
    RunOk(kind, n, addrs, ops);
    assert IssueOk(f, i);
    ResolvesTo(f, i);
    if Live(f, f.issues[i]) {
      forall j: nat | j < |f.issues| && j != i && Live(f, f.issues[j]) ensures f.issues[j].handle != f.issues[i].handle {
        LiveHandlesDiffer(f, i, j);
      }
    }
  }

  // Two live objects resolve from their own handles, so the handles differ.
  lemma LiveHandlesDiffer(f: Family, i: nat, j: nat)
    requires Inv(f) && i < |f.issues| && j < |f.issues| && i != j
    requires Live(f, f.issues[i]) && Live(f, f.issues[j])
    ensures f.issues[i].handle != f.issues[j].handle
  {
    assert IssueOk(f, i) && IssueOk(f, j);
    ResolvesTo(f, i);
    ResolvesTo(f, j);
  }

  // When exactly a stale handle of a destroyed object is accepted again.
  lemma StaleAcceptedIff(kind: Kind, n: nat, addrs: map<nat, nat>, ops: seq<Op>, i: nat)
    requires BootArgs(n, addrs) && i < |Run(Boot(kind, n, addrs), ops).issues|
    requires var f := Run(Boot(kind, n, addrs), ops); !Live(f, f.issues[i])
    ensures var f := Run(Boot(kind, n, addrs), ops); var e := f.issues[i];
      && e.slot < |f.registry| && e.slot < |f.bumps|
      && (Resolve(f, e.handle).Some? <==>
            f.registry[e.slot].Some? && e.bumps > 0 && (f.bumps[e.slot] - e.bumps) % CYCLE == 0)
  {
    var f := Run(Boot(kind, n, addrs), ops);
    RunOk(kind, n, addrs, ops);
    assert IssueOk(f, i);
    ResolvesTo(f, i);
  }

  // The services take an object exactly where a destroy call finds it, and pass through only addresses
  // that are of no pool; a handle that was ever issued is never passed through.
  lemma ServicesAgree(kind: Kind, n: nat, addrs: map<nat, nat>, ops: seq<Op>, h: nat)
    requires BootArgs(n, addrs)
    ensures var f := Run(Boot(kind, n, addrs), ops);
      && (forall o: Obj :: ResolveForService(f, h) == Some(Pooled(o)) <==> Resolve(f, h) == Some(o))
      && (ResolveForService(f, h) == Some(Raw(h)) <==> !IsEncoded(h) && h !in f.addrs)
      && (forall i: nat :: i < |f.issues| && f.issues[i].handle == h ==> ResolveForService(f, h) == AsTarget(Resolve(f, h)))
  {
    RunOk(kind, n, addrs, ops);
    var f := Run(Boot(kind, n, addrs), ops);
    forall i: nat | i < |f.issues| && f.issues[i].handle == h
      ensures ResolveForService(f, h) == AsTarget(Resolve(f, h))
    {
      assert IssueOk(f, i);
      DecodeEncode(f.kind, GenAfter(f.issues[i].bumps), f.issues[i].slot, f.kind);
    }
  }

  // ---- resolving and using are two steps -----------------------------------------------------------------

  // A service resolves its handle before it enters its critical section. What the object pointer it
  // took denotes by then: the object, none, or a younger object in the same block.
  function DenotedBy(f: Family, o: Obj): Option<Obj> {
    if o.slot < |f.registry| && f.registry[o.slot].Some? then Some(Obj(o.slot, f.registry[o.slot].value)) else None
  }

  lemma StepKeepsHistory(f: Family, op: Op)
    requires Inv(f)
    ensures f.issues <= Step(f, op).issues && |Step(f, op).bumps| == |f.bumps|
    ensures forall b: nat :: b < |f.bumps| ==> f.bumps[b] <= Step(f, op).bumps[b]
  {
  }

  lemma {:induction false} RunKeepsHistory(f: Family, ops: seq<Op>)
    requires Inv(f)
    ensures Inv(Run(f, ops)) && f.issues <= Run(f, ops).issues && |Run(f, ops).bumps| == |f.bumps|
    ensures forall b: nat :: b < |f.bumps| ==> f.bumps[b] <= Run(f, ops).bumps[b]
  {
    if ops != [] {
      RunKeepsHistory(f, ops[..|ops| - 1]);
      StepOk(Run(f, ops[..|ops| - 1]), ops[|ops| - 1]);
      StepKeepsHistory(Run(f, ops[..|ops| - 1]), ops[|ops| - 1]);
    }
  }

  // Whatever calls come between, a service still works on the object its handle named exactly if the
  // object's slot was not bumped since, that is, if the object was not destroyed.
  lemma UsedIsResolvedIff(kind: Kind, n: nat, addrs: map<nat, nat>, ops: seq<Op>, between: seq<Op>, h: nat)
    requires BootArgs(n, addrs) && Resolve(Run(Boot(kind, n, addrs), ops), h).Some?
    ensures var f := Run(Boot(kind, n, addrs), ops); var f1, o := Run(f, between), Resolve(f, h).value;
      && o.slot < |f.bumps| == |f1.bumps|
      && (DenotedBy(f1, o) == Some(o) <==> f1.bumps[o.slot] == f.bumps[o.slot])
      && f1.bumps[o.slot] >= f.bumps[o.slot]
  {
    var f := Run(Boot(kind, n, addrs), ops);
    RunOk(kind, n, addrs, ops);
    ResolvedIsRegistered(f, h);
    var o, f1 := Resolve(f, h).value, Run(f, between);
    RunKeepsHistory(f, between);
    assert IssueOk(f, o.life) && f1.issues[o.life] == f.issues[o.life];
    assert IssueOk(f1, o.life);
  }

  // The other case happens: a handle that resolved, and a pointer that denotes another object when it is used.
  lemma UsedMayBeAnother(kind: Kind)
    ensures var f := Run(Boot(kind, 1, map[]), [Begin, Publish(0)]);
      var h := Encode(kind, 0, 0);
      var f1 := Run(f, [Destroy(h, true), Begin, Publish(0)]);
      Resolve(f, h) == Some(Obj(0, 0)) && DenotedBy(f1, Obj(0, 0)) == Some(Obj(0, 1)) && Resolve(f1, h) == None
  {
    var f0 := Boot(kind, 1, map[]);
    var h := Encode(kind, 0, 0);
    DecodeEncode(kind, 0, 0, kind);
    assert f0.pool.free == [0];
    var a := Step(f0, Begin);
    var f := Step(a, Publish(0));
    assert [Begin, Publish(0)][..1] == [Begin] && [Begin][..0] == [];
    assert Run(f0, [Begin]) == a && Run(f0, [Begin, Publish(0)]) == f;
    assert Resolve(f, h) == Some(Obj(0, 0));
    var d := Step(f, Destroy(h, true));
    var b := Step(d, Begin);
    var last := [Destroy(h, true), Begin, Publish(0)];
    assert last[..2] == [Destroy(h, true), Begin] && last[..2][..1] == [Destroy(h, true)] && last[..1][..0] == [];
    assert Run(f, [Destroy(h, true)]) == d && Run(f, last[..2]) == b && Run(f, last) == Step(b, Publish(0));
  }

  // A handle of one family means nothing to another.
  lemma OtherFamilyRejects(kind: Kind, n: nat, addrs: map<nat, nat>, ops: seq<Op>, i: nat, other: Family)
    requires BootArgs(n, addrs) && i < |Run(Boot(kind, n, addrs), ops).issues| && other.kind != kind
    ensures Resolve(other, Run(Boot(kind, n, addrs), ops).issues[i].handle) == None
  {
    var f := Run(Boot(kind, n, addrs), ops);
    RunOk(kind, n, addrs, ops);
    RunKind(Boot(kind, n, addrs), ops);
    assert IssueOk(f, i);
    DecodeEncode(kind, GenAfter(f.issues[i].bumps), f.issues[i].slot, other.kind);
  }

  lemma {:induction false} RunKind(f: Family, ops: seq<Op>)
    ensures Run(f, ops).kind == f.kind
  {
    if ops != [] { RunKind(f, ops[..|ops| - 1]); }
  }

  // Registered objects and blocks under construction are the allocated blocks, and with the free
  // ones they make up the partition.
  lemma RegistryAgrees(kind: Kind, n: nat, addrs: map<nat, nat>, ops: seq<Op>)
    requires BootArgs(n, addrs)
    ensures var f := Run(Boot(kind, n, addrs), ops);
      && |f.registry| == f.pool.nMax
      && (forall b: nat :: b in f.pool.HeldSet() <==> b < |f.registry| && (f.registry[b].Some? || b in f.building))
      && (forall b <- f.building :: b < |f.registry| && f.registry[b].None?)
      && |f.pool.free| + |f.pool.HeldSet()| == f.pool.nMax
  {
    RunOk(kind, n, addrs, ops);
    PoolConserves(Run(Boot(kind, n, addrs), ops).pool);
  }

  // ---- the tables in place ------------------------------------------------------------------------------

  class ObjectFamily {
    const kind: Kind
    const addrs: map<nat, nat>
    const registryPtr: array<Option<nat>>
    const generationPtr: array<Generation>
    var pool: Pool
    var building: set<nat>
    ghost var bumps: seq<nat>
    ghost var issues: seq<Issue>
    var published: nat

    // kDynObjInitPart_ over zeroed tables.
    constructor (k: Kind, n: nat, blockAddrs: map<nat, nat>)
      requires BootArgs(n, blockAddrs)
      ensures Valid() && Contents() == Boot(k, n, blockAddrs) && fresh(registryPtr) && fresh(generationPtr)
    {
      kind, addrs := k, blockAddrs;
      registryPtr := new Option<nat>[n](_ => None);
      generationPtr := new Generation[n](_ => 0);
      pool, building, published := FreshPool(n), {}, 0;
      bumps, issues := seq(n, _ => 0), [];
      new;
      RunOk(k, n, blockAddrs, []);
    }

    ghost function Contents(): Family
      reads this, registryPtr, generationPtr
    {
      Family(kind, pool, registryPtr[..], generationPtr[..], addrs, building, bumps, issues)
    }

    ghost predicate Valid()
      reads this, registryPtr, generationPtr
    {
      Inv(Contents()) && published == |issues|
    }

    // The allocation half of a create call.
    method Allocate() returns (slot: Option<nat>)
      requires Valid()
      modifies this`pool, this`building
      ensures Valid() && Contents() == Step(old(Contents()), Begin)
      ensures slot == old(pool).Take().1
    {
      BeginOk(Contents());
      var (rest, got) := pool.Take();
      if got.Some? { pool, building := rest, building + {got.value}; }
      return got;
    }

    // The failure path of a create call.
    method GiveUp(slot: nat)
      requires Valid() && slot in building
      modifies this`pool, this`building
      ensures Valid() && Contents() == Step(old(Contents()), Abandon(slot))
    {
      AbandonOk(Contents(), slot);
      building, pool := building - {slot}, pool.Give(slot);
    }

    // kDynObjPublishHandle
    method PublishHandle(slot: nat) returns (handle: nat)
      requires Valid() && slot in building
      modifies this, registryPtr
      ensures Valid() && (Contents(), Some(handle)) == DoPublish(old(Contents()), slot)
    {
      PublishOk(Contents(), slot);
      registryPtr[slot] := Some(published);
      handle := Encode(kind, generationPtr[slot], slot);
      building := building - {slot};
      issues := issues + [Issue(handle, slot, bumps[slot], published)];
      published := published + 1;
    }

    // kDynObjResolveDynamicHandle
    method ResolveDynamicHandle(h: nat) returns (o: Option<Obj>)
      requires Valid()
      ensures o == Resolve(Contents(), h)
    {
      var decoded := Decode(kind, h);
      if decoded.Some? {
        var (gen, slot) := decoded.value;
        if slot >= registryPtr.Length || generationPtr[slot] != gen || registryPtr[slot].None? { return None; }
        return Some(Obj(slot, registryPtr[slot].value));
      }
      if IsEncoded(h) || h !in addrs || registryPtr[addrs[h]].None? { return None; }
      return Some(Obj(addrs[h], registryPtr[addrs[h]].value));
    }

    // kDynObjResolveHandle
    method ResolveHandle(h: nat) returns (target: Option<Target>)
      requires Valid()
      ensures target == ResolveForService(Contents(), h)
    {
      var decoded := Decode(kind, h);
      if decoded.Some? {
        var (gen, slot) := decoded.value;
        if slot >= registryPtr.Length || generationPtr[slot] != gen || registryPtr[slot].None? { return None; }
        return Some(Pooled(Obj(slot, registryPtr[slot].value)));
      }
      if IsEncoded(h) { return None; }
      if h in addrs {
        if registryPtr[addrs[h]].None? { return None; }
        return Some(Pooled(Obj(addrs[h], registryPtr[addrs[h]].value)));
      }
      return Some(Raw(h));
    }

    // kDynObjGenerationBump_
    method GenerationBump(slot: nat)
      requires slot < generationPtr.Length
      modifies generationPtr
      ensures generationPtr[..] == old(generationPtr[..])[slot := Bump(old(generationPtr[slot]))]
    {
      var g: nat := generationPtr[slot];
      generationPtr[slot] := (g + 1) % 0x1_0000;
      if generationPtr[slot] == 0 { generationPtr[slot] := 1; }
    }

    // A destroy call: resolve, refuse if busy, kDynObjInvalidateHandle, kDynObjReleaseBlock_.
    method DestroyHandle(h: nat, idle: bool) returns (ok: bool)
      requires Valid()
      modifies this, registryPtr, generationPtr
      ensures Valid() && (Contents(), ok) == DoDestroy(old(Contents()), h, idle)
      ensures ok <==> old(Resolve(Contents(), h)).Some? && idle
    {
      DestroyOk(Contents(), h, idle);
      var o := ResolveDynamicHandle(h);
      if o.None? || !idle { return false; }
      ResolvedIsRegistered(Contents(), h);
      var slot := o.value.slot;
      registryPtr[slot] := None;
      GenerationBump(slot);
      bumps := bumps[slot := bumps[slot] + 1];
      pool := pool.Give(slot);
      return true;
    }
  }
}

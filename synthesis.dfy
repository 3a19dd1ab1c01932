/**
 * Serializer synthesis as state-passing functions: the serializer cache, the
 * registry of types whose synthesis is in progress (each with the
 * forward-reference cell its placeholder expression reads), and the cells
 * themselves. A compiled serializer is a token: its slots (the late-bound
 * delegate variables, assigned from cells when the serializer runs) and its
 * handlers, in emission order.
 */
module Synthesis {
  import opened Wrappers
  import opened NbtTags
  import opened TypeModel

  /** A call to another type's serializer inside a generated body. */
  datatype Call =
    | LateBound(slotType: TypeId, tagName: Name)   // through the slot variable for `slotType`
    | EarlyBound(target: TypeId, tagName: Name)    // to the delegate `GetSerializer(target)` returned

  /** Opaque pieces of generated code the handlers combine. */
  datatype Code =
    | ReadProperty(property: string)
    | WriteTag(category: Category, tagName: Name)
    | WriteDefault(category: Category, tagName: Name)
    | Invoke(call: Call)

  /** One `CodeEmitter.HandleX` result: the null guard, when the category takes a policy. */
  datatype Handler = Handler(
    category: Category, tagName: Name, property: string,
    guard: Option<Guard<Code>>, elementPolicy: Option<NullPolicy>)

  /** A delegate variable of the body, assigned from the cell of the registry entry for `slotType`. */
  datatype Slot = Slot(slotType: TypeId, cell: nat)

  /** A compiled serializer, identified by its type and the cell its own placeholder reads. */
  datatype Serializer = Serializer(forType: TypeId, cell: nat, slots: seq<Slot>, handlers: seq<Handler>)

  /** The statements of a generated serializer body. */
  datatype Stmt = ThrowIfRootNull(paramName: string) | Preamble | AssignSlot(slot: Slot) | Emit(handler: Handler) | ReturnRoot

  /**
   * The generated body: the null check on the root value, the emitter's
   * preamble, the slot assignments, the handlers, the return.
   */
  function Body(s: Serializer): (b: seq<Stmt>)
    ensures |b| == |s.slots| + |s.handlers| + 3
    ensures b[0] == ThrowIfRootNull("value") && b[1] == Preamble && b[|b| - 1] == ReturnRoot
    ensures forall i :: 0 <= i < |s.slots| ==> b[2 + i] == AssignSlot(s.slots[i])
    ensures forall i :: 0 <= i < |s.handlers| ==> b[2 + |s.slots| + i] == Emit(s.handlers[i])
  {
    [ThrowIfRootNull("value"), Preamble]
    + seq(|s.slots|, i requires 0 <= i < |s.slots| => AssignSlot(s.slots[i]))
    + seq(|s.handlers|, i requires 0 <= i < |s.handlers| => Emit(s.handlers[i]))
    + [ReturnRoot]
  }

  /** The call a handler makes, if any: only the compound handler makes one. */
  function CallOf(h: Handler): Option<Call> {
    if h.guard.Some? && h.guard.value.nonNull.Invoke? then Some(h.guard.value.nonNull.call) else None
  }

  /** `SerializerCache`, `ParentSerializers` (type to cell) and the cells. */
  datatype State = State(cache: map<TypeId, Serializer>, parents: map<TypeId, nat>, cells: seq<Option<Serializer>>)

  /** An operation's outcome: its result or exception, and the new state. */
  datatype Out<R> = Out(result: Result<R, BuildError>, st: State)

  /** The same, for operations that also grow the current `CallResolver`'s parameters. */
  datatype Step<R> = Step(result: Result<R, BuildError>, st: State, params: seq<TypeId>)

  const Empty: State := State(map[], map[], [])

  // ---------------------------------------------------------------------------
  // Invariants

  /** Each cached serializer's late-bound calls go through one of its own slots. */
  predicate Wired(s: Serializer) {
    forall h :: h in s.handlers && CallOf(h).Some? && CallOf(h).value.LateBound? ==>
      exists slot :: slot in s.slots && slot.slotType == CallOf(h).value.slotType
  }

  /**
   * The structural invariant: registered types are described and own a cell;
   * the cache maps each type to its own serializer; a resolved cell holds
   * exactly the serializer the cache publishes for its type.
   */
  predicate Inv(g: TypeGraph, st: State) {
    && st.parents.Keys <= g.Keys
    && (forall k :: k in st.parents ==> st.parents[k] < |st.cells|)
    && (forall k :: k in st.cache ==> st.cache[k].forType == k && Wired(st.cache[k]))
    && (forall i :: 0 <= i < |st.cells| && st.cells[i].Some? ==>
          st.cells[i].value.forType in st.cache && st.cache[st.cells[i].value.forType] == st.cells[i].value)
  }

  /**
   * What every operation does to the state: the registry comes back as it
   * was; cached serializers stay; the only types newly cached are ones that
   * were not being synthesized; cells are only added, a resolved cell never
   * changes, and the cells of types being synthesized are left alone.
   */
  predicate Evolves(st: State, st': State) {
    && st'.parents == st.parents
    && (forall k :: k in st.cache ==> k in st'.cache && st'.cache[k] == st.cache[k])
    && (forall k :: k in st'.cache ==> k in st.cache || k !in st.parents)
    && |st.cells| <= |st'.cells|
    && (forall i :: 0 <= i < |st.cells| && st.cells[i].Some? ==> st'.cells[i] == st.cells[i])
    && (forall k :: k in st.parents && st.parents[k] < |st.cells| ==> st'.cells[st.parents[k]] == st.cells[st.parents[k]])
  }

  lemma EvolvesTransitive(a: State, b: State, c: State)
    requires Evolves(a, b) && Evolves(b, c)
    ensures Evolves(a, c)
  {
  }

  /** The resolver's parameters: distinct types, each registered. */
  predicate ParamsOk(st: State, params: seq<TypeId>) {
    && (forall i, j :: 0 <= i < j < |params| ==> params[i] != params[j])
    && (forall i :: 0 <= i < |params| ==> params[i] in st.parents)
  }

  predicate CallCovered(c: Call, params: seq<TypeId>, cache: map<TypeId, Serializer>) {
    match c
    case LateBound(ty, _) => ty in params
    case EarlyBound(ty, _) => ty in cache
  }

  /** Every call of `hs` is late-bound through a parameter, or early-bound to a cached serializer. */
  predicate HandlersCovered(hs: seq<Handler>, params: seq<TypeId>, cache: map<TypeId, Serializer>) {
    forall h :: h in hs && CallOf(h).Some? ==> CallCovered(CallOf(h).value, params, cache)
  }

  lemma CoveredMonotone(hs: seq<Handler>, params: seq<TypeId>, cache: map<TypeId, Serializer>,
                        params': seq<TypeId>, cache': map<TypeId, Serializer>)
    requires HandlersCovered(hs, params, cache)
    requires params <= params' && cache.Keys <= cache'.Keys
    ensures HandlersCovered(hs, params', cache')
  {
    forall h | h in hs && CallOf(h).Some? ensures CallCovered(CallOf(h).value, params', cache') {
      if CallOf(h).value.LateBound? {
        var i :| 0 <= i < |params| && params[i] == CallOf(h).value.slotType;
        assert params'[i] == params[i];
      }
    }
  }

  /**
   * A slot can be read when its serializer runs: its cell already holds the
   * serializer for its type, or belongs to a synthesis of that type still in
   * progress (and so is assigned when that synthesis succeeds).
   */
  predicate SlotResolvable(st: State, s: Slot) {
    && s.cell < |st.cells|
    && ((st.cells[s.cell].Some? && st.cells[s.cell].value.forType == s.slotType)
        || (s.slotType in st.parents && st.parents[s.slotType] == s.cell))
  }

  predicate SerializerResolved(st: State, s: Serializer) {
    && (forall slot :: slot in s.slots ==> SlotResolvable(st, slot))
    && (forall h :: h in s.handlers && CallOf(h).Some? && CallOf(h).value.EarlyBound? ==> CallOf(h).value.target in st.cache)
  }

  /** Every cached serializer can run without meeting an unassigned slot or a missing callee. */
  predicate Resolved(st: State) {
    forall k :: k in st.cache ==> SerializerResolved(st, st.cache[k])
  }

  lemma SlotResolvableEvolves(st: State, st': State, s: Slot)
    requires Evolves(st, st') && SlotResolvable(st, s)
    ensures SlotResolvable(st', s)
  {
  }

  lemma SerializerResolvedEvolves(st: State, st': State, s: Serializer)
    requires Evolves(st, st') && SerializerResolved(st, s)
    ensures SerializerResolved(st', s)
  {
    forall slot | slot in s.slots ensures SlotResolvable(st', slot) {
      SlotResolvableEvolves(st, st', slot);
    }
  }

  /** The slots of a new body: one per resolver parameter, reading that type's registry cell. */
  function SlotsFor(params: seq<TypeId>, parents: map<TypeId, nat>): (slots: seq<Slot>)
    requires forall i :: 0 <= i < |params| ==> params[i] in parents
    ensures |slots| == |params|
    ensures forall i :: 0 <= i < |params| ==> slots[i] == Slot(params[i], parents[params[i]])
  {
    seq(|params|, i requires 0 <= i < |params| => Slot(params[i], parents[params[i]]))
  }

  /** Registering a new type leaves fewer unregistered described types. */
  lemma RegistryShrinks(all: set<TypeId>, registered: set<TypeId>, t: TypeId)
    requires t in all && t !in registered
    ensures |all - (registered + {t})| < |all - registered|
  {
    var rest := all - (registered + {t});
    assert all - registered == rest + {t};
    assert t !in rest;
  }

  /**
   * Nesting is bounded by the number of described types: every type in the
   * registry is described, and none is in it twice.
   */
  lemma RegistryBounded(g: TypeGraph, st: State)
    requires Inv(g, st)
    ensures |st.parents| <= |g|
  {
    assert g.Keys == st.parents.Keys + (g.Keys - st.parents.Keys);
  }

  // ---------------------------------------------------------------------------
  // The synthesis functions

  /**
   * `GetSerializer<T>()` / `GetSerializer(Type)` for a non-null type: the
   * cached serializer on a hit, a new synthesis on a miss.
   */
  function GetSerializer(g: TypeGraph, st: State, t: TypeId): (r: Out<Serializer>)
    requires Closed(g) && Inv(g, st) && t in g
    requires t in st.cache || t !in st.parents
    ensures Evolves(st, r.st) && Inv(g, r.st)
    ensures t in st.cache ==> r == Out(Ok(st.cache[t]), st)
    ensures r.result.Ok? ==> t in r.st.cache && r.st.cache[t] == r.result.value
    ensures r.result.Err? ==> t !in r.st.cache
    ensures Resolved(st) && r.result.Ok? ==> Resolved(r.st)
    decreases |g.Keys - st.parents.Keys|, 2, 0
  {
    if t in st.cache then Out(Ok(st.cache[t]), st)
    else CreateSerializer(g, st, t)
  }

  /**
   * `CreateSerializer<T>()`: register T with a fresh cell, build the body,
   * then resolve the cell and publish T in the cache; the registry entry is
   * removed on both paths.
   */
  function CreateSerializer(g: TypeGraph, st: State, t: TypeId): (r: Out<Serializer>)
    requires Closed(g) && Inv(g, st) && t in g
    requires t !in st.cache && t !in st.parents
    ensures Evolves(st, r.st) && Inv(g, r.st)
    ensures r.result.Ok? ==> t in r.st.cache && r.st.cache[t] == r.result.value
    ensures r.result.Ok? ==> r.result.value.cell < |r.st.cells| && r.st.cells[r.result.value.cell] == Some(r.result.value)
    ensures r.result.Err? ==> t !in r.st.cache
    ensures Resolved(st) && r.result.Ok? ==> Resolved(r.st)
    decreases |g.Keys - st.parents.Keys|, 1, 0
  {
    var st1 := State(st.cache, st.parents[t := |st.cells|], st.cells + [None]);
    RegistrationKeepsInvariant(g, st, t, st1);
    var built := MakePropertySerializers(g, st1, [], GetSerializableProperties(g[t].properties), 0, []);
    Publish(g, st, t, st1, built)
  }

  /**
   * The end of `CreateSerializer<T>()`: on success, resolve T's cell and add T
   * to the cache; on both paths, remove T from the registry.
   */
  function Publish(g: TypeGraph, st: State, t: TypeId, st1: State, built: Step<seq<Handler>>): (r: Out<Serializer>)
    requires Inv(g, st) && t !in st.cache && t !in st.parents
    requires st1 == State(st.cache, st.parents[t := |st.cells|], st.cells + [None])
    requires Evolves(st1, built.st) && Inv(g, built.st) && ParamsOk(built.st, built.params)
    requires built.result.Ok? ==> HandlersCovered(built.result.value, built.params, built.st.cache)
    requires Resolved(st1) && built.result.Ok? ==> Resolved(built.st)
    requires Resolved(st) ==> Resolved(st1)
    ensures Evolves(st, r.st) && Inv(g, r.st)
    ensures r.result.Ok? ==> t in r.st.cache && r.st.cache[t] == r.result.value
    ensures r.result.Ok? ==> r.result.value.cell < |r.st.cells| && r.st.cells[r.result.value.cell] == Some(r.result.value)
    ensures r.result.Err? ==> t !in r.st.cache
    ensures Resolved(st) && r.result.Ok? ==> Resolved(r.st)
  {
    if built.result.Err? then Abandon(g, st, t, st1, built)
    else Complete(g, st, t, st1, built)
  }

  /** A failed build: T leaves the registry; its cell stays unassigned. */
  function Abandon(g: TypeGraph, st: State, t: TypeId, st1: State, built: Step<seq<Handler>>): (r: Out<Serializer>)
    requires Inv(g, st) && t !in st.cache && t !in st.parents
    requires st1 == State(st.cache, st.parents[t := |st.cells|], st.cells + [None])
    requires Evolves(st1, built.st) && Inv(g, built.st) && built.result.Err?
    ensures Evolves(st, r.st) && Inv(g, r.st)
    ensures r.result == Err(built.result.error) && t !in r.st.cache
  {
    var st2 := built.st;
    assert t in st1.parents && st1.parents[t] == |st.cells|;
    var done := State(st2.cache, st2.parents - {t}, st2.cells);
    CreateEvolves(st, t, st1, st2, done);
    Out(Err(built.result.error), done)
  }

  /** A successful build: T's cell is resolved and T is cached; T leaves the registry. */
  function Complete(g: TypeGraph, st: State, t: TypeId, st1: State, built: Step<seq<Handler>>): (r: Out<Serializer>)
    requires Inv(g, st) && t !in st.cache && t !in st.parents
    requires st1 == State(st.cache, st.parents[t := |st.cells|], st.cells + [None])
    requires Evolves(st1, built.st) && Inv(g, built.st) && ParamsOk(built.st, built.params)
    requires built.result.Ok? && HandlersCovered(built.result.value, built.params, built.st.cache)
    requires Resolved(st1) ==> Resolved(built.st)
    requires Resolved(st) ==> Resolved(st1)
    ensures Evolves(st, r.st) && Inv(g, r.st) && r.result.Ok?
    ensures t in r.st.cache && r.st.cache[t] == r.result.value
    ensures r.result.value.cell < |r.st.cells| && r.st.cells[r.result.value.cell] == Some(r.result.value)
    ensures Resolved(st) ==> Resolved(r.st)
  {
    var cell := |st.cells|;
    var st2 := built.st;
    assert t in st1.parents && st1.parents[t] == cell;
    assert st2.cells[cell] == None && t !in st2.cache;
    var ser := Serializer(t, cell, SlotsFor(built.params, st2.parents), built.result.value);
    var done := State(st2.cache[t := ser], st2.parents - {t}, st2.cells[cell := Some(ser)]);
    CompleteEvolves(st, t, st1, st2, ser, done);
    PublishKeepsInvariant(g, st2, t, ser, built.params, done);
    if Resolved(st) then
      PublishKeepsResolved(g, st2, t, ser, built.params, done);
      Out(Ok(ser), done)
    else
      Out(Ok(ser), done)
  }

  /**
   * `MakePropertySerializers` from property `i` on, with the handlers so far
   * in `acc`: for each property, resolve its tag name and policies, then emit
   * the handlers its dispatch selects.
   */
  function MakePropertySerializers(g: TypeGraph, st: State, params: seq<TypeId>, props: seq<PropertyInfo>,
                                   i: nat, acc: seq<Handler>): (r: Step<seq<Handler>>)
    requires Closed(g) && Inv(g, st) && ParamsOk(st, params)
    requires i <= |props| && forall p :: p in props ==> p.propertyType in g
    requires HandlersCovered(acc, params, st.cache)
    ensures Evolves(st, r.st) && Inv(g, r.st) && ParamsOk(r.st, r.params) && params <= r.params
    ensures r.result.Ok? ==> acc <= r.result.value && HandlersCovered(r.result.value, r.params, r.st.cache)
    ensures Resolved(st) && r.result.Ok? ==> Resolved(r.st)
    decreases |g.Keys - st.parents.Keys|, 6, |props| - i
  {
    if i == |props| then Step(Ok(acc), st, params)
    else
      var p := props[i];
      var emitted := EmitHandlers(g, st, params, p, TagNameOf(p), SelfPolicyOf(p), ElementPolicyOf(p),
                                  Dispatch(g[p.propertyType].shape));
      if emitted.result.Err? then Step(Err(emitted.result.error), emitted.st, emitted.params)
      else
        CoveredMonotone(acc, params, st.cache, emitted.params, emitted.st.cache);
        var rest := MakePropertySerializers(g, emitted.st, emitted.params, props, i + 1, acc + emitted.result.value);
        ChainProperties(st, params, acc, emitted, rest);
        rest
  }

  /** The handlers for one property followed by those for the rest keep what each part kept. */
  lemma ChainProperties(st: State, params: seq<TypeId>, acc: seq<Handler>,
                        emitted: Step<seq<Handler>>, rest: Step<seq<Handler>>)
    requires emitted.result.Ok?
    requires Evolves(st, emitted.st) && Evolves(emitted.st, rest.st)
    requires params <= emitted.params && emitted.params <= rest.params
    requires rest.result.Ok? ==> acc + emitted.result.value <= rest.result.value
    requires Resolved(st) ==> Resolved(emitted.st)
    requires Resolved(emitted.st) && rest.result.Ok? ==> Resolved(rest.st)
    ensures Evolves(st, rest.st) && params <= rest.params
    ensures rest.result.Ok? ==> acc <= rest.result.value
    ensures Resolved(st) && rest.result.Ok? ==> Resolved(rest.st)
  {
    EvolvesTransitive(st, emitted.st, rest.st);
  }

  /**
   * The handlers for one property: the first selected category's, then, for
   * a dictionary, the second one's; a failure ends the property.
   */
  function EmitHandlers(g: TypeGraph, st: State, params: seq<TypeId>, p: PropertyInfo, tagName: Name,
                        selfPolicy: NullPolicy, elementPolicy: NullPolicy, cats: seq<Category>): (r: Step<seq<Handler>>)
    requires Closed(g) && Inv(g, st) && ParamsOk(st, params) && p.propertyType in g && 1 <= |cats| <= 2
    ensures Evolves(st, r.st) && Inv(g, r.st) && ParamsOk(r.st, r.params) && params <= r.params
    ensures r.result.Ok? ==> |r.result.value| == |cats| && HandlersCovered(r.result.value, r.params, r.st.cache)
    ensures r.result.Ok? ==> forall k :: 0 <= k < |cats| ==> r.result.value[k].category == cats[k]
    ensures Resolved(st) && r.result.Ok? ==> Resolved(r.st)
    decreases |g.Keys - st.parents.Keys|, 5, 0
  {
    var h := MakeHandler(g, st, params, cats[0], p, tagName, selfPolicy, elementPolicy);
    if h.result.Err? then Step(Err(h.result.error), h.st, h.params)
    else if |cats| == 1 then Step(Ok([h.result.value]), h.st, h.params)
    else
      var h2 := MakeHandler(g, h.st, h.params, cats[1], p, tagName, selfPolicy, elementPolicy);
      EvolvesTransitive(st, h.st, h2.st);
      if h2.result.Err? then Step(Err(h2.result.error), h2.st, h2.params)
      else
        CombinePair(st, params, h, h2, cats);
        Step(Ok([h.result.value, h2.result.value]), h2.st, h2.params)
  }

  /** Two handlers emitted in turn make a pair that keeps what each of them kept. */
  lemma CombinePair(st: State, params: seq<TypeId>, h: Step<Handler>, h2: Step<Handler>, cats: seq<Category>)
    requires |cats| == 2 && h.result.Ok? && h2.result.Ok?
    requires Evolves(st, h.st) && Evolves(h.st, h2.st) && params <= h.params && h.params <= h2.params
    requires h.result.value.category == cats[0] && h2.result.value.category == cats[1]
    requires HandlersCovered([h.result.value], h.params, h.st.cache)
    requires HandlersCovered([h2.result.value], h2.params, h2.st.cache)
    requires Resolved(st) ==> Resolved(h.st)
    requires Resolved(h.st) ==> Resolved(h2.st)
    ensures Evolves(st, h2.st) && params <= h2.params
    ensures HandlersCovered([h.result.value, h2.result.value], h2.params, h2.st.cache)
    ensures forall k :: 0 <= k < |cats| ==> [h.result.value, h2.result.value][k].category == cats[k]
    ensures Resolved(st) ==> Resolved(h2.st)
  {
    EvolvesTransitive(st, h.st, h2.st);
    CoveredMonotone([h.result.value], h.params, h.st.cache, h2.params, h2.st.cache);
  }

  /**
   * One `HandleX` call. Primitive/enum and `INbtSerializable` handlers take no
   * policy; the others guard their code with `MakeNullHandler` on the self
   * policy; the compound handler's non-null code is the call `MakeCall`
   * builds for the property's type, built first.
   */
  function MakeHandler(g: TypeGraph, st: State, params: seq<TypeId>, c: Category, p: PropertyInfo, tagName: Name,
                       selfPolicy: NullPolicy, elementPolicy: NullPolicy): (r: Step<Handler>)
    requires Closed(g) && Inv(g, st) && ParamsOk(st, params) && p.propertyType in g
    ensures Evolves(st, r.st) && Inv(g, r.st) && ParamsOk(r.st, r.params) && params <= r.params
    ensures c != CompoundObject ==> r.st == st && r.params == params
    ensures r.result.Ok? ==> r.result.value.category == c && r.result.value.tagName == tagName
    ensures r.result.Ok? ==> (r.result.value.guard.Some? <==> TakesSelfPolicy(c))
    ensures r.result.Ok? ==> HandlersCovered([r.result.value], r.params, r.st.cache)
    ensures TakesSelfPolicy(c) && selfPolicy.Unrecognized? ==> r.result.Err?
    ensures TakesSelfPolicy(c) && selfPolicy.Unrecognized? && c != CompoundObject ==>
              r.result == Err(UnrecognizedNullPolicy(selfPolicy.value))
    ensures Resolved(st) && r.result.Ok? ==> Resolved(r.st)
    decreases |g.Keys - st.parents.Keys|, 4, 0
  {
    if !TakesSelfPolicy(c) then
      Step(Ok(Handler(c, tagName, p.name, None, None)), st, params)
    else if c == CompoundObject then
      var call := MakeCall(g, st, params, p.propertyType, tagName);
      if call.result.Err? then Step(Err(call.result.error), call.st, call.params)
      else
        var guard := MakeNullHandler(ReadProperty(p.name), selfPolicy, Invoke(call.result.value),
                                     WriteDefault(c, tagName), p.name);
        if guard.Err? then Step(Err(guard.error), call.st, call.params)
        else Step(Ok(Handler(c, tagName, p.name, Some(guard.value), None)), call.st, call.params)
    else
      var guard := MakeNullHandler(ReadProperty(p.name), selfPolicy, WriteTag(c, tagName),
                                   WriteDefault(c, tagName), p.name);
      var elem := if TakesElementPolicy(c) then Some(elementPolicy) else None;
      if guard.Err? then Step(Err(guard.error), st, params)
      else Step(Ok(Handler(c, tagName, p.name, Some(guard.value), elem)), st, params)
  }

  /**
   * `CallResolver.MakeCall`: a registered type is called late through its
   * resolver parameter, added on first use; any other type is called early,
   * through the serializer `GetSerializer` returns for it.
   */
  function MakeCall(g: TypeGraph, st: State, params: seq<TypeId>, t: TypeId, tagName: Name): (r: Step<Call>)
    requires Closed(g) && Inv(g, st) && ParamsOk(st, params) && t in g
    ensures Evolves(st, r.st) && Inv(g, r.st) && ParamsOk(r.st, r.params) && params <= r.params
    ensures r.result.Ok? ==> CallCovered(r.result.value, r.params, r.st.cache)
    ensures t in st.parents ==> r.result == Ok(LateBound(t, tagName)) && r.st == st
    ensures t in st.parents && t in params ==> r.params == params
    ensures t in st.parents && t !in params ==> r.params == params + [t]
    ensures t !in st.parents ==> r.params == params
    ensures t !in st.parents && r.result.Ok? ==> r.result.value == EarlyBound(t, tagName) && t in r.st.cache
    ensures Resolved(st) && r.result.Ok? ==> Resolved(r.st)
    decreases |g.Keys - st.parents.Keys|, 3, 0
  {
    if t in st.parents then
      Step(Ok(LateBound(t, tagName)), st, if t in params then params else params + [t])
    else
      var o := GetSerializer(g, st, t);
      Step(if o.result.Ok? then Ok(EarlyBound(t, tagName)) else Err(o.result.error), o.st, params)
  }

  // ---------------------------------------------------------------------------
  // Publishing a finished serializer

  /** Registering a type with a fresh cell keeps the invariants and shrinks the termination measure. */
  lemma RegistrationKeepsInvariant(g: TypeGraph, st: State, t: TypeId, st1: State)
    requires Inv(g, st) && t in g && t !in st.parents
    requires st1 == State(st.cache, st.parents[t := |st.cells|], st.cells + [None])
    ensures Inv(g, st1) && ParamsOk(st1, []) && HandlersCovered([], [], st1.cache)
    ensures Resolved(st) ==> Resolved(st1)
    ensures |g.Keys - st1.parents.Keys| < |g.Keys - st.parents.Keys|
  {
    assert st1.parents.Keys == st.parents.Keys + {t};
    RegistryShrinks(g.Keys, st.parents.Keys, t);
    RegistrationKeepsCells(g, st, t, st1);
    if Resolved(st) {
      RegistrationKeepsResolved(st, t, st1);
    }
  }

  lemma RegistrationKeepsCells(g: TypeGraph, st: State, t: TypeId, st1: State)
    requires Inv(g, st) && t in g && t !in st.parents
    requires st1 == State(st.cache, st.parents[t := |st.cells|], st.cells + [None])
    ensures Inv(g, st1)
  {
    forall k | k in st1.parents ensures st1.parents[k] < |st1.cells| {
    }
    forall i | 0 <= i < |st1.cells| && st1.cells[i].Some?
      ensures st1.cells[i].value.forType in st1.cache && st1.cache[st1.cells[i].value.forType] == st1.cells[i].value
    {
      assert i < |st.cells| && st1.cells[i] == st.cells[i];
    }
  }

  lemma RegistrationKeepsResolved(st: State, t: TypeId, st1: State)
    requires Resolved(st) && t !in st.parents
    requires st1 == State(st.cache, st.parents[t := |st.cells|], st.cells + [None])
    ensures Resolved(st1)
  {
    forall k | k in st1.cache ensures SerializerResolved(st1, st1.cache[k]) {
      var s := st1.cache[k];
      forall slot | slot in s.slots ensures SlotResolvable(st1, slot) {
        assert SlotResolvable(st, slot);
        assert slot.cell < |st.cells| && st1.cells[slot.cell] == st.cells[slot.cell];
      }
    }
  }

  /** Register, build, remove: seen from outside, `CreateSerializer` evolves the state. */
  lemma CreateEvolves(st: State, t: TypeId, st1: State, st2: State, done: State)
    requires t !in st.parents && t !in st.cache
    requires st1 == State(st.cache, st.parents[t := |st.cells|], st.cells + [None])
    requires Evolves(st1, st2)
    requires done.parents == st2.parents - {t}
    requires forall k :: k in st2.cache ==> k in done.cache && done.cache[k] == st2.cache[k]
    requires forall k :: k in done.cache ==> k in st2.cache || k == t
    requires |done.cells| == |st2.cells|
    requires forall i :: 0 <= i < |st2.cells| && i != |st.cells| ==> done.cells[i] == st2.cells[i]
    ensures Evolves(st, done)
  {
    assert done.parents == st.parents;
    forall i | 0 <= i < |st.cells| && st.cells[i].Some? ensures done.cells[i] == st.cells[i] {
      assert st1.cells[i] == st.cells[i];
    }
    forall k | k in st.parents && st.parents[k] < |st.cells|
      ensures done.cells[st.parents[k]] == st.cells[st.parents[k]]
    {
      assert st1.parents[k] == st.parents[k];
      assert st1.cells[st.parents[k]] == st.cells[st.parents[k]];
    }
  }

  lemma CompleteEvolves(st: State, t: TypeId, st1: State, st2: State, ser: Serializer, done: State)
    requires t !in st.parents && t !in st.cache
    requires st1 == State(st.cache, st.parents[t := |st.cells|], st.cells + [None])
    requires Evolves(st1, st2)
    requires done == State(st2.cache[t := ser], st2.parents - {t}, st2.cells[|st.cells| := Some(ser)])
    ensures Evolves(st, done)
  {
    assert t in st1.parents && st1.parents[t] == |st.cells|;
    assert t !in st2.cache;
    CreateEvolves(st, t, st1, st2, done);
  }

  lemma PublishKeepsInvariant(g: TypeGraph, st2: State, t: TypeId, ser: Serializer, params: seq<TypeId>, done: State)
    requires Inv(g, st2) && t in st2.parents && t !in st2.cache
    requires forall i :: 0 <= i < |params| ==> params[i] in st2.parents
    requires ser.forType == t && ser.cell == st2.parents[t] && ser.slots == SlotsFor(params, st2.parents)
    requires HandlersCovered(ser.handlers, params, st2.cache)
    requires done == State(st2.cache[t := ser], st2.parents - {t}, st2.cells[ser.cell := Some(ser)])
    ensures Inv(g, done)
  {
    assert Wired(ser) by {
      forall h | h in ser.handlers && CallOf(h).Some? && CallOf(h).value.LateBound?
        ensures exists slot :: slot in ser.slots && slot.slotType == CallOf(h).value.slotType
      {
        var i :| 0 <= i < |params| && params[i] == CallOf(h).value.slotType;
        assert ser.slots[i] in ser.slots;
      }
    }
    forall i | 0 <= i < |done.cells| && done.cells[i].Some?
      ensures done.cells[i].value.forType in done.cache && done.cache[done.cells[i].value.forType] == done.cells[i].value
    {
      if i != ser.cell {
        assert st2.cells[i].Some?;
        assert st2.cells[i].value.forType != t;
      }
    }
  }

  lemma PublishKeepsResolved(g: TypeGraph, st2: State, t: TypeId, ser: Serializer, params: seq<TypeId>, done: State)
    requires Inv(g, st2) && Resolved(st2) && t in st2.parents && t !in st2.cache
    requires st2.cells[st2.parents[t]] == None
    requires forall i :: 0 <= i < |params| ==> params[i] in st2.parents
    requires ser.forType == t && ser.cell == st2.parents[t] && ser.slots == SlotsFor(params, st2.parents)
    requires HandlersCovered(ser.handlers, params, st2.cache)
    requires done == State(st2.cache[t := ser], st2.parents - {t}, st2.cells[ser.cell := Some(ser)])
    ensures Resolved(done)
  {
    forall k | k in done.cache ensures SerializerResolved(done, done.cache[k]) {
      var s := done.cache[k];
      forall slot | slot in s.slots ensures SlotResolvable(done, slot) {
        if k == t {
          var i :| 0 <= i < |s.slots| && s.slots[i] == slot;
          assert SlotResolvable(st2, slot) by {
            assert slot == Slot(params[i], st2.parents[params[i]]);
          }
        } else {
          assert SlotResolvable(st2, slot);
        }
      }
    }
  }

  // ---------------------------------------------------------------------------
  // Idle states and the failed-build scenario

  /** With no synthesis in progress, every slot of a resolved state reads a cell holding its type's serializer. */
  lemma ReadyWhenIdle(g: TypeGraph, st: State)
    requires Inv(g, st) && Resolved(st) && st.parents == map[]
    ensures forall k, slot :: k in st.cache && slot in st.cache[k].slots ==>
              slot.slotType in st.cache && slot.cell < |st.cells| && st.cells[slot.cell] == Some(st.cache[slot.slotType])
  {
    forall k, slot | k in st.cache && slot in st.cache[k].slots
      ensures slot.slotType in st.cache && slot.cell < |st.cells| && st.cells[slot.cell] == Some(st.cache[slot.slotType])
    {
      assert SerializerResolved(st, st.cache[k]);
      assert SlotResolvable(st, slot);
    }
  }

  /** A top-level request from an idle, resolved state that succeeds leaves every serializer ready to run. */
  lemma TopLevelRequestLeavesReady(g: TypeGraph, st: State, t: TypeId)
    requires Closed(g) && Inv(g, st) && Resolved(st) && st.parents == map[] && t in g
    ensures var r := GetSerializer(g, st, t);
            r.result.Ok? ==>
              forall k, slot :: k in r.st.cache && slot in r.st.cache[k].slots ==>
                slot.slotType in r.st.cache && slot.cell < |r.st.cells| && r.st.cells[slot.cell] == Some(r.st.cache[slot.slotType])
  {
    var r := GetSerializer(g, st, t);
    if r.result.Ok? {
      ReadyWhenIdle(g, r.st);
    }
  }

  /** One iteration of `MakePropertySerializers`: a failure ends the loop, a success carries on. */
  lemma PropertyStep(g: TypeGraph, st: State, params: seq<TypeId>, props: seq<PropertyInfo>,
                     i: nat, acc: seq<Handler>, e: Step<seq<Handler>>)
    requires Closed(g) && Inv(g, st) && ParamsOk(st, params)
    requires i < |props| && forall p :: p in props ==> p.propertyType in g
    requires HandlersCovered(acc, params, st.cache)
    requires props[i] in props
    requires e == EmitHandlers(g, st, params, props[i], TagNameOf(props[i]), SelfPolicyOf(props[i]),
                               ElementPolicyOf(props[i]), Dispatch(g[props[i].propertyType].shape))
    ensures e.result.Err? ==> MakePropertySerializers(g, st, params, props, i, acc) == Step(Err(e.result.error), e.st, e.params)
    ensures e.result.Ok? ==>
              (CoveredMonotone(acc, params, st.cache, e.params, e.st.cache);
               MakePropertySerializers(g, st, params, props, i, acc)
               == MakePropertySerializers(g, e.st, e.params, props, i + 1, acc + e.result.value))
  {
    if e.result.Ok? {
      CoveredMonotone(acc, params, st.cache, e.params, e.st.cache);
    }
  }

  /** Two properties, the second of which fails: the build fails with the second one's error. */
  lemma SecondPropertyFails(g: TypeGraph, st: State, params: seq<TypeId>, props: seq<PropertyInfo>,
                            e1: Step<seq<Handler>>, e2: Step<seq<Handler>>)
    requires Closed(g) && Inv(g, st) && ParamsOk(st, params)
    requires |props| == 2 && forall p :: p in props ==> p.propertyType in g
    requires e1 == EmitHandlers(g, st, params, props[0], TagNameOf(props[0]), SelfPolicyOf(props[0]),
                                ElementPolicyOf(props[0]), Dispatch(g[props[0].propertyType].shape))
    requires e1.result.Ok?
    requires e2 == EmitHandlers(g, e1.st, e1.params, props[1], TagNameOf(props[1]), SelfPolicyOf(props[1]),
                                ElementPolicyOf(props[1]), Dispatch(g[props[1].propertyType].shape))
    requires e2.result.Err?
    ensures MakePropertySerializers(g, st, params, props, 0, []) == Step(Err(e2.result.error), e2.st, e2.params)
  {
    assert props[0] in props && props[1] in props;
    PropertyStep(g, st, params, props, 0, [], e1);
    CoveredMonotone([], params, st.cache, e1.params, e1.st.cache);
    PropertyStep(g, e1.st, e1.params, props, 1, [] + e1.result.value, e2);
  }

  /** `Publish` of a failed build: the error, with T out of the registry and nothing else undone. */
  lemma PublishFails(g: TypeGraph, st: State, t: TypeId, st1: State, built: Step<seq<Handler>>)
    requires Inv(g, st) && t !in st.cache && t !in st.parents
    requires st1 == State(st.cache, st.parents[t := |st.cells|], st.cells + [None])
    requires Evolves(st1, built.st) && Inv(g, built.st) && ParamsOk(built.st, built.params)
    requires Resolved(st) ==> Resolved(st1)
    requires built.result.Err?
    ensures Publish(g, st, t, st1, built)
            == Out(Err(built.result.error), State(built.st.cache, built.st.parents - {t}, built.st.cells))
  {
  }

  /**
   * `Publish` of a successful build: the serializer with one slot per
   * resolver parameter and T's own cell, stored in that cell and in the
   * cache, with T out of the registry.
   */
  lemma PublishSucceeds(g: TypeGraph, st: State, t: TypeId, st1: State, built: Step<seq<Handler>>)
    requires Inv(g, st) && t !in st.cache && t !in st.parents
    requires st1 == State(st.cache, st.parents[t := |st.cells|], st.cells + [None])
    requires Evolves(st1, built.st) && Inv(g, built.st) && ParamsOk(built.st, built.params)
    requires built.result.Ok? && HandlersCovered(built.result.value, built.params, built.st.cache)
    requires Resolved(st1) ==> Resolved(built.st)
    requires Resolved(st) ==> Resolved(st1)
    ensures var ser := Serializer(t, |st.cells|, SlotsFor(built.params, built.st.parents), built.result.value);
            Publish(g, st, t, st1, built)
            == Out(Ok(ser), State(built.st.cache[t := ser], built.st.parents - {t}, built.st.cells[|st.cells| := Some(ser)]))
  {
  }

  /** A compound type with no other shape. */
  const CompoundShape := TypeShape(false, false, false, false, false, false, false, false)

  /** A type `SerializationUtil.IsDirectlyMappedType` accepts (a string, say). */
  const MappedShape := TypeShape(false, false, true, false, false, false, false, false)

  function PublicProperty(name: string, ty: TypeId, attr: Option<NullPolicyAttribute>): PropertyInfo {
    PropertyInfo(name, ty, true, false, true, false, None, attr)
  }

  const PropA := PublicProperty("A", 0, None)
  const PropB := PublicProperty("B", 1, None)
  const PropS := PublicProperty("S", 2, Some(NullPolicyAttribute(Unrecognized(42), Error)))

  /**
   * Type 0 (`A`) has a property `B` of compound type 1 and then a string
   * property `S` whose attribute carries the undefined policy value 42; type 1
   * (`B`) has a property `A` of type 0.
   */
  const DanglingGraph: TypeGraph := map[
    0 := TypeInfo("A", CompoundShape, [PropB, PropS]),
    1 := TypeInfo("B", CompoundShape, [PropA]),
    2 := TypeInfo("String", MappedShape, [])]

  const HandlerA := Handler(CompoundObject, Some("A"), "A",
                            Some(ErrorGuard(ReadProperty("A"), Invoke(LateBound(0, Some("A"))), "A")), None)
  const HandlerB := Handler(CompoundObject, Some("B"), "B",
                            Some(ErrorGuard(ReadProperty("B"), Invoke(EarlyBound(1, Some("B"))), "B")), None)

  /** The serializer for `B` built while `A` (cell 0) is in progress. */
  const DanglingB := Serializer(1, 1, [Slot(0, 0)], [HandlerA])

  /** `A` registered. */
  const AStarted := State(map[], map[0 := 0], [None])
  /** `A` and `B` registered. */
  const BStarted := State(map[], map[0 := 0, 1 := 1], [None, None])
  /** `B` published, `A` still registered. */
  const BDone := State(map[1 := DanglingB], map[0 := 0], [None, Some(DanglingB)])
  /** `A` abandoned. */
  const ADropped := State(map[1 := DanglingB], map[], [None, Some(DanglingB)])

  lemma DanglingGraphFacts()
    ensures Closed(DanglingGraph)
    ensures GetSerializableProperties(DanglingGraph[0].properties) == [PropB, PropS]
    ensures GetSerializableProperties(DanglingGraph[1].properties) == [PropA]
    ensures Dispatch(DanglingGraph[1].shape) == [CompoundObject] && Dispatch(DanglingGraph[0].shape) == [CompoundObject]
    ensures Dispatch(DanglingGraph[2].shape) == [DirectlyMapped]
  {
  }

  lemma AStartedValid()
    ensures Inv(DanglingGraph, AStarted) && ParamsOk(AStarted, [])
  {
  }

  lemma BStartedValid()
    ensures Inv(DanglingGraph, BStarted) && ParamsOk(BStarted, [])
  {
  }

  lemma BDoneValid()
    ensures Inv(DanglingGraph, BDone) && ParamsOk(BDone, [])
  {
    assert Wired(DanglingB) by {
      assert DanglingB.slots[0] in DanglingB.slots;
    }
  }

  lemma InnerCall()
    ensures (DanglingGraphFacts(); BStartedValid();
             MakeCall(DanglingGraph, BStarted, [], 0, Some("A")) == Step(Ok(LateBound(0, Some("A"))), BStarted, [0]))
  {
    DanglingGraphFacts();
    BStartedValid();
  }

  lemma InnerHandler()
    ensures (DanglingGraphFacts(); BStartedValid();
             MakeHandler(DanglingGraph, BStarted, [], CompoundObject, PropA, Some("A"), Error, Error)
             == Step(Ok(HandlerA), BStarted, [0]))
  {
    DanglingGraphFacts();
    BStartedValid();
    InnerCall();
  }

  lemma InnerEmit()
    ensures (DanglingGraphFacts(); BStartedValid();
             EmitHandlers(DanglingGraph, BStarted, [], PropA, Some("A"), Error, Error, [CompoundObject])
             == Step(Ok([HandlerA]), BStarted, [0]))
  {
    DanglingGraphFacts();
    BStartedValid();
    InnerHandler();
    var h := MakeHandler(DanglingGraph, BStarted, [], CompoundObject, PropA, Some("A"), Error, Error);
  }

  lemma InnerBuild()
    ensures (DanglingGraphFacts(); BStartedValid();
             MakePropertySerializers(DanglingGraph, BStarted, [], [PropA], 0, []) == Step(Ok([HandlerA]), BStarted, [0]))
  {
    DanglingGraphFacts();
    BStartedValid();
    InnerEmit();
    var e := EmitHandlers(DanglingGraph, BStarted, [], PropA, Some("A"), Error, Error, [CompoundObject]);
    PropertyStep(DanglingGraph, BStarted, [], [PropA], 0, [], e);
    assert [] + [HandlerA] == [HandlerA];
  }

  lemma InnerPublish()
    ensures (AStartedValid(); BStartedValid();
             Publish(DanglingGraph, AStarted, 1, BStarted, Step(Ok([HandlerA]), BStarted, [0])) == Out(Ok(DanglingB), BDone))
  {
    AStartedValid();
    BStartedValid();
    assert SlotsFor([0], BStarted.parents) == [Slot(0, 0)];
    assert BStarted.parents - {1} == BDone.parents && BStarted.cells[1 := Some(DanglingB)] == BDone.cells;
  }

  lemma InnerCreate()
    ensures (DanglingGraphFacts(); AStartedValid();
             CreateSerializer(DanglingGraph, AStarted, 1) == Out(Ok(DanglingB), BDone))
  {
    DanglingGraphFacts();
    AStartedValid();
    assert AStarted.parents[1 := |AStarted.cells|] == BStarted.parents && AStarted.cells + [None] == BStarted.cells;
    CreateUnfolds(DanglingGraph, AStarted, 1, BStarted, [PropA]);
    InnerBuild();
    InnerPublish();
  }

  lemma OuterCall()
    ensures (DanglingGraphFacts(); AStartedValid();
             MakeCall(DanglingGraph, AStarted, [], 1, Some("B")) == Step(Ok(EarlyBound(1, Some("B"))), BDone, []))
  {
    DanglingGraphFacts();
    AStartedValid();
    InnerCreate();
  }

  lemma OuterEmitB()
    ensures (DanglingGraphFacts(); AStartedValid();
             EmitHandlers(DanglingGraph, AStarted, [], PropB, Some("B"), Error, Error, [CompoundObject])
             == Step(Ok([HandlerB]), BDone, []))
  {
    DanglingGraphFacts();
    AStartedValid();
    OuterCall();
    var h := MakeHandler(DanglingGraph, AStarted, [], CompoundObject, PropB, Some("B"), Error, Error);
    assert h == Step(Ok(HandlerB), BDone, []);
  }

  lemma OuterEmitS()
    ensures (DanglingGraphFacts(); BDoneValid();
             EmitHandlers(DanglingGraph, BDone, [], PropS, Some("S"), Unrecognized(42), Error, [DirectlyMapped])
             == Step(Err(UnrecognizedNullPolicy(42)), BDone, []))
  {
    DanglingGraphFacts();
    BDoneValid();
    var h := MakeHandler(DanglingGraph, BDone, [], DirectlyMapped, PropS, Some("S"), Unrecognized(42), Error);
  }

  lemma OuterBuild()
    ensures (DanglingGraphFacts(); AStartedValid();
             MakePropertySerializers(DanglingGraph, AStarted, [], [PropB, PropS], 0, [])
             == Step(Err(UnrecognizedNullPolicy(42)), BDone, []))
  {
    DanglingGraphFacts();
    AStartedValid();
    OuterEmitB();
    OuterEmitS();
    var e1 := EmitHandlers(DanglingGraph, AStarted, [], PropB, Some("B"), Error, Error, [CompoundObject]);
    var e2 := EmitHandlers(DanglingGraph, BDone, [], PropS, Some("S"), Unrecognized(42), Error, [DirectlyMapped]);
    SecondPropertyFails(DanglingGraph, AStarted, [], [PropB, PropS], e1, e2);
  }

  /** `CreateSerializer` is `Publish` of the build on the registered state. */
  lemma CreateUnfolds(g: TypeGraph, st: State, t: TypeId, st1: State, props: seq<PropertyInfo>)
    requires Closed(g) && Inv(g, st) && t in g && t !in st.cache && t !in st.parents
    requires st1 == State(st.cache, st.parents[t := |st.cells|], st.cells + [None])
    requires props == GetSerializableProperties(g[t].properties)
    ensures (RegistrationKeepsInvariant(g, st, t, st1);
             CreateSerializer(g, st, t) == Publish(g, st, t, st1, MakePropertySerializers(g, st1, [], props, 0, [])))
  {
    RegistrationKeepsInvariant(g, st, t, st1);
  }

  lemma OuterAbandon()
    ensures (DanglingGraphFacts(); AStartedValid(); BDoneValid();
             Abandon(DanglingGraph, Empty, 0, AStarted, Step(Err(UnrecognizedNullPolicy(42)), BDone, []))
             == Out(Err(UnrecognizedNullPolicy(42)), ADropped))
  {
    DanglingGraphFacts();
    AStartedValid();
    BDoneValid();
    assert BDone.parents - {0} == ADropped.parents;
  }

  /** After the failed build, `B`'s slot reads a cell that nothing will fill. */
  lemma ADroppedUnresolved()
    ensures !Resolved(ADropped)
  {
    assert !SlotResolvable(ADropped, ADropped.cache[1].slots[0]);
  }

  /**
   * A failed build is not undone: `B`'s serializer, built for `A`'s property
   * `B`, stays cached after `A`'s build throws, and its slot reads `A`'s cell,
   * which is never assigned and no longer belongs to any synthesis.
   */
  lemma FailedBuildLeavesDanglingSlot()
    ensures Inv(DanglingGraph, Empty) && Resolved(Empty)
    ensures (DanglingGraphFacts();
             GetSerializer(DanglingGraph, Empty, 0) == Out(Err(UnrecognizedNullPolicy(42)), ADropped))
    ensures !Resolved(ADropped)
  {
    DanglingGraphFacts();
    assert Empty.parents[0 := 0] == AStarted.parents && Empty.cells + [None] == AStarted.cells;
    CreateUnfolds(DanglingGraph, Empty, 0, AStarted, [PropB, PropS]);
    OuterBuild();
    OuterAbandon();
    ADroppedUnresolved();
  }
}

/**
 * `NbtCompiler` and its `CallResolver` as objects: the static dictionaries
 * become fields of one compiler object (one thread; the `lock` blocks are
 * not modelled), and every operation is proved to do exactly what the
 * corresponding function of `Synthesis` says, so the properties proved there
 * hold of these methods.
 */
module Compiler {
  import opened Wrappers
  import opened NbtTags
  import opened TypeModel
  import opened Synthesis

  /** A compiled deserializer. None is ever built: `CreateDeserializer<T>` throws. */
  datatype Deserializer = Deserializer(forType: TypeId)

  class NbtCompiler {
    /** What reflection reports about the program's types. */
    const graph: TypeGraph
    /** `SerializerCache`. */
    var serializerCache: map<TypeId, Serializer>
    /** `ParentSerializers`: each type being synthesized, with the cell its placeholder expression reads. */
    var parentSerializers: map<TypeId, nat>
    /** The captured `placeholderDelegate` variables, one per synthesis ever started. */
    var placeholders: seq<Option<Serializer>>
    /** `DeserializerCache`: never added to, since no deserializer is ever built. */
    const deserializerCache: map<TypeId, Deserializer>

    function Snapshot(): State
      reads this
    {
      State(serializerCache, parentSerializers, placeholders)
    }

    predicate Valid()
      reads this
    {
      Closed(graph) && Inv(graph, Snapshot()) && deserializerCache == map[]
    }

    /** The static initial state: every dictionary empty. */
    constructor(g: TypeGraph)
      requires Closed(g)
      ensures graph == g && Snapshot() == Empty && deserializerCache == map[] && Valid()
    {
      graph := g;
      serializerCache := map[];
      parentSerializers := map[];
      placeholders := [];
      deserializerCache := map[];
    }

    /** `GetSerializer<T>()`: the cached serializer, or a new synthesis. */
    method GetSerializer(t: TypeId) returns (r: Result<Serializer, BuildError>)
      requires Valid() && t in graph && (t in serializerCache || t !in parentSerializers)
      modifies this
      ensures Valid() && Out(r, Snapshot()) == Synthesis.GetSerializer(graph, old(Snapshot()), t)
      decreases |graph.Keys - parentSerializers.Keys|, 2, 0
    {
      if t in serializerCache {
        return Ok(serializerCache[t]);
      }
      r := CreateSerializer(t);
    }

    /** `GetSerializer(Type)`: a null type throws; a miss goes through `CreateSerializer(Type)`. */
    method GetSerializerForType(t: Option<TypeId>) returns (r: Result<Serializer, BuildError>)
      requires Valid() && (t.Some? ==> t.value in graph && (t.value in serializerCache || t.value !in parentSerializers))
      modifies this
      ensures Valid()
      ensures t.None? ==> r == Err(ArgumentNull("t")) && Snapshot() == old(Snapshot())
      ensures t.Some? ==> Out(r, Snapshot()) == Synthesis.GetSerializer(graph, old(Snapshot()), t.value)
      decreases |graph.Keys - parentSerializers.Keys|, 4, 0
    {
      if t.None? {
        return Err(ArgumentNull("t"));
      }
      if t.value in serializerCache {
        return Ok(serializerCache[t.value]);
      }
      r := CreateSerializerForType(t);
    }

    /**
     * `CreateSerializer(Type)`: a null type throws; otherwise the reflected
     * call goes to the generic `GetSerializer<T>`, which looks in the cache
     * again.
     */
    method CreateSerializerForType(t: Option<TypeId>) returns (r: Result<Serializer, BuildError>)
      requires Valid() && (t.Some? ==> t.value in graph && (t.value in serializerCache || t.value !in parentSerializers))
      modifies this
      ensures Valid()
      ensures t.None? ==> r == Err(ArgumentNull("t")) && Snapshot() == old(Snapshot())
      ensures t.Some? ==> Out(r, Snapshot()) == Synthesis.GetSerializer(graph, old(Snapshot()), t.value)
      decreases |graph.Keys - parentSerializers.Keys|, 3, 0
    {
      if t.None? {
        return Err(ArgumentNull("t"));
      }
      r := GetSerializer(t.value);
    }

    /**
     * `CreateSerializer<T>()`: register T with a fresh placeholder, build the
     * body with a new resolver, then assign the placeholder and cache T; the
     * registry entry is removed on every path.
     */
    method CreateSerializer(t: TypeId) returns (r: Result<Serializer, BuildError>)
      requires Valid() && t in graph && t !in serializerCache && t !in parentSerializers
      modifies this
      ensures Valid() && Out(r, Snapshot()) == Synthesis.CreateSerializer(graph, old(Snapshot()), t)
      decreases |graph.Keys - parentSerializers.Keys|, 1, 0
    {
      ghost var st := Snapshot();
      var cell := |placeholders|;
      parentSerializers := parentSerializers[t := cell];
      placeholders := placeholders + [None];
      ghost var st1 := Snapshot();
      RegistrationKeepsInvariant(graph, st, t, st1);
      var resolver := new CallResolver(this);
      var props := GetSerializableProperties(graph[t].properties);
      CreateUnfolds(graph, st, t, st1, props);
      var expressions := MakePropertySerializers(resolver, props);
      r := Publish(t, cell, resolver, expressions, st, st1);
    }

    /**
     * The end of `CreateSerializer<T>()`: on success, the slot assignments go
     * first, the placeholder is assigned and T is cached; the `finally` block
     * removes T from the registry on both paths.
     */
    method Publish(t: TypeId, cell: nat, resolver: CallResolver, expressions: Result<seq<Handler>, BuildError>,
                   ghost st: State, ghost st1: State) returns (r: Result<Serializer, BuildError>)
      requires Closed(graph) && Inv(graph, st) && t !in st.cache && t !in st.parents && cell == |st.cells|
      requires st1 == State(st.cache, st.parents[t := cell], st.cells + [None])
      requires resolver.compiler == this
      requires Evolves(st1, Snapshot()) && Inv(graph, Snapshot()) && ParamsOk(Snapshot(), resolver.parameters)
      requires expressions.Ok? ==> HandlersCovered(expressions.value, resolver.parameters, serializerCache)
      requires Resolved(st1) && expressions.Ok? ==> Resolved(Snapshot())
      requires Resolved(st) ==> Resolved(st1)
      modifies this
      ensures Out(r, Snapshot()) == Synthesis.Publish(graph, st, t, st1, Step(expressions, old(Snapshot()), resolver.parameters))
    {
      ghost var built := Step(expressions, Snapshot(), resolver.parameters);
      if expressions.Err? {
        PublishFails(graph, st, t, st1, built);
        parentSerializers := parentSerializers - {t};
        return Err(expressions.error);
      }
      PublishSucceeds(graph, st, t, st1, built);
      var slots: seq<Slot> := [];
      if resolver.HasParameters() {
        slots := resolver.GetParameterAssignmentList();
      }
      var ser := Serializer(t, cell, slots, expressions.value);
      placeholders := placeholders[cell := Some(ser)];
      serializerCache := serializerCache[t := ser];
      parentSerializers := parentSerializers - {t};
      r := Ok(ser);
    }

    /** `MakePropertySerializers`: each selected property's handlers, in order. */
    method MakePropertySerializers(resolver: CallResolver, props: seq<PropertyInfo>) returns (r: Result<seq<Handler>, BuildError>)
      requires Valid() && resolver.compiler == this && ParamsOk(Snapshot(), resolver.parameters)
      requires forall p :: p in props ==> p.propertyType in graph
      modifies this, resolver
      ensures Valid() && parentSerializers == old(parentSerializers)
      ensures ParamsOk(Snapshot(), resolver.parameters)
      ensures Step(r, Snapshot(), resolver.parameters)
              == Synthesis.MakePropertySerializers(graph, old(Snapshot()), old(resolver.parameters), props, 0, [])
      decreases |graph.Keys - parentSerializers.Keys|, 8, 0
    {
      var expressions: seq<Handler> := [];
      var i := 0;
      while i < |props|
        invariant i <= |props| && Valid() && ParamsOk(Snapshot(), resolver.parameters)
        invariant HandlersCovered(expressions, resolver.parameters, serializerCache)
        invariant parentSerializers == old(parentSerializers)
        invariant Synthesis.MakePropertySerializers(graph, Snapshot(), resolver.parameters, props, i, expressions)
                  == Synthesis.MakePropertySerializers(graph, old(Snapshot()), old(resolver.parameters), props, 0, [])
      {
        var p := props[i];
        assert p in props;
        ghost var st := Snapshot();
        ghost var params := resolver.parameters;
        var emitted := HandleProperty(resolver, p, TagNameOf(p), SelfPolicyOf(p), ElementPolicyOf(p));
        PropertyStep(graph, st, params, props, i, expressions, Step(emitted, Snapshot(), resolver.parameters));
        if emitted.Err? {
          return Err(emitted.error);
        }
        CoveredMonotone(expressions, params, st.cache, resolver.parameters, serializerCache);
        expressions := expressions + emitted.value;
        i := i + 1;
      }
      r := Ok(expressions);
    }

    /**
     * The body of `MakePropertySerializers`' loop after the attributes are
     * read: the handler of the first category that accepts the property's
     * type, then, after a string-keyed dictionary, the handler the remaining
     * tests select.
     */
    method HandleProperty(resolver: CallResolver, p: PropertyInfo, tagName: Name, selfPolicy: NullPolicy,
                          elementPolicy: NullPolicy) returns (r: Result<seq<Handler>, BuildError>)
      requires Valid() && resolver.compiler == this && ParamsOk(Snapshot(), resolver.parameters) && p.propertyType in graph
      modifies this, resolver
      ensures Valid() && parentSerializers == old(parentSerializers)
      ensures ParamsOk(Snapshot(), resolver.parameters)
      ensures Step(r, Snapshot(), resolver.parameters)
              == Synthesis.EmitHandlers(graph, old(Snapshot()), old(resolver.parameters), p, tagName, selfPolicy,
                                        elementPolicy, Dispatch(graph[p.propertyType].shape))
      decreases |graph.Keys - parentSerializers.Keys|, 7, 0
    {
      var cats := Dispatch(graph[p.propertyType].shape);
      var first := MakeHandler(resolver, cats[0], p, tagName, selfPolicy, elementPolicy);
      if first.Err? {
        return Err(first.error);
      }
      if |cats| == 1 {
        return Ok([first.value]);
      }
      var second := MakeHandler(resolver, cats[1], p, tagName, selfPolicy, elementPolicy);
      if second.Err? {
        return Err(second.error);
      }
      r := Ok([first.value, second.value]);
    }

    /**
     * One `CodeEmitter.HandleX` call: the compound handler first makes its
     * call through the resolver; every handler that takes the self policy
     * wraps its code with `MakeNullHandler`.
     */
    method MakeHandler(resolver: CallResolver, c: Category, p: PropertyInfo, tagName: Name, selfPolicy: NullPolicy,
                       elementPolicy: NullPolicy) returns (r: Result<Handler, BuildError>)
      requires Valid() && resolver.compiler == this && ParamsOk(Snapshot(), resolver.parameters) && p.propertyType in graph
      modifies this, resolver
      ensures Valid() && parentSerializers == old(parentSerializers)
      ensures ParamsOk(Snapshot(), resolver.parameters)
      ensures Step(r, Snapshot(), resolver.parameters)
              == Synthesis.MakeHandler(graph, old(Snapshot()), old(resolver.parameters), c, p, tagName, selfPolicy, elementPolicy)
      decreases |graph.Keys - parentSerializers.Keys|, 6, 0
    {
      if !TakesSelfPolicy(c) {
        return Ok(Handler(c, tagName, p.name, None, None));
      }
      if c == CompoundObject {
        var call := resolver.MakeCall(p.propertyType, tagName);
        if call.Err? {
          return Err(call.error);
        }
        var guard := MakeNullHandler(ReadProperty(p.name), selfPolicy, Invoke(call.value), WriteDefault(c, tagName), p.name);
        if guard.Err? {
          return Err(guard.error);
        }
        return Ok(Handler(c, tagName, p.name, Some(guard.value), None));
      }
      var guard := MakeNullHandler(ReadProperty(p.name), selfPolicy, WriteTag(c, tagName), WriteDefault(c, tagName), p.name);
      if guard.Err? {
        return Err(guard.error);
      }
      var elem := if TakesElementPolicy(c) then Some(elementPolicy) else None;
      r := Ok(Handler(c, tagName, p.name, Some(guard.value), elem));
    }

    /** `GetDeserializer<T>()`: a cached deserializer, else `CreateDeserializer<T>()`. */
    method GetDeserializer(t: TypeId) returns (r: Result<Deserializer, BuildError>)
      ensures t in deserializerCache ==> r == Ok(deserializerCache[t])
      ensures t !in deserializerCache ==> r == Err(NotImplemented)
      ensures Valid() ==> r == Err(NotImplemented)
    {
      if t in deserializerCache {
        return Ok(deserializerCache[t]);
      }
      r := CreateDeserializer(t);
    }

    /** `CreateDeserializer(Type)`: a null type throws; otherwise the reflected call goes to `GetDeserializer<T>`. */
    method CreateDeserializerForType(t: Option<TypeId>) returns (r: Result<Deserializer, BuildError>)
      ensures t.None? ==> r == Err(ArgumentNull("t"))
      ensures t.Some? && t.value in deserializerCache ==> r == Ok(deserializerCache[t.value])
      ensures t.Some? && t.value !in deserializerCache ==> r == Err(NotImplemented)
    {
      if t.None? {
        return Err(ArgumentNull("t"));
      }
      r := GetDeserializer(t.value);
    }

    /** `CreateDeserializer<T>()`, which is not implemented. */
    method CreateDeserializer(t: TypeId) returns (r: Result<Deserializer, BuildError>)
      ensures r == Err(NotImplemented)
    {
      r := Err(NotImplemented);
    }
  }

  /** `CallResolver`: the late-bound delegate variables of one body under construction. */
  class CallResolver {
    const compiler: NbtCompiler
    /** The keys of `parameters`, in insertion order. */
    var parameters: seq<TypeId>

    constructor(c: NbtCompiler)
      ensures compiler == c && parameters == []
    {
      compiler := c;
      parameters := [];
    }

    predicate HasParameters()
      reads this
    {
      |parameters| > 0
    }

    /**
     * `GetParameterAssignmentList`: one assignment per parameter, in order,
     * from the registry entry of its type.
     */
    method GetParameterAssignmentList() returns (r: seq<Slot>)
      requires forall i :: 0 <= i < |parameters| ==> parameters[i] in compiler.parentSerializers
      ensures r == SlotsFor(parameters, compiler.parentSerializers)
    {
      r := [];
      var i := 0;
      while i < |parameters|
        invariant i <= |parameters| && |r| == i
        invariant forall j :: 0 <= j < i ==> r[j] == Slot(parameters[j], compiler.parentSerializers[parameters[j]])
      {
        r := r + [Slot(parameters[i], compiler.parentSerializers[parameters[i]])];
        i := i + 1;
      }
    }

    /**
     * `MakeCall`: a type in the registry is called through its delegate
     * variable (added on first use); any other type is called through the
     * serializer `GetSerializer(Type)` returns.
     */
    method MakeCall(t: TypeId, tagName: Name) returns (r: Result<Call, BuildError>)
      requires compiler.Valid() && t in compiler.graph && ParamsOk(compiler.Snapshot(), parameters)
      modifies this, compiler
      ensures compiler.Valid() && compiler.parentSerializers == old(compiler.parentSerializers)
      ensures ParamsOk(compiler.Snapshot(), parameters)
      ensures Step(r, compiler.Snapshot(), parameters)
              == Synthesis.MakeCall(compiler.graph, old(compiler.Snapshot()), old(parameters), t, tagName)
      decreases |compiler.graph.Keys - compiler.parentSerializers.Keys|, 5, 0
    {
      if t in compiler.parentSerializers {
        if t !in parameters {
          parameters := parameters + [t];
        }
        return Ok(LateBound(t, tagName));
      }
      var s := compiler.GetSerializerForType(Some(t));
      if s.Err? {
        return Err(s.error);
      }
      r := Ok(EarlyBound(t, tagName));
    }
  }
}

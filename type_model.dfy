/**
 * The reflection facts the serializer compiler consults, as a finite type
 * graph: each type id maps to the shape tests `MakePropertySerializers`
 * applies and to the type's public-and-otherwise properties, in declaration
 * order. Also the pure parts of the compiler: property selection, tag-name
 * and null-policy resolution, category dispatch and `MakeNullHandler`.
 */
module TypeModel {
  import opened Wrappers
  import opened NbtTags

  type TypeId = nat

  /**
   * `NullPolicy`. `Unrecognized` stands for any other value of the enum's
   * underlying integer, which the attribute can carry by a cast.
   */
  datatype NullPolicy = Error | Ignore | InsertDefault | Unrecognized(value: int)

  /** `NullPolicy.Default`, which selects `Error`. */
  const DefaultPolicy: NullPolicy := Error

  datatype NullPolicyAttribute = NullPolicyAttribute(selfPolicy: NullPolicy, elementPolicy: NullPolicy)

  /**
   * The outcome of each type test of the dispatch chain: `IsPrimitive`,
   * `IsEnum`, `SerializationUtil.IsDirectlyMappedType`, assignable to
   * `INbtSerializable`, assignable to `NbtTag`, a string-keyed `IDictionary`
   * implementation exists, an `IList<>` implementation exists, is `NbtFile`.
   */
  datatype TypeShape = TypeShape(
    isPrimitive: bool, isEnum: bool, isDirectlyMapped: bool, isNbtSerializable: bool,
    isNbtTag: bool, isStringDictionary: bool, isList: bool, isNbtFile: bool)

  /** A `PropertyInfo` with the attributes the compiler reads. */
  datatype PropertyInfo = PropertyInfo(
    name: string,
    propertyType: TypeId,
    isPublic: bool,
    isStatic: bool,
    canRead: bool,
    hasNbtIgnore: bool,
    tagNameAttribute: Option<Name>,              // `TagNameAttribute.Name`, which may be null
    nullPolicyAttribute: Option<NullPolicyAttribute>)

  /** A type: its name, its shape and every property `GetProperties` can see, inherited ones included. */
  datatype TypeInfo = TypeInfo(name: string, shape: TypeShape, properties: seq<PropertyInfo>)

  type TypeGraph = map<TypeId, TypeInfo>

  /** Every property's type is itself described. */
  predicate Closed(g: TypeGraph) {
    forall t, p :: t in g && p in g[t].properties ==> p.propertyType in g
  }

  /** The exceptions the compiler throws. */
  datatype BuildError =
    | UnrecognizedNullPolicy(value: int)   // ArgumentOutOfRangeException from MakeNullHandler
    | ArgumentNull(paramName: string)      // ArgumentNullException
    | NotImplemented                       // NotImplementedException from CreateDeserializer

  // ---------------------------------------------------------------------------
  // Property selection, tag names and policies

  /** Public instance properties that are readable and carry no `NbtIgnore`. */
  predicate IsSerializable(p: PropertyInfo) {
    p.isPublic && !p.isStatic && !p.hasNbtIgnore && p.canRead
  }

  /** `GetSerializableProperties`: the filter keeps the reflection order. */
  function GetSerializableProperties(ps: seq<PropertyInfo>): (r: seq<PropertyInfo>)
    ensures forall p :: p in r <==> p in ps && IsSerializable(p)
    ensures |r| <= |ps|
  {
    if ps == [] then []
    else if IsSerializable(ps[0]) then [ps[0]] + GetSerializableProperties(ps[1..])
    else GetSerializableProperties(ps[1..])
  }

  /** Filtering commutes with concatenation, so the selected properties keep their relative order. */
  lemma {:induction false} SelectionKeepsOrder(a: seq<PropertyInfo>, b: seq<PropertyInfo>)
    ensures GetSerializableProperties(a + b) == GetSerializableProperties(a) + GetSerializableProperties(b)
  {
    if a == [] {
      assert a + b == b;
    } else {
      assert (a + b)[1..] == a[1..] + b;
      SelectionKeepsOrder(a[1..], b);
    }
  }

  /** Selecting twice selects nothing more. */
  lemma {:induction false} SelectionIdempotent(ps: seq<PropertyInfo>)
    ensures GetSerializableProperties(GetSerializableProperties(ps)) == GetSerializableProperties(ps)
  {
    if ps != [] {
      SelectionIdempotent(ps[1..]);
    }
  }

  /** The tag name: the `TagNameAttribute`'s name when present, else the property name. */
  function TagNameOf(p: PropertyInfo): (n: Name)
    ensures p.tagNameAttribute.None? ==> n == Some(p.name)
    ensures p.tagNameAttribute.Some? ==> n == p.tagNameAttribute.value
  {
    match p.tagNameAttribute
    case Some(n) => n
    case None => Some(p.name)
  }

  /** Self policy: `NullPolicy.Default` unless a `NullPolicyAttribute` says otherwise. */
  function SelfPolicyOf(p: PropertyInfo): (r: NullPolicy)
    ensures p.nullPolicyAttribute.None? ==> r == DefaultPolicy
    ensures p.nullPolicyAttribute.Some? ==> r == p.nullPolicyAttribute.value.selfPolicy
  {
    if p.nullPolicyAttribute.Some? then p.nullPolicyAttribute.value.selfPolicy else DefaultPolicy
  }

  /** Element policy: `NullPolicy.Default` unless a `NullPolicyAttribute` says otherwise. */
  function ElementPolicyOf(p: PropertyInfo): (r: NullPolicy)
    ensures p.nullPolicyAttribute.None? ==> r == DefaultPolicy
    ensures p.nullPolicyAttribute.Some? ==> r == p.nullPolicyAttribute.value.elementPolicy
  {
    if p.nullPolicyAttribute.Some? then p.nullPolicyAttribute.value.elementPolicy else DefaultPolicy
  }

  // ---------------------------------------------------------------------------
  // Dispatch

  /** The handler categories, one per `CodeEmitter.HandleX` method. */
  datatype Category =
    | PrimitiveOrEnum | DirectlyMapped | NbtSerializable | NbtTagValue
    | StringDictionary | ListValue | NbtFileValue | CompoundObject

  /** Whether a category's test accepts a shape; the compound category accepts everything. */
  predicate Accepts(c: Category, s: TypeShape) {
    match c
    case PrimitiveOrEnum => s.isPrimitive || s.isEnum
    case DirectlyMapped => s.isDirectlyMapped
    case NbtSerializable => s.isNbtSerializable
    case NbtTagValue => s.isNbtTag
    case StringDictionary => s.isStringDictionary
    case ListValue => s.isList
    case NbtFileValue => s.isNbtFile
    case CompoundObject => true
  }

  /** The order in which the tests are tried. */
  const TestOrder: seq<Category> :=
    [PrimitiveOrEnum, DirectlyMapped, NbtSerializable, NbtTagValue,
     StringDictionary, ListValue, NbtFileValue, CompoundObject]

  /**
   * Reference definition of first-match: the least index at or after `from`
   * whose category accepts `s` (the last category accepts everything).
   */
  function FirstAccepting(from: nat, s: TypeShape): (i: nat)
    requires from < |TestOrder|
    ensures from <= i < |TestOrder| && Accepts(TestOrder[i], s)
    ensures forall j :: from <= j < i ==> !Accepts(TestOrder[j], s)
    decreases |TestOrder| - from
  {
    if Accepts(TestOrder[from], s) then from
    else FirstAccepting(from + 1, s)
  }

  /**
   * The handlers `MakePropertySerializers` emits for a property of shape `s`,
   * in order. The dictionary branch has no `continue`, so after it the
   * remaining tests run too.
   */
  function Dispatch(s: TypeShape): (cs: seq<Category>)
    ensures 1 <= |cs| <= 2
    ensures |cs| == 2 <==> cs[0] == StringDictionary
    ensures forall c :: c in cs ==> Accepts(c, s)
  {
    if s.isPrimitive || s.isEnum then [PrimitiveOrEnum]
    else if s.isDirectlyMapped then [DirectlyMapped]
    else if s.isNbtSerializable then [NbtSerializable]
    else if s.isNbtTag then [NbtTagValue]
    else if s.isStringDictionary then [StringDictionary, AfterDictionary(s)]
    else [AfterDictionary(s)]
  }

  /** The tests after the dictionary test: `IList`, then `NbtFile`, then compound. */
  function AfterDictionary(s: TypeShape): Category {
    if s.isList then ListValue
    else if s.isNbtFile then NbtFileValue
    else CompoundObject
  }

  /**
   * The first handler is the first accepting category of the test order; a
   * dictionary property gets a second one, the first accepting category among
   * the tests that follow.
   */
  lemma DispatchIsFirstMatch(s: TypeShape)
    ensures Dispatch(s)[0] == TestOrder[FirstAccepting(0, s)]
    ensures |Dispatch(s)| == 2 ==> Dispatch(s)[1] == TestOrder[FirstAccepting(5, s)]
  {
    var i := FirstAccepting(0, s);
    assert forall j :: 0 <= j < i ==> !Accepts(TestOrder[j], s);
    if |Dispatch(s)| == 2 {
      var k := FirstAccepting(5, s);
      assert forall j :: 5 <= j < k ==> !Accepts(TestOrder[j], s);
    }
  }

  /** Exactly one handler unless the dictionary test is the first to accept. */
  lemma SingleHandlerUnlessDictionary(s: TypeShape)
    ensures |Dispatch(s)| == 1 <==> TestOrder[FirstAccepting(0, s)] != StringDictionary
  {
    DispatchIsFirstMatch(s);
  }

  /** Categories the compiler hands the self policy to. */
  predicate TakesSelfPolicy(c: Category) {
    c != PrimitiveOrEnum && c != NbtSerializable
  }

  /** Categories the compiler also hands the element policy to. */
  predicate TakesElementPolicy(c: Category) {
    c == StringDictionary || c == ListValue
  }

  // ---------------------------------------------------------------------------
  // MakeNullHandler

  /** The glue `MakeNullHandler` builds around the handler's code, per policy. */
  datatype Guard<E> =
    | ErrorGuard(getter: E, nonNull: E, message: string)
    | IgnoreGuard(getter: E, nonNull: E)
    | DefaultGuard(getter: E, defaultValue: E, nonNull: E)

  /** What running guarded code does, step by step. */
  datatype Event<E> = Evaluate(code: E) | ThrowNullReference(message: string)

  /** `MakeNullHandler`; an unrecognized policy is rejected at build time. */
  function MakeNullHandler<E>(getter: E, policy: NullPolicy, nonNull: E, defaultValue: E, message: string)
    : (r: Result<Guard<E>, BuildError>)
    ensures r.Err? <==> policy.Unrecognized?
    ensures r.Err? ==> r.error == UnrecognizedNullPolicy(policy.value)
    ensures r.Ok? ==> r.value.getter == getter && r.value.nonNull == nonNull
  {
    match policy
    case Error => Ok(ErrorGuard(getter, nonNull, message))
    case Ignore => Ok(IgnoreGuard(getter, nonNull))
    case InsertDefault => Ok(DefaultGuard(getter, defaultValue, nonNull))
    case Unrecognized(v) => Err(UnrecognizedNullPolicy(v))
  }

  /** Running the block: assign the getter's value, then branch on whether it is null. */
  function Run<E>(g: Guard<E>, valueIsNull: bool): seq<Event<E>> {
    [Evaluate(g.getter)] +
    match g
    case ErrorGuard(_, nonNull, message) =>
      if valueIsNull then [ThrowNullReference(message)] else [Evaluate(nonNull)]
    case IgnoreGuard(_, nonNull) =>
      if valueIsNull then [] else [Evaluate(nonNull)]
    case DefaultGuard(_, defaultValue, nonNull) =>
      if valueIsNull then [Evaluate(defaultValue)] else [Evaluate(nonNull)]
  }

  /**
   * The three policies: the getter always runs first; a non-null value always
   * runs the non-null code; a null value throws (Error), does nothing (Ignore)
   * or runs the default code (InsertDefault).
   */
  lemma NullPolicySemantics<E>(getter: E, policy: NullPolicy, nonNull: E, defaultValue: E, message: string, valueIsNull: bool)
    requires !policy.Unrecognized?
    ensures var trace := Run(MakeNullHandler(getter, policy, nonNull, defaultValue, message).value, valueIsNull);
            && trace[0] == Evaluate(getter)
            && (!valueIsNull ==> trace[1..] == [Evaluate(nonNull)])
            && (valueIsNull && policy == Error ==> trace[1..] == [ThrowNullReference(message)])
            && (valueIsNull && policy == Ignore ==> trace[1..] == [])
            && (valueIsNull && policy == InsertDefault ==> trace[1..] == [Evaluate(defaultValue)])
  {
  }

  /** Only the Error policy can throw, and only for a null value. */
  lemma OnlyErrorPolicyThrows<E>(g: Guard<E>, valueIsNull: bool, message: string)
    ensures ThrowNullReference(message) in Run(g, valueIsNull) ==> g.ErrorGuard? && valueIsNull && message == g.message
  {
  }
}

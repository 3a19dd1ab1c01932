# fNbt serialization core, modelled in Dafny

fNbt is a C# library for NBT, the "Named Binary Tag" format. This project
models four parts of it and proves properties of the models.

* **`NbtComparer`**: structural equality and hashing of tag trees.
  - Compound tags compare as sets of children keyed by name.
  - Lists compare element by element.
  - Arrays compare element by element.
  - Scalars and strings compare by raw value.
  - End tags cannot be compared or hashed.
* **`NbtSerializationHelper` / `NbtDeserializationHelper`**: the overloads
  that turn a primitive, string, array or list value into an NBT tag and back.
* **`NbtCompiler`**: the run-time synthesis of serializers.
  - There is a serializer cache.
  - A registry of the types being synthesized (`ParentSerializers`), each
    holding a placeholder expression that is assigned once the delegate is
    compiled.
  - A per-body `CallResolver` turns calls to types still under construction
    into late-bound delegate variables.
  - The dispatch over property categories.
  - The null-policy glue (`MakeNullHandler`).
* **`AutoSerializer`**: the Roslyn source generator.
  - It selects the classes marked `[NbtSerializableType]`.
  - It filters their properties.
  - It resolves each property's tag name from `[NbtPropertyName(Name = …)]`.
  - It emits the text of a `SerializeToNbt` method and a `DeserializeFromNbt`
    method.
  - The emitted text is modelled line by line as structured `Line` values.
    Each line renders to its text minus the newline.
  - `GetSerialization` produces the text the generator writes, including
    the unterminated `Add` of the own-serializer branch. A corrected text,
    with every `Add` terminated, is defined beside it (see "Findings").

## Modules and files

| file | module | contents |
|---|---|---|
| `wrappers.dfy` | `Wrappers` | `Option`, `Result` |
| `nbt_tags.dfy` | `NbtTags` | the tag tree and its well-formedness predicates |
| `nbt_comparer.dfy` | `NbtComparer` | `Equals`, `DeepEquals`, `GetHashCode`, `GetRawValue`, and a loop implementation of the comparer |
| `serialization_helper.dfy` | `SerializationHelper` | the helper overloads |
| `type_model.dfy` | `TypeModel` | what reflection reports about types and properties; category dispatch; tag names and null policies; `MakeNullHandler` |
| `synthesis.dfy` | `Synthesis` | the specification of serializer synthesis: pure functions over an explicit compiler state |
| `compiler.dfy` | `Compiler` | the classes `NbtCompiler` and `CallResolver` |
| `auto_serializer.dfy` | `AutoSerializer` | the source generator |

About `compiler.dfy`:

* The static dictionaries of `NbtCompiler` are the fields of one compiler
  object.
* The resolver's dictionary is a field of `CallResolver`.
* Each method is proved to leave the object in exactly the state the
  matching `Synthesis` function computes, and to return the same result.

A synthesis state holds three things:

* `cache`, the serializer cache;
* `parents`, the registry: each type being synthesized, with the index of its
  placeholder cell;
* `cells`, the captured `placeholderDelegate` variables. A cell is an
  `Option<Serializer>` that `CreateSerializer<T>` assigns after compiling.

A `Serializer` records four things:

* its type;
* its own cell;
* its slots: the resolver's delegate variables, each reading the cell of a
  type in the registry;
* its handlers: one per property category selected, each with its tag name,
  its null guard and the call it makes.

## Model

| member | source | states |
|---|---|---|
| NbtComparer.GetRawValue | fNbt/NbtComparer.cs:130-140 | a raw value is present exactly for the seven scalar and string tag types |
| NbtComparer.RawValueDeterminesPayload | fNbt/NbtComparer.cs:117-126 | for two tags of one scalar type, equal raw values means equal payloads, and the converse |
| NbtComparer.Equals | fNbt/NbtComparer.cs:17-23 | the same object is equal; two nulls are equal; exactly one null is unequal |
| NbtComparer.FindByName | fNbt/NbtComparer.cs:101-107 | finds the first child with the given name, and reports none only when no child has it |
| NbtComparer.FindEnd | fNbt/NbtComparer.cs:101-107 | finds an End tag among the children the `HashSet` hashes, and reports none only when there is none |
| NbtComparer.ArrayContentsEqual | fNbt/NbtComparer.cs:77-100 | the length-then-element loop returns true iff the arrays are equal, both pointwise and as sequences |
| NbtComparer.ListItemsEqualLoop | fNbt/NbtComparer.cs:108-116 | the element loop computes the recursive list comparison, including its errors |
| NbtComparer.DeepEqualsMethod | fNbt/NbtComparer.cs:74-127 | the imperative `DeepEquals` returns exactly what the functional comparer returns |
| NbtComparer.GetHashCode | fNbt/NbtComparer.cs:26-71 | a null tag throws `ArgumentNullException`; a non-null tag hashes iff it is not an End tag |
| NbtComparer.EqualTagsAgreeShallowly | fNbt/NbtComparer.cs:17-23 | equal tags agree on type, name, array lengths, list type and count, compound count and raw value |
| NbtComparer.HeaderDependsOnTypeAndName | fNbt/NbtComparer.cs:30-32 | the first hash step depends only on the tag type and the name |
| NbtComparer.ShallowAgreementFixesHash | fNbt/NbtComparer.cs:26-71 | tags that agree on everything the hash reads have the same hash |
| NbtComparer.DisagreementMeansUnequal | fNbt/NbtComparer.cs:17-23 | a non-End tag that disagrees on any hashed field compares unequal, without error |
| NbtComparer.HashConsistentWithEquals | fNbt/NbtComparer.cs:17-71 | equal tags have equal hashes |
| NbtComparer.EqualsImpliesEqualHashCodes | fNbt/NbtComparer.cs:17-71 | the `IEqualityComparer` contract: `Equals` true implies equal `GetHashCode` |
| NbtComparer.HashMismatchMeansUnequal | fNbt/NbtComparer.cs:26-71 | different hashes imply `Equals` is false, so a hash-bucket lookup by name plus `Equals` matches the set semantics |
| NbtComparer.EndTagsRejected | fNbt/NbtComparer.cs:61-126 | comparing two End tags with the same name throws; hashing an End tag throws |
| NbtComparer.ScalarEquality | fNbt/NbtComparer.cs:117-126 | scalar tags are equal iff type, name and raw value agree |
| NbtComparer.ArrayEquality | fNbt/NbtComparer.cs:77-100 | array tags are equal iff type, name, length and every element agree |
| NbtComparer.ListItemsEqualIff | fNbt/NbtComparer.cs:113-115 | the element comparison succeeds iff every pair of elements compares equal |
| NbtComparer.ListEquality | fNbt/NbtComparer.cs:108-116 | lists are equal iff name, list type, count and every element pair agree |
| NbtComparer.ListOrderMatters | fNbt/NbtComparer.cs:108-116 | a list and its reversal are unequal |
| NbtComparer.EqualsReflexive | fNbt/NbtComparer.cs:17-127 | every well-formed End-free tag equals itself |
| NbtComparer.ListItemsReflexive | fNbt/NbtComparer.cs:113-115 | the element comparison of a list with itself succeeds |
| NbtComparer.SetContainsMembers | fNbt/NbtComparer.cs:101-107 | children that are members of a uniquely named compound are all found in it |
| NbtComparer.SetContainsAllIff | fNbt/NbtComparer.cs:101-107 | `SetEquals` succeeds iff every child of the second compound has an equal child in the first |
| NbtComparer.CompoundTagEqualsUnfold | fNbt/NbtComparer.cs:101-107 | compound comparison is the name check, then the count check, then the set comparison |
| NbtComparer.CompoundEquality | fNbt/NbtComparer.cs:101-107 | compounds are equal iff names and counts agree and every child of one has an equal child in the other |
| NbtComparer.CompoundOrderIrrelevant | fNbt/NbtComparer.cs:56-107 | reordering a compound's children changes neither equality nor the hash |
| NbtComparer.TimesTwentyThreeInjective | fNbt/NbtComparer.cs:30 | multiplying by 23 modulo 2^32 is injective |
| NbtComparer.MixInjective | fNbt/NbtComparer.cs:37-65 | one `(hash * 23) ^ v` step is injective in the running hash |
| NbtComparer.NullNameIsNotEmptyName | fNbt/NbtComparer.cs:21 | a null name and an empty name compare unequal; their hashes differ iff the string hash of "" is non-zero |
| SerializationHelper.DeserializeInt | fNbt/Serialization/NbtSerializationHelper.cs:124-129 | succeeds iff the tag is an `NbtInt`, giving its value; otherwise the type error |
| SerializationHelper.DeserializeLong | fNbt/Serialization/NbtSerializationHelper.cs:133-138 | succeeds iff the tag is an `NbtLong`, giving its value; otherwise the type error |
| SerializationHelper.DeserializeShort | fNbt/Serialization/NbtSerializationHelper.cs:142-147 | succeeds iff the tag is an `NbtShort`, giving its value; otherwise the type error |
| SerializationHelper.DeserializeByte | fNbt/Serialization/NbtSerializationHelper.cs:151-156 | succeeds iff the tag is an `NbtByte`, giving its value; otherwise the type error |
| SerializationHelper.DeserializeFloat | fNbt/Serialization/NbtSerializationHelper.cs:160-165 | succeeds iff the tag is an `NbtFloat`, giving its value; otherwise the type error |
| SerializationHelper.DeserializeDoubleAsWritten | fNbt/Serialization/NbtSerializationHelper.cs:169-174 | as written: succeeds iff the tag is an `NbtFloat`, giving its value widened |
| SerializationHelper.DeserializeDouble | fNbt/Serialization/NbtSerializationHelper.cs:169-174 | corrected: succeeds iff the tag is an `NbtDouble`, giving its value; otherwise the type error |
| SerializationHelper.DeserializeString | fNbt/Serialization/NbtSerializationHelper.cs:181-186 | succeeds iff the tag is an `NbtString`, giving its value; otherwise the type error |
| SerializationHelper.DeserializeIntSeq | fNbt/Serialization/NbtSerializationHelper.cs:190-209 | the `IEnumerable<int>`, `int[]` and `List<int>` overloads: succeed iff the tag is an `NbtIntArray`, giving its contents |
| SerializationHelper.DeserializeLongSeq | fNbt/Serialization/NbtSerializationHelper.cs:213-232 | the `IEnumerable<long>`, `List<long>` and `long[]` overloads: succeed iff the tag is an `NbtLongArray`, giving its contents |
| SerializationHelper.DeserializeList | fNbt/Serialization/NbtSerializationHelper.cs:239-246 | succeeds iff the tag is an `NbtList`, giving one deserialized element per item, in order |
| SerializationHelper.SerializeInt | fNbt/Serialization/NbtSerializationHelper.cs:29-31 | an unnamed `NbtInt` that the int overload reads back as the same value |
| SerializationHelper.SerializeLong | fNbt/Serialization/NbtSerializationHelper.cs:36-38 | an unnamed `NbtLong` that reads back as the same value |
| SerializationHelper.SerializeShort | fNbt/Serialization/NbtSerializationHelper.cs:43-45 | an unnamed `NbtShort` that reads back as the same value |
| SerializationHelper.SerializeByte | fNbt/Serialization/NbtSerializationHelper.cs:50-52 | an unnamed `NbtByte` that reads back as the same value |
| SerializationHelper.SerializeFloat | fNbt/Serialization/NbtSerializationHelper.cs:57-59 | an unnamed `NbtFloat` that reads back as the same value |
| SerializationHelper.SerializeDouble | fNbt/Serialization/NbtSerializationHelper.cs:64-66 | an unnamed `NbtDouble` that the corrected double overload reads back as the same value |
| SerializationHelper.SerializeString | fNbt/Serialization/NbtSerializationHelper.cs:74-76 | an unnamed `NbtString` that reads back as the same value |
| SerializationHelper.SerializeIntSeq | fNbt/Serialization/NbtSerializationHelper.cs:81-83 | an unnamed `NbtIntArray` that reads back as the same sequence |
| SerializationHelper.SerializeLongSeq | fNbt/Serialization/NbtSerializationHelper.cs:88-90 | an unnamed `NbtLongArray` that reads back as the same sequence |
| SerializationHelper.FirstMismatch | fNbt/Serialization/NbtSerializationHelper.cs:99-101 | finds an item whose type differs from the list's inferred type, and reports none only when every item matches |
| SerializationHelper.SerializeTagList | fNbt/Serialization/NbtSerializationHelper.cs:99-101 | the `NbtList` constructor succeeds iff all items have the inferred type, and then holds exactly the items |
| SerializationHelper.SerializeSerializableList | fNbt/Serialization/NbtSerializationHelper.cs:106-108 | succeeds iff every element serializes to a tag of the first element's type; then a list of each element's own serialization, in order |
| SerializationHelper.DeserializersRejectNull | fNbt/Serialization/NbtSerializationHelper.cs:124-246 | every deserializing overload rejects a null tag |
| SerializationHelper.DoubleRoundTripFailsAsWritten | fNbt/Serialization/NbtSerializationHelper.cs:64-66 | as written, reading back a serialized double always fails |
| SerializationHelper.DoubleOverloadAcceptsFloatAsWritten | fNbt/Serialization/NbtSerializationHelper.cs:169-174 | as written, the double overload accepts an `NbtFloat`; the corrected overload rejects it |
| SerializationHelper.SerializableListRoundTrip | fNbt/Serialization/NbtSerializationHelper.cs:106-108 | a list of same-typed serializable elements serializes, and the generic list overload reads it back unchanged |
| TypeModel.GetSerializableProperties | fNbt/Serialization/NbtCompiler.cs:372-377 | keeps exactly the public, instance, readable, non-`[NbtIgnore]` properties |
| TypeModel.SelectionKeepsOrder | fNbt/Serialization/NbtCompiler.cs:372-377 | the filter distributes over concatenation, so reflection order is kept |
| TypeModel.SelectionIdempotent | fNbt/Serialization/NbtCompiler.cs:372-377 | filtering twice is filtering once |
| TypeModel.TagNameOf | fNbt/Serialization/NbtCompiler.cs:245-252 | the `[TagName]` name when present, else the property's name |
| TypeModel.SelfPolicyOf | fNbt/Serialization/NbtCompiler.cs:254-262 | the attribute's self policy when present, else the default |
| TypeModel.ElementPolicyOf | fNbt/Serialization/NbtCompiler.cs:254-262 | the attribute's element policy when present, else the default |
| TypeModel.FirstAccepting | fNbt/Serialization/NbtCompiler.cs:264-310 | the first test, in source order, that accepts the type; compound objects accept everything |
| TypeModel.Dispatch | fNbt/Serialization/NbtCompiler.cs:264-310 | one or two categories, all accepting the type; two exactly when the first is a string dictionary |
| TypeModel.DispatchIsFirstMatch | fNbt/Serialization/NbtCompiler.cs:264-310 | the first category is the first matching test; after a dictionary, the second is the first match from the list test on |
| TypeModel.SingleHandlerUnlessDictionary | fNbt/Serialization/NbtCompiler.cs:289-294 | a property gets one handler unless its type is a string dictionary, which has no `continue` |
| TypeModel.MakeNullHandler | fNbt/Serialization/NbtCompiler.cs:325-367 | fails iff the policy is unrecognized, with that policy in the error; otherwise the guard keeps the getter and the non-null code |
| TypeModel.NullPolicySemantics | fNbt/Serialization/NbtCompiler.cs:318-367 | the guarded code first reads the value; a non-null value runs the code; a null value throws under Error, does nothing under Ignore, runs the default under InsertDefault |
| TypeModel.OnlyErrorPolicyThrows | fNbt/Serialization/NbtCompiler.cs:334-342 | only an Error guard on a null value throws, and with the guard's message |
| Synthesis.Body | fNbt/Serialization/NbtCompiler.cs:166-211 | the root null check, the preamble, one assignment per slot, then the handlers in order, then the return |
| Synthesis.SlotsFor | fNbt/Serialization/NbtCompiler.cs:394-401 | one slot per resolver parameter, in order, reading that type's registry cell |
| Synthesis.RegistryShrinks | fNbt/Serialization/NbtCompiler.cs:145-150 | registering a type leaves fewer unregistered types, so nested synthesis terminates |
| Synthesis.RegistryBounded | fNbt/Serialization/NbtCompiler.cs:145-150 | the registry never holds more types than the program describes |
| Synthesis.GetSerializer | fNbt/Serialization/NbtCompiler.cs:76-85 | a cache hit returns the cached serializer unchanged; on success the type is cached with the result; on failure it is not cached; the state only evolves |
| Synthesis.CreateSerializer | fNbt/Serialization/NbtCompiler.cs:142-230 | on success the result is cached and stored in its own cell; on failure the type is not cached; invariants and resolution are kept |
| Synthesis.Publish | fNbt/Serialization/NbtCompiler.cs:218-229 | the end of `CreateSerializer<T>`: the same guarantees, given the built handlers |
| Synthesis.Abandon | fNbt/Serialization/NbtCompiler.cs:227-229 | a failed build returns its error and leaves the type uncached |
| Synthesis.Complete | fNbt/Serialization/NbtCompiler.cs:218-229 | a successful build is cached and stored in its own cell |
| Synthesis.MakePropertySerializers | fNbt/Serialization/NbtCompiler.cs:236-313 | the handlers extend those already built; every late-bound call has its resolver slot; the resolver's parameters only grow; the state only evolves |
| Synthesis.EmitHandlers | fNbt/Serialization/NbtCompiler.cs:264-310 | one handler per dispatched category, in dispatch order, each covered by the resolver |
| Synthesis.MakeHandler | fNbt/Serialization/NbtCompiler.cs:264-310 | the handler has the category and the tag name; it is guarded iff the category takes the self policy; an unrecognized self policy fails the build; only the compound handler changes the state |
| Synthesis.MakeCall | fNbt/Serialization/NbtCompiler.cs:405-429 | a registered type gets a late-bound call; its parameter is added on first use only; any other type gets an early-bound call to its now-cached serializer |
| Synthesis.PublishFails | fNbt/Serialization/NbtCompiler.cs:227-229 | a failed build returns its error, removes T from the registry, and undoes nothing else |
| Synthesis.PublishSucceeds | fNbt/Serialization/NbtCompiler.cs:166-229 | a successful build yields a serializer with one slot per parameter and T's own cell, stored in that cell and the cache |
| Synthesis.PropertyStep | fNbt/Serialization/NbtCompiler.cs:239-311 | one loop iteration: a failed property ends the loop with its error; a successful one carries on |
| Synthesis.SecondPropertyFails | fNbt/Serialization/NbtCompiler.cs:239-311 | when the second of two properties fails, the build fails with that error |
| Synthesis.ReadyWhenIdle | fNbt/Serialization/NbtCompiler.cs:218-222 | with no synthesis in progress, every slot of every cached serializer reads an assigned cell holding its type's serializer |
| Synthesis.TopLevelRequestLeavesReady | fNbt/Serialization/NbtCompiler.cs:76-85 | a successful top-level request from an idle state leaves every serializer ready to run |
| Synthesis.CreateUnfolds | fNbt/Serialization/NbtCompiler.cs:142-230 | `CreateSerializer` is register, build, publish |
| Synthesis.ADroppedUnresolved | fNbt/Serialization/NbtCompiler.cs:227-229 | after the failed build of the scenario, a cached serializer has a slot that no cell will fill |
| Synthesis.FailedBuildLeavesDanglingSlot | fNbt/Serialization/NbtCompiler.cs:142-230 | a failed outer build keeps a nested serializer cached whose slot reads the outer type's never-assigned cell |
| Compiler.NbtCompiler.constructor | fNbt/Serialization/NbtCompiler.cs:64-72 | every dictionary starts empty |
| Compiler.NbtCompiler.GetSerializer | fNbt/Serialization/NbtCompiler.cs:76-85 | result and new state are those of `Synthesis.GetSerializer` |
| Compiler.NbtCompiler.GetSerializerForType | fNbt/Serialization/NbtCompiler.cs:102-111 | a null type throws and changes nothing; otherwise as `Synthesis.GetSerializer` |
| Compiler.NbtCompiler.CreateSerializerForType | fNbt/Serialization/NbtCompiler.cs:116-121 | a null type throws and changes nothing; otherwise the reflected generic `GetSerializer<T>`, as `Synthesis.GetSerializer` |
| Compiler.NbtCompiler.CreateSerializer | fNbt/Serialization/NbtCompiler.cs:142-230 | result and new state are those of `Synthesis.CreateSerializer` |
| Compiler.NbtCompiler.Publish | fNbt/Serialization/NbtCompiler.cs:218-229 | result and new state are those of `Synthesis.Publish` |
| Compiler.NbtCompiler.MakePropertySerializers | fNbt/Serialization/NbtCompiler.cs:236-313 | the loop's result, state and resolver parameters are those of `Synthesis.MakePropertySerializers`; the registry is unchanged |
| Compiler.NbtCompiler.HandleProperty | fNbt/Serialization/NbtCompiler.cs:264-310 | as `Synthesis.EmitHandlers` on the dispatched categories |
| Compiler.NbtCompiler.MakeHandler | fNbt/Serialization/NbtCompiler.cs:264-310 | as `Synthesis.MakeHandler` |
| Compiler.NbtCompiler.GetDeserializer | fNbt/Serialization/NbtCompiler.cs:89-98 | the cached deserializer, else `NotImplementedException`; with the cache empty, always the exception |
| Compiler.NbtCompiler.CreateDeserializerForType | fNbt/Serialization/NbtCompiler.cs:126-131 | a null type throws `ArgumentNullException`; otherwise the generic `GetDeserializer<T>` |
| Compiler.NbtCompiler.CreateDeserializer | fNbt/Serialization/NbtCompiler.cs:135-137 | always throws `NotImplementedException` |
| Compiler.CallResolver.constructor | fNbt/Serialization/NbtCompiler.cs:380-381 | a resolver starts with no parameters |
| Compiler.CallResolver.GetParameterAssignmentList | fNbt/Serialization/NbtCompiler.cs:394-401 | one assignment per parameter, in order, from its type's registry entry, as `Synthesis.SlotsFor` |
| Compiler.CallResolver.MakeCall | fNbt/Serialization/NbtCompiler.cs:405-429 | result, compiler state and parameters are those of `Synthesis.MakeCall` |
| AutoSerializer.ContainsIffOccurs | GenSerializer/AutoSerializer.cs:30 | `Contains` holds iff the substring occurs at some position |
| AutoSerializer.FirstPropertyNameAttribute | GenSerializer/AutoSerializer.cs:49-50 | the first attribute whose class name contains "NbtPropertyName", or the end |
| AutoSerializer.FirstNamed | GenSerializer/AutoSerializer.cs:64 | the first named argument with the key, or the end |
| AutoSerializer.GetNbtPropertyName | GenSerializer/AutoSerializer.cs:46-72 | a name other than the property's own is the string value of the first `Name` argument of the first property-name attribute |
| AutoSerializer.NamedArgumentWins | GenSerializer/AutoSerializer.cs:46-72 | that first `Name` string is always the resolved name |
| AutoSerializer.PropertyNameFallbacks | GenSerializer/AutoSerializer.cs:52-71 | the property's own name is used with no attribute, with no named arguments, or with no string `Name` value |
| AutoSerializer.PositionalArgumentsIgnored | GenSerializer/AutoSerializer.cs:57-69 | changing an attribute's constructor arguments never changes the resolved name |
| AutoSerializer.PositionalRealNameIsIgnored | GenSerializer/AutoSerializer.cs:57-69 | `[NbtPropertyName("RealName")]` on property `Name` resolves to "Name" |
| AutoSerializer.MarkedNotNbtProperty | GenSerializer/AutoSerializer.cs:29-30 | holds iff some attribute's display text contains "NotNbtProperty" |
| AutoSerializer.SelectProperties | GenSerializer/AutoSerializer.cs:27-31 | keeps exactly the property members without a `NotNbtProperty` attribute |
| AutoSerializer.SelectionKeepsOrder | GenSerializer/AutoSerializer.cs:27-31 | the filter distributes over concatenation, so member order is kept |
| AutoSerializer.TerminatedIff | GenSerializer/AutoSerializer.cs:75-118 | a rendered line ends in ';' iff it is a statement other than the unterminated `Add` |
| AutoSerializer.SerializationBlock | GenSerializer/AutoSerializer.cs:82-91 | as written: three lines, the property's own `SerializeToNbt()` exactly when its type implements `INbtSerializableType` and the helper otherwise, then the name assignment with the resolved name |
| AutoSerializer.CorrectedSerializationBlock | GenSerializer/AutoSerializer.cs:82-91 | corrected: the written block's first two lines, then a terminated `Add` |
| AutoSerializer.AppendSerialization | GenSerializer/AutoSerializer.cs:82-91 | a loop iteration appends exactly the written block for the property |
| AutoSerializer.GetSerialization | GenSerializer/AutoSerializer.cs:74-96 | the builder ends up holding the header, the written block of each property in order, and the footer |
| AutoSerializer.SerializationLayout | GenSerializer/AutoSerializer.cs:74-96 | the written text is 3n+6 lines: the four-line header, the block of property i at line 4+3i, the two-line footer |
| AutoSerializer.UnterminatedAdd | GenSerializer/AutoSerializer.cs:86 | as written, a block's `Add` is unterminated iff the property implements `INbtSerializableType` |
| AutoSerializer.BlockTerminatedIff | GenSerializer/AutoSerializer.cs:83-91 | as written, a block line lacks its semicolon iff it is the `Add` of the own-serializer branch |
| AutoSerializer.AddLineTerminated | GenSerializer/AutoSerializer.cs:86-91 | as written, line 3i+2 of the body is terminated iff property i takes the helper branch |
| AutoSerializer.WrittenLineTerminated | GenSerializer/AutoSerializer.cs:79-92 | as written, with no own-serializer property every body line is terminated |
| AutoSerializer.SerializationTerminatedIff | GenSerializer/AutoSerializer.cs:79-92 | as written, every statement of the body is terminated iff no property implements `INbtSerializableType` |
| AutoSerializer.CorrectionOnlyForOwnSerializer | GenSerializer/AutoSerializer.cs:83-91 | the written and corrected blocks agree iff the property does not implement `INbtSerializableType` |
| AutoSerializer.CorrectedBlockTerminated | GenSerializer/AutoSerializer.cs:84-91 | every line of a corrected block is a terminated statement |
| AutoSerializer.CorrectedSerializationTerminated | GenSerializer/AutoSerializer.cs:79-92 | corrected: every statement of the body is terminated, whatever the properties |
| AutoSerializer.CorrectedLineAgrees | GenSerializer/AutoSerializer.cs:79-92 | a body line that is not an unterminated `Add` is the same in the written and the corrected body |
| AutoSerializer.CorrectedTextDiffersOnlyInAdds | GenSerializer/AutoSerializer.cs:74-96 | the corrected method has the written one's length and differs from it only at unterminated `Add` lines |
| AutoSerializer.DeserializationBlock | GenSerializer/AutoSerializer.cs:104-115 | two or three lines; the second reads the resolved name's key and no other line reads a key; `new()` is emitted iff the property implements `INbtDeserializableType` |
| AutoSerializer.AppendDeserialization | GenSerializer/AutoSerializer.cs:104-115 | a loop iteration appends exactly the block for the property |
| AutoSerializer.GetDeserialization | GenSerializer/AutoSerializer.cs:99-120 | the builder ends up holding the header, the blocks in order, and the closing brace |
| AutoSerializer.DeserializationLayout | GenSerializer/AutoSerializer.cs:99-120 | the text opens with the three header lines and ends with the closing brace; the block of property i sits at its start offset, and the next block starts right after it |
| AutoSerializer.KeysAgree | GenSerializer/AutoSerializer.cs:82-114 | the serializer names property i's tag with the resolved name, and the deserializer reads property i from that same key |
| AutoSerializer.AnyAttributeNamed | GenSerializer/AutoSerializer.cs:146-147 | holds iff some attribute's name contains the marker |
| AutoSerializer.AnyListNamed | GenSerializer/AutoSerializer.cs:146-147 | holds iff some attribute list holds such an attribute |
| AutoSerializer.FindIffMarked | GenSerializer/AutoSerializer.cs:144-148 | a node is selected iff it is a class declaration with an attribute whose name contains "NbtSerializableType" |
| AutoSerializer.FindExamples | GenSerializer/AutoSerializer.cs:144-148 | a marked class is selected, also under a qualified name and after another attribute; an unmarked class and a non-class are not |

## Left out

- Locking (`SerializerLock`, `DeserializerLock`) and threads: the model has one compiler object and one thread.
- Reflection, `MethodInfo.Invoke` and the wrapping of exceptions in `TargetInvocationException`: `CreateSerializer(Type)` is modelled as the call it reflects to.
- Expression trees and `Compile()`: generated code is modelled by the `Stmt` and `Handler` values it consists of.
- The debug build (`DEBUG_NBTSERIALIZE_COMPILER`, line 2 of `NbtCompiler.cs`): the `MarkLine` console statements and the debug-view print are I/O.
- `CallResolver.GetParameterList` and `HasParameters`: the delegate variables are the slots of a serializer, and an empty slot list stands for `HasParameters` being false.
- `CodeEmitter`, `SerializeCodeEmitter` and `NullPolicy` are not part of this model. Three consequences:
  - The `HandleX` emitters are assumed to pass the self policy of every category that takes one through `MakeNullHandler`.
  - Only the compound-object handler is assumed to call `MakeCall`.
  - The policy enum is modelled as Error, Ignore, InsertDefault and an unrecognized value, with `NullPolicy.Default` as Error. A rejected policy is the only build failure modelled.
- Element handling inside lists and dictionaries, including the element null policy's effect: it lives in the emitters.
- Synthesis.GetSerializer requires that the type not be mid-synthesis unless it is cached. No caller in the modelled code asks for such a type; the source would throw from `Dictionary.Add` there.
- SerializationHelper.DeserializeIntSeq, SerializationHelper.DeserializeLongSeq: the `int[]`, `long[]` and `IEnumerable` overloads hand out the tag's own array, so later writes through either reference are shared, while the `List<>` overloads copy it with `ToList()`; values have no identity in the model, so both are the same sequence.
- SerializationHelper.SerializeIntSeq, SerializationHelper.SerializeLongSeq, SerializationHelper.SerializeSerializableList: a null argument throws `ArgumentNullException` from `ToArray()` (lines 82 and 89) or `Select` (line 107); sequences in the model are never null, so that error path is not modelled.
- NbtComparer.Equals: the `ReferenceEquals` shortcut (line 17 of `fNbt/NbtComparer.cs`) is modelled only for the outermost pair of tags; the nested comparisons of list items and compound children assume distinct objects. Tags are trees of values, which relies on `NbtTag`'s rule that a tag has at most one parent, so distinct containers never share a child object; a tree that broke that rule could reach an inner pair of identical references that the model treats as distinct.
- Floating-point values are abstract tokens compared by identity, and their hash codes are not modelled.
- String hashing (`StringComparer.Ordinal.GetHashCode`) and the hash of a raw value are parameters (`Hasher`).
- The lazy `Select` of the generic list deserializer is modelled as the list of its results.
- The `IEnumerable<NbtTag>` serializer's list-type inference is modelled through an inferred-type function; the `NbtList` constructor's other checks are not modelled.
- `AutoSerializer.Initialize`, the incremental-generator pipeline, diagnostics (`NBT001`) and `GetNbtSerializableType`: Roslyn plumbing.
- The class wrapper that `Excute` writes around the two methods, and `AddSource`: these are text templates and I/O.
- The generated text's newlines, the `StringBuilder` initial line and `AppendLine` terminators: lines are a sequence of `Line` values.
- Property and tag names are substituted into the generated text unescaped, as in the source; the model does not parse the emitted C#.
- Roslyn's `ToString()` display of an attribute and `AttributeClass.Name` are given as fields of the attribute value.

## Findings

| source | as written | input that shows it | evidently intended | confidence | as-written member | corrected member |
|---|---|---|---|---|---|---|
| fNbt/Serialization/NbtSerializationHelper.cs:169-174 | the `double` deserializing overload tests `obj is NbtFloat` and returns its `DoubleValue`, the float widened | deserializing `SerializeToNbt(1.0)`, an `NbtDouble`, throws the type error, while an `NbtFloat` is accepted | test for `NbtDouble` and read `DoubleValue`, so that double values round-trip | not executed | SerializationHelper.DoubleRoundTripFailsAsWritten | SerializationHelper.SerializeDouble |
| GenSerializer/AutoSerializer.cs:86 | the `INbtSerializableType` branch emits `result.Add(obj)` with no semicolon | any `[NbtSerializableType]` class with a property whose type implements `INbtSerializableType` makes the generated method fail to compile | emit `result.Add(obj);` as the other branch does | not executed | AutoSerializer.SerializationTerminatedIff | AutoSerializer.CorrectedSerializationTerminated |

/**
 * `NbtSerializationHelper` and `NbtDeserializationHelper`: the per-type
 * overloads generated serializers call. Every tag produced here is unnamed
 * (`None`); the caller names it afterwards. A null tag handed to a
 * deserializer fails the same type test as a tag of the wrong class.
 */
module SerializationHelper {
  import opened Wrappers
  import opened NbtTags

  /** `ArgumentException` with the message the overload throws. */
  datatype HelperError =
    | NotOfType(message: string)
    | ListTypeMismatch(expected: TagType, given: TagType)

  type Deserialized<T> = Result<T, HelperError>

  /** `NbtFloat.DoubleValue`: the exact widening of a float to a double. */
  function FloatToDouble(f: Float32): Float64 {
    Float64(f.token)
  }

  // ---------------------------------------------------------------------------
  // Deserialization: a type test, then the tag's own value

  function DeserializeInt(obj: Option<Tag>): (r: Deserialized<Int32>)
    ensures r.Ok? <==> obj.Some? && obj.value.IntTag?
    ensures r.Ok? ==> r.value == obj.value.intValue
    ensures r.Err? ==> r.error == NotOfType("value of NbtTag is not Int32")
  {
    if obj.Some? && obj.value.IntTag? then Ok(obj.value.intValue)
    else Err(NotOfType("value of NbtTag is not Int32"))
  }

  function DeserializeLong(obj: Option<Tag>): (r: Deserialized<Int64>)
    ensures r.Ok? <==> obj.Some? && obj.value.LongTag?
    ensures r.Ok? ==> r.value == obj.value.longValue
    ensures r.Err? ==> r.error == NotOfType("value of NbtTag is not Int64")
  {
    if obj.Some? && obj.value.LongTag? then Ok(obj.value.longValue)
    else Err(NotOfType("value of NbtTag is not Int64"))
  }

  function DeserializeShort(obj: Option<Tag>): (r: Deserialized<Int16>)
    ensures r.Ok? <==> obj.Some? && obj.value.ShortTag?
    ensures r.Ok? ==> r.value == obj.value.shortValue
    ensures r.Err? ==> r.error == NotOfType("value of NbtTag is not Int16")
  {
    if obj.Some? && obj.value.ShortTag? then Ok(obj.value.shortValue)
    else Err(NotOfType("value of NbtTag is not Int16"))
  }

  function DeserializeByte(obj: Option<Tag>): (r: Deserialized<UInt8>)
    ensures r.Ok? <==> obj.Some? && obj.value.ByteTag?
    ensures r.Ok? ==> r.value == obj.value.byteValue
    ensures r.Err? ==> r.error == NotOfType("value of NbtTag is not UInt8")
  {
    if obj.Some? && obj.value.ByteTag? then Ok(obj.value.byteValue)
    else Err(NotOfType("value of NbtTag is not UInt8"))
  }

  function DeserializeFloat(obj: Option<Tag>): (r: Deserialized<Float32>)
    ensures r.Ok? <==> obj.Some? && obj.value.FloatTag?
    ensures r.Ok? ==> r.value == obj.value.floatValue
    ensures r.Err? ==> r.error == NotOfType("value of NbtTag is not float32")
  {
    if obj.Some? && obj.value.FloatTag? then Ok(obj.value.floatValue)
    else Err(NotOfType("value of NbtTag is not float32"))
  }

  /** The `double` overload as written: it tests for a Float tag and widens its value. */
  function DeserializeDoubleAsWritten(obj: Option<Tag>): (r: Deserialized<Float64>)
    ensures r.Ok? <==> obj.Some? && obj.value.FloatTag?
    ensures r.Ok? ==> r.value == FloatToDouble(obj.value.floatValue)
    ensures r.Err? ==> r.error == NotOfType("value of NbtTag is not double(float64)")
  {
    if obj.Some? && obj.value.FloatTag? then Ok(FloatToDouble(obj.value.floatValue))
    else Err(NotOfType("value of NbtTag is not double(float64)"))
  }

  /** The `double` overload as intended: it tests for a Double tag. */
  function DeserializeDouble(obj: Option<Tag>): (r: Deserialized<Float64>)
    ensures r.Ok? <==> obj.Some? && obj.value.DoubleTag?
    ensures r.Ok? ==> r.value == obj.value.doubleValue
    ensures r.Err? ==> r.error == NotOfType("value of NbtTag is not double(float64)")
  {
    if obj.Some? && obj.value.DoubleTag? then Ok(obj.value.doubleValue)
    else Err(NotOfType("value of NbtTag is not double(float64)"))
  }

  function DeserializeString(obj: Option<Tag>): (r: Deserialized<string>)
    ensures r.Ok? <==> obj.Some? && obj.value.StringTag?
    ensures r.Ok? ==> r.value == obj.value.stringValue
    ensures r.Err? ==> r.error == NotOfType("value of NbtTag is not String")
  {
    if obj.Some? && obj.value.StringTag? then Ok(obj.value.stringValue)
    else Err(NotOfType("value of NbtTag is not String"))
  }

  /** The `IEnumerable<int>`, `int[]` and `List<int>` overloads: the IntArray's elements. */
  function DeserializeIntSeq(obj: Option<Tag>): (r: Deserialized<seq<Int32>>)
    ensures r.Ok? <==> obj.Some? && obj.value.IntArrayTag?
    ensures r.Ok? ==> r.value == obj.value.ints
    ensures r.Err? ==> r.error == NotOfType("value of NbtTag is not NbtIntArray")
  {
    if obj.Some? && obj.value.IntArrayTag? then Ok(obj.value.ints)
    else Err(NotOfType("value of NbtTag is not NbtIntArray"))
  }

  /** The `IEnumerable<long>`, `long[]` and `List<long>` overloads: the LongArray's elements. */
  function DeserializeLongSeq(obj: Option<Tag>): (r: Deserialized<seq<Int64>>)
    ensures r.Ok? <==> obj.Some? && obj.value.LongArrayTag?
    ensures r.Ok? ==> r.value == obj.value.longs
    ensures r.Err? ==> r.error == NotOfType("value of NbtTag is not NbtLongArray")
  {
    if obj.Some? && obj.value.LongArrayTag? then Ok(obj.value.longs)
    else Err(NotOfType("value of NbtTag is not NbtLongArray"))
  }

  /**
   * The generic list overload: one fresh `T` per list element, in order, each
   * filled by its own `DeserializeFromNbt`; `fill` is `new T()` followed by
   * that call.
   */
  function DeserializeList<T>(obj: Option<Tag>, fill: Tag -> T): (r: Deserialized<seq<T>>)
    ensures r.Ok? <==> obj.Some? && obj.value.ListTag?
    ensures r.Ok? ==> |r.value| == |obj.value.items|
    ensures r.Ok? ==> forall i :: 0 <= i < |r.value| ==> r.value[i] == fill(obj.value.items[i])
    ensures r.Err? ==> r.error == NotOfType("value of NbtTag is not List")
  {
    if obj.Some? && obj.value.ListTag? then
      var items := obj.value.items;
      Ok(seq(|items|, i requires 0 <= i < |items| => fill(items[i])))
    else Err(NotOfType("value of NbtTag is not List"))
  }

  // ---------------------------------------------------------------------------
  // Serialization: one constructor call, each a right inverse of its deserializer

  function SerializeInt(obj: Int32): (t: Tag)
    ensures TypeOf(t) == Int && t.name == None
    ensures DeserializeInt(Some(t)) == Ok(obj)
  {
    IntTag(None, obj)
  }

  function SerializeLong(obj: Int64): (t: Tag)
    ensures TypeOf(t) == Long && t.name == None
    ensures DeserializeLong(Some(t)) == Ok(obj)
  {
    LongTag(None, obj)
  }

  function SerializeShort(obj: Int16): (t: Tag)
    ensures TypeOf(t) == Short && t.name == None
    ensures DeserializeShort(Some(t)) == Ok(obj)
  {
    ShortTag(None, obj)
  }

  function SerializeByte(obj: UInt8): (t: Tag)
    ensures TypeOf(t) == Byte && t.name == None
    ensures DeserializeByte(Some(t)) == Ok(obj)
  {
    ByteTag(None, obj)
  }

  function SerializeFloat(obj: Float32): (t: Tag)
    ensures TypeOf(t) == Float && t.name == None
    ensures DeserializeFloat(Some(t)) == Ok(obj)
  {
    FloatTag(None, obj)
  }

  function SerializeDouble(obj: Float64): (t: Tag)
    ensures TypeOf(t) == Double && t.name == None
    ensures DeserializeDouble(Some(t)) == Ok(obj)
  {
    DoubleTag(None, obj)
  }

  function SerializeString(obj: string): (t: Tag)
    ensures TypeOf(t) == String && t.name == None
    ensures DeserializeString(Some(t)) == Ok(obj)
  {
    StringTag(None, obj)
  }

  /** `IEnumerable<int>` to an IntArray holding the same elements in the same order. */
  function SerializeIntSeq(obj: seq<Int32>): (t: Tag)
    ensures TypeOf(t) == IntArray && t.name == None
    ensures DeserializeIntSeq(Some(t)) == Ok(obj)
  {
    IntArrayTag(None, obj)
  }

  /** `IEnumerable<long>` to a LongArray holding the same elements in the same order. */
  function SerializeLongSeq(obj: seq<Int64>): (t: Tag)
    ensures TypeOf(t) == LongArray && t.name == None
    ensures DeserializeLongSeq(Some(t)) == Ok(obj)
  {
    LongArrayTag(None, obj)
  }

  /** The element type a new list takes from its first element; `Unknown` when empty. */
  function InferredListType(items: seq<Tag>): TagType {
    if items == [] then Unknown else TypeOf(items[0])
  }

  /** Index of the first element whose type differs from the first element's. */
  function FirstMismatch(items: seq<Tag>, from: nat): (r: Option<nat>)
    requires from <= |items|
    ensures r.Some? ==> from <= r.value < |items| && TypeOf(items[r.value]) != InferredListType(items)
    ensures r.None? ==> forall i :: from <= i < |items| ==> TypeOf(items[i]) == InferredListType(items)
    decreases |items| - from
  {
    if from == |items| then None
    else if TypeOf(items[from]) != InferredListType(items) then Some(from)
    else FirstMismatch(items, from + 1)
  }

  /**
   * `new NbtList(tags)`: the list keeps the tags in order and takes its element
   * type from the first; a tag of another type is refused.
   */
  function SerializeTagList(obj: seq<Tag>): (r: Result<Tag, HelperError>)
    ensures r.Ok? <==> forall i :: 0 <= i < |obj| ==> TypeOf(obj[i]) == InferredListType(obj)
    ensures r.Ok? ==> r.value == ListTag(None, InferredListType(obj), obj)
  {
    match FirstMismatch(obj, 0)
    case Some(i) => Err(ListTypeMismatch(InferredListType(obj), TypeOf(obj[i])))
    case None => Ok(ListTag(None, InferredListType(obj), obj))
  }

  /** The `INbtSerializableType` list overload: each element through its own `SerializeToNbt`. */
  function SerializeSerializableList<T>(obj: seq<T>, serialize: T -> Tag): (r: Result<Tag, HelperError>)
    ensures r.Ok? <==> forall i :: 0 <= i < |obj| ==> TypeOf(serialize(obj[i])) == TypeOf(serialize(obj[0]))
    ensures r.Ok? ==> r.value.ListTag? && |r.value.items| == |obj|
    ensures r.Ok? ==> forall i :: 0 <= i < |obj| ==> r.value.items[i] == serialize(obj[i])
  {
    var tags := seq(|obj|, i requires 0 <= i < |obj| => serialize(obj[i]));
    assert forall i :: 0 <= i < |obj| ==> tags[i] == serialize(obj[i]);
    assert obj != [] ==> InferredListType(tags) == TypeOf(serialize(obj[0]));
    SerializeTagList(tags)
  }

  // ---------------------------------------------------------------------------
  // Properties

  /** Each deserializer accepts exactly one tag class, and never a null tag. */
  lemma DeserializersRejectNull<T>(fill: Tag -> T)
    ensures DeserializeInt(None).Err? && DeserializeLong(None).Err? && DeserializeShort(None).Err?
    ensures DeserializeByte(None).Err? && DeserializeFloat(None).Err? && DeserializeDouble(None).Err?
    ensures DeserializeString(None).Err? && DeserializeIntSeq(None).Err? && DeserializeLongSeq(None).Err?
    ensures DeserializeList(None, fill).Err?
  {
  }

  /** The `double` overload as written rejects every tag `SerializeToNbt(double)` produces. */
  lemma DoubleRoundTripFailsAsWritten(v: Float64)
    ensures DeserializeDoubleAsWritten(Some(SerializeDouble(v))) ==
              Err(NotOfType("value of NbtTag is not double(float64)"))
  {
  }

  /** ...and accepts a Float tag, which the intended overload refuses. */
  lemma DoubleOverloadAcceptsFloatAsWritten(f: Float32)
    ensures DeserializeDoubleAsWritten(Some(SerializeFloat(f))) == Ok(FloatToDouble(f))
    ensures DeserializeDouble(Some(SerializeFloat(f))).Err?
  {
  }

  /**
   * Serializing a list of `INbtSerializableType` values and deserializing it
   * with a `fill` that inverts each element's own serializer gives the list back.
   */
  lemma SerializableListRoundTrip<T>(obj: seq<T>, serialize: T -> Tag, fill: Tag -> T, tt: TagType)
    requires forall x :: TypeOf(serialize(x)) == tt
    requires forall x :: fill(serialize(x)) == x
    ensures SerializeSerializableList(obj, serialize).Ok?
    ensures DeserializeList(Some(SerializeSerializableList(obj, serialize).value), fill) == Ok(obj)
  {
    var tags := seq(|obj|, i requires 0 <= i < |obj| => serialize(obj[i]));
    assert forall i :: 0 <= i < |tags| ==> TypeOf(tags[i]) == InferredListType(tags) by {
      if tags != [] {
        assert InferredListType(tags) == tt;
      }
    }
    var r := DeserializeList(Some(SerializeSerializableList(obj, serialize).value), fill);
    assert r.value == obj by {
      forall i | 0 <= i < |obj| ensures r.value[i] == obj[i] {
        assert r.value[i] == fill(serialize(obj[i]));
      }
    }
  }
}

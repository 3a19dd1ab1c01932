/**
 * The NBT tag tree the serializers produce and the comparer inspects.
 * Tags are values here; the tag classes' own storage and lookup API is not part
 * of this model.
 */
module NbtTags {
  import opened Wrappers

  /** A tag name: `None` is a null name, which is distinct from `Some("")`. */
  type Name = Option<string>

  type UInt8 = x: int | 0 <= x < 0x100
  type Int16 = x: int | -0x8000 <= x < 0x8000
  type Int32 = x: int | -0x8000_0000 <= x < 0x8000_0000
  type Int64 = x: int | -0x8000_0000_0000_0000 <= x < 0x8000_0000_0000_0000

  /**
   * Floating-point payloads are abstract: a value stands for its class under
   * .NET's `Equals` (so all NaNs of one width are one value).
   */
  datatype Float32 = Float32(token: int)
  datatype Float64 = Float64(token: int)

  /** `NbtTagType`; `Unknown` is the declared element type of an empty list. */
  datatype TagType =
    | End | Byte | Short | Int | Long | Float | Double | ByteArray | String
    | List | Compound | IntArray | LongArray | Unknown

  /** A tag node. `EndTag` is any tag object whose `TagType` is End. */
  datatype Tag =
    | EndTag(name: Name)
    | ByteTag(name: Name, byteValue: UInt8)
    | ShortTag(name: Name, shortValue: Int16)
    | IntTag(name: Name, intValue: Int32)
    | LongTag(name: Name, longValue: Int64)
    | FloatTag(name: Name, floatValue: Float32)
    | DoubleTag(name: Name, doubleValue: Float64)
    | ByteArrayTag(name: Name, bytes: seq<UInt8>)
    | StringTag(name: Name, stringValue: string)
    | ListTag(name: Name, listType: TagType, items: seq<Tag>)
    | CompoundTag(name: Name, children: seq<Tag>)
    | IntArrayTag(name: Name, ints: seq<Int32>)
    | LongArrayTag(name: Name, longs: seq<Int64>)

  function TypeOf(t: Tag): TagType {
    match t
    case EndTag(_) => End
    case ByteTag(_, _) => Byte
    case ShortTag(_, _) => Short
    case IntTag(_, _) => Int
    case LongTag(_, _) => Long
    case FloatTag(_, _) => Float
    case DoubleTag(_, _) => Double
    case ByteArrayTag(_, _) => ByteArray
    case StringTag(_, _) => String
    case ListTag(_, _, _) => List
    case CompoundTag(_, _) => Compound
    case IntArrayTag(_, _) => IntArray
    case LongArrayTag(_, _) => LongArray
  }

  /** Number of nodes in a tree; the comparer's recursion decreases it. */
  function Size(t: Tag): nat {
    match t
    case ListTag(_, _, items) => 1 + SizeAll(items)
    case CompoundTag(_, children) => 1 + SizeAll(children)
    case _ => 1
  }

  function SizeAll(ts: seq<Tag>): nat {
    if ts == [] then 0 else Size(ts[0]) + SizeAll(ts[1..])
  }

  lemma {:induction false} SizeOfMember(ts: seq<Tag>, i: nat)
    requires i < |ts|
    ensures Size(ts[i]) < SizeAll(ts) + 1
    ensures Size(ts[i]) <= SizeAll(ts)
  {
    if i > 0 {
      SizeOfMember(ts[1..], i - 1);
    }
  }

  lemma {:induction false} SizeOfSuffix(ts: seq<Tag>, i: nat)
    requires i <= |ts|
    ensures SizeAll(ts[i..]) <= SizeAll(ts)
  {
    if i > 0 {
      SizeOfSuffix(ts[1..], i - 1);
      assert ts[1..][i - 1..] == ts[i..];
    }
  }

  /** True when no two tags of `ts` carry the same name. */
  predicate UniqueNames(ts: seq<Tag>) {
    forall i, j :: 0 <= i < j < |ts| ==> ts[i].name != ts[j].name
  }

  /**
   * The tag classes' own invariant on compounds: child names are unique
   * (an `NbtCompound` is keyed by name), at every depth.
   */
  predicate WellFormed(t: Tag)
    decreases Size(t), 1
  {
    match t
    case ListTag(_, _, items) => AllWellFormed(items)
    case CompoundTag(_, children) => UniqueNames(children) && AllWellFormed(children)
    case _ => true
  }

  predicate AllWellFormed(ts: seq<Tag>)
    decreases SizeAll(ts), 2
  {
    ts != [] ==> (WellFormed(ts[0]) && AllWellFormed(ts[1..]))
  }

  /** True when no End tag occurs anywhere in the tree. */
  predicate EndFree(t: Tag)
    decreases Size(t), 1
  {
    match t
    case EndTag(_) => false
    case ListTag(_, _, items) => AllEndFree(items)
    case CompoundTag(_, children) => AllEndFree(children)
    case _ => true
  }

  predicate AllEndFree(ts: seq<Tag>)
    decreases SizeAll(ts), 2
  {
    ts != [] ==> (EndFree(ts[0]) && AllEndFree(ts[1..]))
  }

  lemma {:induction false} AllWellFormedAt(ts: seq<Tag>, i: nat)
    requires i < |ts| && AllWellFormed(ts)
    ensures WellFormed(ts[i])
  {
    if i > 0 {
      AllWellFormedAt(ts[1..], i - 1);
    }
  }

  lemma {:induction false} AllEndFreeAt(ts: seq<Tag>, i: nat)
    requires i < |ts| && AllEndFree(ts)
    ensures EndFree(ts[i])
  {
    if i > 0 {
      AllEndFreeAt(ts[1..], i - 1);
    }
  }
}

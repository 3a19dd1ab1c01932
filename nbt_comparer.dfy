/**
 * `NbtComparer`: deep equality and a deliberately cheap hash over tag trees.
 * Both tags of an `Equals` call are either the same object or distinct
 * objects; distinct container tags never share a child object (a tag has one
 * parent), so only the outermost call can see the same reference twice.
 */
module NbtComparer {
  import opened Wrappers
  import opened NbtTags

  /** The exceptions the comparer throws. */
  datatype ComparerError =
    | ArgumentNull(paramName: string)     // ArgumentNullException
    | CannotCompare(tagType: TagType)     // ArgumentException "Cannot compare tags of type ..."
    | CannotHash(tagType: TagType)        // ArgumentException "Cannot hash tags of type ..."

  /** The boxed scalar that `GetRawValue` returns; boxes of different types are never equal. */
  datatype RawValue =
    | RawByte(b: UInt8)
    | RawDouble(d: Float64)
    | RawFloat(f: Float32)
    | RawInt(i: Int32)
    | RawLong(l: Int64)
    | RawShort(s: Int16)
    | RawString(str: string)

  predicate IsScalarType(tt: TagType) {
    tt == Byte || tt == Short || tt == Int || tt == Long || tt == Float || tt == Double || tt == String
  }

  /** The scalar payload of a scalar or string tag; `None` for End, arrays, lists and compounds. */
  function GetRawValue(t: Tag): (r: Option<RawValue>)
    ensures r.Some? <==> IsScalarType(TypeOf(t))
  {
    match t
    case ByteTag(_, v) => Some(RawByte(v))
    case DoubleTag(_, v) => Some(RawDouble(v))
    case FloatTag(_, v) => Some(RawFloat(v))
    case IntTag(_, v) => Some(RawInt(v))
    case LongTag(_, v) => Some(RawLong(v))
    case ShortTag(_, v) => Some(RawShort(v))
    case StringTag(_, v) => Some(RawString(v))
    case _ => None
  }

  lemma RawValueDeterminesPayload(x: Tag, y: Tag)
    requires TypeOf(x) == TypeOf(y) && IsScalarType(TypeOf(x))
    ensures GetRawValue(x) == GetRawValue(y) <==>
              (match x
               case ByteTag(_, v) => v == y.byteValue
               case ShortTag(_, v) => v == y.shortValue
               case IntTag(_, v) => v == y.intValue
               case LongTag(_, v) => v == y.longValue
               case FloatTag(_, v) => v == y.floatValue
               case DoubleTag(_, v) => v == y.doubleValue
               case StringTag(_, v) => v == y.stringValue
               case _ => false)
  {
  }

  // ---------------------------------------------------------------------------
  // Equality

  /**
   * `Equals(x, y)`; `None` is a null reference and `sameObject` says whether
   * the two arguments are one object (`ReferenceEquals`).
   */
  function Equals(x: Option<Tag>, y: Option<Tag>, sameObject: bool): (r: Result<bool, ComparerError>)
    requires sameObject ==> x == y
    ensures sameObject ==> r == Ok(true)
    ensures x.None? && y.None? ==> r == Ok(true)
    ensures !sameObject && x.None? != y.None? ==> r == Ok(false)
  {
    if sameObject || (x.None? && y.None?) then Ok(true)
    else if x.None? || y.None? then Ok(false)
    else TagEquals(x.value, y.value)
  }

  /** `Equals` on two distinct non-null tags: tag type, then ordinal name, then contents. */
  function TagEquals(x: Tag, y: Tag): Result<bool, ComparerError>
    decreases Size(x), 1, 0
  {
    if TypeOf(x) != TypeOf(y) then Ok(false)
    else if x.name != y.name then Ok(false)
    else DeepEquals(x, y)
  }

  /** `DeepEquals`: contents of two tags of the same type. */
  function DeepEquals(x: Tag, y: Tag): Result<bool, ComparerError>
    requires TypeOf(x) == TypeOf(y)
    decreases Size(x), 0, 0
  {
    match x
    case ByteArrayTag(_, a1) => Ok(a1 == y.bytes)
    case IntArrayTag(_, a1) => Ok(a1 == y.ints)
    case LongArrayTag(_, a1) => Ok(a1 == y.longs)
    case CompoundTag(_, xc) =>
      if |xc| != |y.children| then Ok(false)
      else CompoundChildrenEqual(xc, y.children)
    case ListTag(_, lt, xl) =>
      if lt != y.listType || |xl| != |y.items| then Ok(false)
      else ListItemsEqual(xl, y.items)
    case _ =>
      var raw := GetRawValue(x);
      if raw.Some? then Ok(raw == GetRawValue(y))
      else Err(CannotCompare(TypeOf(x)))
  }

  /** Index of the first tag in `ts` named `n`. */
  function FindByName(ts: seq<Tag>, n: Name): (r: Option<nat>)
    ensures r.Some? ==> r.value < |ts| && ts[r.value].name == n
    ensures r.Some? ==> forall j :: 0 <= j < r.value ==> ts[j].name != n
    ensures r.None? ==> forall j :: 0 <= j < |ts| ==> ts[j].name != n
  {
    if ts == [] then None
    else if ts[0].name == n then Some(0)
    else match FindByName(ts[1..], n)
      case None => None
      case Some(i) => Some(i + 1)
  }

  /** Index of the first End tag of `ts`: hashing it throws. */
  function FindEnd(ts: seq<Tag>): (r: Option<nat>)
    ensures r.Some? ==> r.value < |ts| && ts[r.value].EndTag?
    ensures r.None? ==> forall j :: 0 <= j < |ts| ==> !ts[j].EndTag?
  {
    if ts == [] then None
    else if ts[0].EndTag? then Some(0)
    else match FindEnd(ts[1..])
      case None => None
      case Some(i) => Some(i + 1)
  }

  /**
   * `new HashSet<NbtTag>(xc, this).SetEquals(yc)`: building the set hashes
   * every child of `xc`; `SetEquals` then looks each child of `yc` up, in
   * order, and stops at the first one it does not find.
   */
  function CompoundChildrenEqual(xc: seq<Tag>, yc: seq<Tag>): Result<bool, ComparerError>
    decreases SizeAll(xc), 3, 0
  {
    if FindEnd(xc).Some? then Err(CannotHash(End))
    else SetContainsAll(xc, yc)
  }

  /**
   * Set lookup of each child of `yc` among `xc`. Child names are unique in a
   * compound, so the only candidate that can be equal is the child of the same
   * name; the hash bucket is only consulted when the hashes agree, which
   * (HashMismatchMeansUnequal) changes nothing.
   */
  function SetContainsAll(xc: seq<Tag>, yc: seq<Tag>): Result<bool, ComparerError>
    decreases SizeAll(xc), 2, |yc|
  {
    if yc == [] then Ok(true)
    else if yc[0].EndTag? then Err(CannotHash(End))
    else
      match FindByName(xc, yc[0].name)
      case None => Ok(false)
      case Some(i) =>
        SizeOfMember(xc, i);
        var e := TagEquals(xc[i], yc[0]);
        if e.Err? then e
        else if !e.value then Ok(false)
        else SetContainsAll(xc, yc[1..])
  }

  /** The list loop: pairwise `Equals` by index, stopping at the first unequal pair. */
  function ListItemsEqual(xs: seq<Tag>, ys: seq<Tag>): Result<bool, ComparerError>
    requires |xs| == |ys|
    decreases SizeAll(xs), 2, 0
  {
    if xs == [] then Ok(true)
    else
      SizeOfMember(xs, 0);
      var e := TagEquals(xs[0], ys[0]);
      if e.Err? then e
      else if !e.value then Ok(false)
      else ListItemsEqual(xs[1..], ys[1..])
  }

  // ---------------------------------------------------------------------------
  // The imperative loops of DeepEquals

  /** The index loop DeepEquals runs over byte, int and long arrays. */
  method ArrayContentsEqual<T(==)>(a1: seq<T>, a2: seq<T>) returns (eq: bool)
    ensures eq <==> |a1| == |a2| && forall i :: 0 <= i < |a1| ==> a1[i] == a2[i]
    ensures eq <==> a1 == a2
  {
    if |a1| != |a2| {
      return false;
    }
    var i := 0;
    while i < |a1|
      invariant 0 <= i <= |a1|
      invariant forall k :: 0 <= k < i ==> a1[k] == a2[k]
    {
      if a1[i] != a2[i] {
        return false;
      }
      i := i + 1;
    }
    return true;
  }

  /** The index loop DeepEquals runs over two lists of the same count. */
  method ListItemsEqualLoop(xs: seq<Tag>, ys: seq<Tag>) returns (r: Result<bool, ComparerError>)
    requires |xs| == |ys|
    ensures r == ListItemsEqual(xs, ys)
  {
    var i := 0;
    while i < |xs|
      invariant 0 <= i <= |xs|
      invariant ListItemsEqual(xs, ys) == ListItemsEqual(xs[i..], ys[i..])
    {
      assert xs[i..][1..] == xs[i + 1..] && ys[i..][1..] == ys[i + 1..];
      var e := TagEquals(xs[i], ys[i]);
      if e.Err? {
        return e;
      }
      if !e.value {
        return Ok(false);
      }
      i := i + 1;
    }
    return Ok(true);
  }

  /** DeepEquals as the source writes it, with its loops. */
  method DeepEqualsMethod(x: Tag, y: Tag) returns (r: Result<bool, ComparerError>)
    requires TypeOf(x) == TypeOf(y)
    ensures r == DeepEquals(x, y)
  {
    match x
    case ByteArrayTag(_, a1) =>
      var eq := ArrayContentsEqual(a1, y.bytes);
      r := Ok(eq);
    case IntArrayTag(_, a1) =>
      var eq := ArrayContentsEqual(a1, y.ints);
      r := Ok(eq);
    case LongArrayTag(_, a1) =>
      var eq := ArrayContentsEqual(a1, y.longs);
      r := Ok(eq);
    case CompoundTag(_, xc) =>
      if |xc| != |y.children| {
        r := Ok(false);
      } else {
        r := CompoundChildrenEqual(xc, y.children);
      }
    case ListTag(_, lt, xl) =>
      if lt != y.listType || |xl| != |y.items| {
        r := Ok(false);
      } else {
        r := ListItemsEqualLoop(xl, y.items);
      }
    case _ =>
      var raw := GetRawValue(x);
      if raw.Some? {
        r := Ok(raw == GetRawValue(y));
      } else {
        r := Err(CannotCompare(TypeOf(x)));
      }
  }

  // ---------------------------------------------------------------------------
  // Hashing

  /**
   * The hashes the comparer takes from elsewhere: `StringComparer.Ordinal`'s
   * (randomised per process) and the boxed scalars' own `GetHashCode`.
   */
  datatype Hasher = Hasher(stringHash: string -> bv32, rawHash: RawValue -> bv32)

  /** `NbtTagType`'s underlying value, which is its hash. */
  function TagTypeCode(tt: TagType): bv32 {
    match tt
    case End => 0
    case Byte => 1
    case Short => 2
    case Int => 3
    case Long => 4
    case Float => 5
    case Double => 6
    case ByteArray => 7
    case String => 8
    case List => 9
    case Compound => 10
    case IntArray => 11
    case LongArray => 12
    case Unknown => 0xff
  }

  /** `Int32.GetHashCode` of a length or count, as 32 bits. */
  function CountHash(n: nat): bv32 {
    (n % 0x1_0000_0000) as bv32
  }

  /** One `hash = (hash * 23) ^ v` step, with 32-bit wrap-around. */
  function Mix(hash: bv32, v: bv32): bv32 {
    (hash * 23) ^ v
  }

  /** The hash of the tag type and (when not null) the name. */
  function HeaderHash(h: Hasher, t: Tag): bv32 {
    TypeAndNameHash(h, TypeOf(t), t.name)
  }

  function TypeAndNameHash(h: Hasher, tt: TagType, name: Name): bv32 {
    var start := TagTypeCode(tt) * 23;
    if name.Some? then start ^ h.stringHash(name.value) else start
  }

  /** `GetHashCode` of a non-null tag. */
  function HashOf(h: Hasher, t: Tag): Result<bv32, ComparerError> {
    var hash := HeaderHash(h, t);
    match t
    case ByteArrayTag(_, a) => Ok(Mix(hash, CountHash(|a|)))
    case IntArrayTag(_, a) => Ok(Mix(hash, CountHash(|a|)))
    case LongArrayTag(_, a) => Ok(Mix(hash, CountHash(|a|)))
    case ListTag(_, lt, items) => Ok(Mix(Mix(hash, TagTypeCode(lt)), CountHash(|items|)))
    case CompoundTag(_, cs) => Ok(Mix(hash, CountHash(|cs|)))
    case _ =>
      var raw := GetRawValue(t);
      if raw.Some? then Ok(Mix(hash, h.rawHash(raw.value)))
      else Err(CannotHash(TypeOf(t)))
  }

  /** `GetHashCode(tag)`: a null tag throws `ArgumentNullException("tag")`. */
  function GetHashCode(h: Hasher, tag: Option<Tag>): (r: Result<bv32, ComparerError>)
    ensures tag.None? ==> r == Err(ArgumentNull("tag"))
    ensures tag.Some? ==> (r.Err? <==> tag.value.EndTag?)
  {
    if tag.None? then Err(ArgumentNull("tag")) else HashOf(h, tag.value)
  }

  // ---------------------------------------------------------------------------
  // Properties

  /** What two tags the comparer calls equal agree on: exactly what the hash reads. */
  predicate ShallowAgree(x: Tag, y: Tag) {
    && TypeOf(x) == TypeOf(y)
    && x.name == y.name
    && match x
       case ByteArrayTag(_, a) => |a| == |y.bytes|
       case IntArrayTag(_, a) => |a| == |y.ints|
       case LongArrayTag(_, a) => |a| == |y.longs|
       case ListTag(_, lt, items) => lt == y.listType && |items| == |y.items|
       case CompoundTag(_, cs) => |cs| == |y.children|
       case EndTag(_) => false
       case _ => GetRawValue(x) == GetRawValue(y)
  }

  lemma EqualTagsAgreeShallowly(x: Tag, y: Tag)
    requires TagEquals(x, y) == Ok(true)
    ensures ShallowAgree(x, y)
  {
  }

  lemma HeaderDependsOnTypeAndName(h: Hasher, x: Tag, y: Tag)
    requires TypeOf(x) == TypeOf(y) && x.name == y.name
    ensures HeaderHash(h, x) == HeaderHash(h, y)
  {
  }

  /** Tags that agree on what the hash reads hash alike. */
  lemma ShallowAgreementFixesHash(h: Hasher, x: Tag, y: Tag)
    requires ShallowAgree(x, y)
    ensures HashOf(h, x).Ok? && HashOf(h, x) == HashOf(h, y)
  {
    HeaderDependsOnTypeAndName(h, x, y);
    if x.ByteArrayTag? {
      assert y.ByteArrayTag?;
    } else if x.IntArrayTag? {
      assert y.IntArrayTag?;
    } else if x.LongArrayTag? {
      assert y.LongArrayTag?;
    } else if x.ListTag? {
      assert y.ListTag?;
    } else if x.CompoundTag? {
      assert y.CompoundTag?;
    } else {
      assert GetRawValue(x).Some? && GetRawValue(x) == GetRawValue(y);
    }
  }

  /** Tags that do not agree on what the hash reads compare unequal. */
  lemma DisagreementMeansUnequal(x: Tag, y: Tag)
    requires !x.EndTag? && !ShallowAgree(x, y)
    ensures TagEquals(x, y) == Ok(false)
  {
    if TypeOf(x) == TypeOf(y) && x.name == y.name {
      if x.ByteArrayTag? {
        assert x.bytes != y.bytes;
      } else if x.IntArrayTag? {
        assert x.ints != y.ints;
      } else if x.LongArrayTag? {
        assert x.longs != y.longs;
      } else if x.ListTag? {
        assert x.listType != y.listType || |x.items| != |y.items|;
      } else if x.CompoundTag? {
        assert |x.children| != |y.children|;
      } else {
        assert GetRawValue(x).Some? && GetRawValue(x) != GetRawValue(y);
      }
    }
  }

  /** Equal tags have equal hashes, for every choice of string and scalar hashes. */
  lemma HashConsistentWithEquals(h: Hasher, x: Tag, y: Tag)
    requires TagEquals(x, y) == Ok(true)
    ensures HashOf(h, x).Ok? && HashOf(h, x) == HashOf(h, y)
  {
    EqualTagsAgreeShallowly(x, y);
    ShallowAgreementFixesHash(h, x, y);
  }

  /** The same for `Equals`/`GetHashCode` on possibly-null arguments. */
  lemma EqualsImpliesEqualHashCodes(h: Hasher, x: Option<Tag>, y: Option<Tag>, sameObject: bool)
    requires sameObject ==> x == y
    requires x.Some? && y.Some? && !x.value.EndTag?
    requires Equals(x, y, sameObject) == Ok(true)
    ensures GetHashCode(h, x).Ok? && GetHashCode(h, x) == GetHashCode(h, y)
  {
    if !sameObject {
      HashConsistentWithEquals(h, x.value, y.value);
    }
  }

  /**
   * Two non-End tags whose hashes differ compare unequal without reaching any
   * child, so skipping hash-mismatched set candidates loses nothing.
   */
  lemma HashMismatchMeansUnequal(h: Hasher, x: Tag, y: Tag)
    requires HashOf(h, x).Ok? && HashOf(h, y).Ok?
    ensures HashOf(h, x) != HashOf(h, y) ==> TagEquals(x, y) == Ok(false)
  {
    if ShallowAgree(x, y) {
      ShallowAgreementFixesHash(h, x, y);
    } else {
      DisagreementMeansUnequal(x, y);
    }
  }

  /** End tags are rejected by both `Equals` and `GetHashCode`. */
  lemma EndTagsRejected(h: Hasher, n1: Name, n2: Name)
    ensures Equals(Some(EndTag(n1)), Some(EndTag(n2)), false) ==
              (if n1 == n2 then Err(CannotCompare(End)) else Ok(false))
    ensures GetHashCode(h, Some(EndTag(n1))) == Err(CannotHash(End))
  {
    if n1 == n2 {
      assert DeepEquals(EndTag(n1), EndTag(n2)) == Err(CannotCompare(End));
    }
  }

  /** Scalar and string tags are equal iff their names and raw values are. */
  lemma ScalarEquality(x: Tag, y: Tag)
    requires IsScalarType(TypeOf(x))
    ensures TagEquals(x, y) == Ok(TypeOf(x) == TypeOf(y) && x.name == y.name && GetRawValue(x) == GetRawValue(y))
  {
  }

  /** Array tags are equal iff same type and name, and same length with equal elements at every index. */
  lemma ArrayEquality(x: Tag, y: Tag)
    requires x.ByteArrayTag? || x.IntArrayTag? || x.LongArrayTag?
    ensures TagEquals(x, y) == Ok(
      TypeOf(x) == TypeOf(y) && x.name == y.name &&
      match x
      case ByteArrayTag(_, a) => |a| == |y.bytes| && forall i :: 0 <= i < |a| ==> a[i] == y.bytes[i]
      case IntArrayTag(_, a) => |a| == |y.ints| && forall i :: 0 <= i < |a| ==> a[i] == y.ints[i]
      case LongArrayTag(_, a) => |a| == |y.longs| && forall i :: 0 <= i < |a| ==> a[i] == y.longs[i])
  {
    match x
    case ByteArrayTag(_, a) =>
      if TypeOf(x) == TypeOf(y) && (|a| == |y.bytes| && forall i :: 0 <= i < |a| ==> a[i] == y.bytes[i]) {
        assert a == y.bytes;
      }
    case IntArrayTag(_, a) =>
      if TypeOf(x) == TypeOf(y) && (|a| == |y.ints| && forall i :: 0 <= i < |a| ==> a[i] == y.ints[i]) {
        assert a == y.ints;
      }
    case LongArrayTag(_, a) =>
      if TypeOf(x) == TypeOf(y) && (|a| == |y.longs| && forall i :: 0 <= i < |a| ==> a[i] == y.longs[i]) {
        assert a == y.longs;
      }
  }

  /** The list loop succeeds iff every pair at the same index is equal. */
  lemma {:induction false} ListItemsEqualIff(xs: seq<Tag>, ys: seq<Tag>)
    requires |xs| == |ys|
    ensures ListItemsEqual(xs, ys) == Ok(true) <==>
              forall i :: 0 <= i < |xs| ==> TagEquals(xs[i], ys[i]) == Ok(true)
  {
    if xs != [] {
      ListItemsEqualIff(xs[1..], ys[1..]);
      assert forall i :: 1 <= i < |xs| ==> xs[i] == xs[1..][i - 1] && ys[i] == ys[1..][i - 1];
    }
  }

  /** List tags are equal iff same name, same element type, same count and pairwise equal by index. */
  lemma ListEquality(n1: Name, t1: TagType, xs: seq<Tag>, n2: Name, t2: TagType, ys: seq<Tag>)
    ensures TagEquals(ListTag(n1, t1, xs), ListTag(n2, t2, ys)) == Ok(true) <==>
              && n1 == n2 && t1 == t2 && |xs| == |ys|
              && forall i :: 0 <= i < |xs| ==> TagEquals(xs[i], ys[i]) == Ok(true)
  {
    if n1 == n2 && t1 == t2 && |xs| == |ys| {
      ListItemsEqualIff(xs, ys);
    }
  }

  /** Reordering a list breaks equality: [1, 2, 3] differs from [3, 2, 1]. */
  lemma ListOrderMatters()
    ensures TagEquals(ListTag(Some("l"), Int, [IntTag(None, 1), IntTag(None, 2), IntTag(None, 3)]),
                      ListTag(Some("l"), Int, [IntTag(None, 3), IntTag(None, 2), IntTag(None, 1)])) == Ok(false)
  {
    var xs := [IntTag(None, 1), IntTag(None, 2), IntTag(None, 3)];
    var ys := [IntTag(None, 3), IntTag(None, 2), IntTag(None, 1)];
    assert TagEquals(xs[0], ys[0]) == Ok(false);
  }

  /** `Equals(t, t)` on two distinct but identical trees holds, for well-formed End-free trees. */
  lemma {:induction false} EqualsReflexive(t: Tag)
    requires WellFormed(t) && EndFree(t)
    ensures TagEquals(t, t) == Ok(true)
    decreases Size(t), 0, 0
  {
    match t
    case ListTag(_, _, items) =>
      ListItemsReflexive(items);
    case CompoundTag(_, cs) =>
      assert FindEnd(cs).None? by {
        forall j | 0 <= j < |cs| ensures !cs[j].EndTag? {
          AllEndFreeAt(cs, j);
        }
      }
      SetContainsMembers(cs, cs);
      assert DeepEquals(t, t) == CompoundChildrenEqual(cs, cs);
    case _ =>
  }

  lemma {:induction false} ListItemsReflexive(xs: seq<Tag>)
    requires AllWellFormed(xs) && AllEndFree(xs)
    ensures ListItemsEqual(xs, xs) == Ok(true)
    decreases SizeAll(xs), 2, 0
  {
    if xs != [] {
      SizeOfMember(xs, 0);
      EqualsReflexive(xs[0]);
      ListItemsReflexive(xs[1..]);
    }
  }

  /** Looking up each child of `ys` in `xs` succeeds when every child of `ys` is a child of `xs`. */
  lemma {:induction false} SetContainsMembers(xs: seq<Tag>, ys: seq<Tag>)
    requires UniqueNames(xs) && AllWellFormed(xs) && AllEndFree(xs)
    requires forall y :: y in ys ==> y in xs
    ensures SetContainsAll(xs, ys) == Ok(true)
    decreases SizeAll(xs), 1, |ys|
  {
    if ys != [] {
      assert ys[0] in ys;
      var j :| 0 <= j < |xs| && xs[j] == ys[0];
      AllEndFreeAt(xs, j);
      AllWellFormedAt(xs, j);
      var i := FindByName(xs, ys[0].name);
      assert i == Some(j);
      SizeOfMember(xs, j);
      EqualsReflexive(xs[j]);
      forall y | y in ys[1..] ensures y in xs {
        assert y in ys;
      }
      SetContainsMembers(xs, ys[1..]);
    }
  }

  /** Some child of `xs` equals `c`: what `HashSet.Contains(c)` answers. */
  predicate Found(xs: seq<Tag>, c: Tag) {
    exists d :: d in xs && TagEquals(d, c) == Ok(true)
  }

  lemma {:induction false} SetContainsAllIff(xs: seq<Tag>, ys: seq<Tag>)
    requires UniqueNames(xs) && FindEnd(ys).None?
    ensures SetContainsAll(xs, ys) == Ok(true) <==> forall c :: c in ys ==> Found(xs, c)
  {
    if ys != [] {
      var c := ys[0];
      assert !c.EndTag?;
      assert FindEnd(ys[1..]).None? by {
        forall j | 0 <= j < |ys[1..]| ensures !ys[1..][j].EndTag? {
          assert ys[1..][j] == ys[j + 1];
        }
      }
      SetContainsAllIff(xs, ys[1..]);
      assert forall k :: k in ys <==> k == c || k in ys[1..] by {
        assert ys == [c] + ys[1..];
      }
      if Found(xs, c) {
        var d :| d in xs && TagEquals(d, c) == Ok(true);
        var k :| 0 <= k < |xs| && xs[k] == d;
        EqualTagsAgreeShallowly(d, c);
        var r := FindByName(xs, c.name);
        assert r == Some(k);
        assert SetContainsAll(xs, ys) == SetContainsAll(xs, ys[1..]);
      } else {
        match FindByName(xs, c.name)
        case None =>
        case Some(i) =>
          assert xs[i] in xs;
      }
    }
  }

  /** The first three steps of comparing two compounds. */
  lemma CompoundTagEqualsUnfold(n1: Name, xs: seq<Tag>, n2: Name, ys: seq<Tag>)
    ensures TagEquals(CompoundTag(n1, xs), CompoundTag(n2, ys)) ==
              if n1 != n2 || |xs| != |ys| then Ok(false)
              else if FindEnd(xs).Some? then Err(CannotHash(End))
              else SetContainsAll(xs, ys)
  {
    assert DeepEquals(CompoundTag(n1, xs), CompoundTag(n2, ys)) ==
             if |xs| != |ys| then Ok(false) else CompoundChildrenEqual(xs, ys);
  }

  /**
   * Compound tags (well-formed, no End child) are equal iff they have the same
   * name and count and every child of the second equals some child of the first.
   */
  lemma CompoundEquality(n1: Name, xs: seq<Tag>, n2: Name, ys: seq<Tag>)
    requires UniqueNames(xs) && FindEnd(xs).None? && FindEnd(ys).None?
    ensures TagEquals(CompoundTag(n1, xs), CompoundTag(n2, ys)) == Ok(true) <==>
              && n1 == n2 && |xs| == |ys|
              && forall c :: c in ys ==> Found(xs, c)
  {
    CompoundTagEqualsUnfold(n1, xs, n2, ys);
    SetContainsAllIff(xs, ys);
  }

  lemma SameMultisetSameMembers(xs: seq<Tag>, ys: seq<Tag>)
    requires multiset(xs) == multiset(ys)
    ensures forall y :: y in ys ==> y in xs
  {
    forall y | y in ys ensures y in xs {
      assert y in multiset(ys);
    }
  }

  /** Insertion order of a compound's children changes neither equality nor the hash. */
  lemma CompoundOrderIrrelevant(h: Hasher, n: Name, xs: seq<Tag>, ys: seq<Tag>)
    requires multiset(xs) == multiset(ys)
    requires UniqueNames(xs) && AllWellFormed(xs) && AllEndFree(xs)
    ensures TagEquals(CompoundTag(n, xs), CompoundTag(n, ys)) == Ok(true)
    ensures HashOf(h, CompoundTag(n, xs)) == HashOf(h, CompoundTag(n, ys))
  {
    assert |xs| == |ys| by {
      assert |xs| == |multiset(xs)| && |ys| == |multiset(ys)|;
    }
    assert FindEnd(xs).None? by {
      forall j | 0 <= j < |xs| ensures !xs[j].EndTag? {
        AllEndFreeAt(xs, j);
      }
    }
    SameMultisetSameMembers(xs, ys);
    SetContainsMembers(xs, ys);
    CompoundTagEqualsUnfold(n, xs, n, ys);
    HashConsistentWithEquals(h, CompoundTag(n, xs), CompoundTag(n, ys));
  }

  /** The inverse of 23 modulo 2^32: multiplying by 23 loses no information. */
  lemma TimesTwentyThreeInjective(a: bv32, b: bv32)
    requires a * 23 == b * 23
    ensures a == b
  {
    assert a * 23 * 0xe9bd_37a7 == a;
    assert b * 23 * 0xe9bd_37a7 == b;
  }

  /** One mixing step loses no information about the running hash. */
  lemma MixInjective(a: bv32, b: bv32, v: bv32)
    requires Mix(a, v) == Mix(b, v)
    ensures a == b
  {
    XorCancels(a * 23, b * 23, v);
    TimesTwentyThreeInjective(a, b);
  }

  lemma XorCancels(x: bv32, y: bv32, v: bv32)
    requires x ^ v == y ^ v
    ensures x == y
  {
  }

  /**
   * A null name and an empty name make unequal tags; their hashes differ
   * exactly when the ordinal hash of "" is not zero.
   */
  lemma NullNameIsNotEmptyName(h: Hasher, v: Int32)
    ensures TagEquals(IntTag(None, v), IntTag(Some(""), v)) == Ok(false)
    ensures HashOf(h, IntTag(None, v)) != HashOf(h, IntTag(Some(""), v)) <==> h.stringHash("") != 0
  {
    var start: bv32 := 69;
    var e := h.stringHash("");
    var raw := h.rawHash(RawInt(v));
    assert HeaderHash(h, IntTag(None, v)) == start;
    assert HeaderHash(h, IntTag(Some(""), v)) == start ^ e;
    assert HashOf(h, IntTag(None, v)) == Ok(Mix(start, raw));
    assert HashOf(h, IntTag(Some(""), v)) == Ok(Mix(start ^ e, raw));
    if Mix(start, raw) == Mix(start ^ e, raw) {
      MixInjective(start, start ^ e, raw);
    }
  }
}

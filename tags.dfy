/**
 * The NBT tag tree the serializer walks, standing for the jnbt tag classes.
 * A compound's entries are kept in the order its map iterates them; a
 * tag's own stored name is not part of the value, since the serializer
 * names each tag by the key it is stored under.
 */
module Tags {
  import opened Lang

  /** The tag classes a list can declare as its element type. */
  datatype TagKind =
    | EndKind | ByteKind | ShortKind | IntKind | LongKind | FloatKind | DoubleKind
    | ByteArrayKind | StringKind | ListKind | CompoundKind | IntArrayKind

  datatype Tag =
    | EndTag
    | ByteTag(byteValue: Int8)
    | ShortTag(shortValue: Int16)
    | IntTag(intValue: Int32)
    | LongTag(longValue: Int64)
    /** `Float.toString` of the value; floating point is not modelled. */
    | FloatTag(floatText: JString)
    /** `Double.toString` of the value. */
    | DoubleTag(doubleText: JString)
    | ByteArrayTag(bytes: seq<Int8>)
    | StringTag(stringValue: JString)
    | ListTag(elementKind: TagKind, items: seq<Tag>)
    | CompoundTag(entries: seq<(JString, Tag)>)
    | IntArrayTag(ints: seq<Int32>)

  /** The tags written between brackets, one element per line. */
  predicate IsListLike(t: Tag)
  {
    t.ListTag? || t.ByteArrayTag? || t.IntArrayTag?
  }

  /** The tags written as a header and one value. */
  predicate IsScalar(t: Tag)
  {
    !t.EndTag? && !t.CompoundTag? && !IsListLike(t)
  }

  /** The number of elements of a list-like tag. */
  function ItemCount(t: Tag): nat
    requires IsListLike(t)
  {
    match t
    case ListTag(_, items) => |items|
    case ByteArrayTag(bytes) => |bytes|
    case IntArrayTag(ints) => |ints|
  }

  /** The tag class of a tag. */
  function KindOf(t: Tag): TagKind
  {
    match t
    case EndTag => EndKind
    case ByteTag(_) => ByteKind
    case ShortTag(_) => ShortKind
    case IntTag(_) => IntKind
    case LongTag(_) => LongKind
    case FloatTag(_) => FloatKind
    case DoubleTag(_) => DoubleKind
    case ByteArrayTag(_) => ByteArrayKind
    case StringTag(_) => StringKind
    case ListTag(_, _) => ListKind
    case CompoundTag(_) => CompoundKind
    case IntArrayTag(_) => IntArrayKind
  }
}

/** Run-time type descriptions, as the debugger backend reports them on an LP64 target. */
module Types {
  import opened Bytes

  /** The debugger's basic types that the backend maps to a builtin id. */
  datatype BasicType =
    | Bool | Char | SignedChar | UnsignedChar | Short | UnsignedShort
    | Int | UnsignedInt | Long | UnsignedLong | Double | Void

  datatype BuiltinId = BoolId | CharId | ShortId | IntId | LongId | DoubleId | VoidId

  function IdOf(b: BasicType): BuiltinId {
    match b
    case Bool => BoolId
    case Char | SignedChar | UnsignedChar => CharId
    case Short | UnsignedShort => ShortId
    case Int | UnsignedInt => IntId
    case Long | UnsignedLong => LongId
    case Double => DoubleId
    case Void => VoidId
  }

  /** The backend's signedness table: only `signed char` answers yes. */
  predicate IsSigned(b: BasicType) {
    b == SignedChar
  }

  predicate IsIntegral(id: BuiltinId) {
    id in {CharId, ShortId, IntId, LongId}
  }

  function Width(id: BuiltinId): nat {
    match id
    case BoolId | CharId => 1
    case ShortId => 2
    case IntId => 4
    case LongId | DoubleId => 8
    case VoidId => 0
  }

  /** The basic type whose memory `r_mem_malloc` allocates for an id. */
  function AllocatedBasic(id: BuiltinId): BasicType {
    match id
    case BoolId => Bool
    case CharId => Char
    case ShortId => Short
    case IntId => Int
    case LongId => Long
    case DoubleId => Double
    case VoidId => Void
  }

  /** Structs and enums are named by a tag and described in a table, so types may be recursive. */
  datatype RType =
    | Builtin(basic: BasicType)
    | Struct(tag: string)
    | Enum(tag: string)
    | Union(size: nat)
    | Function
    | Pointer(pointee: RType)
    | Array(elem: RType, length: nat)
    | Typedef(name: string, canonical: RType)
    | Unknown

  datatype Member = Member(name: string, ty: RType, offset: nat)

  datatype StructDef = StructDef(size: nat, members: seq<Member>)

  datatype EnumDef = EnumDef(basic: BasicType, values: seq<Int64>)

  datatype TypeTable = TypeTable(structs: map<string, StructDef>, enums: map<string, EnumDef>)

  const POINTER_SIZE: nat := 8

  /** `r_type_size`. */
  function Size(t: TypeTable, ty: RType): nat {
    match ty
    case Builtin(b) => Width(IdOf(b))
    case Struct(tag) => if tag in t.structs then t.structs[tag].size else 0
    case Enum(tag) => if tag in t.enums then Width(IdOf(t.enums[tag].basic)) else 0
    case Union(size) => size
    case Pointer(_) => POINTER_SIZE
    case Array(elem, length) => length * Size(t, elem)
    case Typedef(_, canonical) => Size(t, canonical)
    case Function | Unknown => 0
  }

  /** A part of a struct or array: a type at an offset. */
  datatype Slot = Slot(ty: RType, offset: nat)

  /** Types that are walked part by part. */
  predicate IsCompound(t: TypeTable, ty: RType) {
    ty.Array? || (ty.Struct? && ty.tag in t.structs)
  }

  /** The members of a struct, or the elements of an array as `getMembers` lists them. */
  function Parts(t: TypeTable, ty: RType): (slots: seq<Slot>)
    requires IsCompound(t, ty)
    ensures ty.Struct? ==> |slots| == |t.structs[ty.tag].members|
    ensures ty.Array? ==> |slots| == ty.length
  {
    if ty.Array? then
      seq(ty.length, i requires 0 <= i < ty.length => Slot(ty.elem, i * Size(t, ty.elem)))
    else
      var ms := t.structs[ty.tag].members;
      seq(|ms|, i requires 0 <= i < |ms| => Slot(ms[i].ty, ms[i].offset))
  }

  /** Every part lies inside the object and no two parts overlap. */
  predicate WellPlaced(t: TypeTable, slots: seq<Slot>, size: nat) {
    && (forall i | 0 <= i < |slots| :: slots[i].offset + Size(t, slots[i].ty) <= size)
    && (forall i, j | 0 <= i < j < |slots| ::
          || slots[i].offset + Size(t, slots[i].ty) <= slots[j].offset
          || slots[j].offset + Size(t, slots[j].ty) <= slots[i].offset)
  }

  predicate DistinctNames(ms: seq<Member>) {
    forall i, j | 0 <= i < j < |ms| :: ms[i].name != ms[j].name
  }

  /** A table a C compiler produces: no bitfields, no duplicate member names, integer enums. */
  predicate WellLaid(t: TypeTable) {
    && (forall tag | tag in t.structs ::
          && WellPlaced(t, Parts(t, Struct(tag)), t.structs[tag].size)
          && DistinctNames(t.structs[tag].members))
    && (forall tag | tag in t.enums :: IsIntegral(IdOf(t.enums[tag].basic)))
  }

  /** Array elements tile the array: each starts where the previous one ends. */
  lemma ArrayTiles(t: TypeTable, elem: RType, length: nat)
    ensures var slots := Parts(t, Array(elem, length));
            && WellPlaced(t, slots, Size(t, Array(elem, length)))
            && (length > 0 ==> slots[0].offset == 0)
            && (forall i | 0 <= i < length ::
                  slots[i].offset + Size(t, elem)
                  == if i + 1 < length then slots[i + 1].offset else Size(t, Array(elem, length)))
  {
    var size := Size(t, elem);
    var slots := Parts(t, Array(elem, length));
    forall i | 0 <= i < length
      ensures slots[i].offset + size <= length * size
      ensures slots[i].offset + size == (i + 1) * size
    {
      ProductStep(i, length, size);
    }
    forall i, j | 0 <= i < j < length
      ensures slots[i].offset + size <= slots[j].offset
    {
      ProductStep(i, j, size);
    }
  }

  lemma ProductStep(i: nat, j: nat, size: nat)
    requires i < j
    ensures i * size + size == (i + 1) * size <= j * size
  {
    assert (j - i - 1) * size >= 0;
  }

  /** Parts of any compound type are well placed. */
  lemma PartsWellPlaced(t: TypeTable, ty: RType)
    requires WellLaid(t) && IsCompound(t, ty)
    ensures WellPlaced(t, Parts(t, ty), Size(t, ty))
  {
    if ty.Array? {
      ArrayTiles(t, ty.elem, ty.length);
    }
  }

  /** `getMembers` on an array: a running offset instead of a product. */
  method ArrayMembers(t: TypeTable, elem: RType, length: nat) returns (members: seq<Slot>)
    ensures members == Parts(t, Array(elem, length))
  {
    members := [];
    var offset := 0;
    for index := 0 to length
      invariant offset == index * Size(t, elem)
      invariant members == Parts(t, Array(elem, length))[..index]
    {
      members := members + [Slot(elem, offset)];
      offset := offset + Size(t, elem);
    }
  }

  /** The sizes of an LP64 target, and the only type the backend calls signed. */
  lemma TargetTables(t: TypeTable, b: BasicType, pointee: RType)
    ensures Size(t, Builtin(Bool)) == 1 && Size(t, Builtin(Void)) == 0 && Size(t, Pointer(pointee)) == 8
    ensures b in {Char, SignedChar, UnsignedChar} ==> Size(t, Builtin(b)) == 1
    ensures b in {Short, UnsignedShort} ==> Size(t, Builtin(b)) == 2
    ensures b in {Int, UnsignedInt} ==> Size(t, Builtin(b)) == 4
    ensures b in {Long, UnsignedLong, Double} ==> Size(t, Builtin(b)) == 8
    ensures forall name :: Size(t, Typedef(name, Builtin(b))) == Size(t, Builtin(b))
    ensures forall size :: Size(t, Union(size)) == size
    ensures forall tag | tag in t.structs :: Size(t, Struct(tag)) == t.structs[tag].size
    ensures forall tag | tag in t.enums :: Size(t, Enum(tag)) == Size(t, Builtin(t.enums[tag].basic))
    ensures IsSigned(b) <==> b == SignedChar
  {
  }
}

/** The two walks at the level of single bytes: what bytes print as, and what bytes a tree becomes. */
module Images {
  import opened Bytes
  import opened Types
  import opened Values
  import opened JsonTree
  import opened Codec
  import opened Serializer
  import opened Deserializer
  import opened DeserializerLaws
  import opened Memory
  import opened Placement
  import opened Print

  function BytesAt(m: Mem, l: Loc, w: nat): (bs: seq<byte>)
    requires InBounds(m, l, w)
    ensures |bs| == w
  {
    BytesOf(Range(m, l, w))
  }

  lemma ImageBytes(n: int, w: nat)
    ensures BytesOf(IntCells(n, w)) == Encode(n, w)
  {
  }

  lemma Regrouped(low: int, p: int, high: int)
    ensures 256 * (low + p * high) == 256 * low + 256 * p * high
  {
  }

  lemma {:induction false} DecodeAppend(a: seq<byte>, b: seq<byte>)
    ensures DecodeUnsigned(a + b) == DecodeUnsigned(a) + Pow256(|a|) * DecodeUnsigned(b)
  {
    if |a| == 0 {
      assert a + b == b;
    } else {
      assert (a + b)[1..] == a[1..] + b;
      DecodeAppend(a[1..], b);
      Regrouped(DecodeUnsigned(a[1..]), Pow256(|a| - 1), DecodeUnsigned(b));
    }
  }

  /** The exponent lies in the low seven bits of the last byte and the high four of the one before. */
  lemma ExponentBytes(bs: seq<byte>)
    requires |bs| == 8
    ensures DecodeUnsigned(bs) < 0x1_0000_0000_0000_0000
    ensures IsFinite(DecodeUnsigned(bs)) <==> !(bs[7] % 0x80 == 0x7F && bs[6] / 0x10 == 0xF)
  {
    DecodeBound(bs);
    Pow256Of8();
    var low, high := DecodeUnsigned(bs[..6]), bs[6..];
    assert bs == bs[..6] + high;
    DecodeAppend(bs[..6], high);
    DecodeBound(bs[..6]);
    assert Pow256(6) == 0x1_0000_0000_0000;
    var b6: int, b7: int := bs[6], bs[7];
    assert high[1..] == [bs[7]] && DecodeUnsigned(high) == b6 + 256 * b7;
    var sign, exponent, fraction := b7 / 0x80, b7 % 0x80 * 0x10 + b6 / 0x10, b6 % 0x10 * 0x1_0000_0000_0000 + low;
    assert DecodeUnsigned(bs) == Pattern(sign, exponent, fraction);
    FiniteExactly(sign, exponent, fraction);
  }

  /**
   * A builtin prints as its bytes say: an integer as their two's complement, a bool as whether
   * its byte is one, a double as their pattern, unless it is an infinity or not a number.
   */
  lemma BytesPrint(c: Context, m: Mem, basic: BasicType, l: Loc, v: Value)
    requires Unhooked(c) && Holds(m, c.table, Builtin(basic), l, v)
    ensures var bs, r := BytesAt(m, l, Width(IdOf(basic))), Serialize(c, Builtin(basic), v, true);
            match IdOf(basic)
            case BoolId => (bs == [0] && r == Emitted(Boolean(false))) || (bs == [1] && r == Emitted(Boolean(true)))
            case DoubleId =>
              if bs[7] % 0x80 == 0x7F && bs[6] / 0x10 == 0xF then r == Nothing
              else DecodeUnsigned(bs) < 0x1_0000_0000_0000_0000 && r == Emitted(Real(DecodeUnsigned(bs)))
            case VoidId => r == if c.skipUnknown then Nothing else Aborted
            case _ =>
              && -0x8000_0000_0000_0000 <= DecodeSigned(bs) < 0x8000_0000_0000_0000
              && r == Emitted(Integer(DecodeSigned(bs)))
  {
    var bs := BytesAt(m, l, Width(IdOf(basic)));
    assert Serialize(c, Builtin(basic), v, true) == SerializeBuiltin(c, IdOf(basic), v);
    match IdOf(basic)
    case BoolId =>
      ImageBytes(if v.b then 1 else 0, 1);
      OneByte(if v.b then 1 else 0);
    case DoubleId =>
      ImageBytes(v.bits, 8);
      ExponentBytes(bs);
      LoadUnsigned(v.bits, 8);
      Pow256Of8();
    case VoidId =>
    case id =>
      LoadInt(v.n, Width(id));
      NarrowIsInt64(v.n, Width(id));
  }

  lemma OneByte(n: byte)
    ensures Encode(n, 1) == [n]
  {
    assert Encode(n / 256, 0) == [];
  }

  /** The type recorded in the block of a builtin: the plain type of its width. */
  function RecordedType(basic: BasicType): BasicType {
    match basic
    case SignedChar | UnsignedChar => Char
    case UnsignedShort => Short
    case UnsignedInt => Int
    case UnsignedLong => Long
    case _ => basic
  }

  /** The bytes of a builtin that was built are those of the tree's number, or zero; a bool is one or zero. */
  lemma BytesBuilt(c: Context, before: Mem, after: Mem, basic: BasicType, j: Option<Json>, open: set<string>, b: nat)
    requires Unhooked(c) && Deserialize(c, Builtin(basic), j, open, true).Built?
    requires FreshTree(c.table, before, after, Builtin(basic), b, Deserialize(c, Builtin(basic), j, open, true).value)
    ensures after[b].ty == Builtin(RecordedType(basic))
    ensures var bs := BytesAt(after, Loc(b, 0), Width(IdOf(basic)));
            match IdOf(basic)
            case BoolId => bs == [if j == Some(Boolean(true)) then 1 else 0]
            case DoubleId => bs == Encode(if j.Some? && j.value.Real? then j.value.bits else 0, 8)
            case _ => bs == Encode(if j.Some? && j.value.Integer? then j.value.n else 0, Width(IdOf(basic)))
  {
    var v := Deserialize(c, Builtin(basic), j, open, true).value;
    assert DeserializeBuiltin(IdOf(basic), j) == Built(v);
    ImageBuilt(Range(after, Loc(b, 0), Width(IdOf(basic))), IdOf(basic), j, v);
  }

  /** The cells of a builtin as it is read from a tree. */
  lemma ImageBuilt(cells: seq<Cell>, id: BuiltinId, j: Option<Json>, v: Value)
    requires DeserializeBuiltin(id, j) == Built(v) && |cells| == Width(id) && HoldsBuiltin(cells, id, v)
    ensures match id
            case BoolId => BytesOf(cells) == [if j == Some(Boolean(true)) then 1 else 0]
            case DoubleId => BytesOf(cells) == Encode(if j.Some? && j.value.Real? then j.value.bits else 0, 8)
            case _ => BytesOf(cells) == Encode(if j.Some? && j.value.Integer? then j.value.n else 0, Width(id))
  {
    match id
    case BoolId =>
      ImageBytes(if v.b then 1 else 0, 1);
      OneByte(if v.b then 1 else 0);
    case DoubleId => ImageBytes(v.bits, 8);
    case VoidId =>
    case _ =>
      ImageBytes(v.n, Width(id));
      EncodeWrap(IntegerValue(j), Width(id));
  }

  /** The same for an enum, whose value need not be an enumerator. */
  lemma EnumBytesBuilt(c: Context, before: Mem, after: Mem, tag: string, n: Int64, open: set<string>, b: nat)
    requires Unhooked(c) && tag in c.table.enums
    requires var d := Deserialize(c, Enum(tag), Some(Integer(n)), open, true);
             d.Built? && FreshTree(c.table, before, after, Enum(tag), b, d.value)
    ensures after[b].ty == Enum(tag)
    ensures BytesAt(after, Loc(b, 0), Size(c.table, Enum(tag))) == Encode(n, Size(c.table, Enum(tag)))
  {
    var w := Size(c.table, Enum(tag));
    ImageBytes(Deserialize(c, Enum(tag), Some(Integer(n)), open, true).value.n, w);
    EncodeWrap(n, w);
  }

  /** A pointer in memory is null exactly if its eight bytes are zero. */
  lemma NullBytes(m: Mem, t: TypeTable, pointee: RType, l: Loc, v: Value)
    requires Holds(m, t, Pointer(pointee), l, v)
    ensures v.VNull? <==> Range(m, l, POINTER_SIZE) == seq(8, _ => Plain(0))
  {
    ZeroImage(8);
    assert IntCells(0, 8) == seq(8, _ => Plain(0));
  }

  lemma {:induction false} ZeroImage(w: nat)
    ensures Encode(0, w) == seq(w, _ => 0)
  {
    if w > 0 {
      ZeroImage(w - 1);
      assert Encode(0, w) == [0] + Encode(0, w - 1);
    }
  }
}

/** Deep C values: what a typed location holds once every pointer is followed. */
module Values {
  import opened Bytes
  import opened Types

  /** One byte of memory. A stored pointer occupies eight `Frag` cells. */
  datatype Cell =
    | Undef
    | Plain(val: byte)
    | Frag(block: nat, offset: nat, index: nat)

  /**
   * A value is a finite tree, so a value exists only for memory that is acyclic from its root.
   * `VInt` serves integers and enums; `VParts` serves structs and arrays. `VUser` is a value
   * that only a hook understands.
   */
  datatype Value =
    | VInt(n: int)
    | VReal(bits: Bits64)
    | VBool(b: bool)
    | VNull
    | VPtr(target: Value)
    | VParts(parts: seq<Value>)
    | VOpaque(raw: seq<Cell>)
    | VUser(token: int)

  /** IEEE 754 binary64: infinities and NaNs have an all-ones exponent field. */
  predicate IsFinite(bits: Bits64) {
    (bits / 0x10_0000_0000_0000) % 0x800 != 0x7FF
  }

  predicate WellTyped(t: TypeTable, ty: RType, v: Value)
    decreases v, ty
  {
    match ty
    case Builtin(b) =>
      (match IdOf(b)
       case BoolId => v.VBool?
       case DoubleId => v.VReal?
       case VoidId => v.VOpaque?
       case id => v.VInt? && InSignedRange(v.n, Width(id)))
    case Enum(tag) =>
      tag in t.enums && v.VInt? && InSignedRange(v.n, Width(IdOf(t.enums[tag].basic)))
    case Pointer(pointee) => v.VNull? || (v.VPtr? && WellTyped(t, pointee, v.target))
    case Typedef(_, canonical) => WellTyped(t, canonical, v)
    case Union(_) | Function | Unknown => v.VOpaque?
    case Struct(_) | Array(_, _) =>
      && IsCompound(t, ty) && v.VParts? && |v.parts| == |Parts(t, ty)|
      && forall i | 0 <= i < |v.parts| :: WellTyped(t, Parts(t, ty)[i].ty, v.parts[i])
  }

  /** Whether `p` holds at every node the codec visits; types in `stop` are not entered. */
  ghost predicate All(t: TypeTable, ty: RType, v: Value, stop: RType -> bool, p: (RType, Value) -> bool)
    decreases v, ty
  {
    && p(ty, v)
    && (stop(ty) ||
        match ty
        case Pointer(pointee) => v.VPtr? ==> All(t, pointee, v.target, stop, p)
        case Typedef(_, canonical) => All(t, canonical, v, stop, p)
        case Struct(_) | Array(_, _) =>
          IsCompound(t, ty) && v.VParts? && |v.parts| == |Parts(t, ty)| ==>
            forall i | 0 <= i < |v.parts| :: All(t, Parts(t, ty)[i].ty, v.parts[i], stop, p)
        case _ => true)
  }

  /** The number of non-null pointers in a value. */
  function PointerCount(v: Value): nat {
    match v
    case VPtr(target) => 1 + PointerCount(target)
    case VParts(parts) => PointerCountOf(parts, |parts|)
    case _ => 0
  }

  function PointerCountOf(parts: seq<Value>, n: nat): nat
    requires n <= |parts|
    decreases parts, n
  {
    if n == 0 then 0 else PointerCountOf(parts, n - 1) + PointerCount(parts[n - 1])
  }

  /** The integers a variable of each builtin type can hold as the codec loads it: LP64, all signed. */
  lemma IntegerRanges(t: TypeTable, b: BasicType, n: int)
    requires IsIntegral(IdOf(b))
    ensures WellTyped(t, Builtin(b), VInt(n)) <==>
            if b in {Char, SignedChar, UnsignedChar} then -0x80 <= n < 0x80
            else if b in {Short, UnsignedShort} then -0x8000 <= n < 0x8000
            else if b in {Int, UnsignedInt} then -0x8000_0000 <= n < 0x8000_0000
            else -0x8000_0000_0000_0000 <= n < 0x8000_0000_0000_0000
  {
    assert Pow256(1) == 0x100 && Pow256(2) == 0x1_0000;
    assert Pow256(4) == 0x1_0000_0000;
    Pow256Of8();
  }

  /** A pattern by its fields: sign, exponent, fraction. */
  function Pattern(sign: nat, exponent: nat, fraction: nat): Bits64
    requires sign < 2 && exponent < 0x800 && fraction < 0x10_0000_0000_0000
  {
    sign * 0x8000_0000_0000_0000 + exponent * 0x10_0000_0000_0000 + fraction
  }

  /** Every pattern has such fields, and is finite exactly if its exponent is not all ones. */
  lemma FiniteByFields(bits: Bits64) returns (sign: nat, exponent: nat, fraction: nat)
    ensures sign < 2 && exponent < 0x800 && fraction < 0x10_0000_0000_0000
    ensures bits == Pattern(sign, exponent, fraction)
    ensures IsFinite(bits) <==> exponent != 0x7FF
  {
    fraction := bits % 0x10_0000_0000_0000;
    exponent := bits / 0x10_0000_0000_0000 % 0x800;
    sign := bits / 0x8000_0000_0000_0000;
  }

  /** The fields of a pattern are its own: the exponent alone decides. */
  lemma FiniteExactly(sign: nat, exponent: nat, fraction: nat)
    requires sign < 2 && exponent < 0x800 && fraction < 0x10_0000_0000_0000
    ensures IsFinite(Pattern(sign, exponent, fraction)) <==> exponent != 0x7FF
  {
    var bits := Pattern(sign, exponent, fraction);
    DivModUnique(bits, 0x10_0000_0000_0000, sign * 0x800 + exponent, fraction);
    DivModUnique(sign * 0x800 + exponent, 0x800, sign, exponent);
  }
}

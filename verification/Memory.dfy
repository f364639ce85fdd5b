/** Typed memory: blocks of cells, and when a location holds a value. */
module Memory {
  import opened Bytes
  import opened Types
  import opened Values

  /** What `RMemory` records of a block. Stack and static objects are blocks too. */
  datatype Block = Block(ty: RType, refcount: nat, cells: seq<Cell>)

  type Mem = map<nat, Block>

  datatype Loc = Loc(block: nat, offset: nat)

  function Shift(l: Loc, delta: nat): Loc {
    Loc(l.block, l.offset + delta)
  }

  predicate InBounds(m: Mem, l: Loc, n: nat) {
    n == 0 || (l.block in m && l.offset + n <= |m[l.block].cells|)
  }

  function Range(m: Mem, l: Loc, n: nat): (cells: seq<Cell>)
    requires InBounds(m, l, n)
    ensures |cells| == n
  {
    if n == 0 then [] else m[l.block].cells[l.offset..l.offset + n]
  }

  function IntCells(n: int, w: nat): (cells: seq<Cell>)
    ensures |cells| == w
  {
    seq(w, i requires 0 <= i < w => Plain(Encode(n, w)[i]))
  }

  function PointerCells(l: Loc): (cells: seq<Cell>)
    ensures |cells| == POINTER_SIZE
  {
    seq(POINTER_SIZE, i requires 0 <= i < POINTER_SIZE => Frag(l.block, l.offset, i))
  }

  predicate IsPointer(cells: seq<Cell>) {
    |cells| == POINTER_SIZE && cells[0].Frag? && cells == PointerCells(Loc(cells[0].block, cells[0].offset))
  }

  function Target(cells: seq<Cell>): Loc
    requires IsPointer(cells)
  {
    Loc(cells[0].block, cells[0].offset)
  }

  predicate HoldsBuiltin(cells: seq<Cell>, id: BuiltinId, v: Value)
    requires |cells| == Width(id)
  {
    match id
    case BoolId => v.VBool? && cells == IntCells(if v.b then 1 else 0, 1)
    case DoubleId => v.VReal? && cells == IntCells(v.bits, 8)
    case VoidId => v == VOpaque([])
    case _ => v.VInt? && InSignedRange(v.n, Width(id)) && cells == IntCells(v.n, Width(id))
  }

  /** The location holds `v` as a value of type `ty`, pointers followed to the end. */
  predicate Holds(m: Mem, t: TypeTable, ty: RType, l: Loc, v: Value)
    decreases v, ty
  {
    && InBounds(m, l, Size(t, ty))
    && match ty
       case Builtin(b) => HoldsBuiltin(Range(m, l, Size(t, ty)), IdOf(b), v)
       case Enum(tag) =>
         && tag in t.enums
         && v.VInt? && InSignedRange(v.n, Size(t, ty)) && Range(m, l, Size(t, ty)) == IntCells(v.n, Size(t, ty))
       case Pointer(pointee) =>
         var cells := Range(m, l, POINTER_SIZE);
         if v.VNull? then cells == IntCells(0, POINTER_SIZE)
         else v.VPtr? && IsPointer(cells) && Holds(m, t, pointee, Target(cells), v.target)
       case Typedef(_, canonical) => Holds(m, t, canonical, l, v)
       case Union(_) | Function | Unknown => v == VOpaque(Range(m, l, Size(t, ty)))
       case Struct(_) | Array(_, _) =>
         && IsCompound(t, ty) && v.VParts? && |v.parts| == |Parts(t, ty)|
         && forall i | 0 <= i < |v.parts| ::
              Holds(m, t, Parts(t, ty)[i].ty, Shift(l, Parts(t, ty)[i].offset), v.parts[i])
  }

  /** The first `n` parts are in their slots. */
  predicate HoldsParts(m: Mem, t: TypeTable, slots: seq<Slot>, l: Loc, parts: seq<Value>, n: nat) {
    && n <= |slots| && n <= |parts|
    && forall i | 0 <= i < n :: Holds(m, t, slots[i].ty, Shift(l, slots[i].offset), parts[i])
  }

  /** The blocks the pointers of a held value point into, one entry for each pointer. */
  ghost function Reach(m: Mem, t: TypeTable, ty: RType, l: Loc, v: Value): multiset<nat>
    requires Holds(m, t, ty, l, v)
    decreases v, ty
  {
    match ty
    case Pointer(pointee) =>
      if v.VNull? then multiset{}
      else
        var target := Target(Range(m, l, POINTER_SIZE));
        multiset{target.block} + Reach(m, t, pointee, target, v.target)
    case Typedef(_, canonical) => Reach(m, t, canonical, l, v)
    case Struct(_) | Array(_, _) => ReachParts(m, t, Parts(t, ty), l, v.parts, |v.parts|)
    case _ => multiset{}
  }

  ghost function ReachParts(m: Mem, t: TypeTable, slots: seq<Slot>, l: Loc, parts: seq<Value>, n: nat): multiset<nat>
    requires HoldsParts(m, t, slots, l, parts, n)
    decreases parts, n
  {
    if n == 0 then multiset{}
    else
      ReachParts(m, t, slots, l, parts, n - 1)
      + Reach(m, t, slots[n - 1].ty, Shift(l, slots[n - 1].offset), parts[n - 1])
  }

  lemma {:induction false} HeldIsWellTyped(m: Mem, t: TypeTable, ty: RType, l: Loc, v: Value)
    requires Holds(m, t, ty, l, v)
    ensures WellTyped(t, ty, v)
    decreases v, ty
  {
    match ty
    case Pointer(pointee) =>
      if v.VPtr? {
        HeldIsWellTyped(m, t, pointee, Target(Range(m, l, POINTER_SIZE)), v.target);
      }
    case Typedef(_, canonical) => HeldIsWellTyped(m, t, canonical, l, v);
    case Struct(_) | Array(_, _) =>
      forall i | 0 <= i < |v.parts|
        ensures WellTyped(t, Parts(t, ty)[i].ty, v.parts[i])
      {
        HeldIsWellTyped(m, t, Parts(t, ty)[i].ty, Shift(l, Parts(t, ty)[i].offset), v.parts[i]);
      }
    case _ =>
  }

  lemma SameEncoding(a: int, b: int, w: nat)
    requires IntCells(a, w) == IntCells(b, w)
    ensures Encode(a, w) == Encode(b, w)
  {
    forall i | 0 <= i < w
      ensures Encode(a, w)[i] == Encode(b, w)[i]
    {
      assert IntCells(a, w)[i] == IntCells(b, w)[i];
    }
  }

  lemma IntCellsInjective(a: int, b: int, w: nat)
    requires IntCells(a, w) == IntCells(b, w) && InSignedRange(a, w) && InSignedRange(b, w)
    ensures a == b
  {
    SameEncoding(a, b, w);
    LoadStored(a, w);
    LoadStored(b, w);
    WrapInRange(a, w);
    WrapInRange(b, w);
  }

  lemma UnsignedCellsInjective(a: nat, b: nat, w: nat)
    requires IntCells(a, w) == IntCells(b, w) && a < Pow256(w) && b < Pow256(w)
    ensures a == b
  {
    SameEncoding(a, b, w);
    DecodeEncode(a, w);
    DecodeEncode(b, w);
    DivModUnique(a, Pow256(w), 0, a);
    DivModUnique(b, Pow256(w), 0, b);
  }

  /** A location holds at most one value of a type. */
  lemma {:induction false} HeldValueUnique(m: Mem, t: TypeTable, ty: RType, l: Loc, v: Value, w: Value)
    requires Holds(m, t, ty, l, v) && Holds(m, t, ty, l, w)
    ensures v == w
    decreases v, ty
  {
    match ty
    case Builtin(b) =>
      match IdOf(b) {
        case BoolId =>
          UnsignedCellsInjective(if v.b then 1 else 0, if w.b then 1 else 0, 1);
        case DoubleId =>
          Pow256Of8();
          UnsignedCellsInjective(v.bits, w.bits, 8);
        case VoidId =>
        case id => IntCellsInjective(v.n, w.n, Width(id));
      }
    case Enum(tag) => IntCellsInjective(v.n, w.n, Size(t, ty));
    case Pointer(pointee) =>
      var cells := Range(m, l, POINTER_SIZE);
      assert IntCells(0, POINTER_SIZE)[0].Plain?;
      if v.VPtr? && w.VPtr? {
        HeldValueUnique(m, t, pointee, Target(cells), v.target, w.target);
      }
    case Typedef(_, canonical) => HeldValueUnique(m, t, canonical, l, v, w);
    case Struct(_) | Array(_, _) =>
      forall i | 0 <= i < |v.parts|
        ensures v.parts[i] == w.parts[i]
      {
        HeldValueUnique(m, t, Parts(t, ty)[i].ty, Shift(l, Parts(t, ty)[i].offset), v.parts[i], w.parts[i]);
      }
      assert v.parts == w.parts;
    case _ =>
  }

  /** There are as many entries in `Reach` as there are non-null pointers in the value. */
  lemma {:induction false} ReachCounts(m: Mem, t: TypeTable, ty: RType, l: Loc, v: Value)
    requires Holds(m, t, ty, l, v)
    ensures |Reach(m, t, ty, l, v)| == PointerCount(v)
    decreases v, ty
  {
    match ty
    case Pointer(pointee) =>
      if v.VPtr? {
        ReachCounts(m, t, pointee, Target(Range(m, l, POINTER_SIZE)), v.target);
      }
    case Typedef(_, canonical) => ReachCounts(m, t, canonical, l, v);
    case Struct(_) | Array(_, _) => ReachPartsCounts(m, t, Parts(t, ty), l, v.parts, |v.parts|);
    case _ =>
  }

  lemma {:induction false} ReachPartsCounts(m: Mem, t: TypeTable, slots: seq<Slot>, l: Loc, parts: seq<Value>, n: nat)
    requires HoldsParts(m, t, slots, l, parts, n)
    ensures |ReachParts(m, t, slots, l, parts, n)| == PointerCountOf(parts, n)
    decreases parts, n
  {
    if n > 0 {
      ReachPartsCounts(m, t, slots, l, parts, n - 1);
      ReachCounts(m, t, slots[n - 1].ty, Shift(l, slots[n - 1].offset), parts[n - 1]);
    }
  }

  lemma SubRange(m: Mem, l: Loc, n: nat, delta: nat, k: nat)
    requires InBounds(m, l, n) && delta + k <= n
    ensures InBounds(m, Shift(l, delta), k)
    ensures Range(m, Shift(l, delta), k) == Range(m, l, n)[delta..delta + k]
  {
  }

  /** Copying an object's cells moves its value, if the blocks it reaches are still the same. */
  lemma {:induction false} Transfer(m: Mem, m': Mem, t: TypeTable, ty: RType, l: Loc, l': Loc, v: Value)
    requires WellLaid(t) && Holds(m, t, ty, l, v)
    requires InBounds(m', l', Size(t, ty)) && Range(m', l', Size(t, ty)) == Range(m, l, Size(t, ty))
    requires forall b | b in Reach(m, t, ty, l, v) :: b in m && b in m' && m'[b].cells == m[b].cells
    ensures Holds(m', t, ty, l', v)
    ensures Reach(m', t, ty, l', v) == Reach(m, t, ty, l, v)
    decreases v, ty
  {
    match ty
    case Pointer(pointee) =>
      if v.VPtr? {
        var target := Target(Range(m, l, POINTER_SIZE));
        assert forall b | b in Reach(m, t, pointee, target, v.target) :: b in Reach(m, t, ty, l, v);
        assert target.block in Reach(m, t, ty, l, v);
        assert Holds(m, t, pointee, target, v.target);
        HeldInBounds(m, t, pointee, target, v.target);
        Transfer(m, m', t, pointee, target, target, v.target);
      }
    case Typedef(_, canonical) => Transfer(m, m', t, canonical, l, l', v);
    case Struct(_) | Array(_, _) =>
      TransferParts(m, m', t, ty, l, l', v);
      ReachPartsAgree(m, m', t, Parts(t, ty), l, l', v.parts, |v.parts|);
    case _ =>
  }

  lemma HeldInBounds(m: Mem, t: TypeTable, ty: RType, l: Loc, v: Value)
    requires Holds(m, t, ty, l, v)
    ensures InBounds(m, l, Size(t, ty))
  {
  }

  lemma {:induction false} TransferParts(m: Mem, m': Mem, t: TypeTable, ty: RType, l: Loc, l': Loc, v: Value)
    requires WellLaid(t) && IsCompound(t, ty) && Holds(m, t, ty, l, v)
    requires InBounds(m', l', Size(t, ty)) && Range(m', l', Size(t, ty)) == Range(m, l, Size(t, ty))
    requires forall b | b in Reach(m, t, ty, l, v) :: b in m && b in m' && m'[b].cells == m[b].cells
    ensures forall i | 0 <= i < |v.parts| ::
              var s := Parts(t, ty)[i];
              && Holds(m', t, s.ty, Shift(l', s.offset), v.parts[i])
              && Reach(m', t, s.ty, Shift(l', s.offset), v.parts[i])
                 == Reach(m, t, s.ty, Shift(l, s.offset), v.parts[i])
    decreases v, ty, 0
  {
    var slots := Parts(t, ty);
    PartsWellPlaced(t, ty);
    forall i | 0 <= i < |v.parts|
      ensures && Holds(m', t, slots[i].ty, Shift(l', slots[i].offset), v.parts[i])
              && Reach(m', t, slots[i].ty, Shift(l', slots[i].offset), v.parts[i])
                 == Reach(m, t, slots[i].ty, Shift(l, slots[i].offset), v.parts[i])
    {
      var s := slots[i];
      SubRange(m, l, Size(t, ty), s.offset, Size(t, s.ty));
      SubRange(m', l', Size(t, ty), s.offset, Size(t, s.ty));
      ReachOfPart(m, t, slots, l, v.parts, |v.parts|, i);
      Transfer(m, m', t, s.ty, Shift(l, s.offset), Shift(l', s.offset), v.parts[i]);
    }
  }

  lemma {:induction false} ReachOfPart(m: Mem, t: TypeTable, slots: seq<Slot>, l: Loc, parts: seq<Value>,
      n: nat, i: nat)
    requires HoldsParts(m, t, slots, l, parts, n) && i < n
    ensures Reach(m, t, slots[i].ty, Shift(l, slots[i].offset), parts[i]) <= ReachParts(m, t, slots, l, parts, n)
    decreases n
  {
    if i < n - 1 {
      ReachOfPart(m, t, slots, l, parts, n - 1, i);
    }
  }

  lemma {:induction false} ReachPartsAgree(m: Mem, m': Mem, t: TypeTable, slots: seq<Slot>, l: Loc, l': Loc,
      parts: seq<Value>, n: nat)
    requires HoldsParts(m, t, slots, l, parts, n) && HoldsParts(m', t, slots, l', parts, n)
    requires forall i | 0 <= i < n ::
               Reach(m', t, slots[i].ty, Shift(l', slots[i].offset), parts[i])
               == Reach(m, t, slots[i].ty, Shift(l, slots[i].offset), parts[i])
    ensures ReachParts(m', t, slots, l', parts, n) == ReachParts(m, t, slots, l, parts, n)
    decreases n
  {
    if n > 0 {
      ReachPartsAgree(m, m', t, slots, l, l', parts, n - 1);
    }
  }
}

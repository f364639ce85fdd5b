/** The two walks over memory, end to end. */
module EndToEnd {
  import opened Bytes
  import opened Types
  import opened Values
  import opened JsonTree
  import opened Codec
  import opened Serializer
  import opened SerializerLaws
  import opened Deserializer
  import opened DeserializerLaws
  import opened RoundTrip
  import opened Memory
  import opened Allocator
  import opened Session
  import opened Print
  import opened Failures
  import opened Placement
  import opened Build

  // ----- Acyclic heaps

  predicate AllPlain(cells: seq<Cell>) {
    forall cell | cell in cells :: cell.Plain?
  }

  /** The cells at `l` make sense as an object of type `ty`, pointers not followed. */
  predicate Readable(m: Mem, t: TypeTable, ty: RType, l: Loc) {
    && InBounds(m, l, Size(t, ty))
    && var cells := Range(m, l, Size(t, ty));
       match ty
       case Builtin(b) => if IdOf(b).BoolId? then cells in {IntCells(0, 1), IntCells(1, 1)} else AllPlain(cells)
       case Enum(tag) => tag in t.enums && AllPlain(cells)
       case Pointer(_) => cells == IntCells(0, POINTER_SIZE) || IsPointer(cells)
       case Struct(tag) => tag in t.structs
       case _ => true
  }

  /** A rank for the structs that contain other structs by value. */
  function Nesting(nest: string -> nat, ty: RType): nat {
    match ty
    case Struct(tag) => nest(tag) + 1
    case Array(elem, _) => Nesting(nest, elem)
    case Typedef(_, canonical) => Nesting(nest, canonical)
    case _ => 0
  }

  predicate Nested(t: TypeTable, nest: string -> nat) {
    forall tag, i | tag in t.structs && 0 <= i < |t.structs[tag].members| ::
      Nesting(nest, t.structs[tag].members[i].ty) <= nest(tag)
  }

  type Place = (RType, Loc)

  /** From `p`, following a pointer goes down in rank and moving into a part does not go up. */
  ghost predicate GoesDown(m: Mem, t: TypeTable, places: iset<Place>, rank: Place -> nat, p: Place) {
    var (ty, l) := p;
    && Readable(m, t, ty, l)
    && (ty.Pointer? && IsPointer(Range(m, l, POINTER_SIZE)) ==>
          var next := (ty.pointee, Target(Range(m, l, POINTER_SIZE)));
          next in places && rank(next) < rank(p))
    && (ty.Typedef? ==> (ty.canonical, l) in places && rank((ty.canonical, l)) <= rank(p))
    && (IsCompound(t, ty) ==>
          forall i | 0 <= i < |Parts(t, ty)| ::
            var next := (Parts(t, ty)[i].ty, Shift(l, Parts(t, ty)[i].offset));
            next in places && rank(next) <= rank(p))
  }

  /** A ranked set of typed places the walk never leaves. */
  ghost predicate Acyclic(m: Mem, t: TypeTable, places: iset<Place>, rank: Place -> nat) {
    forall p | p in places :: GoesDown(m, t, places, rank, p)
  }

  lemma PlainCells(cells: seq<Cell>) returns (n: int)
    requires AllPlain(cells)
    ensures InSignedRange(n, |cells|) || |cells| == 0
    ensures cells == IntCells(n, |cells|)
  {
    n := LoadSigned(cells);
    StoreLoaded(BytesOf(cells));
    if |cells| > 0 {
      WrapBounds(DecodeUnsigned(BytesOf(cells)), |cells|);
    }
    forall i | 0 <= i < |cells|
      ensures cells[i] == IntCells(n, |cells|)[i]
    {
      assert BytesOf(cells)[i] == Encode(n, |cells|)[i];
      assert cells[i] in cells;
    }
  }

  lemma BuiltinCells(cells: seq<Cell>, id: BuiltinId) returns (v: Value)
    requires |cells| == Width(id)
    requires if id.BoolId? then cells in {IntCells(0, 1), IntCells(1, 1)} else AllPlain(cells)
    ensures HoldsBuiltin(cells, id, v)
  {
    match id
    case BoolId => v := VBool(cells == IntCells(1, 1));
    case DoubleId =>
      var bs := BytesOf(cells);
      var bits := DecodeUnsigned(bs);
      DecodeBound(bs);
      Pow256Of8();
      EncodeDecodeUnsigned(bs);
      forall i | 0 <= i < 8
        ensures cells[i] == IntCells(bits, 8)[i]
      {
        assert bs[i] == Encode(bits, 8)[i];
        assert cells[i] in cells;
      }
      v := VReal(bits);
    case VoidId => v := VOpaque([]);
    case _ =>
      var n := PlainCells(cells);
      v := VInt(n);
  }

  /** Every place of an acyclic heap holds a value: the walk over it ends. */
  lemma {:induction false} AcyclicHolds(m: Mem, t: TypeTable, places: iset<Place>, rank: Place -> nat,
      nest: string -> nat, ty: RType, l: Loc)
    returns (v: Value)
    requires WellLaid(t) && Nested(t, nest) && Acyclic(m, t, places, rank) && (ty, l) in places
    ensures Holds(m, t, ty, l, v)
    decreases rank((ty, l)), Nesting(nest, ty), ty, 1, 0
  {
    assert GoesDown(m, t, places, rank, (ty, l));
    var cells := Range(m, l, Size(t, ty));
    match ty
    case Builtin(b) => v := BuiltinCells(cells, IdOf(b));
    case Enum(tag) =>
      var n := PlainCells(cells);
      v := VInt(n);
    case Pointer(pointee) =>
      if IsPointer(cells) {
        var target := AcyclicHolds(m, t, places, rank, nest, pointee, Target(cells));
        v := VPtr(target);
      } else {
        v := VNull;
      }
    case Typedef(_, canonical) => v := AcyclicHolds(m, t, places, rank, nest, canonical, l);
    case Union(_) | Function | Unknown => v := VOpaque(cells);
    case Struct(_) | Array(_, _) =>
      var parts := AcyclicPartsHold(m, t, places, rank, nest, ty, l, |Parts(t, ty)|);
      v := VParts(parts);
  }

  lemma {:induction false} AcyclicPartsHold(m: Mem, t: TypeTable, places: iset<Place>, rank: Place -> nat,
      nest: string -> nat, ty: RType, l: Loc, n: nat)
    returns (parts: seq<Value>)
    requires WellLaid(t) && Nested(t, nest) && Acyclic(m, t, places, rank) && (ty, l) in places
    requires IsCompound(t, ty) && n <= |Parts(t, ty)|
    ensures |parts| == n && HoldsParts(m, t, Parts(t, ty), l, parts, n)
    decreases rank((ty, l)), Nesting(nest, ty), ty, 0, n
  {
    parts := [];
    assert GoesDown(m, t, places, rank, (ty, l));
    if n > 0 {
      var before := AcyclicPartsHold(m, t, places, rank, nest, ty, l, n - 1);
      var slot := Parts(t, ty)[n - 1];
      var v := AcyclicHolds(m, t, places, rank, nest, slot.ty, Shift(l, slot.offset));
      parts := before + [v];
    }
  }

  function Height(v: Value): nat {
    match v
    case VPtr(target) => 1 + Height(target)
    case VParts(parts) => HeightOf(parts, |parts|)
    case _ => 0
  }

  function HeightOf(parts: seq<Value>, n: nat): (h: nat)
    requires n <= |parts|
    ensures forall i | 0 <= i < n :: Height(parts[i]) <= h
    decreases parts, n
  {
    if n == 0 then 0
    else
      var before, last := HeightOf(parts, n - 1), Height(parts[n - 1]);
      if before < last then last else before
  }

  ghost predicate HasValue(m: Mem, t: TypeTable, p: Place) {
    exists v :: Holds(m, t, p.0, p.1, v)
  }

  ghost function ValueHeight(m: Mem, t: TypeTable, p: Place): nat {
    if HasValue(m, t, p) then
      var v :| Holds(m, t, p.0, p.1, v);
      Height(v)
    else 0
  }

  lemma ValueHeightOf(m: Mem, t: TypeTable, p: Place, v: Value)
    requires Holds(m, t, p.0, p.1, v)
    ensures HasValue(m, t, p) && ValueHeight(m, t, p) == Height(v)
  {
    var w :| Holds(m, t, p.0, p.1, w) && ValueHeight(m, t, p) == Height(w);
    HeldValueUnique(m, t, p.0, p.1, v, w);
  }

  /** One place that holds a value: what the walk can go on to also does, and is no higher. */
  lemma HeldStep(m: Mem, t: TypeTable, ty: RType, l: Loc, v: Value)
    requires Holds(m, t, ty, l, v)
    ensures Readable(m, t, ty, l)
    ensures ty.Pointer? && IsPointer(Range(m, l, POINTER_SIZE)) ==>
              var next := (ty.pointee, Target(Range(m, l, POINTER_SIZE)));
              HasValue(m, t, next) && ValueHeight(m, t, next) < Height(v)
    ensures ty.Typedef? ==> HasValue(m, t, (ty.canonical, l)) && ValueHeight(m, t, (ty.canonical, l)) == Height(v)
    ensures IsCompound(t, ty) ==>
              forall i | 0 <= i < |Parts(t, ty)| ::
                var next := (Parts(t, ty)[i].ty, Shift(l, Parts(t, ty)[i].offset));
                HasValue(m, t, next) && ValueHeight(m, t, next) <= Height(v)
  {
    assert IntCells(0, POINTER_SIZE)[0].Plain?;
    if ty.Pointer? && v.VPtr? {
      ValueHeightOf(m, t, (ty.pointee, Target(Range(m, l, POINTER_SIZE))), v.target);
    } else if ty.Typedef? {
      ValueHeightOf(m, t, (ty.canonical, l), v);
    } else if IsCompound(t, ty) {
      forall i | 0 <= i < |Parts(t, ty)|
        ensures var next := (Parts(t, ty)[i].ty, Shift(l, Parts(t, ty)[i].offset));
                HasValue(m, t, next) && ValueHeight(m, t, next) <= Height(v)
      {
        ValueHeightOf(m, t, (Parts(t, ty)[i].ty, Shift(l, Parts(t, ty)[i].offset)), v.parts[i]);
      }
    }
  }

  /** A place holds a value exactly when it lies in an acyclic set of places. */
  lemma AcyclicExactly(m: Mem, t: TypeTable, nest: string -> nat, ty: RType, l: Loc)
    requires WellLaid(t) && Nested(t, nest)
    ensures HasValue(m, t, (ty, l)) <==>
            exists places: iset<Place>, rank: Place -> nat :: (ty, l) in places && Acyclic(m, t, places, rank)
  {
    if HasValue(m, t, (ty, l)) {
      var places := iset p: Place | HasValue(m, t, p);
      var rank: Place -> nat := p => ValueHeight(m, t, p);
      forall p | p in places
        ensures GoesDown(m, t, places, rank, p)
      {
        var v :| Holds(m, t, p.0, p.1, v);
        ValueHeightOf(m, t, p, v);
        HeldStep(m, t, p.0, p.1, v);
      }
      assert Acyclic(m, t, places, rank) && (ty, l) in places;
    }
    if places: iset<Place>, rank: Place -> nat :| (ty, l) in places && Acyclic(m, t, places, rank) {
      var v := AcyclicHolds(m, t, places, rank, nest, ty, l);
    }
  }

  /** Any bytes of an integer type survive: loaded, sent through a 64-bit JSON integer and stored back. */
  lemma IntegerImageSurvives(c: Context, basic: BasicType, cells: seq<Cell>)
    requires Unhooked(c) && IsIntegral(IdOf(basic)) && |cells| == Width(IdOf(basic)) && AllPlain(cells)
    ensures var n := LoadSigned(cells);
            && IsInt64(n)
            && Serialize(c, Builtin(basic), VInt(n), true) == Emitted(Integer(n))
            && Deserialize(c, Builtin(basic), Some(Integer(n)), {}, true) == Built(VInt(n))
            && IntCells(n, |cells|) == cells
  {
    var n, bs := LoadSigned(cells), BytesOf(cells);
    WrapBounds(DecodeUnsigned(bs), |bs|);
    NarrowIsInt64(n, |bs|);
    WrapInRange(n, |bs|);
    StoreLoaded(bs);
    forall i | 0 <= i < |cells|
      ensures cells[i] == IntCells(n, |cells|)[i]
    {
      assert bs[i] == Encode(n, |cells|)[i];
      assert cells[i] in cells;
    }
  }

  // ----- Conservation and placement

  /** A build leaves one new block for its root and one for each non-null pointer it holds. */
  lemma BlocksConserved(t: TypeTable, before: Mem, after: Mem, ty: RType, b: nat, v: Value)
    requires FreshTree(t, before, after, ty, b, v)
    ensures |after.Keys - before.Keys| == 1 + PointerCount(v)
    ensures forall k | k in after.Keys - before.Keys && k != b :: Reach(after, t, ty, Loc(b, 0), v)[k] == 1
    ensures Reach(after, t, ty, Loc(b, 0), v)[b] == 0
  {
    ReachCounts(after, t, ty, Loc(b, 0), v);
    MultisetOfSet(after.Keys - before.Keys);
    ReachIsNew(before, after, b, Reach(after, t, ty, Loc(b, 0), v));
    forall k | k in after.Keys - before.Keys && k != b
      ensures Reach(after, t, ty, Loc(b, 0), v)[k] == 1
    {
      assert multiset(after.Keys - before.Keys)[k] == 1;
      assert (multiset{b} + Reach(after, t, ty, Loc(b, 0), v))[k] == 1;
    }
  }

  ghost predicate WideEnums(t: TypeTable, ty: RType, v: Value) {
    All(t, ty, v, (x: RType) => false, (x: RType, y: Value) => x.Enum? ==> Size(t, x) >= 8)
  }

  /** Storing `v` stays inside its blocks exactly when it meets no enum narrower than eight bytes. */
  lemma {:induction false} SpillsExactly(t: TypeTable, ty: RType, v: Value)
    ensures Spill(t, ty, v) == 0 <==> WideEnums(t, ty, v)
    decreases v, ty
  {
    match ty
    case Pointer(pointee) =>
      if v.VPtr? {
        SpillsExactly(t, pointee, v.target);
      }
    case Typedef(_, canonical) => SpillsExactly(t, canonical, v);
    case Struct(_) | Array(_, _) =>
      if IsCompound(t, ty) && v.VParts? && |v.parts| == |Parts(t, ty)| {
        forall i | 0 <= i < |v.parts|
          ensures Spill(t, Parts(t, ty)[i].ty, v.parts[i]) == 0 <==> WideEnums(t, Parts(t, ty)[i].ty, v.parts[i])
        {
          SpillsExactly(t, Parts(t, ty)[i].ty, v.parts[i]);
        }
        SpillSum(t, Parts(t, ty), v.parts, |v.parts|);
      }
    case _ =>
  }

  lemma {:induction false} SpillSum(t: TypeTable, slots: seq<Slot>, parts: seq<Value>, n: nat)
    requires n <= |slots| && n <= |parts|
    ensures SpillParts(t, slots, parts, n) == 0 <==> forall i | 0 <= i < n :: Spill(t, slots[i].ty, parts[i]) == 0
  {
    if n > 0 {
      SpillSum(t, slots, parts, n - 1);
    }
  }

  /** The condition matters: an enum of four bytes is stored with four bytes too many. */
  lemma NarrowEnumSpills(t: TypeTable, tag: string, n: int)
    requires tag in t.enums && t.enums[tag].basic == UnsignedInt
    ensures Spill(t, Enum(tag), VInt(n)) == 4 && !WideEnums(t, Enum(tag), VInt(n))
  {
  }

  // ----- Failed assertions

  /** A value in memory fails an assertion exactly where the walk reaches a node that does. */
  lemma HeldAborts(c: Context, m: Mem, ty: RType, l: Loc, v: Value)
    requires Unhooked(c) && Holds(m, c.table, ty, l, v)
    ensures Serialize(c, ty, v, true).Aborted? <==> !AllPrint(c, ty, v)
    ensures c.skipUnknown ==> (AllPrint(c, ty, v) <==> EnumsMatch(c, ty, v))
  {
    HeldIsWellTyped(m, c.table, ty, l, v);
    AbortsExactly(c, ty, v);
    if c.skipUnknown {
      SkipModeTotal(c, ty, v);
    }
  }

  /**
   * `json_serialize` on an object in memory. Unless a backend call fails, it ends in a failed
   * assertion exactly where the walk reaches a node that fails one: with unknowns skipped, an
   * enum that stores none of its enumerators. A run that completes gives back every handle
   * exactly if it meets no enum.
   */
  method TopPrint(s: Client, c: Context, m: Mem, ty: RType, l: Loc, ghost v: Value)
    returns (r: Printed, ghost kept: multiset<Handle>)
    requires !s.failed && Unhooked(c) && WellLaid(c.table) && Holds(m, c.table, ty, l, v)
    modifies s
    ensures Accounted(TopSerialize(c, ty, v), Leak(c.table, ty, v), old(s.held), s.held, s.failed, r, kept)
    ensures !c.invertable ==>
              Accounted(Serialize(c, ty, v, true), Leak(c.table, ty, v), old(s.held), s.held, s.failed, r, kept)
    ensures !s.failed ==> (Ends(r) <==> !AllPrint(c, ty, v))
    ensures !s.failed && c.skipUnknown ==> (Ends(r) <==> !EnumsMatch(c, ty, v))
    ensures !s.failed && !Ends(r) ==> (s.held == old(s.held) <==> EnumFree(c.table, ty, v))
  {
    HeldAborts(c, m, ty, l, v);
    KeepsNothingExactly(c, ty, v);
    r, kept := PrintValue(s, c, m, ty, Some(l), v);
    if r.Done? && r.result.Emitted? && c.invertable {
      ghost var held := s.held;
      var ok := s.Fetch(StringHandle(c.typeName(ty)));
      if !ok {
        return Failed, kept;
      }
      r := Done(Emitted(Object(map["type" := Text(c.typeName(ty)), "value" := r.result.json])));
      s.Drop(StringHandle(c.typeName(ty)), held);
    }
  }

  // ----- The trip

  /** What the build at the end of a trip has achieved. */
  ghost predicate Arrived(c: Context, before: Mem, spilled: nat, after: Mem, spilled': nat, ty: RType,
      v: Value, r: Outcome)
  {
    var cut := Collapse(c, ty, v);
    && r.Delivered? && FreshTree(c.table, before, after, ty, r.block, cut)
    && (cut == v <==> NoCollapse(c, ty, v))
    && |after.Keys - before.Keys| == 1 + PointerCount(cut)
    && (spilled' == spilled <==> WideEnums(c.table, ty, cut))
  }

  lemma TripDone(c: Context, before: Mem, spilled: nat, after: Mem, spilled': nat, ty: RType, v: Value, r: Outcome)
    requires Codable(c, ty, v)
    requires Agrees(c, before, spilled, after, spilled', ty, Built(Collapse(c, ty, v)), r)
    ensures Arrived(c, before, spilled, after, spilled', ty, v, r)
  {
    CollapseFixed(c, ty, v);
    BlocksConserved(c.table, before, after, ty, r.block, Collapse(c, ty, v));
    SpillsExactly(c.table, ty, Collapse(c, ty, v));
  }

  /**
   * A trip from `l` through the tree `j`. Unless a backend call fails, a fresh tree of blocks
   * holds the value with its null chains cut, and every handle is given back exactly if no enum
   * was met. If one fails in print, memory is as it was; if one fails in the build, what was there
   * is as it was, and fewer blocks are left behind than the value would have had. An enum-free
   * trip that returns keeps no handle in any case.
   */
  ghost predicate Travelled(c: Context, ty: RType, v: Value, spec: SerializeResult, failed: bool,
      held: multiset<Handle>, held': multiset<Handle>, before: Mem, spilled: nat, after: Mem, spilled': nat,
      j: Option<Json>, r: Outcome)
  {
    && (j.Some? ==> spec == Emitted(j.value))
    && (!failed ==>
          && j.Some? && Arrived(c, before, spilled, after, spilled', ty, v, r)
          && (held' == held ==> EnumFree(c.table, ty, v)))
    && (failed ==> if j.None? then after == before && spilled' == spilled && r == NullBlock
                   else BrokenOff(c, ty, v, before, after, r))
    && (EnumFree(c.table, ty, v) && !r.Crash? ==> held' == held)
  }

  /** A build that failed: what was there is kept, or the process is gone where a failure can end it. */
  ghost predicate BrokenOff(c: Context, ty: RType, v: Value, before: Mem, after: Mem, r: Outcome) {
    var spec := Serialize(c, ty, v, true);
    match r
    case Errored(_) => Kept(before, after) && NewBlocks(before, after) <= PointerCount(Collapse(c, ty, v))
    case Crash => spec.Emitted? && MayWreck(c, ty, Some(spec.json), {})
    case _ => false
  }

  lemma BrokeOff(c: Context, ty: RType, v: Value, before: Mem, after: Mem, j: Json, r: Outcome)
    requires Unhooked(c) && Codable(c, ty, v) && Serialize(c, ty, v, true) == Emitted(j)
    requires Damaged(c, before, after, ty, Some(j), {}, r)
    ensures BrokenOff(c, ty, v, before, after, r)
  {
    PrintThenRead(c, ty, v);
    if r.Errored? {
      LeavesNoMore(c, ty, Some(j), {}, NewBlocks(before, after));
    }
  }

  /** Serialize the value at `l` and deserialize the result, by the two walks alone. */
  method ThroughJson(s: Client, h: Heap, c: Context, ty: RType, l: Loc, ghost v: Value)
    returns (j: Option<Json>, r: Outcome)
    requires !s.failed && h.Valid() && Unhooked(c) && WellLaid(c.table)
    requires Holds(h.blocks, c.table, ty, l, v) && Codable(c, ty, v)
    modifies s, h
    ensures h.Valid()
    ensures Travelled(c, ty, v, Serialize(c, ty, v, true), s.failed, old(s.held), s.held,
                      old(h.blocks), old(h.spilled), h.blocks, h.spilled, j, r)
  {
    var printed, kept := PrintValue(s, c, h.blocks, ty, Some(l), v);
    PrintThenRead(c, ty, v);
    HeldAborts(c, h.blocks, ty, l, v);
    KeepsNothingExactly(c, ty, v);
    if printed.Failed? {
      return None, NullBlock;
    }
    j := Some(printed.result.json);
    r := BuildValue(s, h, c, ty, j, {});
    if s.failed {
      BrokeOff(c, ty, v, old(h.blocks), h.blocks, j.value, r);
    } else {
      TripDone(c, old(h.blocks), old(h.spilled), h.blocks, h.spilled, ty, v, r);
    }
  }

  /** The type `json_deserialize` takes: the first of the name in the tree. */
  function NamedType(c: Context, j: Json): RType {
    match Get(Some(j), "type")
    case Some(Text(name)) => if |c.typesByName(name)| == 0 then Unknown else c.typesByName(name)[0]
    case _ => Unknown
  }

  /** `json_deserialize` without hooks, called where its recursion ends. */
  method TopBuild(s: Client, h: Heap, c: Context, j: Json) returns (r: Outcome)
    requires !s.failed && h.Valid() && WellLaid(c.table) && Unhooked(c)
    requires !Reenters(c, NamedType(c, j), Get(Some(j), "value"), {})
    modifies s, h
    ensures h.Valid()
    ensures !s.failed ==>
              Agrees(c, old(h.blocks), old(h.spilled), h.blocks, h.spilled, NamedType(c, j), TopDeserialize(c, j), r)
    ensures s.failed ==>
              || (h.blocks == old(h.blocks) && r == Errored(None))
              || Damaged(c, old(h.blocks), h.blocks, NamedType(c, j), Get(Some(j), "value"), {}, r)
    ensures !r.Crash? ==> s.held == old(s.held)
  {
    var name := Get(Some(j), "type");
    if name.None? || !name.value.Text? {
      return NullBlock;
    }
    var ok := s.Check();
    if !ok {
      return Errored(None);
    }
    var types := c.typesByName(name.value.s);
    if |types| == 0 {
      return Crash;
    }
    OutcomeExactly(c, types[0], Get(Some(j), "value"), {});
    r := BuildValue(s, h, c, types[0], Get(Some(j), "value"), {});
  }

  /** The same trip by the two top-level calls, which wrap the tree and look the type up by its name. */
  method TopThroughJson(s: Client, h: Heap, c: Context, ty: RType, l: Loc, ghost v: Value)
    returns (j: Option<Json>, r: Outcome)
    requires !s.failed && h.Valid() && Unhooked(c) && WellLaid(c.table) && c.invertable
    requires |c.typesByName(c.typeName(ty))| > 0 && c.typesByName(c.typeName(ty))[0] == ty
    requires Holds(h.blocks, c.table, ty, l, v) && Codable(c, ty, v)
    modifies s, h
    ensures h.Valid()
    ensures Travelled(c, ty, v, TopSerialize(c, ty, v), s.failed, old(s.held), s.held,
                      old(h.blocks), old(h.spilled), h.blocks, h.spilled, j, r)
  {
    TopLevelRoundTrip(c, ty, v);
    PrintThenRead(c, ty, v);
    KeepsNothingExactly(c, ty, v);
    NothingNew(h.blocks);
    var printed, kept := TopPrint(s, c, h.blocks, ty, l, v);
    if printed.Failed? {
      return None, NullBlock;
    }
    j := Some(printed.result.json);
    OutcomeExactly(c, ty, Get(j, "value"), {});
    r := TopBuild(s, h, c, j.value);
    if !s.failed {
      TripDone(c, old(h.blocks), old(h.spilled), h.blocks, h.spilled, ty, v, r);
    } else if h.blocks != old(h.blocks) || r != Errored(None) {
      BrokeOff(c, ty, v, old(h.blocks), h.blocks, Get(j, "value").value, r);
    }
  }

  /** Printing the built copy gives the tree it was built from. */
  method Reprint(s: Client, h: Heap, c: Context, ty: RType, l: Loc, ghost v: Value)
    returns (first: Printed, second: Printed)
    requires !s.failed && h.Valid() && Unhooked(c) && WellLaid(c.table)
    requires Holds(h.blocks, c.table, ty, l, v) && Codable(c, ty, v)
    modifies s, h
    ensures s.failed || (first == second && first == Done(Serialize(c, ty, v, true)))
  {
    var j, r := ThroughJson(s, h, c, ty, l, v);
    first, second := Failed, Failed;
    if j.Some? && !s.failed {
      first := Done(Emitted(j.value));
      ghost var kept;
      second, kept := PrintValue(s, c, h.blocks, ty, Some(Loc(r.block, 0)), Collapse(c, ty, v));
      CollapsePrintsAlike(c, ty, v);
    }
  }
}

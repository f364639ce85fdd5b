/** The deserializer over memory: blocks are reserved, filled in place and released, under any plan of failing calls. */
module Build {
  import opened Bytes
  import opened Types
  import opened Values
  import opened JsonTree
  import opened Codec
  import opened Deserializer
  import opened DeserializerLaws
  import opened Failures
  import opened Memory
  import opened Allocator
  import opened Session
  import opened Placement

  /** The bytes `json_deserialize_builtin` stores. */
  method BuiltinImage(id: BuiltinId, j: Option<Json>) returns (data: seq<Cell>)
    requires !id.VoidId?
    ensures |data| == Width(id) && HoldsBuiltin(data, id, DeserializeBuiltin(id, j).value)
  {
    match id
    case BoolId => data := IntCells(if j == Some(Boolean(true)) then 1 else 0, 1);
    case DoubleId => data := IntCells(RealValue(j), 8);
    case _ =>
      data := IntCells(IntegerValue(j), Width(id));
      NarrowedCells(IntegerValue(j), Width(id));
  }

  /** `json_deserialize_builtin`. */
  method BuildBuiltin(s: Client, h: Heap, c: Context, basic: BasicType, j: Option<Json>, ghost open: set<string>)
    returns (r: Outcome)
    requires !s.failed && h.Valid()
    modifies s, h
    ensures h.Valid()
    ensures Settled(c, old(h.blocks), old(h.spilled), h.blocks, h.spilled, Builtin(basic), j, open,
                      DeserializeBuiltin(IdOf(basic), j), s.failed, old(s.held), s.held, r)
  {
    var id := IdOf(basic);
    if id.VoidId? {
      return Crash;
    }
    var data := BuiltinImage(id, j);
    var b := h.Malloc(s, c.table, Builtin(AllocatedBasic(id)));
    if b.None? {
      NothingBuilt(c, h.blocks, Builtin(basic), j, open);
      return Errored(None);
    }
    assert Size(c.table, Builtin(AllocatedBasic(id))) == Width(id);
    PutFresh(old(h.blocks), b.value, Builtin(AllocatedBasic(id)), data);
    h.Write(Loc(b.value, 0), data);
    LeafPlaced(c.table, old(h.blocks), h.blocks, Builtin(basic), b.value, DeserializeBuiltin(id, j).value, data);
    r := Delivered(b.value);
  }

  /** `json_deserialize_enum`: always an eight-byte store. */
  method BuildEnum(s: Client, h: Heap, c: Context, tag: string, j: Option<Json>, ghost open: set<string>)
    returns (r: Outcome)
    requires !s.failed && h.Valid() && WellLaid(c.table) && tag in c.table.enums
    modifies s, h
    ensures h.Valid()
    ensures Settled(c, old(h.blocks), old(h.spilled), h.blocks, h.spilled, Enum(tag), j, open,
                      DeserializeDefault(c, Enum(tag), j, open), s.failed, old(s.held), s.held, r)
  {
    ghost var v := DeserializeDefault(c, Enum(tag), j, open).value;
    var n, width := IntegerValue(j), Size(c.table, Enum(tag));
    var b := h.Malloc(s, c.table, Enum(tag));
    if b.None? {
      NothingBuilt(c, h.blocks, Enum(tag), j, open);
      return Errored(None);
    }
    assert Overwrite(h.blocks[b.value].cells, 0, IntCells(n, 8)[..width]) == IntCells(n, 8)[..width];
    h.WriteUnchecked(b.value, IntCells(n, 8));
    NarrowedCells(n, width);
    LeafPlaced(c.table, old(h.blocks), h.blocks, Enum(tag), b.value, v, IntCells(n, 8)[..width]);
    r := Delivered(b.value);
  }

  /**
   * `_json_deserialize` without hooks, with any plan of failing calls. It is called where its
   * recursion ends; it returns what the specification says, in a fresh tree of blocks, and leaves
   * no temporary behind, or an error and no more than `MayLeave` says.
   */
  method BuildValue(s: Client, h: Heap, c: Context, ty: RType, j: Option<Json>, ghost open: set<string>)
    returns (r: Outcome)
    requires !s.failed && h.Valid() && WellLaid(c.table) && Unhooked(c)
    requires !Deserialize(c, ty, j, open, true).Diverged?
    modifies s, h
    ensures h.Valid()
    ensures Settled(c, old(h.blocks), old(h.spilled), h.blocks, h.spilled, ty, j, open,
                      Deserialize(c, ty, j, open, true), s.failed, old(s.held), s.held, r)
    decreases j.Some?, Tree(j), c.table.structs.Keys - open, ty, 5
  {
    match ty
    case Builtin(basic) => r := BuildBuiltin(s, h, c, basic, j, open);
    case Enum(tag) =>
      if tag in c.table.enums {
        r := BuildEnum(s, h, c, tag, j, open);
      } else {
        r := Crash;
      }
    case Struct(tag) =>
      if tag in c.table.structs {
        r := BuildStruct(s, h, c, tag, j, open);
      } else {
        r := Crash;
      }
    case Array(elem, length) => r := BuildArray(s, h, c, elem, length, j, open);
    case Pointer(pointee) => r := BuildPointer(s, h, c, pointee, j, open);
    case Union(_) | Function | Typedef(_, _) => r := Crash;
    case Unknown => r := NullBlock;
  }

  /** A block for a pointer, and the store into it. */
  method NewPointer(s: Client, h: Heap, c: Context, pointee: RType, data: seq<Cell>) returns (b: Option<nat>)
    requires h.Valid() && |data| == POINTER_SIZE
    modifies s, h
    ensures h.Valid() && h.spilled == old(h.spilled)
    ensures s.held == old(s.held) && s.failed == (old(s.failed) || b.None?)
    ensures b.None? ==> h.blocks == old(h.blocks)
    ensures b.Some? ==>
              b.value !in old(h.blocks) && h.blocks == old(h.blocks)[b.value := Block(Pointer(pointee), 1, data)]
  {
    b := h.Malloc(s, c.table, Pointer(pointee));
    if b.Some? {
      PutFresh(old(h.blocks), b.value, Pointer(pointee), data);
      h.Write(Loc(b.value, 0), data);
    }
  }

  /** The pointee, with its type's handle around it. */
  method BuildPointee(s: Client, h: Heap, c: Context, pointee: RType, j: Option<Json>, ghost open: set<string>)
    returns (r: Outcome)
    requires !s.failed && h.Valid() && WellLaid(c.table) && Unhooked(c)
    requires !Deserialize(c, pointee, j, open, true).Diverged?
    modifies s, h
    ensures h.Valid()
    ensures Settled(c, old(h.blocks), old(h.spilled), h.blocks, h.spilled, pointee, j, open,
                      Deserialize(c, pointee, j, open, true), s.failed, old(s.held), s.held, r)
    decreases j.Some?, Tree(j), c.table.structs.Keys - open, pointee, 6
  {
    s.Take(TypeHandle(pointee));
    r := BuildValue(s, h, c, pointee, j, open);
    if !r.Crash? {
      s.Drop(TypeHandle(pointee), old(s.held));
    }
  }

  function ReferenceCells(target: Outcome): (data: seq<Cell>)
    ensures |data| == POINTER_SIZE
  {
    match target
    case Delivered(b) => PointerCells(Loc(b, 0))
    case Errored(Some(b)) => PointerCells(Loc(b, 0))
    case _ => IntCells(0, POINTER_SIZE)
  }

  lemma ReferenceMade(c: Context, pointee: RType, j: Option<Json>, open: set<string>, before: Mem, spilled: nat,
                      mid: Mem, after: Mem, spilled': nat, target: Outcome, b: nat)
    requires WellLaid(c.table) && j != Some(Null)
    requires b !in mid && after == mid[b := Block(Pointer(pointee), 1, ReferenceCells(target))]
    requires Agrees(c, before, spilled, mid, spilled', pointee, Deserialize(c, pointee, j, open, true), target)
    requires target.Delivered? || target.NullBlock?
    ensures Agrees(c, before, spilled, after, spilled', Pointer(pointee),
                   DeserializeDefault(c, Pointer(pointee), j, open), Delivered(b))
  {
    if target.Delivered? {
      PointerPlaced(c.table, before, mid, after, pointee, target.block, b,
                    Deserialize(c, pointee, j, open, true).value);
    } else {
      LeafPlaced(c.table, before, after, Pointer(pointee), b, VNull, ReferenceCells(target));
    }
  }

  /** The pointer to a pointee that was read. That the pointer cannot be allocated is not checked. */
  method BuildReference(s: Client, h: Heap, c: Context, pointee: RType, j: Option<Json>, ghost open: set<string>,
                        target: Outcome, ghost before: Mem, ghost spilled: nat)
    returns (r: Outcome)
    requires !s.failed && h.Valid() && WellLaid(c.table) && j != Some(Null)
    requires target.Delivered? || target.NullBlock?
    requires Agrees(c, before, spilled, h.blocks, h.spilled, pointee, Deserialize(c, pointee, j, open, true), target)
    modifies s, h
    ensures h.Valid() && s.held == old(s.held)
    ensures s.failed ==> r == Crash
    ensures !s.failed ==>
              Agrees(c, before, spilled, h.blocks, h.spilled, Pointer(pointee),
                     DeserializeDefault(c, Pointer(pointee), j, open), r)
  {
    ghost var mid := h.blocks;
    var b := NewPointer(s, h, c, pointee, ReferenceCells(target));
    if b.None? {
      return Crash;
    }
    ReferenceMade(c, pointee, j, open, before, spilled, mid, h.blocks, h.spilled, target, b.value);
    r := Delivered(b.value);
  }

  /** The same after the pointee failed, which goes unnoticed. */
  method BuildDangling(s: Client, h: Heap, c: Context, pointee: RType, ghost j: Option<Json>, ghost open: set<string>,
                       target: Outcome, ghost before: Mem)
    returns (r: Outcome)
    requires s.failed && h.Valid() && j != Some(Null) && target.Errored?
    requires Damaged(c, before, h.blocks, pointee, j, open, target)
    modifies s, h
    ensures h.Valid() && s.held == old(s.held) && s.failed
    ensures Damaged(c, before, h.blocks, Pointer(pointee), j, open, r)
  {
    ghost var mid := h.blocks;
    var b := NewPointer(s, h, c, pointee, ReferenceCells(target));
    if b.None? {
      return Crash;
    }
    PointerDamage(c, pointee, j, open, before, mid, h.blocks, b.value, h.blocks[b.value], target);
    r := Errored(b);
  }

  /** The pointer case: JSON null is the null pointer, any other tree is the pointee's. */
  method BuildPointer(s: Client, h: Heap, c: Context, pointee: RType, j: Option<Json>, ghost open: set<string>)
    returns (r: Outcome)
    requires !s.failed && h.Valid() && WellLaid(c.table) && Unhooked(c)
    requires !DeserializeDefault(c, Pointer(pointee), j, open).Diverged?
    modifies s, h
    ensures h.Valid()
    ensures Settled(c, old(h.blocks), old(h.spilled), h.blocks, h.spilled, Pointer(pointee), j, open,
                      DeserializeDefault(c, Pointer(pointee), j, open), s.failed, old(s.held), s.held, r)
    decreases j.Some?, Tree(j), c.table.structs.Keys - open, Pointer(pointee), 4
  {
    if j == Some(Null) {
      var b := NewPointer(s, h, c, pointee, IntCells(0, POINTER_SIZE));
      if b.None? {
        NothingBuilt(c, h.blocks, Pointer(pointee), j, open);
        return Errored(None);
      }
      LeafPlaced(c.table, old(h.blocks), h.blocks, Pointer(pointee), b.value, VNull, IntCells(0, POINTER_SIZE));
      return Delivered(b.value);
    }
    var target := BuildPointee(s, h, c, pointee, j, open);
    if target.Crash? {
      return Crash;
    }
    if target.Errored? {
      r := BuildDangling(s, h, c, pointee, j, open, target, old(h.blocks));
    } else {
      r := BuildReference(s, h, c, pointee, j, open, target, old(h.blocks), old(h.spilled));
    }
  }

  /** Copy a part into its place and release it. */
  method PlacePart(h: Heap, c: Context, ty: RType, l: Loc, part: nat, ghost before: Mem, ghost spilled: nat,
                   ghost v: Value)
    returns (ghost mid: Mem)
    requires h.Valid() && FreshTree(c.table, before, h.blocks, ty, part, v)
    requires h.spilled == spilled + Spill(c.table, ty, v)
    requires l.block in before && l.offset + Size(c.table, ty) <= |before[l.block].cells|
    modifies h
    ensures h.Valid() && PartCopied(c, before, spilled, h.blocks, h.spilled, ty, l, v, mid, part)
  {
    mid := h.blocks;
    h.Write(l, Range(h.blocks, Loc(part, 0), Size(c.table, ty)));
    h.Unref(part);
  }

  /** A builtin released again leaves nothing. */
  method ReleaseBuiltin(h: Heap, c: Context, basic: BasicType, part: nat, ghost before: Mem, ghost v: Value)
    requires h.Valid() && FreshTree(c.table, before, h.blocks, Builtin(basic), part, v)
    modifies h
    ensures h.Valid() && Kept(before, h.blocks) && NewBlocks(before, h.blocks) == 0
  {
    ghost var mid := h.blocks;
    h.Unref(part);
    NewBlocksDrop(before.Keys, mid.Keys, part);
    assert multiset(h.blocks.Keys - before.Keys) == multiset{};
    MultisetOfSet(h.blocks.Keys - before.Keys);
  }

  /**
   * Copy in a part that was read, once its size is known, and release it. Only a builtin's size is
   * asked for again; that of any other type is known since its block was allocated.
   */
  method CopyIn(s: Client, h: Heap, c: Context, ty: RType, l: Loc, part: nat, ghost before: Mem, ghost spilled: nat,
                ghost v: Value)
    returns (ok: bool, ghost mid: Mem)
    requires !s.failed && h.Valid() && FreshTree(c.table, before, h.blocks, ty, part, v)
    requires h.spilled == spilled + Spill(c.table, ty, v)
    requires l.block in before && l.offset + Size(c.table, ty) <= |before[l.block].cells|
    modifies s, h
    ensures h.Valid() && s.held == old(s.held) && s.failed == !ok
    ensures ok ==> PartCopied(c, before, spilled, h.blocks, h.spilled, ty, l, v, mid, part)
    ensures !ok ==> Kept(before, h.blocks) && NewBlocks(before, h.blocks) == 0
  {
    mid := h.blocks;
    ok := true;
    if ty.Builtin? {
      ok := s.Check();
    }
    if ok {
      mid := PlacePart(h, c, ty, l, part, before, spilled, v);
    } else {
      ReleaseBuiltin(h, c, ty.basic, part, before, v);
    }
  }

  /** Read a part into its place. */
  method BuildInto(s: Client, h: Heap, c: Context, ty: RType, j: Option<Json>, ghost open: set<string>, l: Loc)
    returns (stop: Option<Outcome>, ghost mid: Mem, ghost temporary: nat, ghost v: Value)
    requires !s.failed && h.Valid() && WellLaid(c.table) && Unhooked(c)
    requires !Deserialize(c, ty, j, open, true).Diverged?
    requires l.block in h.blocks && l.offset + Size(c.table, ty) <= |h.blocks[l.block].cells|
    modifies s, h
    ensures h.Valid()
    ensures PartSettled(c, old(h.blocks), old(h.spilled), h.blocks, h.spilled, ty, j, open, l,
                          s.failed, old(s.held), s.held, stop, mid, temporary, v)
    decreases j.Some?, Tree(j), c.table.structs.Keys - open, ty, 6
  {
    ghost var before := h.blocks;
    mid, temporary, v := h.blocks, 0, VNull;
    var part := BuildValue(s, h, c, ty, j, open);
    if part.Crash? || part.NullBlock? {
      return Some(Crash), mid, temporary, v;
    }
    if part.Errored? {
      return Some(part), mid, temporary, v;
    }
    temporary, v := part.block, Deserialize(c, ty, j, open, true).value;
    var ok;
    ok, mid := CopyIn(s, h, c, ty, l, part.block, before, old(h.spilled), v);
    stop := if ok then None else Some(Errored(None));
  }

  /** `json_deserialize_struct_member`. */
  method BuildPart(s: Client, h: Heap, c: Context, ty: RType, j: Option<Json>, ghost open: set<string>, l: Loc)
    returns (stop: Option<Outcome>, ghost mid: Mem, ghost temporary: nat, ghost v: Value)
    requires !s.failed && h.Valid() && WellLaid(c.table) && Unhooked(c)
    requires !Deserialize(c, ty, j, open, true).Diverged?
    requires l.block in h.blocks && l.offset + Size(c.table, ty) <= |h.blocks[l.block].cells|
    modifies s, h
    ensures h.Valid()
    ensures PartSettled(c, old(h.blocks), old(h.spilled), h.blocks, h.spilled, ty, j, open, l,
                          s.failed, old(s.held), s.held, stop, mid, temporary, v)
    decreases j.Some?, Tree(j), c.table.structs.Keys - open, ty, 7
  {
    mid, temporary, v := h.blocks, 0, VNull;
    var ok := s.Fetch(TypeHandle(ty));
    if !ok {
      NothingRead(c, h.blocks, ty, j, open);
      return Some(Errored(None)), mid, temporary, v;
    }
    stop, mid, temporary, v := BuildInto(s, h, c, ty, j, open, l);
    if stop != Some(Crash) {
      s.Drop(TypeHandle(ty), old(s.held));
    }
  }

  /** The three calls that open the loop body: the member, its offset and its name. */
  method TakeMember(s: Client, handle: Handle, name: string) returns (ok: bool)
    requires !s.failed
    modifies s
    ensures s.failed == !ok
    ensures s.held == if ok then old(s.held) + multiset{handle} + multiset{StringHandle(name)} else old(s.held)
  {
    ok := s.Fetch(handle);
    if !ok {
      return;
    }
    ok := s.Check();
    if ok {
      ok := s.Fetch(StringHandle(name));
    }
    if !ok {
      s.Drop(handle, old(s.held));
    }
  }

  /** The two releases that close it. */
  method ReturnMember(s: Client, handle: Handle, name: string, ghost base: multiset<Handle>)
    requires s.held == base + multiset{handle} + multiset{StringHandle(name)}
    modifies s`held
    ensures s.held == base
  {
    s.Drop(StringHandle(name), base + multiset{handle});
    s.Drop(handle, base);
  }

  /** The loop body of `json_deserialize_struct`. */
  method BuildMember(s: Client, h: Heap, c: Context, handle: Handle, member: Member, j: Option<Json>,
                     ghost open: set<string>, st: nat)
    returns (stop: Option<Outcome>, ghost mid: Mem, ghost temporary: nat, ghost v: Value)
    requires !s.failed && h.Valid() && WellLaid(c.table) && Unhooked(c)
    requires !Deserialize(c, member.ty, j, open, true).Diverged?
    requires st in h.blocks && member.offset + Size(c.table, member.ty) <= |h.blocks[st].cells|
    modifies s, h
    ensures h.Valid()
    ensures PartSettled(c, old(h.blocks), old(h.spilled), h.blocks, h.spilled, member.ty, j, open,
                          Loc(st, member.offset), s.failed, old(s.held), s.held, stop, mid, temporary, v)
    decreases j.Some?, Tree(j), c.table.structs.Keys - open, member.ty, 8
  {
    ghost var base := s.held;
    mid, temporary, v := h.blocks, 0, VNull;
    var ok := TakeMember(s, handle, member.name);
    if !ok {
      NothingRead(c, h.blocks, member.ty, j, open);
      return Some(Errored(None)), mid, temporary, v;
    }
    stop, mid, temporary, v := BuildPart(s, h, c, member.ty, j, open, Loc(st, member.offset));
    if stop != Some(Crash) {
      ReturnMember(s, handle, member.name, base);
    }
  }

  /** One iteration of the struct loop. */
  method StructStep(s: Client, h: Heap, c: Context, tag: string, j: Option<Json>, ghost open: set<string>, st: nat,
                    i: nat, ghost before: Mem, ghost spilled: nat, ghost parts: seq<Value>)
    returns (stop: Option<Outcome>, ghost v: Value)
    requires !s.failed && h.Valid() && WellLaid(c.table) && Unhooked(c)
    requires Progress(c, Struct(tag), j, open, before, spilled, h.blocks, h.spilled, st, parts, i)
    requires i < |Parts(c.table, Struct(tag))|
    requires !DeserializeDefault(c, Struct(tag), j, open).Diverged?
    modifies s, h
    ensures h.Valid() && (stop != Some(Crash) ==> s.held == old(s.held))
    ensures stop.None? ==>
              && !s.failed
              && Progress(c, Struct(tag), j, open, before, spilled, h.blocks, h.spilled, st, parts + [v], i + 1)
    ensures stop == Some(Crash) ==>
              if s.failed then MayWreck(c, Struct(tag), j, open)
              else DeserializeDefault(c, Struct(tag), j, open).Crashed?
    ensures stop.Some? && stop != Some(Crash) ==>
              && stop.value.Errored? && s.failed
              && LeftByPart(c, old(h.blocks), h.blocks, Parts(c.table, Struct(tag))[i].ty,
                            PartTree(c.table, Struct(tag), j, i), OpenInside(Struct(tag), j, open))
    decreases j.Some?, Tree(j), c.table.structs.Keys - open, Struct(tag), 2
  {
    var ty := Struct(tag);
    NextPart(c, ty, j, open, i);
    PartsWellPlaced(c.table, ty);
    ghost var m1, s1 := h.blocks, h.spilled;
    ghost var mid, temporary;
    var handle, member := MemberHandle(ty, i), c.table.structs[tag].members[i];
    stop, mid, temporary, v := BuildMember(s, h, c, handle, member, Get(j, member.name), OpenInside(ty, j, open), st);
    if stop.None? {
      ProgressStep(c, ty, j, open, before, spilled, m1, s1, h.blocks, h.spilled, st, parts, i, v, mid, temporary);
    }
  }

  /** The cleanup after a member failed. */
  method FreeStruct(h: Heap, c: Context, tag: string, ghost j: Option<Json>, ghost open: set<string>, st: nat,
                    ghost before: Mem, ghost mid: Mem, ghost parts: seq<Value>)
    requires h.Valid() && Entered(c, Struct(tag), j, open) && |parts| < |Parts(c.table, Struct(tag))|
    requires DeserializeParts(c, Struct(tag), j, open, |parts|) == Built(VParts(parts))
    requires Filling(c.table, before, mid, Parts(c.table, Struct(tag)), Size(c.table, Struct(tag)), st, parts, |parts|)
    requires LeftByPart(c, mid, h.blocks, Parts(c.table, Struct(tag))[|parts|].ty,
                        PartTree(c.table, Struct(tag), j, |parts|), OpenInside(Struct(tag), j, open))
    modifies h
    ensures h.Valid() && Damaged(c, before, h.blocks, Struct(tag), j, open, Errored(None))
    ensures StructLeft(c, Struct(tag), j, open, before, h.blocks)
  {
    StructFreed(c, Struct(tag), j, open, before, mid, h.blocks, st, parts);
    StructGone(c, Struct(tag), j, open, before, mid, h.blocks, st, parts);
    h.Unref(st);
  }

  /** The loop of `json_deserialize_struct`, which frees the struct if a member fails. */
  method FillStruct(s: Client, h: Heap, c: Context, tag: string, j: Option<Json>, ghost open: set<string>, st: nat,
                    ghost before: Mem, ghost spilled: nat)
    returns (r: Outcome)
    requires !s.failed && h.Valid() && WellLaid(c.table) && Unhooked(c) && tag in c.table.structs
    requires Progress(c, Struct(tag), j, open, before, spilled, h.blocks, h.spilled, st, [], 0)
    requires !DeserializeDefault(c, Struct(tag), j, open).Diverged?
    modifies s, h
    ensures h.Valid()
    ensures Settled(c, before, spilled, h.blocks, h.spilled, Struct(tag), j, open,
                      DeserializeDefault(c, Struct(tag), j, open), s.failed, old(s.held), s.held, r)
    ensures r.Errored? ==> StructLeft(c, Struct(tag), j, open, before, h.blocks)
    decreases j.Some?, Tree(j), c.table.structs.Keys - open, Struct(tag), 3
  {
    var ty, ms := Struct(tag), c.table.structs[tag].members;
    ghost var parts: seq<Value> := [];
    for i := 0 to |ms|
      invariant h.Valid() && !s.failed && s.held == old(s.held)
      invariant Progress(c, ty, j, open, before, spilled, h.blocks, h.spilled, st, parts, i)
    {
      ghost var m1 := h.blocks;
      var stop, v := StructStep(s, h, c, tag, j, open, st, i, before, spilled, parts);
      if stop.Some? {
        if stop.value.Errored? {
          FreeStruct(h, c, tag, j, open, st, before, m1, parts);
          return Errored(None);
        }
        return Crash;
      }
      parts := parts + [v];
    }
    ProgressEnds(c, ty, j, open, before, spilled, h.blocks, h.spilled, st, parts);
    r := Delivered(st);
  }

  /** `json_deserialize_struct`. */
  method BuildStruct(s: Client, h: Heap, c: Context, tag: string, j: Option<Json>, ghost open: set<string>)
    returns (r: Outcome)
    requires !s.failed && h.Valid() && WellLaid(c.table) && Unhooked(c) && tag in c.table.structs
    requires !DeserializeDefault(c, Struct(tag), j, open).Diverged?
    modifies s, h
    ensures h.Valid()
    ensures Settled(c, old(h.blocks), old(h.spilled), h.blocks, h.spilled, Struct(tag), j, open,
                      DeserializeDefault(c, Struct(tag), j, open), s.failed, old(s.held), s.held, r)
    ensures r.Errored? ==> StructLeft(c, Struct(tag), j, open, old(h.blocks), h.blocks)
    decreases j.Some?, Tree(j), c.table.structs.Keys - open, Struct(tag), 4
  {
    NothingBuilt(c, h.blocks, Struct(tag), j, open);
    var st := h.Malloc(s, c.table, Struct(tag));
    if st.None? {
      return Errored(None);
    }
    var ok := s.Check();
    if !ok {
      h.Unref(st.value);
      assert h.blocks == old(h.blocks);
      return Errored(None);
    }
    ProgressStarts(c, Struct(tag), j, open, old(h.blocks), h.spilled, h.blocks, st.value, Size(c.table, Struct(tag)));
    r := FillStruct(s, h, c, tag, j, open, st.value, old(h.blocks), old(h.spilled));
  }

  /** The loop body of `json_deserialize_array`. Any failing call ends the process, here or in the cleanup. */
  method BuildElement(s: Client, h: Heap, c: Context, member: Handle, ty: RType, j: Option<Json>,
                      ghost open: set<string>, l: Loc)
    returns (ok: bool, ghost mid: Mem, ghost temporary: nat, ghost v: Value)
    requires !s.failed && h.Valid() && WellLaid(c.table) && Unhooked(c)
    requires j.Some? ==> !Deserialize(c, ty, j, open, true).Diverged?
    requires l.block in h.blocks && l.offset + Size(c.table, ty) <= |h.blocks[l.block].cells|
    modifies s, h
    ensures h.Valid()
    ensures ok ==>
              && !s.failed && s.held == old(s.held) && j.Some? && Deserialize(c, ty, j, open, true) == Built(v)
              && PartCopied(c, old(h.blocks), old(h.spilled), h.blocks, h.spilled, ty, l, v, mid, temporary)
    ensures !ok ==> s.failed || j.None? || !Deserialize(c, ty, j, open, true).Built?
    decreases j.Some?, Tree(j), c.table.structs.Keys - open, ty, 6
  {
    ghost var before, base := h.blocks, s.held;
    mid, temporary, v := h.blocks, 0, VNull;
    ok := s.Fetch(member);
    if ok {
      ok := s.Fetch(TypeHandle(ty));
    }
    if ok {
      ok := s.Check();
    }
    if ok {
      ok := s.Check();
    }
    if !ok || j.None? {
      return false, mid, temporary, v;
    }
    var part := BuildValue(s, h, c, ty, j, open);
    if !part.Delivered? {
      return false, mid, temporary, v;
    }
    temporary, v := part.block, Deserialize(c, ty, j, open, true).value;
    mid := PlacePart(h, c, ty, l, part.block, before, old(h.spilled), v);
    s.Drop(TypeHandle(ty), base + multiset{member});
    s.Drop(member, base);
  }

  /** One iteration of the array loop. */
  method ArrayStep(s: Client, h: Heap, c: Context, ty: RType, j: Option<Json>, ghost open: set<string>, st: nat, i: nat,
                   ghost before: Mem, ghost spilled: nat, ghost parts: seq<Value>)
    returns (ok: bool, ghost v: Value)
    requires !s.failed && h.Valid() && WellLaid(c.table) && Unhooked(c)
    requires ty.Array? && i < ty.length && !DeserializeDefault(c, ty, j, open).Diverged?
    requires Progress(c, ty, j, open, before, spilled, h.blocks, h.spilled, st, parts, i)
    requires ArrayAllocates(c.table, ty.elem, ty.length)
    modifies s, h
    ensures h.Valid()
    ensures ok ==>
              && !s.failed && s.held == old(s.held)
              && Progress(c, ty, j, open, before, spilled, h.blocks, h.spilled, st, parts + [v], i + 1)
    ensures !ok ==> s.failed || DeserializeDefault(c, ty, j, open).Crashed?
    decreases j.Some?, Tree(j), c.table.structs.Keys - open, ty, 2
  {
    NextPart(c, ty, j, open, i);
    PartsWellPlaced(c.table, ty);
    var slot := Parts(c.table, ty)[i];
    ghost var m1, s1 := h.blocks, h.spilled;
    ghost var mid, temporary;
    ok, mid, temporary, v :=
      BuildElement(s, h, c, MemberHandle(ty, i), slot.ty, At(j, i), open, Loc(st, slot.offset));
    if ok {
      ProgressStep(c, ty, j, open, before, spilled, m1, s1, h.blocks, h.spilled, st, parts, i, v, mid, temporary);
    }
  }

  /** `json_deserialize_array`. The array's size is known by the time its block is allocated. */
  method BuildArray(s: Client, h: Heap, c: Context, elem: RType, length: nat, j: Option<Json>, ghost open: set<string>)
    returns (r: Outcome)
    requires !s.failed && h.Valid() && WellLaid(c.table) && Unhooked(c)
    requires !DeserializeDefault(c, Array(elem, length), j, open).Diverged?
    modifies s, h
    ensures h.Valid()
    ensures Settled(c, old(h.blocks), old(h.spilled), h.blocks, h.spilled, Array(elem, length), j, open,
                      DeserializeDefault(c, Array(elem, length), j, open), s.failed, old(s.held), s.held, r)
    decreases j.Some?, Tree(j), c.table.structs.Keys - open, Array(elem, length), 4
  {
    var ty := Array(elem, length);
    NothingBuilt(c, h.blocks, ty, j, open);
    var ok := s.Check();
    if !ok {
      return Errored(None);
    }
    ok := s.Check();
    if !ok {
      return Crash;
    }
    var size := SizeProduct(length, Size(c.table, ty));
    var block := h.Reserve(c.table, ty, size);
    if block.None? {
      return Crash;
    }
    var st := block.value;
    ProgressStarts(c, ty, j, open, old(h.blocks), h.spilled, h.blocks, st, size);
    ghost var parts: seq<Value> := [];
    for i := 0 to length
      invariant h.Valid() && !s.failed && s.held == old(s.held)
      invariant Progress(c, ty, j, open, old(h.blocks), old(h.spilled), h.blocks, h.spilled, st, parts, i)
    {
      var element, v := ArrayStep(s, h, c, ty, j, open, st, i, old(h.blocks), old(h.spilled), parts);
      if !element {
        return Crash;
      }
      parts := parts + [v];
    }
    ProgressEnds(c, ty, j, open, old(h.blocks), old(h.spilled), h.blocks, h.spilled, st, parts);
    r := Delivered(st);
  }
}

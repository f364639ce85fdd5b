/** What a build over memory has done: fresh trees of blocks, half-filled objects, and what failures leave. */
module Placement {
  import opened Bytes
  import opened Types
  import opened Values
  import opened JsonTree
  import opened Codec
  import opened Deserializer
  import opened Memory
  import opened Allocator
  import opened Session
  import opened DeserializerLaws
  import opened Failures

  /**
   * The block returned, a null pointer returned without an error, the end of the process, or an
   * error; a pointer type then returns its block all the same.
   */
  datatype Outcome = Delivered(block: nat) | NullBlock | Crash | Errored(unfinished: Option<nat>)

  /** The type recorded in the block of a value. */
  function BlockType(ty: RType): RType {
    if ty.Builtin? then Builtin(AllocatedBasic(IdOf(ty.basic))) else ty
  }

  /** The size of the block of a value: an array's is its own size times its length, as far as 64 bits go. */
  function BlockSize(t: TypeTable, ty: RType): nat {
    if ty.Array? then SizeProduct(ty.length, Size(t, ty)) else Size(t, ty)
  }

  /** Nothing that was there before has changed. */
  ghost predicate Kept(before: Mem, after: Mem) {
    forall k | k in before :: k in after && after[k] == before[k]
  }

  /**
   * Block `b` holds `v`. All else that is new is reached from it, by exactly one pointer each,
   * and nothing that was there before has changed.
   */
  ghost predicate FreshTree(t: TypeTable, before: Mem, after: Mem, ty: RType, b: nat, v: Value) {
    && b !in before && b in after
    && after[b].refcount == 1 && after[b].ty == BlockType(ty)
    && Size(t, ty) <= |after[b].cells| == BlockSize(t, ty)
    && Holds(after, t, ty, Loc(b, 0), v)
    && Kept(before, after)
    && multiset(after.Keys - before.Keys) == multiset{b} + Reach(after, t, ty, Loc(b, 0), v)
  }

  ghost predicate Delivers(t: TypeTable, before: Mem, after: Mem, ty: RType, d: DeserializeResult, r: Outcome) {
    match d
    case Built(v) => r.Delivered? && FreshTree(t, before, after, ty, r.block, v)
    case NoBlock => r.NullBlock? && after == before
    case Crashed => r.Crash?
    case Diverged => false
  }

  /** Bytes past the end of their block that storing `v` writes: enums are stored eight bytes wide. */
  function Spill(t: TypeTable, ty: RType, v: Value): nat
    decreases v, ty
  {
    match ty
    case Enum(_) => if Size(t, ty) < 8 then 8 - Size(t, ty) else 0
    case Pointer(pointee) => if v.VPtr? then Spill(t, pointee, v.target) else 0
    case Typedef(_, canonical) => Spill(t, canonical, v)
    case Struct(_) | Array(_, _) =>
      if IsCompound(t, ty) && v.VParts? && |v.parts| == |Parts(t, ty)| then
        SpillParts(t, Parts(t, ty), v.parts, |v.parts|)
      else 0
    case _ => 0
  }

  function SpillParts(t: TypeTable, slots: seq<Slot>, parts: seq<Value>, n: nat): nat
    requires n <= |slots| && n <= |parts|
    decreases parts, n
  {
    if n == 0 then 0 else SpillParts(t, slots, parts, n - 1) + Spill(t, slots[n - 1].ty, parts[n - 1])
  }

  /** A method's view of the specification: same result, same tree, same spill. */
  ghost predicate Agrees(c: Context, before: Mem, spilled: nat, after: Mem, spilled': nat, ty: RType,
                         d: DeserializeResult, r: Outcome)
  {
    && Delivers(c.table, before, after, ty, d, r)
    && (!d.Crashed? ==> spilled' == spilled + if d.Built? then Spill(c.table, ty, d.value) else 0)
  }

  // ----- Memory lemmas

  /** The state between two iterations: `i` parts are in place and every temporary is gone. */
  ghost predicate Filling(t: TypeTable, before: Mem, now: Mem, slots: seq<Slot>, size: nat, st: nat,
                          parts: seq<Value>, i: nat)
  {
    && st !in before && st in now && now[st].refcount == 1 && size <= |now[st].cells|
    && |parts| == i
    && HoldsParts(now, t, slots, Loc(st, 0), parts, i)
    && Kept(before, now)
    && multiset(now.Keys - before.Keys) == multiset{st} + ReachParts(now, t, slots, Loc(st, 0), parts, i)
  }

  lemma ReachIsNew(before: Mem, after: Mem, root: nat, reach: multiset<nat>)
    requires multiset(after.Keys - before.Keys) == multiset{root} + reach
    ensures forall k | k in reach :: k in after && k !in before && k != root
  {
    forall k | k in reach
      ensures k in after && k !in before && k != root
    {
      assert k in multiset(after.Keys - before.Keys);
      assert multiset(after.Keys - before.Keys)[k] == 1;
    }
  }

  lemma PutElsewhere(m: Mem, l: Loc, data: seq<Cell>, l': Loc, n: nat)
    requires l.block in m && l.offset + |data| <= |m[l.block].cells|
    requires InBounds(m, l', n)
    requires l'.block == l.block ==> l'.offset + n <= l.offset || l.offset + |data| <= l'.offset
    ensures InBounds(Put(m, l, data), l', n)
    ensures Range(Put(m, l, data), l', n) == Range(m, l', n)
  {
    if n > 0 && l'.block == l.block {
      var a, b := m[l.block].cells, Put(m, l, data)[l.block].cells;
      assert forall k | 0 <= k < |a| && (k < l.offset || l.offset + |data| <= k) :: b[k] == a[k];
    }
  }

  lemma PutHere(m: Mem, l: Loc, data: seq<Cell>)
    requires l.block in m && l.offset + |data| <= |m[l.block].cells|
    ensures InBounds(Put(m, l, data), l, |data|)
    ensures Range(Put(m, l, data), l, |data|) == data
  {
  }

  lemma NewBlocksChain(a: set<nat>, b: set<nat>, c: set<nat>)
    requires a <= b <= c
    ensures multiset(c - a) == multiset(b - a) + multiset(c - b)
  {
    assert c - a == (b - a) + (c - b);
  }

  lemma NewBlocksDrop(a: set<nat>, b: set<nat>, k: nat)
    requires k in b && k !in a
    ensures multiset(b - {k} - a) == multiset(b - a) - multiset{k}
  {
    assert b - {k} - a == (b - a) - {k};
  }

  /** A part already in place survives the placing of part `i`. */
  lemma EarlierPartKept(t: TypeTable, before: Mem, m1: Mem, m2: Mem, m3: Mem, slots: seq<Slot>, size: nat,
                        st: nat, b: nat, data: seq<Cell>, parts: seq<Value>, i: nat, k: nat)
    requires WellLaid(t) && WellPlaced(t, slots, size) && k < i < |slots|
    requires Filling(t, before, m1, slots, size, st, parts, i)
    requires Kept(m1, m2)
    requires b !in m1 && |data| == Size(t, slots[i].ty)
    requires m3 == Put(m2, Loc(st, slots[i].offset), data) - {b}
    ensures Holds(m3, t, slots[k].ty, Loc(st, slots[k].offset), parts[k])
    ensures Reach(m3, t, slots[k].ty, Loc(st, slots[k].offset), parts[k])
            == Reach(m1, t, slots[k].ty, Shift(Loc(st, 0), slots[k].offset), parts[k])
  {
    var root := Loc(st, 0);
    var l := Shift(root, slots[k].offset);
    assert l == Loc(st, slots[k].offset);
    var n := Size(t, slots[k].ty);
    ReachOfPart(m1, t, slots, root, parts, i, k);
    ReachIsNew(before, m1, st, ReachParts(m1, t, slots, root, parts, i));
    HeldInBounds(m1, t, slots[k].ty, l, parts[k]);
    PutElsewhere(m2, Loc(st, slots[i].offset), data, l, n);
    Transfer(m1, m3, t, slots[k].ty, l, l, parts[k]);
  }

  /** The part just read keeps its value when its cells move into their slot. */
  lemma NewPartPlaced(t: TypeTable, m1: Mem, m2: Mem, m3: Mem, ty: RType, l: Loc, b: nat, v: Value)
    requires WellLaid(t)
    requires FreshTree(t, m1, m2, ty, b, v)
    requires l.block in m1 && l.offset + Size(t, ty) <= |m1[l.block].cells|
    requires m3 == Put(m2, l, Range(m2, Loc(b, 0), Size(t, ty))) - {b}
    ensures Holds(m3, t, ty, l, v)
    ensures Reach(m3, t, ty, l, v) == Reach(m2, t, ty, Loc(b, 0), v)
  {
    var data := Range(m2, Loc(b, 0), Size(t, ty));
    ReachIsNew(m1, m2, b, Reach(m2, t, ty, Loc(b, 0), v));
    PutHere(m2, l, data);
    Transfer(m2, m3, t, ty, Loc(b, 0), l, v);
  }

  /** One iteration: read part `i` into a temporary, copy it into its slot, release the temporary. */
  lemma FillStep(t: TypeTable, before: Mem, m1: Mem, m2: Mem, m3: Mem, slots: seq<Slot>, size: nat,
                 st: nat, b: nat, parts: seq<Value>, i: nat, v: Value)
    requires WellLaid(t) && WellPlaced(t, slots, size) && i < |slots|
    requires Filling(t, before, m1, slots, size, st, parts, i)
    requires FreshTree(t, m1, m2, slots[i].ty, b, v)
    requires m3 == Put(m2, Loc(st, slots[i].offset), Range(m2, Loc(b, 0), Size(t, slots[i].ty))) - {b}
    ensures Filling(t, before, m3, slots, size, st, parts + [v], i + 1)
  {
    var root, ty, next := Loc(st, 0), slots[i].ty, parts + [v];
    var data := Range(m2, Loc(b, 0), Size(t, ty));
    forall k | 0 <= k < i
      ensures && Holds(m3, t, slots[k].ty, Shift(root, slots[k].offset), next[k])
              && Reach(m3, t, slots[k].ty, Shift(root, slots[k].offset), next[k])
                 == Reach(m1, t, slots[k].ty, Shift(root, slots[k].offset), next[k])
    {
      EarlierPartKept(t, before, m1, m2, m3, slots, size, st, b, data, parts, i, k);
      assert Loc(st, slots[k].offset) == Shift(root, slots[k].offset);
    }
    NewPartPlaced(t, m1, m2, m3, ty, Loc(st, slots[i].offset), b, v);
    assert Loc(st, slots[i].offset) == Shift(root, slots[i].offset);
    FillCount(t, before, m1, m2, m3, slots, st, b, parts, i, v);
  }

  lemma FillCount(t: TypeTable, before: Mem, m1: Mem, m2: Mem, m3: Mem, slots: seq<Slot>,
                  st: nat, b: nat, parts: seq<Value>, i: nat, v: Value)
    requires i < |slots| && |parts| == i
    requires HoldsParts(m1, t, slots, Loc(st, 0), parts, i)
    requires multiset(m1.Keys - before.Keys) == multiset{st} + ReachParts(m1, t, slots, Loc(st, 0), parts, i)
    requires before.Keys <= m1.Keys && FreshTree(t, m1, m2, slots[i].ty, b, v)
    requires m3.Keys == m2.Keys - {b}
    requires HoldsParts(m3, t, slots, Loc(st, 0), parts + [v], i + 1)
    requires forall k | 0 <= k < i ::
               Reach(m3, t, slots[k].ty, Shift(Loc(st, 0), slots[k].offset), parts[k])
               == Reach(m1, t, slots[k].ty, Shift(Loc(st, 0), slots[k].offset), parts[k])
    requires Reach(m3, t, slots[i].ty, Shift(Loc(st, 0), slots[i].offset), v)
             == Reach(m2, t, slots[i].ty, Loc(b, 0), v)
    ensures multiset(m3.Keys - before.Keys)
            == multiset{st} + ReachParts(m3, t, slots, Loc(st, 0), parts + [v], i + 1)
  {
    var root, next := Loc(st, 0), parts + [v];
    ReachPartsAgree(m1, m3, t, slots, root, root, parts, i);
    ReachPartsPrefix(m3, t, slots, root, parts, next, i);
    NewBlocksChain(before.Keys, m1.Keys, m2.Keys);
    NewBlocksDrop(before.Keys, m2.Keys, b);
    assert m3.Keys - before.Keys == m2.Keys - {b} - before.Keys;
  }

  lemma {:induction false} ReachPartsPrefix(m: Mem, t: TypeTable, slots: seq<Slot>, l: Loc, a: seq<Value>,
      b: seq<Value>, n: nat)
    requires n <= |a| <= |b| && b[..|a|] == a
    requires HoldsParts(m, t, slots, l, a, n) && HoldsParts(m, t, slots, l, b, n)
    ensures ReachParts(m, t, slots, l, b, n) == ReachParts(m, t, slots, l, a, n)
  {
    if n > 0 {
      assert b[n - 1] == a[n - 1];
      ReachPartsPrefix(m, t, slots, l, a, b, n - 1);
    }
  }

  lemma {:induction false} SpillPartsPrefix(t: TypeTable, slots: seq<Slot>, a: seq<Value>, b: seq<Value>, n: nat)
    requires n <= |a| <= |b| && b[..|a|] == a && n <= |slots|
    ensures SpillParts(t, slots, b, n) == SpillParts(t, slots, a, n)
  {
    if n > 0 {
      assert b[n - 1] == a[n - 1];
      SpillPartsPrefix(t, slots, a, b, n - 1);
    }
  }

  /** Once the loop of the specification has stopped early, it has stopped for good. */
  lemma {:induction false} StopsEarly(c: Context, ty: RType, j: Option<Json>, open: set<string>, i: nat, n: nat)
    requires IsCompound(c.table, ty) && i <= n <= |Parts(c.table, ty)|
    requires ty.Struct? && j.None? ==> ty.tag !in open
    requires !DeserializeParts(c, ty, j, open, i).Built?
    ensures DeserializeParts(c, ty, j, open, n) == DeserializeParts(c, ty, j, open, i)
    decreases n
  {
    if i < n {
      StopsEarly(c, ty, j, open, i, n - 1);
    }
  }

  /** What one more part does to the specification, and that reading it ends if the whole does. */
  lemma NextPart(c: Context, ty: RType, j: Option<Json>, open: set<string>, i: nat)
    requires IsCompound(c.table, ty) && i < |Parts(c.table, ty)|
    requires ty.Struct? && j.None? ==> ty.tag !in open
    requires DeserializeParts(c, ty, j, open, i).Built?
    requires !DeserializeParts(c, ty, j, open, |Parts(c.table, ty)|).Diverged?
    ensures var part := PartTree(c.table, ty, j, i);
            var next := DeserializeParts(c, ty, j, open, i + 1);
            if ty.Array? && part.None? then
              DeserializeParts(c, ty, j, open, |Parts(c.table, ty)|).Crashed?
            else
              var d := Deserialize(c, Parts(c.table, ty)[i].ty, part, OpenInside(ty, j, open), true);
              && !d.Diverged?
              && (d.Built? ==>
                    next == Built(VParts(DeserializeParts(c, ty, j, open, i).value.parts + [d.value])))
              && (!d.Built? ==> DeserializeParts(c, ty, j, open, |Parts(c.table, ty)|).Crashed?)
  {
    if !DeserializeParts(c, ty, j, open, i + 1).Built? {
      StopsEarly(c, ty, j, open, i + 1, |Parts(c.table, ty)|);
    }
  }

  /** The stored bytes of a wide integer are those of the narrowed one. */
  lemma NarrowedCells(n: int, w: nat)
    requires w <= 8
    ensures IntCells(Wrap(n, w), w) == IntCells(n, w)
    ensures IntCells(n, 8)[..w] == IntCells(n, w)
    ensures w > 0 ==> InSignedRange(Wrap(n, w), w)
  {
    EncodeWrap(n, w);
    EncodePrefix(n, w, 8);
    forall i | 0 <= i < w
      ensures IntCells(n, 8)[..w][i] == IntCells(n, w)[i]
      ensures IntCells(Wrap(n, w), w)[i] == IntCells(n, w)[i]
    {
      assert Encode(n, 8)[..w][i] == Encode(n, w)[i];
    }
    if w > 0 {
      WrapBounds(n, w);
    }
  }

  predicate IsLeaf(t: TypeTable, ty: RType, cells: seq<Cell>, v: Value) {
    && |cells| == Size(t, ty)
    && match ty
       case Builtin(b) => !IdOf(b).VoidId? && HoldsBuiltin(cells, IdOf(b), v)
       case Enum(tag) =>
         tag in t.enums && v.VInt? && InSignedRange(v.n, Size(t, ty)) && cells == IntCells(v.n, Size(t, ty))
       case Pointer(_) => v.VNull? && cells == IntCells(0, POINTER_SIZE)
       case _ => false
  }

  lemma LeafPlaced(t: TypeTable, before: Mem, after: Mem, ty: RType, b: nat, v: Value, data: seq<Cell>)
    requires b !in before && after == before[b := Block(BlockType(ty), 1, data)]
    requires IsLeaf(t, ty, data, v)
    ensures FreshTree(t, before, after, ty, b, v)
  {
    assert Range(after, Loc(b, 0), |data|) == data;
    assert after.Keys - before.Keys == {b};
  }

  /** A new pointer block in front of a tree makes a tree. */
  lemma PointerPlaced(t: TypeTable, before: Mem, mid: Mem, after: Mem, pointee: RType, target: nat, b: nat, v: Value)
    requires WellLaid(t) && FreshTree(t, before, mid, pointee, target, v)
    requires b !in mid && after == mid[b := Block(Pointer(pointee), 1, PointerCells(Loc(target, 0)))]
    ensures FreshTree(t, before, after, Pointer(pointee), b, VPtr(v))
  {
    var l := Loc(target, 0);
    PointeeKept(t, before, mid, after, pointee, target, b, v);
    PointerHeld(t, after, pointee, l, b, v);
    NewBlockAdded(before, mid, after, b);
    TreeMade(t, before, after, Pointer(pointee), b, VPtr(v), multiset{target} + Reach(mid, t, pointee, l, v));
  }

  lemma NewBlockAdded(before: Mem, mid: Mem, after: Mem, b: nat)
    requires before.Keys <= mid.Keys && b !in mid && after.Keys == mid.Keys + {b}
    ensures multiset(after.Keys - before.Keys) == multiset{b} + multiset(mid.Keys - before.Keys)
  {
    assert after.Keys - before.Keys == (mid.Keys - before.Keys) + {b};
  }

  lemma TreeMade(t: TypeTable, before: Mem, after: Mem, ty: RType, b: nat, v: Value, reach: multiset<nat>)
    requires b !in before && b in after
    requires after[b].refcount == 1 && after[b].ty == BlockType(ty)
    requires Size(t, ty) <= |after[b].cells| == BlockSize(t, ty)
    requires Holds(after, t, ty, Loc(b, 0), v) && Reach(after, t, ty, Loc(b, 0), v) == reach
    requires Kept(before, after)
    requires multiset(after.Keys - before.Keys) == multiset{b} + reach
    ensures FreshTree(t, before, after, ty, b, v)
  {
  }

  lemma PointeeKept(t: TypeTable, before: Mem, mid: Mem, after: Mem, pointee: RType, target: nat, b: nat, v: Value)
    requires WellLaid(t) && FreshTree(t, before, mid, pointee, target, v)
    requires b !in mid && after == mid[b := Block(Pointer(pointee), 1, PointerCells(Loc(target, 0)))]
    ensures Holds(after, t, pointee, Loc(target, 0), v)
    ensures Reach(after, t, pointee, Loc(target, 0), v) == Reach(mid, t, pointee, Loc(target, 0), v)
  {
    var l := Loc(target, 0);
    ReachIsNew(before, mid, target, Reach(mid, t, pointee, l, v));
    Transfer(mid, after, t, pointee, l, l, v);
  }

  lemma PointerHeld(t: TypeTable, m: Mem, pointee: RType, l: Loc, b: nat, v: Value)
    requires b in m && m[b].cells == PointerCells(l) && Holds(m, t, pointee, l, v)
    ensures Holds(m, t, Pointer(pointee), Loc(b, 0), VPtr(v))
    ensures Reach(m, t, Pointer(pointee), Loc(b, 0), VPtr(v)) == multiset{l.block} + Reach(m, t, pointee, l, v)
  {
    assert Range(m, Loc(b, 0), POINTER_SIZE) == PointerCells(l);
  }

  lemma FillingStarts(t: TypeTable, before: Mem, now: Mem, ty: RType, st: nat, size: nat)
    requires IsCompound(t, ty) && st !in before && Size(t, ty) <= size
    requires now == before[st := Block(ty, 1, seq(size, _ => Undef))]
    ensures Filling(t, before, now, Parts(t, ty), Size(t, ty), st, [], 0)
  {
    assert now.Keys - before.Keys == {st};
  }

  lemma FillingEnds(t: TypeTable, before: Mem, now: Mem, ty: RType, st: nat, parts: seq<Value>)
    requires IsCompound(t, ty)
    requires Filling(t, before, now, Parts(t, ty), Size(t, ty), st, parts, |Parts(t, ty)|)
    requires now[st].ty == ty && |now[st].cells| == BlockSize(t, ty)
    ensures FreshTree(t, before, now, ty, st, VParts(parts))
  {
    assert VParts(parts).parts == parts;
  }

  /** The loop invariant of the struct and array loops. */
  ghost predicate Progress(c: Context, ty: RType, j: Option<Json>, open: set<string>, before: Mem, spilled: nat,
                           now: Mem, spilled': nat, st: nat, parts: seq<Value>, i: nat)
  {
    && IsCompound(c.table, ty) && i <= |Parts(c.table, ty)| && |parts| == i
    && (ty.Struct? && j.None? ==> ty.tag !in open)
    && DeserializeParts(c, ty, j, open, i) == Built(VParts(parts))
    && Filling(c.table, before, now, Parts(c.table, ty), Size(c.table, ty), st, parts, i)
    && now[st].ty == ty && |now[st].cells| == BlockSize(c.table, ty)
    && spilled' == spilled + SpillParts(c.table, Parts(c.table, ty), parts, i)
  }

  /** What reading one part into `l` has done: a tree was built, its root copied out and released. */
  ghost predicate PartCopied(c: Context, before: Mem, spilled: nat, after: Mem, spilled': nat, ty: RType,
                             l: Loc, v: Value, mid: Mem, temporary: nat)
  {
    && FreshTree(c.table, before, mid, ty, temporary, v)
    && l.block in mid && l.offset + Size(c.table, ty) <= |mid[l.block].cells|
    && after == Put(mid, l, Range(mid, Loc(temporary, 0), Size(c.table, ty))) - {temporary}
    && spilled' == spilled + Spill(c.table, ty, v)
  }

  lemma ProgressStarts(c: Context, ty: RType, j: Option<Json>, open: set<string>, before: Mem, spilled: nat,
                       now: Mem, st: nat, size: nat)
    requires IsCompound(c.table, ty) && st !in before && Size(c.table, ty) <= size == BlockSize(c.table, ty)
    requires ty.Struct? && j.None? ==> ty.tag !in open
    requires now == before[st := Block(ty, 1, seq(size, _ => Undef))]
    ensures Progress(c, ty, j, open, before, spilled, now, spilled, st, [], 0)
  {
    FillingStarts(c.table, before, now, ty, st, size);
  }

  lemma ProgressStep(c: Context, ty: RType, j: Option<Json>, open: set<string>, before: Mem, spilled: nat,
                     m1: Mem, s1: nat, m3: Mem, s3: nat, st: nat, parts: seq<Value>, i: nat, v: Value,
                     mid: Mem, temporary: nat)
    requires WellLaid(c.table) && Progress(c, ty, j, open, before, spilled, m1, s1, st, parts, i)
    requires i < |Parts(c.table, ty)|
    requires PartCopied(c, m1, s1, m3, s3, Parts(c.table, ty)[i].ty, Loc(st, Parts(c.table, ty)[i].offset), v,
                        mid, temporary)
    requires DeserializeParts(c, ty, j, open, i + 1) == Built(VParts(parts + [v]))
    ensures Progress(c, ty, j, open, before, spilled, m3, s3, st, parts + [v], i + 1)
  {
    var slots := Parts(c.table, ty);
    PartsWellPlaced(c.table, ty);
    FillStep(c.table, before, m1, mid, m3, slots, Size(c.table, ty), st, temporary, parts, i, v);
    SpillPartsPrefix(c.table, slots, parts, parts + [v], i);
    assert mid[st].ty == ty && temporary != st;
  }

  lemma ProgressEnds(c: Context, ty: RType, j: Option<Json>, open: set<string>, before: Mem, spilled: nat,
                     now: Mem, spilled': nat, st: nat, parts: seq<Value>)
    requires IsCompound(c.table, ty)
    requires Progress(c, ty, j, open, before, spilled, now, spilled', st, parts, |Parts(c.table, ty)|)
    requires DeserializeDefault(c, ty, j, open) == DeserializeParts(c, ty, j, open, |Parts(c.table, ty)|)
    ensures Agrees(c, before, spilled, now, spilled', ty, DeserializeDefault(c, ty, j, open), Delivered(st))
  {
    FillingEnds(c.table, before, now, ty, st, parts);
  }

  lemma PutFresh(before: Mem, b: nat, ty: RType, data: seq<Cell>)
    ensures Put(before[b := Block(ty, 1, seq(|data|, _ => Undef))], Loc(b, 0), data) == before[b := Block(ty, 1, data)]
  {
    assert Overwrite(seq(|data|, _ => Undef), 0, data) == data;
  }

  // ----- Failures

  function NewBlocks(before: Mem, after: Mem): nat {
    |after.Keys - before.Keys|
  }

  lemma NothingNew(m: Mem)
    ensures NewBlocks(m, m) == 0
  {
    assert m.Keys - m.Keys == {};
  }

  /** No more is new than a failed build may leave. */
  ghost predicate LeavesBlocks(c: Context, before: Mem, after: Mem, ty: RType, j: Option<Json>, open: set<string>) {
    MayLeave(c, ty, j, open, NewBlocks(before, after))
  }

  /** A first allocation that fails changes nothing. */
  lemma NothingBuilt(c: Context, m: Mem, ty: RType, j: Option<Json>, open: set<string>)
    requires MayLeave(c, ty, j, open, 0)
    ensures Damaged(c, m, m, ty, j, open, Errored(None))
  {
    NothingNew(m);
  }

  lemma NothingRead(c: Context, m: Mem, ty: RType, j: Option<Json>, open: set<string>)
    ensures LeftByPart(c, m, m, ty, j, open)
  {
    NothingNew(m);
  }

  /** A build that met a failing call left no more than it may behind, or ended the process where it may. */
  ghost predicate Damaged(c: Context, before: Mem, after: Mem, ty: RType, j: Option<Json>, open: set<string>,
                          r: Outcome)
  {
    match r
    case Errored(_) => Kept(before, after) && LeavesBlocks(c, before, after, ty, j, open)
    case Crash => MayWreck(c, ty, j, open)
    case _ => false
  }

  /**
   * The account of a build that began with `held` handles. Without a failure it does what the
   * specification says. A build that returns holds no more handles than before, even on failure.
   */
  ghost predicate Settled(c: Context, before: Mem, spilled: nat, after: Mem, spilled': nat, ty: RType,
                            j: Option<Json>, open: set<string>, d: DeserializeResult,
                            failed: bool, held: multiset<Handle>, held': multiset<Handle>, r: Outcome)
  {
    && (!failed ==> Agrees(c, before, spilled, after, spilled', ty, d, r))
    && (failed ==> Damaged(c, before, after, ty, j, open, r))
    && (!r.Crash? ==> held' == held)
  }

  /** The same for one part, which `stop` tells to have ended the loop it is read in. */
  ghost predicate PartSettled(c: Context, before: Mem, spilled: nat, after: Mem, spilled': nat, ty: RType,
                                j: Option<Json>, open: set<string>, l: Loc, failed: bool, held: multiset<Handle>,
                                held': multiset<Handle>, stop: Option<Outcome>, mid: Mem, temporary: nat, v: Value)
  {
    match stop
    case None =>
      && !failed && held' == held && Deserialize(c, ty, j, open, true) == Built(v)
      && PartCopied(c, before, spilled, after, spilled', ty, l, v, mid, temporary)
    case Some(Crash) => if failed then MayWreck(c, ty, j, open) else !Deserialize(c, ty, j, open, true).Built?
    case Some(Errored(_)) => failed && held' == held && LeftByPart(c, before, after, ty, j, open)
    case _ => false
  }

  ghost predicate LeftByPart(c: Context, before: Mem, after: Mem, ty: RType, j: Option<Json>, open: set<string>) {
    Kept(before, after) && (NewBlocks(before, after) == 0 || LeavesBlocks(c, before, after, ty, j, open))
  }

  /**
   * A struct whose member `|parts|` failed is freed; what the earlier members point to, and the
   * rest of `mid`, stays as it was.
   */
  ghost predicate Abandoned(c: Context, ty: RType, j: Option<Json>, open: set<string>, before: Mem, mid: Mem,
                            after: Mem, st: nat, parts: seq<Value>)
  {
    && Entered(c, ty, j, open) && |parts| < |Parts(c.table, ty)|
    && DeserializeParts(c, ty, j, open, |parts|) == Built(VParts(parts))
    && Filling(c.table, before, mid, Parts(c.table, ty), Size(c.table, ty), st, parts, |parts|)
    && st !in after && forall k | k in mid && k != st :: k in after && after[k] == mid[k]
  }

  ghost predicate StructLeft(c: Context, ty: RType, j: Option<Json>, open: set<string>, before: Mem, after: Mem) {
    after == before || exists mid, st, parts :: Abandoned(c, ty, j, open, before, mid, after, st, parts)
  }

  /** The new blocks of a half-filled struct: itself, and what its members so far point to. */
  lemma FillingSize(c: Context, ty: RType, j: Option<Json>, open: set<string>, before: Mem, now: Mem, st: nat,
                    parts: seq<Value>)
    requires Entered(c, ty, j, open) && |parts| <= |Parts(c.table, ty)|
    requires DeserializeParts(c, ty, j, open, |parts|) == Built(VParts(parts))
    requires Filling(c.table, before, now, Parts(c.table, ty), Size(c.table, ty), st, parts, |parts|)
    ensures NewBlocks(before, now) == 1 + Copied(c, ty, j, open, |parts|)
  {
    var slots := Parts(c.table, ty);
    ReachPartsCounts(now, c.table, slots, Loc(st, 0), parts, |parts|);
    MultisetOfSet(now.Keys - before.Keys);
    assert |multiset(now.Keys - before.Keys)| == 1 + |ReachParts(now, c.table, slots, Loc(st, 0), parts, |parts|)|;
  }

  lemma MultisetOfSet(s: set<nat>)
    ensures |multiset(s)| == |s|
  {
    if s != {} {
      var x :| x in s;
      MultisetOfSet(s - {x});
      assert multiset(s) == multiset(s - {x}) + multiset{x};
    }
  }

  lemma SizeOfTwo(a: set<nat>, b: set<nat>)
    requires a !! b
    ensures |a + b| == |a| + |b|
  {
  }

  lemma FreedSize(before: set<nat>, mid: set<nat>, last: set<nat>, st: nat)
    requires before <= mid <= last && st in mid && st !in before
    ensures |last - {st} - before| + 1 == |mid - before| + |last - mid|
  {
    SizeOfTwo(mid - before, last - mid);
    assert (mid - before) + (last - mid) == last - before;
    SizeOfTwo(last - {st} - before, {st});
    assert (last - {st} - before) + {st} == last - before;
  }

  lemma FreedCount(c: Context, ty: RType, j: Option<Json>, open: set<string>, before: Mem, mid: Mem, last: Mem,
                   st: nat, parts: seq<Value>)
    requires Entered(c, ty, j, open) && |parts| < |Parts(c.table, ty)|
    requires DeserializeParts(c, ty, j, open, |parts|) == Built(VParts(parts))
    requires Filling(c.table, before, mid, Parts(c.table, ty), Size(c.table, ty), st, parts, |parts|)
    requires Kept(mid, last)
    ensures NewBlocks(before, last - {st}) == Copied(c, ty, j, open, |parts|) + NewBlocks(mid, last)
  {
    FillingSize(c, ty, j, open, before, mid, st, parts);
    FreedSize(before.Keys, mid.Keys, last.Keys, st);
    assert (last - {st}).Keys == last.Keys - {st};
  }

  /** Freeing the struct after a member failed leaves what it may. */
  lemma StructFreed(c: Context, ty: RType, j: Option<Json>, open: set<string>, before: Mem, mid: Mem, last: Mem,
                    st: nat, parts: seq<Value>)
    requires ty.Struct? && Entered(c, ty, j, open) && |parts| < |Parts(c.table, ty)|
    requires DeserializeParts(c, ty, j, open, |parts|) == Built(VParts(parts))
    requires Filling(c.table, before, mid, Parts(c.table, ty), Size(c.table, ty), st, parts, |parts|)
    requires LeftByPart(c, mid, last, Parts(c.table, ty)[|parts|].ty, PartTree(c.table, ty, j, |parts|),
                        OpenInside(ty, j, open))
    ensures LeavesBlocks(c, before, last - {st}, ty, j, open)
  {
    FreedCount(c, ty, j, open, before, mid, last, st, parts);
    StructLeaves(c, ty, j, open, |parts|, NewBlocks(mid, last), NewBlocks(before, last - {st}));
  }

  lemma StructGone(c: Context, ty: RType, j: Option<Json>, open: set<string>, before: Mem, mid: Mem, last: Mem,
                   st: nat, parts: seq<Value>)
    requires Entered(c, ty, j, open) && |parts| < |Parts(c.table, ty)| && Kept(mid, last)
    requires DeserializeParts(c, ty, j, open, |parts|) == Built(VParts(parts))
    requires Filling(c.table, before, mid, Parts(c.table, ty), Size(c.table, ty), st, parts, |parts|)
    ensures Kept(before, last - {st}) && StructLeft(c, ty, j, open, before, last - {st})
  {
    assert Abandoned(c, ty, j, open, before, mid, last - {st}, st, parts);
  }

  /** A pointer allocated after its pointee failed. */
  lemma PointerLeft(c: Context, pointee: RType, j: Option<Json>, open: set<string>, before: Mem, mid: Mem,
                    after: Mem, b: nat)
    requires j != Some(Null) && Kept(before, mid) && LeavesBlocks(c, before, mid, pointee, j, open)
    requires b !in mid && after.Keys == mid.Keys + {b} && Kept(mid, after)
    ensures Kept(before, after) && LeavesBlocks(c, before, after, Pointer(pointee), j, open)
  {
    OneMore(before.Keys, mid.Keys, b);
    PointerLeaves(c, pointee, j, open, NewBlocks(before, mid), NewBlocks(before, after));
  }

  lemma PointerDamage(c: Context, pointee: RType, j: Option<Json>, open: set<string>, before: Mem, mid: Mem,
                      after: Mem, b: nat, block: Block, target: Outcome)
    requires j != Some(Null) && target.Errored? && Damaged(c, before, mid, pointee, j, open, target)
    requires b !in mid && after == mid[b := block]
    ensures Damaged(c, before, after, Pointer(pointee), j, open, Errored(Some(b)))
  {
    assert after.Keys == mid.Keys + {b};
    PointerLeft(c, pointee, j, open, before, mid, after, b);
  }

  lemma OneMore(before: set<nat>, mid: set<nat>, b: nat)
    requires before <= mid && b !in mid
    ensures |mid + {b} - before| == |mid - before| + 1
  {
    assert mid + {b} - before == (mid - before) + {b};
  }
}

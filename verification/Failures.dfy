/** What a failed backend call can leave behind in the middle of a build. */
module Failures {
  import opened Bytes
  import opened Types
  import opened Values
  import opened JsonTree
  import opened Codec
  import opened Deserializer
  import opened DeserializerLaws

  /** The number of blocks that the first `i` members point to, directly or not. */
  function Copied(c: Context, ty: RType, j: Option<Json>, open: set<string>, i: nat): nat
    requires Entered(c, ty, j, open) && i <= |Parts(c.table, ty)|
  {
    var before := DeserializeParts(c, ty, j, open, i);
    if before.Built? then PointerCount(before.value) else 0
  }

  /**
   * A build that reports an error can leave `k` new blocks behind. A pointer is allocated even if
   * its pointee failed; a struct is freed, but not what its members already copied point to.
   */
  predicate MayLeave(c: Context, ty: RType, j: Option<Json>, open: set<string>, k: nat)
    decreases j.Some?, Tree(j), c.table.structs.Keys - open, ty, 1, 0
  {
    match ty
    case Builtin(b) => b != Void && k == 0
    case Enum(tag) => tag in c.table.enums && k == 0
    case Pointer(pointee) => if j == Some(Null) then k == 0 else k > 0 && MayLeave(c, pointee, j, open, k - 1)
    case Struct(tag) =>
      k == 0 || (Entered(c, ty, j, open) && MembersLeave(c, ty, j, open, |Parts(c.table, ty)|, k))
    case Array(_, _) => k == 0
    case Union(_) | Function | Typedef(_, _) | Unknown => false
  }

  /** One of the first `n` members fails: what the earlier ones point to is left, and what it leaves itself. */
  predicate MembersLeave(c: Context, ty: RType, j: Option<Json>, open: set<string>, n: nat, k: nat)
    requires Entered(c, ty, j, open) && n <= |Parts(c.table, ty)|
    decreases j.Some?, Tree(j), c.table.structs.Keys - open, ty, 0, n
  {
    n > 0 &&
    (|| MembersLeave(c, ty, j, open, n - 1, k)
     || k == Copied(c, ty, j, open, n - 1)
     || (k > Copied(c, ty, j, open, n - 1)
         && MayLeave(c, Parts(c.table, ty)[n - 1].ty, PartTree(c.table, ty, j, n - 1), OpenInside(ty, j, open),
                     k - Copied(c, ty, j, open, n - 1))))
  }

  lemma {:induction false} MemberLeaves(c: Context, ty: RType, j: Option<Json>, open: set<string>, i: nat, n: nat,
                                        rest: nat)
    requires Entered(c, ty, j, open) && i < n <= |Parts(c.table, ty)|
    requires rest == 0
             || MayLeave(c, Parts(c.table, ty)[i].ty, PartTree(c.table, ty, j, i), OpenInside(ty, j, open), rest)
    ensures MembersLeave(c, ty, j, open, n, Copied(c, ty, j, open, i) + rest)
    decreases n
  {
    if i < n - 1 {
      MemberLeaves(c, ty, j, open, i, n - 1, rest);
    }
  }

  /** A struct that fails at member `i`, which itself leaves `rest` blocks. */
  lemma StructLeaves(c: Context, ty: RType, j: Option<Json>, open: set<string>, i: nat, rest: nat, n: nat)
    requires ty.Struct? && Entered(c, ty, j, open) && i < |Parts(c.table, ty)|
    requires n == Copied(c, ty, j, open, i) + rest
    requires rest == 0
             || MayLeave(c, Parts(c.table, ty)[i].ty, PartTree(c.table, ty, j, i), OpenInside(ty, j, open), rest)
    ensures MayLeave(c, ty, j, open, n)
  {
    MemberLeaves(c, ty, j, open, i, |Parts(c.table, ty)|, rest);
  }

  /** A pointer whose pointee leaves `k` blocks leaves one more. */
  lemma PointerLeaves(c: Context, pointee: RType, j: Option<Json>, open: set<string>, k: nat, n: nat)
    requires j != Some(Null) && MayLeave(c, pointee, j, open, k) && n == k + 1
    ensures MayLeave(c, Pointer(pointee), j, open, n)
  {
  }

  /**
   * A failed call can end the process: an array's cleanup asserts, or gives back what is not its
   * own, and a pointer that cannot be allocated is stored through.
   */
  predicate MayWreck(c: Context, ty: RType, j: Option<Json>, open: set<string>)
    decreases j.Some?, Tree(j), c.table.structs.Keys - open, ty
  {
    match ty
    case Pointer(_) => j != Some(Null)
    case Struct(_) =>
      && Entered(c, ty, j, open)
      && exists i | 0 <= i < |Parts(c.table, ty)| ::
           MayWreck(c, Parts(c.table, ty)[i].ty, PartTree(c.table, ty, j, i), OpenInside(ty, j, open))
    case Array(_, _) => true
    case _ => false
  }

  lemma {:induction false} CopiedGrows(c: Context, ty: RType, j: Option<Json>, open: set<string>, i: nat, n: nat)
    requires Entered(c, ty, j, open) && i <= n <= |Parts(c.table, ty)|
    requires DeserializeParts(c, ty, j, open, n).Built?
    ensures DeserializeParts(c, ty, j, open, i).Built?
    ensures Copied(c, ty, j, open, i) <= Copied(c, ty, j, open, n)
    decreases n
  {
    if i < n {
      CopiedGrows(c, ty, j, open, i, n - 1);
      CopiedOneMore(c, ty, j, open, n - 1);
    }
  }

  lemma CopiedOneMore(c: Context, ty: RType, j: Option<Json>, open: set<string>, i: nat)
    requires Entered(c, ty, j, open) && i < |Parts(c.table, ty)|
    requires DeserializeParts(c, ty, j, open, i + 1).Built?
    ensures var slot, part, inside := Parts(c.table, ty)[i], PartTree(c.table, ty, j, i), OpenInside(ty, j, open);
            var d := Deserialize(c, slot.ty, part, inside, true);
            && DeserializeParts(c, ty, j, open, i).Built? && d.Built?
            && Copied(c, ty, j, open, i + 1) == Copied(c, ty, j, open, i) + PointerCount(d.value)
  {
    var parts := DeserializeParts(c, ty, j, open, i).value.parts;
    var d := Deserialize(c, Parts(c.table, ty)[i].ty, PartTree(c.table, ty, j, i), OpenInside(ty, j, open), true);
    CountPrefix(parts, parts + [d.value], i);
    assert DeserializeParts(c, ty, j, open, i + 1) == Built(VParts(parts + [d.value]));
    assert PointerCountOf(parts + [d.value], i + 1)
           == PointerCountOf(parts + [d.value], i) + PointerCount((parts + [d.value])[i]);
  }

  lemma {:induction false} CountPrefix(a: seq<Value>, b: seq<Value>, n: nat)
    requires n <= |a| <= |b| && b[..|a|] == a
    ensures PointerCountOf(b, n) == PointerCountOf(a, n)
  {
    if n > 0 {
      assert b[n - 1] == a[n - 1];
      CountPrefix(a, b, n - 1);
    }
  }

  /**
   * A failed build leaves at most as many blocks as the value would have had pointers; so one
   * without pointers leaves nothing.
   */
  lemma {:induction false} LeavesNoMore(c: Context, ty: RType, j: Option<Json>, open: set<string>, k: nat)
    requires Unhooked(c) && MayLeave(c, ty, j, open, k) && Deserialize(c, ty, j, open, true).Built?
    ensures k <= PointerCount(Deserialize(c, ty, j, open, true).value)
    decreases j.Some?, Tree(j), c.table.structs.Keys - open, ty
  {
    if ty.Pointer? && j != Some(Null) {
      OutcomeExactly(c, ty.pointee, j, open);
      LeavesNoMore(c, ty.pointee, j, open, k - 1);
    } else if ty.Struct? && k > 0 {
      var i, rest := MemberLeaving(c, ty, j, open, |Parts(c.table, ty)|, k);
      PartOfWhole(c, ty, j, open, i);
      if rest > 0 {
        LeavesNoMore(c, Parts(c.table, ty)[i].ty, PartTree(c.table, ty, j, i), OpenInside(ty, j, open), rest);
      }
    }
  }

  lemma PartOfWhole(c: Context, ty: RType, j: Option<Json>, open: set<string>, i: nat)
    requires Unhooked(c) && ty.Struct? && Entered(c, ty, j, open) && i < |Parts(c.table, ty)|
    requires Deserialize(c, ty, j, open, true).Built?
    ensures var slot, part, inside := Parts(c.table, ty)[i], PartTree(c.table, ty, j, i), OpenInside(ty, j, open);
            var d := Deserialize(c, slot.ty, part, inside, true);
            && d.Built?
            && Copied(c, ty, j, open, i) + PointerCount(d.value)
               <= PointerCount(Deserialize(c, ty, j, open, true).value)
  {
    assert Deserialize(c, ty, j, open, true) == DeserializeParts(c, ty, j, open, |Parts(c.table, ty)|);
    CopiedGrows(c, ty, j, open, i + 1, |Parts(c.table, ty)|);
    CopiedOneMore(c, ty, j, open, i);
  }

  /** The member at which a struct failed. */
  lemma {:induction false} MemberLeaving(c: Context, ty: RType, j: Option<Json>, open: set<string>, n: nat, k: nat)
    returns (i: nat, rest: nat)
    requires Entered(c, ty, j, open) && n <= |Parts(c.table, ty)| && MembersLeave(c, ty, j, open, n, k)
    ensures i < n && k == Copied(c, ty, j, open, i) + rest
    ensures rest > 0 ==>
              MayLeave(c, Parts(c.table, ty)[i].ty, PartTree(c.table, ty, j, i), OpenInside(ty, j, open), rest)
    decreases n
  {
    if MembersLeave(c, ty, j, open, n - 1, k) {
      i, rest := MemberLeaving(c, ty, j, open, n - 1, k);
    } else {
      i, rest := n - 1, k - Copied(c, ty, j, open, n - 1);
    }
  }

  /** Where the value has neither pointer nor array a failing call ends in an error, never in a wreck. */
  lemma {:induction false} FlatNeverWrecks(c: Context, ty: RType, j: Option<Json>, open: set<string>)
    requires Unhooked(c) && Deserialize(c, ty, j, open, true).Built?
    requires Flat(c.table, ty, Deserialize(c, ty, j, open, true).value)
    ensures !MayWreck(c, ty, j, open)
    decreases j.Some?, Tree(j), c.table.structs.Keys - open, ty
  {
    if ty.Struct? {
      var slots, v := Parts(c.table, ty), Deserialize(c, ty, j, open, true).value;
      PartsBuilt(c, ty, j, open, |slots|);
      forall i | 0 <= i < |slots|
        ensures !MayWreck(c, slots[i].ty, PartTree(c.table, ty, j, i), OpenInside(ty, j, open))
      {
        assert PartRead(c, ty, j, open, i, v.parts[i]);
        FlatNeverWrecks(c, slots[i].ty, PartTree(c.table, ty, j, i), OpenInside(ty, j, open));
      }
    }
  }

  ghost predicate Flat(t: TypeTable, ty: RType, v: Value) {
    All(t, ty, v, (x: RType) => false, (x: RType, y: Value) => !x.Pointer? && !x.Array?)
  }

  const PAIR := StructDef(16, [Member("p", Pointer(Builtin(Int)), 0), Member("q", Builtin(Int), 8)])
  const PAIR_TREE := Object(map["p" := Integer(1), "q" := Integer(2)])

  /**
   * Something can be left: a failed build of `struct { int *p; int q; }` leaves one block or none,
   * and one of its pointer alone always leaves the pointer.
   */
  lemma PairLeaves(c: Context, k: nat)
    requires Unhooked(c) && "pair" in c.table.structs && c.table.structs["pair"] == PAIR
    ensures MayLeave(c, Struct("pair"), Some(PAIR_TREE), {}, k) <==> k <= 1
    ensures MayLeave(c, Pointer(Builtin(Int)), Some(Integer(1)), {}, k) <==> k == 1
  {
    var ty, j := Struct("pair"), Some(PAIR_TREE);
    PairCopied(c);
    assert PartTree(c.table, ty, j, 0) == Some(Integer(1));
    assert Parts(c.table, ty)[0].ty == Pointer(Builtin(Int)) && Parts(c.table, ty)[1].ty == Builtin(Int);
    PointerLeavesOne(c, k);
    assert MembersLeave(c, ty, j, {}, 1, k) <==> k <= 1;
    assert k > 1 ==> !MayLeave(c, Builtin(Int), PartTree(c.table, ty, j, 1), {}, k - 1);
    assert MembersLeave(c, ty, j, {}, 2, k) <==> k <= 1;
  }

  lemma PointerLeavesOne(c: Context, k: nat)
    ensures MayLeave(c, Pointer(Builtin(Int)), Some(Integer(1)), {}, k) <==> k == 1
  {
    assert k > 0 ==> (MayLeave(c, Builtin(Int), Some(Integer(1)), {}, k - 1) <==> k - 1 == 0);
  }

  lemma PairCopied(c: Context)
    requires Unhooked(c) && "pair" in c.table.structs && c.table.structs["pair"] == PAIR
    ensures var ty, j := Struct("pair"), Some(PAIR_TREE);
            Entered(c, ty, j, {}) && Copied(c, ty, j, {}, 0) == 0 && Copied(c, ty, j, {}, 1) == 1
  {
    var ty, j := Struct("pair"), Some(PAIR_TREE);
    assert PartTree(c.table, ty, j, 0) == Some(Integer(1));
    assert Parts(c.table, ty)[0] == Slot(Pointer(Builtin(Int)), 0);
    var pointee := Deserialize(c, Builtin(Int), Some(Integer(1)), {}, true);
    assert pointee == DeserializeDefault(c, Builtin(Int), Some(Integer(1)), {});
    var p := Deserialize(c, Pointer(Builtin(Int)), Some(Integer(1)), {}, true);
    assert p == DeserializeDefault(c, Pointer(Builtin(Int)), Some(Integer(1)), {});
    assert p == Built(VPtr(pointee.value)) && pointee.value.VInt?;
    assert DeserializeParts(c, ty, j, {}, 0) == Built(VParts([]));
    assert DeserializeParts(c, ty, j, {}, 1) == Built(VParts([p.value]));
    assert PointerCountOf([p.value], 1) == PointerCount(p.value) == 1;
  }
}

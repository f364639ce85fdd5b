/** When the deserializer's recursion ends, at which call depth, and what makes it endless. */
module Termination {
  import opened Bytes
  import opened Types
  import opened Values
  import opened JsonTree
  import opened Codec
  import opened Deserializer
  import opened DeserializerLaws

  /** `_json_deserialize` without hooks, given up (`None`) once `depth` nested calls are not enough. */
  function Unrolled(c: Context, ty: RType, j: Option<Json>, depth: nat): Option<DeserializeResult>
    decreases depth, 0, 0
  {
    if depth == 0 then None
    else
      match ty
      case Builtin(b) => Some(DeserializeBuiltin(IdOf(b), j))
      case Enum(tag) =>
        if tag in c.table.enums then
          Some(Built(VInt(Wrap(IntegerValue(j), Width(IdOf(c.table.enums[tag].basic))))))
        else Some(Crashed)
      case Pointer(pointee) =>
        if j == Some(Null) then Some(Built(VNull))
        else (match Unrolled(c, pointee, j, depth - 1)
              case Some(Built(target)) => Some(Built(VPtr(target)))
              case Some(NoBlock) => Some(Built(VNull))
              case r => r)
      case Struct(tag) =>
        if tag !in c.table.structs then Some(Crashed)
        else UnrolledParts(c, ty, j, |Parts(c.table, ty)|, depth - 1)
      case Array(elem, length) =>
        if !ArrayAllocates(c.table, elem, length) then Some(Crashed)
        else UnrolledParts(c, ty, j, length, depth - 1)
      case Union(_) | Function | Typedef(_, _) => Some(Crashed)
      case Unknown => Some(NoBlock)
  }

  function UnrolledParts(c: Context, ty: RType, j: Option<Json>, n: nat, depth: nat): (r: Option<DeserializeResult>)
    requires IsCompound(c.table, ty) && n <= |Parts(c.table, ty)|
    ensures r.Some? && r.value.Built? ==> r.value.value.VParts? && |r.value.value.parts| == n
    decreases depth, 1, n
  {
    if n == 0 then Some(Built(VParts([])))
    else
      var before := UnrolledParts(c, ty, j, n - 1, depth);
      var part := PartTree(c.table, ty, j, n - 1);
      if before.None? || !before.value.Built? then before
      else if ty.Array? && part.None? then Some(Crashed)
      else
        match Unrolled(c, Parts(c.table, ty)[n - 1].ty, part, depth)
        case Some(Built(v)) => Some(Built(VParts(before.value.value.parts + [v])))
        case Some(NoBlock) => Some(Crashed)
        case r => r
  }

  /** Where the specification does not diverge, the unrolled recursion gives its result or gives up. */
  lemma {:induction false} UnrolledAgrees(c: Context, ty: RType, j: Option<Json>, open: set<string>, depth: nat)
    requires Unhooked(c) && !Deserialize(c, ty, j, open, true).Diverged?
    ensures Unrolled(c, ty, j, depth).None? || Unrolled(c, ty, j, depth) == Some(Deserialize(c, ty, j, open, true))
    decreases depth, 0, 0
  {
    if depth > 0 {
      if ty.Pointer? && j != Some(Null) {
        UnrolledAgrees(c, ty.pointee, j, open, depth - 1);
      } else if IsCompound(c.table, ty) && !Deserialize(c, ty, j, open, true).Crashed? {
        UnrolledPartsAgree(c, ty, j, open, |Parts(c.table, ty)|, depth - 1);
      } else if IsCompound(c.table, ty) && (ty.Array? ==> ArrayAllocates(c.table, ty.elem, ty.length)) {
        UnrolledPartsAgree(c, ty, j, open, |Parts(c.table, ty)|, depth - 1);
      }
    }
  }

  lemma {:induction false} UnrolledPartsAgree(c: Context, ty: RType, j: Option<Json>, open: set<string>,
      n: nat, depth: nat)
    requires Unhooked(c) && IsCompound(c.table, ty) && n <= |Parts(c.table, ty)|
    requires ty.Struct? && j.None? ==> ty.tag !in open
    requires !DeserializeParts(c, ty, j, open, n).Diverged?
    ensures var r := UnrolledParts(c, ty, j, n, depth);
            r.None? || r == Some(DeserializeParts(c, ty, j, open, n))
    decreases depth, 1, n
  {
    if n > 0 {
      UnrolledPartsAgree(c, ty, j, open, n - 1, depth);
      var part := PartTree(c.table, ty, j, n - 1);
      if DeserializeParts(c, ty, j, open, n - 1).Built? && !(ty.Array? && part.None?) {
        UnrolledAgrees(c, Parts(c.table, ty)[n - 1].ty, part, OpenInside(ty, j, open), depth);
      }
    }
  }

  lemma {:induction false} DeeperAgrees(c: Context, ty: RType, j: Option<Json>, depth: nat, more: nat)
    requires depth <= more && Unrolled(c, ty, j, depth).Some?
    ensures Unrolled(c, ty, j, more) == Unrolled(c, ty, j, depth)
    decreases depth, 0, 0
  {
    if ty.Pointer? && j != Some(Null) {
      DeeperAgrees(c, ty.pointee, j, depth - 1, more - 1);
    } else if IsCompound(c.table, ty) && (ty.Array? ==> ArrayAllocates(c.table, ty.elem, ty.length)) {
      DeeperPartsAgree(c, ty, j, |Parts(c.table, ty)|, depth - 1, more - 1);
    }
  }

  lemma {:induction false} DeeperPartsAgree(c: Context, ty: RType, j: Option<Json>, n: nat, depth: nat, more: nat)
    requires IsCompound(c.table, ty) && n <= |Parts(c.table, ty)|
    requires depth <= more && UnrolledParts(c, ty, j, n, depth).Some?
    ensures UnrolledParts(c, ty, j, n, more) == UnrolledParts(c, ty, j, n, depth)
    decreases depth, 1, n
  {
    if n > 0 {
      DeeperPartsAgree(c, ty, j, n - 1, depth, more);
      var part := PartTree(c.table, ty, j, n - 1);
      if UnrolledParts(c, ty, j, n - 1, depth).value.Built? && !(ty.Array? && part.None?) {
        DeeperAgrees(c, Parts(c.table, ty)[n - 1].ty, part, depth, more);
      }
    }
  }

  /** Where the specification does not diverge, some depth is enough. */
  lemma {:induction false} EnoughDepth(c: Context, ty: RType, j: Option<Json>, open: set<string>) returns (depth: nat)
    requires Unhooked(c) && !Deserialize(c, ty, j, open, true).Diverged?
    ensures Unrolled(c, ty, j, depth) == Some(Deserialize(c, ty, j, open, true))
    decreases j.Some?, Tree(j), c.table.structs.Keys - open, ty, 1, 0
  {
    depth := 1;
    if ty.Pointer? && j != Some(Null) {
      var d := EnoughDepth(c, ty.pointee, j, open);
      depth := d + 1;
    } else if IsCompound(c.table, ty) && (ty.Array? ==> ArrayAllocates(c.table, ty.elem, ty.length)) {
      var d := EnoughDepthForParts(c, ty, j, open, |Parts(c.table, ty)|);
      depth := d + 1;
    }
  }

  lemma {:induction false} EnoughDepthForParts(c: Context, ty: RType, j: Option<Json>, open: set<string>,
      n: nat) returns (depth: nat)
    requires Unhooked(c) && IsCompound(c.table, ty) && n <= |Parts(c.table, ty)|
    requires ty.Struct? && j.None? ==> ty.tag !in open
    requires !DeserializeParts(c, ty, j, open, n).Diverged?
    ensures UnrolledParts(c, ty, j, n, depth) == Some(DeserializeParts(c, ty, j, open, n))
    decreases j.Some?, Tree(j), c.table.structs.Keys - open, ty, 0, n
  {
    depth := 0;
    if n > 0 {
      var d := EnoughDepthForParts(c, ty, j, open, n - 1);
      depth := d;
      var part := PartTree(c.table, ty, j, n - 1);
      if DeserializeParts(c, ty, j, open, n - 1).Built? && !(ty.Array? && part.None?) {
        var e := EnoughDepth(c, Parts(c.table, ty)[n - 1].ty, part, OpenInside(ty, j, open));
        depth := if d < e then e else d;
        DeeperPartsAgree(c, ty, j, n - 1, d, depth);
        DeeperAgrees(c, Parts(c.table, ty)[n - 1].ty, part, e, depth);
      }
    }
  }

  /** No open struct is left within `depth` calls. */
  ghost predicate StillOpen(c: Context, open: set<string>, depth: nat) {
    forall tag, d: nat | tag in open && d <= depth :: Unrolled(c, Struct(tag), None, d).None?
  }

  /** Where the specification diverges, no depth is enough. */
  lemma {:induction false} NoDepthIsEnough(c: Context, ty: RType, j: Option<Json>, open: set<string>, depth: nat)
    requires Unhooked(c) && Deserialize(c, ty, j, open, true).Diverged?
    requires StillOpen(c, open, depth)
    ensures Unrolled(c, ty, j, depth).None?
    decreases depth, 0, 0
  {
    if depth > 0 {
      if ty.Pointer? {
        NoDepthIsEnough(c, ty.pointee, j, open, depth - 1);
      } else if ty.Array? {
        NoDepthIsEnoughForParts(c, ty, j, open, |Parts(c.table, ty)|, depth - 1);
      } else if ty.Struct? && !(j.None? && ty.tag in open) {
        var inside := OpenInside(ty, j, open);
        forall tag, d: nat | tag in inside && d <= depth - 1
          ensures Unrolled(c, Struct(tag), None, d).None?
        {
          if tag !in open {
            NoDepthIsEnough(c, ty, j, open, d);
          }
        }
        NoDepthIsEnoughForParts(c, ty, j, open, |Parts(c.table, ty)|, depth - 1);
      }
    }
  }

  lemma {:induction false} NoDepthIsEnoughForParts(c: Context, ty: RType, j: Option<Json>, open: set<string>,
      n: nat, depth: nat)
    requires Unhooked(c) && IsCompound(c.table, ty) && n <= |Parts(c.table, ty)|
    requires ty.Struct? && j.None? ==> ty.tag !in open
    requires DeserializeParts(c, ty, j, open, n).Diverged?
    requires StillOpen(c, OpenInside(ty, j, open), depth)
    ensures UnrolledParts(c, ty, j, n, depth).None?
    decreases depth, 1, n
  {
    if DeserializeParts(c, ty, j, open, n - 1).Diverged? {
      NoDepthIsEnoughForParts(c, ty, j, open, n - 1, depth);
    } else {
      UnrolledPartsAgree(c, ty, j, open, n - 1, depth);
      NoDepthIsEnough(c, Parts(c.table, ty)[n - 1].ty, PartTree(c.table, ty, j, n - 1), OpenInside(ty, j, open), depth);
    }
  }

  /**
   * No call depth is enough exactly if the walk re-enters a struct with nothing left to read; else
   * some depth is, and every depth that is enough gives the value of the specification.
   */
  lemma EndsExactly(c: Context, ty: RType, j: Option<Json>)
    requires Unhooked(c)
    ensures (forall depth: nat :: Unrolled(c, ty, j, depth).None?) <==> Reenters(c, ty, j, {})
    ensures forall depth: nat | Unrolled(c, ty, j, depth).Some? ::
              Unrolled(c, ty, j, depth) == Some(Deserialize(c, ty, j, {}, true))
  {
    OutcomeExactly(c, ty, j, {});
    if Deserialize(c, ty, j, {}, true).Diverged? {
      forall depth: nat
        ensures Unrolled(c, ty, j, depth).None?
      {
        NoDepthIsEnough(c, ty, j, {}, depth);
      }
    } else {
      var enough := EnoughDepth(c, ty, j, {});
      forall depth: nat
        ensures Unrolled(c, ty, j, depth).None? || Unrolled(c, ty, j, depth) == Some(Deserialize(c, ty, j, {}, true))
      {
        UnrolledAgrees(c, ty, j, {}, depth);
      }
    }
  }

  /** The condition matters: a list node read from an empty object asks for its successor for ever. */
  lemma ListNeverEnds(c: Context)
    requires Unhooked(c) && "node" in c.table.structs
    requires c.table.structs["node"] == StructDef(8, [Member("next", Pointer(Struct("node")), 0)])
    ensures forall depth: nat :: Unrolled(c, Struct("node"), Some(Object(map[])), depth).None?
  {
    var ty, j: Option<Json> := Struct("node"), Some(Object(map[]));
    assert Parts(c.table, ty)[0] == Slot(Pointer(ty), 0);
    assert PartTree(c.table, ty, None, 0).None? && PartTree(c.table, ty, j, 0).None?;
    assert OpenInside(ty, None, {}) == {"node"};
    assert Reenters(c, Pointer(ty), None, {"node"});
    assert PartsReenter(c, ty, None, {}, 1);
    assert Reenters(c, Pointer(ty), None, {});
    assert PartsReenter(c, ty, j, {}, 1);
    EndsExactly(c, ty, j);
  }

  // ----- Trees of the wrong kind

  /** Nothing in the tree can be read as the type. */
  predicate WrongKind(ty: RType, j: Json) {
    match ty
    case Builtin(Bool) => j != Boolean(true)
    case Builtin(Double) => !j.Real?
    case Builtin(_) | Enum(_) => !j.Integer?
    case Pointer(pointee) => j != Null && WrongKind(pointee, j)
    case Struct(_) => !j.Object?
    case Array(_, _) => !j.List?
    case _ => true
  }

  lemma {:induction false} WrongKindUnrolled(c: Context, ty: RType, j: Json, depth: nat)
    requires WrongKind(ty, j)
    ensures Unrolled(c, ty, Some(j), depth) == Unrolled(c, ty, None, depth)
    decreases depth
  {
    if depth > 0 {
      if ty.Pointer? {
        WrongKindUnrolled(c, ty.pointee, j, depth - 1);
      } else if IsCompound(c.table, ty) {
        WrongKindParts(c, ty, j, |Parts(c.table, ty)|, depth - 1);
      }
    }
  }

  lemma {:induction false} WrongKindParts(c: Context, ty: RType, j: Json, n: nat, depth: nat)
    requires IsCompound(c.table, ty) && WrongKind(ty, j) && n <= |Parts(c.table, ty)|
    ensures UnrolledParts(c, ty, Some(j), n, depth) == UnrolledParts(c, ty, None, n, depth)
  {
    if n > 0 {
      WrongKindParts(c, ty, j, n - 1, depth);
      assert PartTree(c.table, ty, Some(j), n - 1) == PartTree(c.table, ty, None, n - 1);
    }
  }

  /** A tree of the wrong kind is read just as an absent one: as zeroes, an abort or for ever. */
  lemma WrongKindReadsAsAbsent(c: Context, ty: RType, j: Json)
    requires Unhooked(c) && WrongKind(ty, j)
    ensures Deserialize(c, ty, Some(j), {}, true) == Deserialize(c, ty, None, {}, true)
    ensures var d := Deserialize(c, ty, Some(j), {}, true); d.Built? ==> Blank(d.value)
  {
    if Deserialize(c, ty, None, {}, true).Built? {
      AbsentReadsAsZero(c, ty, {});
    }
    OutcomeExactly(c, ty, Some(j), {});
    OutcomeExactly(c, ty, None, {});
    EndsExactly(c, ty, Some(j));
    EndsExactly(c, ty, None);
    forall depth: nat
      ensures Unrolled(c, ty, Some(j), depth) == Unrolled(c, ty, None, depth)
    {
      WrongKindUnrolled(c, ty, j, depth);
    }
  }

  // ----- Trees that supply everything

  /** The tree has an entry for every member and element the walk looks up. */
  predicate Supplies(t: TypeTable, ty: RType, j: Json)
    decreases j, ty
  {
    match ty
    case Pointer(pointee) => j == Null || Supplies(t, pointee, j)
    case Struct(_) | Array(_, _) =>
      IsCompound(t, ty) ==>
        forall i | 0 <= i < |Parts(t, ty)| ::
          PartTree(t, ty, Some(j), i).Some? && Supplies(t, Parts(t, ty)[i].ty, PartTree(t, ty, Some(j), i).value)
    case _ => true
  }

  /** On a tree that supplies everything the recursion ends. */
  lemma {:induction false} SuppliedEnds(c: Context, ty: RType, j: Json)
    requires Unhooked(c) && Supplies(c.table, ty, j)
    ensures !Deserialize(c, ty, Some(j), {}, true).Diverged?
    decreases j, ty, 1, 0
  {
    if ty.Pointer? && j != Null {
      SuppliedEnds(c, ty.pointee, j);
    } else if IsCompound(c.table, ty) {
      SuppliedPartsEnd(c, ty, j, |Parts(c.table, ty)|);
    }
  }

  lemma {:induction false} SuppliedPartsEnd(c: Context, ty: RType, j: Json, n: nat)
    requires Unhooked(c) && IsCompound(c.table, ty) && Supplies(c.table, ty, j) && n <= |Parts(c.table, ty)|
    ensures !DeserializeParts(c, ty, Some(j), {}, n).Diverged?
    decreases j, ty, 0, n
  {
    if n > 0 {
      SuppliedPartsEnd(c, ty, j, n - 1);
      SuppliedEnds(c, Parts(c.table, ty)[n - 1].ty, PartTree(c.table, ty, Some(j), n - 1).value);
    }
  }
}

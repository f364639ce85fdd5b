/** Laws of the deserializer on every tree, malformed ones included. */
module DeserializerLaws {
  import opened Bytes
  import opened Types
  import opened Values
  import opened JsonTree
  import opened Codec
  import opened Deserializer
  import opened RoundTrip

  // ----- When a value is built

  /** The loop over the parts of a struct or array is reached. */
  predicate Entered(c: Context, ty: RType, j: Option<Json>, open: set<string>) {
    && IsCompound(c.table, ty)
    && (ty.Array? ==> ArrayAllocates(c.table, ty.elem, ty.length))
    && (ty.Struct? && j.None? ==> ty.tag !in open)
  }

  /** A struct is entered that is being read already, with nothing left to read. */
  predicate Again(c: Context, ty: RType, j: Option<Json>, open: set<string>) {
    ty.Struct? && ty.tag in c.table.structs && j.None? && ty.tag in open
  }

  /**
   * The tree has all that the type asks for: no void, union, function or typedef is reached, each
   * array passes the allocator's assertion and has all its elements, and no struct is entered
   * again with nothing left to read.
   */
  predicate Reads(c: Context, ty: RType, j: Option<Json>, open: set<string>)
    decreases j.Some?, Tree(j), c.table.structs.Keys - open, ty, 1
  {
    match ty
    case Builtin(b) => b != Void
    case Enum(tag) => tag in c.table.enums
    case Pointer(pointee) => j == Some(Null) || pointee.Unknown? || Reads(c, pointee, j, open)
    case Struct(_) | Array(_, _) => Entered(c, ty, j, open) && PartsRead(c, ty, j, open, |Parts(c.table, ty)|)
    case Union(_) | Function | Typedef(_, _) | Unknown => false
  }

  /** The tree has all that the first `n` parts ask for. */
  predicate PartsRead(c: Context, ty: RType, j: Option<Json>, open: set<string>, n: nat)
    requires Entered(c, ty, j, open) && n <= |Parts(c.table, ty)|
    decreases j.Some?, Tree(j), c.table.structs.Keys - open, ty, 0
  {
    forall i | 0 <= i < n ::
      && Present(c.table, ty, j, i)
      && Reads(c, Parts(c.table, ty)[i].ty, PartTree(c.table, ty, j, i), OpenInside(ty, j, open))
  }

  /** The walk enters a struct again with nothing left to read, before anything else stops it. */
  predicate Reenters(c: Context, ty: RType, j: Option<Json>, open: set<string>)
    decreases j.Some?, Tree(j), c.table.structs.Keys - open, ty, 1, 0
  {
    match ty
    case Pointer(pointee) => j != Some(Null) && Reenters(c, pointee, j, open)
    case Struct(_) | Array(_, _) =>
      || Again(c, ty, j, open)
      || (Entered(c, ty, j, open) && PartsReenter(c, ty, j, open, |Parts(c.table, ty)|))
    case _ => false
  }

  /** One of the first `n` parts does, all before it having been read. */
  predicate PartsReenter(c: Context, ty: RType, j: Option<Json>, open: set<string>, n: nat)
    requires Entered(c, ty, j, open) && n <= |Parts(c.table, ty)|
    decreases j.Some?, Tree(j), c.table.structs.Keys - open, ty, 0, n
  {
    n > 0 &&
    (|| PartsReenter(c, ty, j, open, n - 1)
     || (&& PartsRead(c, ty, j, open, n - 1) && Present(c.table, ty, j, n - 1)
         && Reenters(c, Parts(c.table, ty)[n - 1].ty, PartTree(c.table, ty, j, n - 1), OpenInside(ty, j, open))))
  }

  /**
   * On every type and tree: a value is built exactly if the tree has what the type asks for,
   * and the recursion is endless exactly if it re-enters a struct with nothing left to read.
   */
  lemma {:induction false} OutcomeExactly(c: Context, ty: RType, j: Option<Json>, open: set<string>)
    requires Unhooked(c)
    ensures Deserialize(c, ty, j, open, true).Built? <==> Reads(c, ty, j, open)
    ensures Deserialize(c, ty, j, open, true).Diverged? <==> Reenters(c, ty, j, open)
    ensures Deserialize(c, ty, j, open, true).NoBlock? <==> ty.Unknown?
    decreases j.Some?, Tree(j), c.table.structs.Keys - open, ty, 1, 0
  {
    if ty.Pointer? {
      OutcomeExactly(c, ty.pointee, j, open);
    } else if Entered(c, ty, j, open) {
      PartsReadExactly(c, ty, j, open, |Parts(c.table, ty)|);
      PartsReenterExactly(c, ty, j, open, |Parts(c.table, ty)|);
      assert Deserialize(c, ty, j, open, true) == DeserializeParts(c, ty, j, open, |Parts(c.table, ty)|);
    }
  }

  lemma {:induction false} PartsReadExactly(c: Context, ty: RType, j: Option<Json>, open: set<string>, n: nat)
    requires Unhooked(c) && Entered(c, ty, j, open) && n <= |Parts(c.table, ty)|
    ensures DeserializeParts(c, ty, j, open, n).Built? <==> PartsRead(c, ty, j, open, n)
    decreases j.Some?, Tree(j), c.table.structs.Keys - open, ty, 0, n
  {
    if n > 0 {
      PartsReadExactly(c, ty, j, open, n - 1);
      if Present(c.table, ty, j, n - 1) {
        OutcomeExactly(c, Parts(c.table, ty)[n - 1].ty, PartTree(c.table, ty, j, n - 1), OpenInside(ty, j, open));
      }
    }
  }

  lemma {:induction false} PartsReenterExactly(c: Context, ty: RType, j: Option<Json>, open: set<string>, n: nat)
    requires Unhooked(c) && Entered(c, ty, j, open) && n <= |Parts(c.table, ty)|
    ensures DeserializeParts(c, ty, j, open, n).Diverged? <==> PartsReenter(c, ty, j, open, n)
    decreases j.Some?, Tree(j), c.table.structs.Keys - open, ty, 0, n
  {
    if n > 0 {
      PartsReadExactly(c, ty, j, open, n - 1);
      PartsReenterExactly(c, ty, j, open, n - 1);
      if Present(c.table, ty, j, n - 1) {
        OutcomeExactly(c, Parts(c.table, ty)[n - 1].ty, PartTree(c.table, ty, j, n - 1), OpenInside(ty, j, open));
      }
    }
  }

  // ----- Endless recursion where nothing fails

  /** Nothing that the walk can reach, in whatever order, fails an assertion. */
  predicate Harmless(c: Context, ty: RType, j: Option<Json>, open: set<string>)
    decreases j.Some?, Tree(j), c.table.structs.Keys - open, ty
  {
    match ty
    case Builtin(b) => b != Void
    case Enum(tag) => tag in c.table.enums
    case Pointer(pointee) => j == Some(Null) || pointee.Unknown? || Harmless(c, pointee, j, open)
    case Struct(_) | Array(_, _) =>
      || Again(c, ty, j, open)
      || (Entered(c, ty, j, open) &&
          forall i | 0 <= i < |Parts(c.table, ty)| ::
            && Present(c.table, ty, j, i)
            && Harmless(c, Parts(c.table, ty)[i].ty, PartTree(c.table, ty, j, i), OpenInside(ty, j, open)))
    case Union(_) | Function | Typedef(_, _) | Unknown => false
  }

  /** Somewhere a struct is entered again with nothing left to read. */
  predicate Loops(c: Context, ty: RType, j: Option<Json>, open: set<string>)
    decreases j.Some?, Tree(j), c.table.structs.Keys - open, ty
  {
    match ty
    case Pointer(pointee) => j != Some(Null) && Loops(c, pointee, j, open)
    case Struct(_) | Array(_, _) =>
      || Again(c, ty, j, open)
      || (Entered(c, ty, j, open) &&
          exists i | 0 <= i < |Parts(c.table, ty)| ::
            && Present(c.table, ty, j, i)
            && Loops(c, Parts(c.table, ty)[i].ty, PartTree(c.table, ty, j, i), OpenInside(ty, j, open)))
    case _ => false
  }

  lemma {:induction false} HarmlessReads(c: Context, ty: RType, j: Option<Json>, open: set<string>)
    requires Harmless(c, ty, j, open)
    ensures Reads(c, ty, j, open) <==> !Loops(c, ty, j, open)
    decreases j.Some?, Tree(j), c.table.structs.Keys - open, ty
  {
    if ty.Pointer? && j != Some(Null) && !ty.pointee.Unknown? {
      HarmlessReads(c, ty.pointee, j, open);
    } else if Entered(c, ty, j, open) {
      forall i | 0 <= i < |Parts(c.table, ty)|
        ensures var slot, part, inside := Parts(c.table, ty)[i], PartTree(c.table, ty, j, i), OpenInside(ty, j, open);
                Reads(c, slot.ty, part, inside) <==> !Loops(c, slot.ty, part, inside)
      {
        HarmlessReads(c, Parts(c.table, ty)[i].ty, PartTree(c.table, ty, j, i), OpenInside(ty, j, open));
      }
    }
  }

  lemma {:induction false} HarmlessNeverCrashes(c: Context, ty: RType, j: Option<Json>, open: set<string>)
    requires Unhooked(c) && Harmless(c, ty, j, open)
    ensures !Deserialize(c, ty, j, open, true).Crashed?
    decreases j.Some?, Tree(j), c.table.structs.Keys - open, ty, 1, 0
  {
    if ty.Pointer? {
      OutcomeExactly(c, ty.pointee, j, open);
      if j != Some(Null) && !ty.pointee.Unknown? {
        HarmlessNeverCrashes(c, ty.pointee, j, open);
      }
    } else if Entered(c, ty, j, open) {
      HarmlessPartsNeverCrash(c, ty, j, open, |Parts(c.table, ty)|);
    }
  }

  lemma {:induction false} HarmlessPartsNeverCrash(c: Context, ty: RType, j: Option<Json>, open: set<string>, n: nat)
    requires Unhooked(c) && Entered(c, ty, j, open) && Harmless(c, ty, j, open) && n <= |Parts(c.table, ty)|
    ensures !DeserializeParts(c, ty, j, open, n).Crashed?
    decreases j.Some?, Tree(j), c.table.structs.Keys - open, ty, 0, n
  {
    if n > 0 {
      HarmlessPartsNeverCrash(c, ty, j, open, n - 1);
      var slot, part, inside := Parts(c.table, ty)[n - 1], PartTree(c.table, ty, j, n - 1), OpenInside(ty, j, open);
      assert Present(c.table, ty, j, n - 1) && Harmless(c, slot.ty, part, inside);
      HarmlessNeverCrashes(c, slot.ty, part, inside);
      OutcomeExactly(c, slot.ty, part, inside);
    }
  }

  /** Where nothing can fail the order of the walk is no matter: it is endless exactly if it loops. */
  lemma EndlessExactly(c: Context, ty: RType, j: Option<Json>, open: set<string>)
    requires Unhooked(c) && Harmless(c, ty, j, open)
    ensures Deserialize(c, ty, j, open, true).Diverged? <==> Loops(c, ty, j, open)
    ensures Deserialize(c, ty, j, open, true).Built? <==> !Loops(c, ty, j, open)
  {
    HarmlessReads(c, ty, j, open);
    HarmlessNeverCrashes(c, ty, j, open);
    OutcomeExactly(c, ty, j, open);
  }

  // ----- What is built

  /** Whatever the tree, what is built is a value of the type. */
  lemma {:induction false} BuiltIsWellTyped(c: Context, ty: RType, j: Option<Json>, open: set<string>)
    requires Unhooked(c) && WellLaid(c.table)
    requires Deserialize(c, ty, j, open, true).Built?
    ensures WellTyped(c.table, ty, Deserialize(c, ty, j, open, true).value)
    decreases j.Some?, Tree(j), c.table.structs.Keys - open, ty
  {
    var v := Deserialize(c, ty, j, open, true).value;
    if ty.Builtin? && IsIntegral(IdOf(ty.basic)) {
      WrapBounds(IntegerValue(j), Width(IdOf(ty.basic)));
    } else if ty.Enum? {
      WrapBounds(IntegerValue(j), Width(IdOf(c.table.enums[ty.tag].basic)));
    } else if ty.Pointer? && v.VPtr? {
      BuiltIsWellTyped(c, ty.pointee, j, open);
    } else if IsCompound(c.table, ty) {
      PartsBuilt(c, ty, j, open, |Parts(c.table, ty)|);
      forall i | 0 <= i < |v.parts|
        ensures WellTyped(c.table, Parts(c.table, ty)[i].ty, v.parts[i])
      {
        assert PartRead(c, ty, j, open, i, v.parts[i]);
        BuiltIsWellTyped(c, Parts(c.table, ty)[i].ty, PartTree(c.table, ty, j, i), OpenInside(ty, j, open));
      }
    }
  }

  /** Zero, false or null all the way down. */
  predicate Blank(v: Value) {
    match v
    case VInt(n) => n == 0
    case VReal(bits) => bits == 0
    case VBool(b) => !b
    case VNull => true
    case VPtr(target) => Blank(target)
    case VParts(parts) => forall i | 0 <= i < |parts| :: Blank(parts[i])
    case VOpaque(_) | VUser(_) => false
  }

  /** With nothing to read, all that is built is zero. */
  lemma {:induction false} AbsentReadsAsZero(c: Context, ty: RType, open: set<string>)
    requires Unhooked(c) && Deserialize(c, ty, None, open, true).Built?
    ensures Blank(Deserialize(c, ty, None, open, true).value)
    decreases c.table.structs.Keys - open, ty
  {
    var v := Deserialize(c, ty, None, open, true).value;
    if ty.Builtin? && IsIntegral(IdOf(ty.basic)) {
      DivModUnique(0, Pow256(Width(IdOf(ty.basic))), 0, 0);
    } else if ty.Enum? {
      DivModUnique(0, Pow256(Width(IdOf(c.table.enums[ty.tag].basic))), 0, 0);
    } else if ty.Pointer? && v.VPtr? {
      AbsentReadsAsZero(c, ty.pointee, open);
    } else if IsCompound(c.table, ty) {
      PartsBuilt(c, ty, None, open, |Parts(c.table, ty)|);
      forall i | 0 <= i < |v.parts|
        ensures Blank(v.parts[i])
      {
        assert PartRead(c, ty, None, open, i, v.parts[i]);
        AbsentReadsAsZero(c, Parts(c.table, ty)[i].ty, OpenInside(ty, None, open));
      }
    }
  }

  /** A chain of pointers to an unknown type; its last pointer is always built as NULL. */
  predicate EndsUnknown(ty: RType) {
    ty.Pointer? && (ty.pointee.Unknown? || EndsUnknown(ty.pointee))
  }

  ghost predicate NoUnknownChain(c: Context, ty: RType, v: Value) {
    All(c.table, ty, v, (t: RType) => false, (t: RType, x: Value) => !(x.VPtr? && EndsUnknown(t)))
  }

  /**
   * Whatever the tree, a pointer that is built heads a chain ending in NULL only if the chain's
   * type ends in an unknown type; so any other built value survives the next trip unchanged.
   */
  lemma {:induction false} BuiltCollapsesExactly(c: Context, ty: RType, j: Option<Json>, open: set<string>)
    requires Unhooked(c)
    requires Deserialize(c, ty, j, open, true).Built?
    ensures var v := Deserialize(c, ty, j, open, true).value;
            && (NoCollapse(c, ty, v) <==> NoUnknownChain(c, ty, v))
            && (NullChain(c, ty, v) <==> ty.Pointer? && (j == Some(Null) || EndsUnknown(ty)))
    decreases j.Some?, Tree(j), c.table.structs.Keys - open, ty
  {
    var v := Deserialize(c, ty, j, open, true).value;
    if ty.Pointer? && j != Some(Null) {
      OutcomeExactly(c, ty.pointee, j, open);
      if !ty.pointee.Unknown? {
        BuiltCollapsesExactly(c, ty.pointee, j, open);
        assert NoUnknownChain(c, ty, v) <==> !EndsUnknown(ty) && NoUnknownChain(c, ty.pointee, v.target);
        assert NoCollapse(c, ty, v) <==> !NullChain(c, ty, v) && NoCollapse(c, ty.pointee, v.target);
      }
    } else if IsCompound(c.table, ty) {
      PartsBuilt(c, ty, j, open, |Parts(c.table, ty)|);
      forall i | 0 <= i < |v.parts|
        ensures NoCollapse(c, Parts(c.table, ty)[i].ty, v.parts[i])
                <==> NoUnknownChain(c, Parts(c.table, ty)[i].ty, v.parts[i])
      {
        assert PartRead(c, ty, j, open, i, v.parts[i]);
        BuiltCollapsesExactly(c, Parts(c.table, ty)[i].ty, PartTree(c.table, ty, j, i), OpenInside(ty, j, open));
      }
    }
  }

  // ----- Leaves

  /** An integer of any size is stored by its low bytes, as C converts it. */
  lemma IntegerNarrows(c: Context, basic: BasicType, n: Int64, open: set<string>)
    requires Unhooked(c) && IsIntegral(IdOf(basic))
    ensures var d, w := Deserialize(c, Builtin(basic), Some(Integer(n)), open, true), Width(IdOf(basic));
            d.Built? && d.value.VInt? && InSignedRange(d.value.n, w) && Encode(d.value.n, w) == Encode(n, w)
  {
    EncodeWrap(n, Width(IdOf(basic)));
    WrapBounds(n, Width(IdOf(basic)));
  }

  /** So is one read as an enum, enumerator or not. */
  lemma EnumNarrows(c: Context, tag: string, n: Int64, open: set<string>)
    requires Unhooked(c) && WellLaid(c.table) && tag in c.table.enums
    ensures var d, w := Deserialize(c, Enum(tag), Some(Integer(n)), open, true), Size(c.table, Enum(tag));
            d.Built? && d.value.VInt? && InSignedRange(d.value.n, w) && Encode(d.value.n, w) == Encode(n, w)
  {
    EncodeWrap(n, Size(c.table, Enum(tag)));
    WrapBounds(n, Size(c.table, Enum(tag)));
  }

  /** Booleans and doubles are read as they are written; a bool is true for no other tree. */
  lemma LeavesRead(c: Context, j: Option<Json>, open: set<string>)
    requires Unhooked(c)
    ensures forall b :: Deserialize(c, Builtin(Bool), Some(Boolean(b)), open, true) == Built(VBool(b))
    ensures forall bits :: Deserialize(c, Builtin(Double), Some(Real(bits)), open, true) == Built(VReal(bits))
    ensures !(j.Some? && j.value.Boolean?) ==> Deserialize(c, Builtin(Bool), j, open, true) == Built(VBool(false))
    ensures !(j.Some? && j.value.Real?) ==> Deserialize(c, Builtin(Double), j, open, true) == Built(VReal(0))
  {
  }

  // ----- Whose hook

  /** What `ty`'s own deserializer makes of `j`, its continuation reading `j` without it. */
  function HookResult(c: Context, ty: RType, j: Option<Json>, open: set<string>): DeserializeResult
    requires c.typeName(ty) in c.hooks && c.hooks[c.typeName(ty)].deserializer.Some?
  {
    c.hooks[c.typeName(ty)].deserializer.value(ty, j, DeserializeDefault(c, ty, j, open))
  }

  /** The hook of a type is asked for every tree, null and absent ones included, and has the last word. */
  lemma HookDecides(c: Context, ty: RType, j: Option<Json>, open: set<string>)
    requires !ty.Unknown? && c.typeName(ty) in c.hooks && c.hooks[c.typeName(ty)].deserializer.Some?
    ensures Deserialize(c, ty, j, open, true) == HookResult(c, ty, j, open)
  {
    assert Deserialize(c, ty, j, open, false) == DeserializeDefault(c, ty, j, open);
  }

  /** Only an unknown type is given up before its hook is asked. */
  lemma UnknownAsksNoHook(c: Context, j: Option<Json>, open: set<string>, doHook: bool)
    ensures Deserialize(c, Unknown, j, open, doHook) == NoBlock
  {
  }

  /** A hooked part of a struct or array is what its hook makes of the part's tree, or of none. */
  lemma PartHookDecides(c: Context, ty: RType, j: Option<Json>, open: set<string>, i: nat)
    requires Entered(c, ty, j, open) && i < |Parts(c.table, ty)|
    requires !Parts(c.table, ty)[i].ty.Unknown? && HasDeserializer(c, Parts(c.table, ty)[i].ty)
    requires DeserializeDefault(c, ty, j, open).Built?
    ensures var d := DeserializeDefault(c, ty, j, open);
            && d.value.VParts? && |d.value.parts| == |Parts(c.table, ty)|
            && HookResult(c, Parts(c.table, ty)[i].ty, PartTree(c.table, ty, j, i), OpenInside(ty, j, open))
               == Built(d.value.parts[i])
  {
    var d := DeserializeDefault(c, ty, j, open);
    assert d == DeserializeParts(c, ty, j, open, |Parts(c.table, ty)|);
    PartsBuilt(c, ty, j, open, |Parts(c.table, ty)|);
    assert PartRead(c, ty, j, open, i, d.value.parts[i]);
    HookDecides(c, Parts(c.table, ty)[i].ty, PartTree(c.table, ty, j, i), OpenInside(ty, j, open));
  }

  /** A pointer's own null is read before the pointee's hook is asked; any other tree is the hook's. */
  lemma PointeeHookDecides(c: Context, pointee: RType, j: Option<Json>, open: set<string>)
    requires !HasDeserializer(c, Pointer(pointee)) && !pointee.Unknown? && HasDeserializer(c, pointee)
    ensures Deserialize(c, Pointer(pointee), Some(Null), open, true) == Built(VNull)
    ensures j != Some(Null) && HookResult(c, pointee, j, open).Built? ==>
              Deserialize(c, Pointer(pointee), j, open, true) == Built(VPtr(HookResult(c, pointee, j, open).value))
  {
    HookDecides(c, pointee, j, open);
    assert Deserialize(c, Pointer(pointee), j, open, true) == DeserializeDefault(c, Pointer(pointee), j, open);
  }

  // ----- The top-level call

  /** A tree that names a type but has no value is read as an absent one; one that names none is not read. */
  lemma ValueMissing(c: Context, fields: map<string, Json>)
    ensures "type" in fields && fields["type"].Text? && |c.typesByName(fields["type"].s)| > 0 && "value" !in fields ==>
              TopDeserialize(c, Object(fields)) == Deserialize(c, c.typesByName(fields["type"].s)[0], None, {}, true)
    ensures "type" !in fields || !fields["type"].Text? ==> TopDeserialize(c, Object(fields)) == NoBlock
  {
  }
}

/** The two walks composed: what survives a trip through JSON. */
module RoundTrip {
  import opened Bytes
  import opened Types
  import opened Values
  import opened JsonTree
  import opened Codec
  import opened Serializer
  import opened Deserializer

  predicate Hookless(c: Context, ty: RType) {
    !HasSerializer(c, ty) && !HasDeserializer(c, ty)
  }

  /** The hooks of `ty` print `v` as a tree other than null and read `v` back from it. */
  predicate HooksInvert(c: Context, ty: RType, v: Value) {
    && HasSerializer(c, ty) && HasDeserializer(c, ty)
    && var hook := c.hooks[c.typeName(ty)];
       var printed := hook.serializer.value(ty, v, Serialize(c, ty, v, false));
       && printed.Emitted? && printed.json != Null
       && hook.deserializer.value(ty, Some(printed.json), Deserialize(c, ty, Some(printed.json), {}, false))
          == Built(v)
  }

  /** Structs have members, under distinct names; arrays pass the allocator's size assertion. */
  predicate CompoundSupported(t: TypeTable, ty: RType)
    requires IsCompound(t, ty)
  {
    if ty.Array? then ArrayAllocates(t, ty.elem, ty.length)
    else |t.structs[ty.tag].members| > 0 && DistinctNames(t.structs[ty.tag].members)
  }

  /**
   * The values the codec represents: no union, function, void, unknown or typedef and no empty
   * struct outside a hook, finite doubles, enums that store one of their enumerators.
   */
  predicate Codable(c: Context, ty: RType, v: Value)
    decreases v, ty
  {
    !ty.Unknown? &&
    if !Hookless(c, ty) then HooksInvert(c, ty, v)
    else
      match ty
      case Builtin(b) => !IdOf(b).VoidId? && WellTyped(c.table, ty, v) && (v.VReal? ==> IsFinite(v.bits))
      case Enum(tag) => WellTyped(c.table, ty, v) && v.n in c.table.enums[tag].values
      case Pointer(pointee) => v.VNull? || (v.VPtr? && Codable(c, pointee, v.target))
      case Struct(_) | Array(_, _) =>
        && IsCompound(c.table, ty) && v.VParts? && |v.parts| == |Parts(c.table, ty)|
        && CompoundSupported(c.table, ty)
        && forall i | 0 <= i < |v.parts| :: Codable(c, Parts(c.table, ty)[i].ty, v.parts[i])
      case _ => false
  }

  /** A chain of pointers that ends in NULL; all of it prints as one JSON null. */
  predicate NullChain(c: Context, ty: RType, v: Value)
    decreases v
  {
    Hookless(c, ty) && ty.Pointer? && (v.VNull? || (v.VPtr? && NullChain(c, ty.pointee, v.target)))
  }

  /** `v` with every non-null pointer that heads a chain ending in NULL cut to NULL itself. */
  function Collapse(c: Context, ty: RType, v: Value): Value
    decreases v, ty
  {
    if !Hookless(c, ty) then v
    else
      match ty
      case Pointer(pointee) =>
        if NullChain(c, ty, v) then VNull
        else if v.VPtr? then VPtr(Collapse(c, pointee, v.target)) else v
      case Struct(_) | Array(_, _) =>
        if IsCompound(c.table, ty) && v.VParts? && |v.parts| == |Parts(c.table, ty)| then
          VParts(seq(|v.parts|, i requires 0 <= i < |v.parts| =>
            Collapse(c, Parts(c.table, ty)[i].ty, v.parts[i])))
        else v
      case _ => v
  }

  /** No non-null pointer of `v` heads a chain of pointers that ends in NULL. */
  ghost predicate NoCollapse(c: Context, ty: RType, v: Value) {
    All(c.table, ty, v, t => !Hookless(c, t), (t: RType, x: Value) => !(x.VPtr? && NullChain(c, t, x)))
  }

  /** `Collapse` changes exactly the values with a pointer that heads a chain ending in NULL. */
  lemma {:induction false} CollapseFixed(c: Context, ty: RType, v: Value)
    requires Codable(c, ty, v)
    ensures Collapse(c, ty, v) == v <==> NoCollapse(c, ty, v)
    decreases v, ty
  {
    if Hookless(c, ty) {
      if ty.Pointer? && v.VPtr? && !NullChain(c, ty, v) {
        CollapseFixed(c, ty.pointee, v.target);
      } else if ty.Struct? || ty.Array? {
        var slots := Parts(c.table, ty);
        forall i | 0 <= i < |v.parts|
          ensures Collapse(c, slots[i].ty, v.parts[i]) == v.parts[i] <==> NoCollapse(c, slots[i].ty, v.parts[i])
        {
          CollapseFixed(c, slots[i].ty, v.parts[i]);
        }
        var cut := Collapse(c, ty, v);
        assert cut.VParts? && |cut.parts| == |v.parts|;
        assert cut == v <==> forall i | 0 <= i < |v.parts| :: cut.parts[i] == v.parts[i];
      }
    }
  }

  /** A codable value prints as a tree from which its collapse is read back. */
  lemma {:induction false} PrintThenRead(c: Context, ty: RType, v: Value)
    requires Codable(c, ty, v)
    ensures Serialize(c, ty, v, true).Emitted?
    ensures Serialize(c, ty, v, true).json == Null <==> NullChain(c, ty, v)
    ensures Deserialize(c, ty, Some(Serialize(c, ty, v, true).json), {}, true) == Built(Collapse(c, ty, v))
    decreases v, ty, 1
  {
    if Hookless(c, ty) {
      match ty
      case Builtin(b) =>
        if IsIntegral(IdOf(b)) {
          NarrowIsInt64(v.n, Width(IdOf(b)));
          WrapInRange(v.n, Width(IdOf(b)));
        }
      case Enum(tag) =>
        WrapInRange(v.n, Width(IdOf(c.table.enums[tag].basic)));
      case Pointer(pointee) =>
        if v.VPtr? {
          PrintThenRead(c, pointee, v.target);
        }
      case Struct(tag) =>
        PrintThenReadParts(c, ty, v);
      case Array(elem, length) =>
        PrintThenReadParts(c, ty, v);
    }
  }

  lemma {:induction false} MembersPrinted(c: Context, ms: seq<Member>, parts: seq<Value>, js: seq<Json>, n: nat)
    requires n <= |js| == |parts| == |ms| && DistinctNames(ms)
    requires forall i | 0 <= i < n :: Serialize(c, ms[i].ty, parts[i], true) == Emitted(js[i])
    ensures SerializeMembers(c, ms, parts, n).Some?
    ensures var obj := SerializeMembers(c, ms, parts, n).value;
            forall i | 0 <= i < n :: ms[i].name in obj && obj[ms[i].name] == js[i]
  {
    if n > 0 {
      MembersPrinted(c, ms, parts, js, n - 1);
      var before := SerializeMembers(c, ms, parts, n - 1).value;
      assert SerializeMembers(c, ms, parts, n) == Some(before[ms[n - 1].name := js[n - 1]]);
    }
  }

  lemma {:induction false} ElementsPrinted(c: Context, elem: RType, parts: seq<Value>, js: seq<Json>, n: nat)
    requires n <= |js| == |parts|
    requires forall i | 0 <= i < n :: Serialize(c, elem, parts[i], true) == Emitted(js[i])
    ensures SerializeElements(c, elem, parts, n) == Some(js[..n])
  {
    if n > 0 {
      ElementsPrinted(c, elem, parts, js, n - 1);
      assert js[..n] == js[..n - 1] + [js[n - 1]];
    }
  }

  /** If each part prints, the compound value prints as a tree with the parts in their places. */
  lemma CompoundPrinted(c: Context, ty: RType, v: Value, js: seq<Json>)
    requires Codable(c, ty, v) && Hookless(c, ty) && IsCompound(c.table, ty)
    requires |js| == |v.parts|
    requires forall i | 0 <= i < |js| :: Serialize(c, Parts(c.table, ty)[i].ty, v.parts[i], true) == Emitted(js[i])
    ensures Serialize(c, ty, v, true).Emitted?
    ensures var j := Serialize(c, ty, v, true).json;
            j != Null && forall i | 0 <= i < |js| :: PartTree(c.table, ty, Some(j), i) == Some(js[i])
  {
    if ty.Array? {
      assert forall i | 0 <= i < |js| :: Parts(c.table, ty)[i].ty == ty.elem;
      ElementsPrinted(c, ty.elem, v.parts, js, |js|);
      assert SerializeDefault(c, ty, v) == Emitted(List(js[..|js|]));
    } else {
      var ms := c.table.structs[ty.tag].members;
      assert forall i | 0 <= i < |js| :: Parts(c.table, ty)[i].ty == ms[i].ty;
      MembersPrinted(c, ms, v.parts, js, |js|);
      var obj := SerializeMembers(c, ms, v.parts, |js|).value;
      assert ms[0].name in obj.Keys;
      assert SerializeDefault(c, ty, v) == Emitted(Object(obj));
    }
  }

  lemma {:induction false} PrintThenReadParts(c: Context, ty: RType, v: Value)
    requires Codable(c, ty, v) && Hookless(c, ty) && IsCompound(c.table, ty)
    ensures Serialize(c, ty, v, true).Emitted?
    ensures Serialize(c, ty, v, true).json != Null
    ensures Deserialize(c, ty, Some(Serialize(c, ty, v, true).json), {}, true) == Built(Collapse(c, ty, v))
    decreases v, ty, 0
  {
    var slots, parts := Parts(c.table, ty), v.parts;
    forall i | 0 <= i < |parts|
      ensures Serialize(c, slots[i].ty, parts[i], true).Emitted?
      ensures Deserialize(c, slots[i].ty, Some(Serialize(c, slots[i].ty, parts[i], true).json), {}, true)
              == Built(Collapse(c, slots[i].ty, parts[i]))
    {
      PrintThenRead(c, slots[i].ty, parts[i]);
    }
    var js := seq(|parts|, i requires 0 <= i < |parts| => Serialize(c, slots[i].ty, parts[i], true).json);
    CompoundPrinted(c, ty, v, js);
    var j := Serialize(c, ty, v, true).json;
    var out := Collapse(c, ty, v).parts;
    assert forall i | 0 <= i < |out| :: PartRead(c, ty, Some(j), {}, i, out[i]);
    PartsExactly(c, ty, Some(j), {}, out);
    assert DeserializeDefault(c, ty, Some(j), {}) == DeserializeParts(c, ty, Some(j), {}, |out|);
  }

  /** Deserializing the serialization of a codable value gives it back exactly when nothing collapses. */
  lemma RoundTripExact(c: Context, ty: RType, v: Value)
    requires Codable(c, ty, v)
    ensures Serialize(c, ty, v, true).Emitted?
    ensures Deserialize(c, ty, Some(Serialize(c, ty, v, true).json), {}, true) == Built(v) <==> NoCollapse(c, ty, v)
  {
    PrintThenRead(c, ty, v);
    CollapseFixed(c, ty, v);
  }

  /** The condition matters: a pointer to a null pointer comes back as a null pointer. */
  lemma CollapseWitness(c: Context)
    requires Unhooked(c)
    ensures var ty, v := Pointer(Pointer(Builtin(Int))), VPtr(VNull);
            && Codable(c, ty, v)
            && Serialize(c, ty, v, true) == Emitted(Null)
            && Deserialize(c, ty, Some(Null), {}, true) == Built(VNull)
  {
    assert forall t :: Hookless(c, t);
    assert Codable(c, Pointer(Builtin(Int)), VNull);
    assert Serialize(c, Pointer(Builtin(Int)), VNull, true) == SerializeDefault(c, Pointer(Builtin(Int)), VNull);
  }

  /** A collapsed value prints like the value itself. */
  lemma {:induction false} CollapsePrintsAlike(c: Context, ty: RType, v: Value)
    requires Codable(c, ty, v)
    ensures Serialize(c, ty, Collapse(c, ty, v), true) == Serialize(c, ty, v, true)
    decreases v, ty, 1
  {
    if Hookless(c, ty) {
      if ty.Pointer? {
        PrintThenRead(c, ty, v);
        if v.VPtr? {
          CollapsePrintsAlike(c, ty.pointee, v.target);
        }
      } else if IsCompound(c.table, ty) {
        var slots, cut := Parts(c.table, ty), Collapse(c, ty, v).parts;
        forall i | 0 <= i < |v.parts|
          ensures Serialize(c, slots[i].ty, cut[i], true) == Serialize(c, slots[i].ty, v.parts[i], true)
        {
          CollapsePrintsAlike(c, slots[i].ty, v.parts[i]);
        }
        if ty.Array? {
          assert forall i | 0 <= i < |cut| :: slots[i].ty == ty.elem;
          ElementsAlike(c, ty.elem, cut, v.parts, |cut|);
        } else {
          assert forall i | 0 <= i < |cut| :: slots[i].ty == c.table.structs[ty.tag].members[i].ty;
          MembersAlike(c, c.table.structs[ty.tag].members, cut, v.parts, |cut|);
        }
        assert SerializeDefault(c, ty, VParts(cut)) == SerializeDefault(c, ty, v);
      }
    }
  }

  lemma {:induction false} MembersAlike(c: Context, ms: seq<Member>, a: seq<Value>, b: seq<Value>, n: nat)
    requires n <= |a| == |b| == |ms|
    requires forall i | 0 <= i < n :: Serialize(c, ms[i].ty, a[i], true) == Serialize(c, ms[i].ty, b[i], true)
    ensures SerializeMembers(c, ms, a, n) == SerializeMembers(c, ms, b, n)
  {
    if n > 0 {
      MembersAlike(c, ms, a, b, n - 1);
    }
  }

  lemma {:induction false} ElementsAlike(c: Context, elem: RType, a: seq<Value>, b: seq<Value>, n: nat)
    requires n <= |a| == |b|
    requires forall i | 0 <= i < n :: Serialize(c, elem, a[i], true) == Serialize(c, elem, b[i], true)
    ensures SerializeElements(c, elem, a, n) == SerializeElements(c, elem, b, n)
  {
    if n > 0 {
      ElementsAlike(c, elem, a, b, n - 1);
    }
  }

  /** Serializing what was deserialized from a serialization gives the same tree again. */
  lemma JsonStable(c: Context, ty: RType, v: Value, j: Json, w: Value)
    requires Codable(c, ty, v) && Serialize(c, ty, v, true) == Emitted(j)
    requires Deserialize(c, ty, Some(j), {}, true) == Built(w)
    ensures Serialize(c, ty, w, true) == Emitted(j)
  {
    PrintThenRead(c, ty, v);
    CollapsePrintsAlike(c, ty, v);
  }

  /** The top-level calls compose when the value is wrapped and its type name resolves to its type. */
  lemma TopLevelRoundTrip(c: Context, ty: RType, v: Value)
    requires Codable(c, ty, v) && c.invertable
    requires |c.typesByName(c.typeName(ty))| > 0 && c.typesByName(c.typeName(ty))[0] == ty
    ensures var printed := TopSerialize(c, ty, v);
            && printed.Emitted?
            && TopDeserialize(c, printed.json) == Built(Collapse(c, ty, v))
            && (TopDeserialize(c, printed.json) == Built(v) <==> NoCollapse(c, ty, v))
  {
    PrintThenRead(c, ty, v);
    CollapseFixed(c, ty, v);
  }

  /** Without the flag the tree alone is returned, and read back by whoever knows the type. */
  lemma BareRoundTrip(c: Context, ty: RType, v: Value)
    requires Codable(c, ty, v) && !c.invertable
    ensures TopSerialize(c, ty, v) == Serialize(c, ty, v, true) && TopSerialize(c, ty, v).Emitted?
    ensures Deserialize(c, ty, Some(TopSerialize(c, ty, v).json), {}, true) == Built(Collapse(c, ty, v))
  {
    PrintThenRead(c, ty, v);
  }

  /** A type the codec supports, given that it supports the structs in `tags`; hooked types are free. */
  predicate SupportedType(c: Context, tags: set<string>, ty: RType) {
    !ty.Unknown? &&
    (Hookless(c, ty) ==>
      match ty
      case Builtin(b) => !IdOf(b).VoidId?
      case Enum(tag) => true
      case Pointer(pointee) => SupportedType(c, tags, pointee)
      case Struct(tag) => tag in tags
      case Array(elem, length) => SupportedType(c, tags, elem) && ArrayAllocates(c.table, elem, length)
      case _ => false)
  }

  predicate SupportedTable(c: Context, tags: set<string>) {
    forall tag | tag in tags ::
      && tag in c.table.structs
      && CompoundSupported(c.table, Struct(tag))
      && forall i | 0 <= i < |c.table.structs[tag].members| ::
           SupportedType(c, tags, c.table.structs[tag].members[i].ty)
  }

  /** A value of the type, as far as the codec looks: what is inside a hooked node is the hook's own affair. */
  predicate Fits(c: Context, ty: RType, v: Value)
    decreases v, ty
  {
    Hookless(c, ty) ==>
      match ty
      case Pointer(pointee) => v.VNull? || (v.VPtr? && Fits(c, pointee, v.target))
      case Struct(_) | Array(_, _) =>
        && IsCompound(c.table, ty) && v.VParts? && |v.parts| == |Parts(c.table, ty)|
        && forall i | 0 <= i < |v.parts| :: Fits(c, Parts(c.table, ty)[i].ty, v.parts[i])
      case _ => WellTyped(c.table, ty, v)
  }

  /** Doubles are finite, enums store an enumerator, and hooks invert on what they are given. */
  predicate NodeCodable(c: Context, ty: RType, v: Value) {
    if !Hookless(c, ty) then HooksInvert(c, ty, v)
    else
      && (v.VReal? ==> IsFinite(v.bits))
      && (ty.Enum? && ty.tag in c.table.enums && v.VInt? ==> v.n in c.table.enums[ty.tag].values)
  }

  /**
   * Hooks compose with the codec: a value of a supported type is codable at any nesting depth if
   * each hooked node, whatever it holds, is one on which the registered pair inverts itself.
   */
  lemma {:induction false} SupportedIsCodable(c: Context, tags: set<string>, ty: RType, v: Value)
    requires SupportedTable(c, tags) && SupportedType(c, tags, ty)
    requires Fits(c, ty, v)
    requires All(c.table, ty, v, t => !Hookless(c, t), (t: RType, x: Value) => NodeCodable(c, t, x))
    ensures Codable(c, ty, v)
    decreases v, ty
  {
    if Hookless(c, ty) {
      if ty.Pointer? && v.VPtr? {
        SupportedIsCodable(c, tags, ty.pointee, v.target);
      } else if IsCompound(c.table, ty) {
        var slots := Parts(c.table, ty);
        forall i | 0 <= i < |v.parts|
          ensures Codable(c, slots[i].ty, v.parts[i])
        {
          assert SupportedType(c, tags, slots[i].ty);
          SupportedIsCodable(c, tags, slots[i].ty, v.parts[i]);
        }
      }
    }
  }
}

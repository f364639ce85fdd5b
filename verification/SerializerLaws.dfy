/** Laws of the serializer: the shape of its output, when it aborts, and what it cannot see. */
module SerializerLaws {
  import opened Bytes
  import opened Types
  import opened Values
  import opened JsonTree
  import opened Codec
  import opened Serializer

  // ----- Shape

  lemma {:induction false} MembersShape(c: Context, ms: seq<Member>, parts: seq<Value>, n: nat)
    requires n <= |parts| == |ms| && DistinctNames(ms)
    requires SerializeMembers(c, ms, parts, n).Some?
    ensures var obj := SerializeMembers(c, ms, parts, n).value;
            && (forall i | 0 <= i < n ::
                  var r := Serialize(c, ms[i].ty, parts[i], true);
                  if r.Emitted? then ms[i].name in obj && obj[ms[i].name] == r.json
                  else r.Nothing? && ms[i].name !in obj)
            && (forall k | k in obj :: exists i | 0 <= i < n :: ms[i].name == k)
  {
    if n > 0 {
      MembersShape(c, ms, parts, n - 1);
      var before := SerializeMembers(c, ms, parts, n - 1).value;
      var obj := SerializeMembers(c, ms, parts, n).value;
      var last := Serialize(c, ms[n - 1].ty, parts[n - 1], true);
      assert obj == if last.Emitted? then before[ms[n - 1].name := last.json] else before;
      assert ms[n - 1].name !in before;
    }
  }

  /**
   * An emitted object is not empty and maps the name of each member that prints, and no other
   * key, to what that member prints. Nothing is emitted exactly when no member prints.
   */
  lemma ObjectShape(c: Context, tag: string, v: Value)
    requires tag in c.table.structs && DistinctNames(c.table.structs[tag].members)
    requires !SerializeDefault(c, Struct(tag), v).Aborted?
    ensures v.VParts? && |v.parts| == |c.table.structs[tag].members|
    ensures var ms, r := c.table.structs[tag].members, SerializeDefault(c, Struct(tag), v);
            && (r.Emitted? ==>
                  && r.json.Object? && r.json.fields != map[]
                  && (forall k :: k in r.json.fields <==>
                        exists i | 0 <= i < |ms| ::
                          ms[i].name == k && Serialize(c, ms[i].ty, v.parts[i], true).Emitted?)
                  && (forall i | 0 <= i < |ms| && Serialize(c, ms[i].ty, v.parts[i], true).Emitted? ::
                        r.json.fields[ms[i].name] == Serialize(c, ms[i].ty, v.parts[i], true).json))
            && (r.Nothing? <==> forall i | 0 <= i < |ms| :: Serialize(c, ms[i].ty, v.parts[i], true).Nothing?)
  {
    var ms := c.table.structs[tag].members;
    MembersShape(c, ms, v.parts, |ms|);
    var obj := SerializeMembers(c, ms, v.parts, |ms|).value;
    if obj.Keys != {} {
      var k :| k in obj.Keys;
      assert k in obj;
    } else {
      assert forall k :: k !in obj;
    }
  }

  /** An emitted array keeps every position; an element that prints as nothing becomes null. */
  lemma {:induction false} ElementsShape(c: Context, elem: RType, parts: seq<Value>, n: nat)
    requires n <= |parts|
    requires SerializeElements(c, elem, parts, n).Some?
    ensures var items := SerializeElements(c, elem, parts, n).value;
            && |items| == n
            && forall i | 0 <= i < n ::
                 var r := Serialize(c, elem, parts[i], true);
                 !r.Aborted? && items[i] == if r.Emitted? then r.json else Null
  {
    if n > 0 {
      ElementsShape(c, elem, parts, n - 1);
    }
  }

  lemma ArrayShape(c: Context, elem: RType, length: nat, v: Value)
    requires !SerializeDefault(c, Array(elem, length), v).Aborted?
    ensures v.VParts? && |v.parts| == length
    ensures var r := SerializeDefault(c, Array(elem, length), v);
            && r.Emitted? && r.json.List? && |r.json.items| == length
            && forall i | 0 <= i < length ::
                 var e := Serialize(c, elem, v.parts[i], true);
                 r.json.items[i] == if e.Emitted? then e.json else Null
  {
    ElementsShape(c, elem, v.parts, length);
  }

  // ----- Aborts

  /** Reaching this node alone fails no assertion. */
  predicate NodePrints(c: Context, ty: RType, v: Value) {
    && (ty.Union? || ty.Function? || ty == Builtin(Void) ==> c.skipUnknown)
    && EnumMatches(c, ty, v)
  }

  predicate EnumMatches(c: Context, ty: RType, v: Value) {
    ty.Enum? ==> ty.tag in c.table.enums && v.VInt? && v.n in c.table.enums[ty.tag].values
  }

  ghost predicate NoStop(ty: RType) {
    false
  }

  ghost predicate AllPrint(c: Context, ty: RType, v: Value) {
    All(c.table, ty, v, NoStop, (t: RType, x: Value) => NodePrints(c, t, x))
  }

  /** Every enum the walk reaches stores one of its enumerators. */
  ghost predicate EnumsMatch(c: Context, ty: RType, v: Value) {
    All(c.table, ty, v, NoStop, (t: RType, x: Value) => EnumMatches(c, t, x))
  }

  /** Without hooks, a well-typed value aborts exactly when some node the walk reaches does. */
  lemma {:induction false} AbortsExactly(c: Context, ty: RType, v: Value)
    requires Unhooked(c) && WellTyped(c.table, ty, v)
    ensures Serialize(c, ty, v, true).Aborted? <==> !AllPrint(c, ty, v)
    decreases v, ty
  {
    assert Serialize(c, ty, v, true) == SerializeDefault(c, ty, v);
    match ty
    case Builtin(b) =>
      if IsIntegral(IdOf(b)) {
        NarrowIsInt64(v.n, Width(IdOf(b)));
      }
    case Typedef(_, canonical) => AbortsExactly(c, canonical, v);
    case Pointer(pointee) =>
      if v.VPtr? {
        AbortsExactly(c, pointee, v.target);
      }
    case Struct(tag) =>
      PartsAbort(c, ty, v);
      var ms := c.table.structs[tag].members;
      assert forall i | 0 <= i < |ms| :: Parts(c.table, ty)[i].ty == ms[i].ty;
      MembersAbort(c, ms, v.parts, |ms|);
    case Array(elem, length) =>
      PartsAbort(c, ty, v);
      assert forall i | 0 <= i < length :: Parts(c.table, ty)[i].ty == elem;
      ElementsAbort(c, elem, v.parts, length);
    case _ =>
  }

  lemma {:induction false} PartsAbort(c: Context, ty: RType, v: Value)
    requires Unhooked(c) && WellTyped(c.table, ty, v) && IsCompound(c.table, ty)
    ensures AllPrint(c, ty, v) <==>
            forall i | 0 <= i < |v.parts| :: !Serialize(c, Parts(c.table, ty)[i].ty, v.parts[i], true).Aborted?
    decreases v, ty, 0
  {
    forall i | 0 <= i < |v.parts|
      ensures Serialize(c, Parts(c.table, ty)[i].ty, v.parts[i], true).Aborted?
              <==> !AllPrint(c, Parts(c.table, ty)[i].ty, v.parts[i])
    {
      AbortsExactly(c, Parts(c.table, ty)[i].ty, v.parts[i]);
    }
  }

  lemma {:induction false} MembersAbort(c: Context, ms: seq<Member>, parts: seq<Value>, n: nat)
    requires n <= |parts| == |ms|
    ensures SerializeMembers(c, ms, parts, n).None? <==>
            exists i | 0 <= i < n :: Serialize(c, ms[i].ty, parts[i], true).Aborted?
  {
    if n > 0 {
      MembersAbort(c, ms, parts, n - 1);
    }
  }

  lemma {:induction false} ElementsAbort(c: Context, elem: RType, parts: seq<Value>, n: nat)
    requires n <= |parts|
    ensures SerializeElements(c, elem, parts, n).None? <==>
            exists i | 0 <= i < n :: Serialize(c, elem, parts[i], true).Aborted?
  {
    if n > 0 {
      ElementsAbort(c, elem, parts, n - 1);
    }
  }

  /** With unknowns skipped, only an enum that stores none of its enumerators aborts. */
  lemma SkipModeTotal(c: Context, ty: RType, v: Value)
    requires Unhooked(c) && c.skipUnknown && WellTyped(c.table, ty, v)
    ensures Serialize(c, ty, v, true).Aborted? <==> !EnumsMatch(c, ty, v)
  {
    AbortsExactly(c, ty, v);
    AllAgree(c.table, ty, v, (t: RType, x: Value) => NodePrints(c, t, x), (t: RType, x: Value) => EnumMatches(c, t, x));
  }

  lemma {:induction false} AllAgree(t: TypeTable, ty: RType, v: Value, p: (RType, Value) -> bool,
      q: (RType, Value) -> bool)
    requires forall a, b :: p(a, b) == q(a, b)
    ensures All(t, ty, v, NoStop, p) <==> All(t, ty, v, NoStop, q)
    decreases v, ty
  {
    match ty
    case Pointer(pointee) =>
      if v.VPtr? {
        AllAgree(t, pointee, v.target, p, q);
      }
    case Typedef(_, canonical) => AllAgree(t, canonical, v, p, q);
    case Struct(_) | Array(_, _) =>
      if IsCompound(t, ty) && v.VParts? && |v.parts| == |Parts(t, ty)| {
        forall i | 0 <= i < |v.parts|
          ensures All(t, Parts(t, ty)[i].ty, v.parts[i], NoStop, p)
                  <==> All(t, Parts(t, ty)[i].ty, v.parts[i], NoStop, q)
        {
          AllAgree(t, Parts(t, ty)[i].ty, v.parts[i], p, q);
        }
      }
    case _ =>
  }

  // ----- Pass-through hooks

  /** A hook that only returns what its continuation returns. */
  function PassThrough(ty: RType, v: Value, continued: SerializeResult): SerializeResult {
    continued
  }

  /** `hook` with a pass-through serializer, unless it has a serializer already. */
  function WithPassThrough(hook: Hook): Hook {
    if hook.serializer.Some? then hook else hook.(serializer := Some(PassThrough))
  }

  /** `c` with a pass-through serializer for each name in `names` that has no serializer. */
  function Install(c: Context, names: set<string>): Context {
    c.(hooks := map name | name in c.hooks.Keys + names ::
         var prior := if name in c.hooks then c.hooks[name] else Hook(None, None);
         if name in names then WithPassThrough(prior) else prior)
  }

  lemma InstalledSerializer(c: Context, names: set<string>, ty: RType)
    requires HasSerializer(Install(c, names), ty)
    ensures Install(c, names).hooks[c.typeName(ty)].serializer
            == if HasSerializer(c, ty) then c.hooks[c.typeName(ty)].serializer else Some(PassThrough)
  {
  }

  lemma InstalledBesides(c: Context, names: set<string>, ty: RType)
    requires !HasSerializer(Install(c, names), ty)
    ensures !HasSerializer(c, ty)
  {
  }

  /** Pass-through hooks change no output at any depth, whatever other hooks there are. */
  lemma {:induction false} PassThroughInvisible(c: Context, names: set<string>, ty: RType, v: Value, doHook: bool)
    ensures Serialize(Install(c, names), ty, v, doHook) == Serialize(c, ty, v, doHook)
    decreases v, ty, if doHook then 3 else 2
  {
    PassThroughDefault(c, names, ty, v);
    if doHook && !ty.Unknown? {
      PassThroughInvisible(c, names, ty, v, false);
      PassThroughHead(Install(c, names), c, names, ty, v);
    }
  }

  /** One node of the proof, given that the continuations and defaults agree. */
  lemma PassThroughHead(d: Context, c: Context, names: set<string>, ty: RType, v: Value)
    requires d == Install(c, names) && !ty.Unknown?
    requires Serialize(d, ty, v, false) == Serialize(c, ty, v, false)
    requires SerializeDefault(d, ty, v) == SerializeDefault(c, ty, v)
    ensures Serialize(d, ty, v, true) == Serialize(c, ty, v, true)
  {
    var continued := Serialize(c, ty, v, false);
    assert continued == SerializeDefault(c, ty, v);
    if HasSerializer(d, ty) {
      InstalledSerializer(c, names, ty);
      var serializer := d.hooks[c.typeName(ty)].serializer.value;
      if !HasSerializer(c, ty) {
        assert serializer(ty, v, continued) == PassThrough(ty, v, continued);
      }
      assert Serialize(d, ty, v, true) ==
             if serializer(ty, v, continued).Nothing? then continued else serializer(ty, v, continued);
    } else {
      InstalledBesides(c, names, ty);
    }
  }

  lemma {:induction false} PassThroughDefault(c: Context, names: set<string>, ty: RType, v: Value)
    ensures SerializeDefault(Install(c, names), ty, v) == SerializeDefault(c, ty, v)
    decreases v, ty, 1
  {
    var d := Install(c, names);
    match ty
    case Pointer(pointee) =>
      if v.VPtr? {
        PassThroughInvisible(c, names, pointee, v.target, true);
      }
    case Typedef(_, canonical) => PassThroughInvisible(c, names, canonical, v, true);
    case Struct(tag) =>
      if IsCompound(c.table, ty) && v.VParts? && |v.parts| == |c.table.structs[tag].members| {
        var ms := c.table.structs[tag].members;
        forall i | 0 <= i < |ms|
          ensures Serialize(d, ms[i].ty, v.parts[i], true) == Serialize(c, ms[i].ty, v.parts[i], true)
        {
          PassThroughInvisible(c, names, ms[i].ty, v.parts[i], true);
        }
        SameMembers(d, c, ms, ms, v.parts, |ms|);
      }
    case Array(elem, length) =>
      if v.VParts? && |v.parts| == length {
        forall i | 0 <= i < length
          ensures Serialize(d, elem, v.parts[i], true) == Serialize(c, elem, v.parts[i], true)
        {
          PassThroughInvisible(c, names, elem, v.parts[i], true);
        }
        SameElements(d, c, elem, elem, v.parts, length);
      }
    case _ =>
  }

  lemma {:induction false} SameMembers(c: Context, d: Context, ms: seq<Member>, ns: seq<Member>,
      parts: seq<Value>, n: nat)
    requires n <= |parts| == |ms| == |ns|
    requires forall i | 0 <= i < n ::
               && ms[i].name == ns[i].name
               && Serialize(c, ms[i].ty, parts[i], true) == Serialize(d, ns[i].ty, parts[i], true)
    ensures SerializeMembers(c, ms, parts, n) == SerializeMembers(d, ns, parts, n)
  {
    if n > 0 {
      SameMembers(c, d, ms, ns, parts, n - 1);
    }
  }

  lemma {:induction false} SameElements(c: Context, d: Context, e: RType, f: RType, parts: seq<Value>, n: nat)
    requires n <= |parts|
    requires forall i | 0 <= i < n :: Serialize(c, e, parts[i], true) == Serialize(d, f, parts[i], true)
    ensures SerializeElements(c, e, parts, n) == SerializeElements(d, f, parts, n)
  {
    if n > 0 {
      SameElements(c, d, e, f, parts, n - 1);
    }
  }

  // ----- Typedefs

  /** The type with each typedef replaced by its canonical type. */
  function Erase(ty: RType): RType {
    match ty
    case Typedef(_, canonical) => Erase(canonical)
    case Pointer(pointee) => Pointer(Erase(pointee))
    case Array(elem, length) => Array(Erase(elem), length)
    case _ => ty
  }

  function EraseStruct(d: StructDef): StructDef {
    d.(members := seq(|d.members|, i requires 0 <= i < |d.members| => d.members[i].(ty := Erase(d.members[i].ty))))
  }

  /** The context with no typedef left in its struct members. */
  function EraseAll(c: Context): Context {
    c.(table := c.table.(structs := map tag | tag in c.table.structs :: EraseStruct(c.table.structs[tag])))
  }

  /** Without hooks, typedefs leave no trace in the output. */
  lemma {:induction false} TypedefsErased(c: Context, ty: RType, v: Value)
    requires Unhooked(c)
    ensures Serialize(c, ty, v, true) == Serialize(EraseAll(c), Erase(ty), v, true)
    decreases v, ty
  {
    var d := EraseAll(c);
    match ty
    case Pointer(pointee) =>
      if v.VPtr? {
        TypedefsErased(c, pointee, v.target);
      }
    case Typedef(_, canonical) => TypedefsErased(c, canonical, v);
    case Struct(tag) =>
      if IsCompound(c.table, ty) && v.VParts? && |v.parts| == |c.table.structs[tag].members| {
        var ms, ns := c.table.structs[tag].members, d.table.structs[tag].members;
        forall i | 0 <= i < |ms|
          ensures Serialize(c, ms[i].ty, v.parts[i], true) == Serialize(d, ns[i].ty, v.parts[i], true)
        {
          TypedefsErased(c, ms[i].ty, v.parts[i]);
        }
        SameMembers(c, d, ms, ns, v.parts, |ms|);
      }
    case Array(elem, length) =>
      if v.VParts? && |v.parts| == length {
        forall i | 0 <= i < length
          ensures Serialize(c, elem, v.parts[i], true) == Serialize(d, Erase(elem), v.parts[i], true)
        {
          TypedefsErased(c, elem, v.parts[i]);
        }
        SameElements(c, d, elem, Erase(elem), v.parts, length);
      }
    case _ =>
  }

  // ----- What is left out

  /** The codec has nothing to print for this node, and says so without failing. */
  predicate Skipped(c: Context, ty: RType, v: Value) {
    || ty.Unknown?
    || (!HasSerializer(c, ty) && c.skipUnknown && (ty.Union? || ty.Function? || ty == Builtin(Void)))
    || (!HasSerializer(c, ty) && ty == Builtin(Double) && v.VReal? && !IsFinite(v.bits))
  }

  lemma SkippedPrintsNothing(c: Context, ty: RType, v: Value)
    requires Skipped(c, ty, v)
    ensures Serialize(c, ty, v, true) == Nothing
  {
  }

  /** A skipped member has no key in the object around it. */
  lemma SkippedMemberAbsent(c: Context, tag: string, v: Value, i: nat)
    requires tag in c.table.structs && DistinctNames(c.table.structs[tag].members)
    requires SerializeDefault(c, Struct(tag), v).Emitted?
    requires v.VParts? && i < |v.parts| == |c.table.structs[tag].members|
    requires Skipped(c, c.table.structs[tag].members[i].ty, v.parts[i])
    ensures c.table.structs[tag].members[i].name !in SerializeDefault(c, Struct(tag), v).json.fields
  {
    var ms := c.table.structs[tag].members;
    ObjectShape(c, tag, v);
    SkippedPrintsNothing(c, ms[i].ty, v.parts[i]);
  }

  /** A skipped element leaves null in its place. */
  lemma SkippedElementIsNull(c: Context, elem: RType, length: nat, v: Value, i: nat)
    requires SerializeDefault(c, Array(elem, length), v).Emitted?
    requires v.VParts? && i < |v.parts| == length && Skipped(c, elem, v.parts[i])
    ensures var j := SerializeDefault(c, Array(elem, length), v).json;
            j.List? && i < |j.items| && j.items[i] == Null
  {
    ArrayShape(c, elem, length, v);
    SkippedPrintsNothing(c, elem, v.parts[i]);
  }

  // ----- Whose hook

  /** What `ty`'s own serializer makes of `v`, its continuation printing `v` without it. */
  function HookResult(c: Context, ty: RType, v: Value): SerializeResult
    requires c.typeName(ty) in c.hooks && c.hooks[c.typeName(ty)].serializer.Some?
  {
    c.hooks[c.typeName(ty)].serializer.value(ty, v, SerializeDefault(c, ty, v))
  }

  /** A hook that prints something has the last word; one that prints nothing has none. */
  lemma HookDecides(c: Context, ty: RType, v: Value)
    requires !ty.Unknown? && c.typeName(ty) in c.hooks && c.hooks[c.typeName(ty)].serializer.Some?
    ensures Serialize(c, ty, v, true)
            == if HookResult(c, ty, v).Nothing? then SerializeDefault(c, ty, v) else HookResult(c, ty, v)
  {
    assert Serialize(c, ty, v, false) == SerializeDefault(c, ty, v);
  }

  /** A typedef without a hook, and a pointer, print as the hook of what is behind them says. */
  lemma HookBehind(c: Context, ty: RType, v: Value)
    requires !ty.Unknown? && c.typeName(ty) in c.hooks && c.hooks[c.typeName(ty)].serializer.Some?
    requires !HookResult(c, ty, v).Nothing?
    ensures forall name | !HasSerializer(c, Typedef(name, ty)) ::
              Serialize(c, Typedef(name, ty), v, true) == HookResult(c, ty, v)
    ensures !HasSerializer(c, Pointer(ty)) ==> Serialize(c, Pointer(ty), VPtr(v), true) == HookResult(c, ty, v)
  {
    HookDecides(c, ty, v);
    forall name | !HasSerializer(c, Typedef(name, ty))
      ensures Serialize(c, Typedef(name, ty), v, true) == HookResult(c, ty, v)
    {
      assert SerializeDefault(c, Typedef(name, ty), v) == Serialize(c, ty, v, true);
    }
    if !HasSerializer(c, Pointer(ty)) {
      assert SerializeDefault(c, Pointer(ty), VPtr(v)) == Serialize(c, ty, v, true);
    }
  }

  // ----- The top-level call

  /** With the flag, exactly a name and the tree are wrapped; without it the tree is returned as it is. */
  lemma WrappedExactly(c: Context, ty: RType, v: Value)
    ensures var tree, top := Serialize(c, ty, v, true), TopSerialize(c, ty, v);
            if tree.Emitted? && c.invertable then
              && top.Emitted? && top.json.Object? && top.json.fields.Keys == {"type", "value"}
              && top.json.fields["type"] == Text(c.typeName(ty)) && top.json.fields["value"] == tree.json
            else top == tree
  {
  }
}

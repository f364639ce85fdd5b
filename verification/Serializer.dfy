/** The serializer as a function of deep values: what `_json_serialize` computes. */
module Serializer {
  import opened Bytes
  import opened Types
  import opened Values
  import opened JsonTree
  import opened Codec

  /** `_json_serialize`; `doHook` is false inside a hook's continuation. */
  function Serialize(c: Context, ty: RType, v: Value, doHook: bool): SerializeResult
    decreases v, ty, if doHook then 3 else 2
  {
    if ty.Unknown? then Nothing
    else
      var hooked :=
        if doHook && HasSerializer(c, ty) then
          c.hooks[c.typeName(ty)].serializer.value(ty, v, Serialize(c, ty, v, false))
        else Nothing;
      if hooked.Nothing? then SerializeDefault(c, ty, v) else hooked
  }

  /** The switch on the type id. A value that is not of the type has no behaviour: `Aborted`. */
  function SerializeDefault(c: Context, ty: RType, v: Value): SerializeResult
    decreases v, ty, 1
  {
    match ty
    case Builtin(b) => SerializeBuiltin(c, IdOf(b), v)
    case Enum(tag) => if tag in c.table.enums then SerializeEnum(c.table.enums[tag], v) else Aborted
    case Union(_) | Function => if c.skipUnknown then Nothing else Aborted
    case Pointer(pointee) =>
      if v.VNull? then Emitted(Null)
      else if v.VPtr? then Serialize(c, pointee, v.target, true)
      else Aborted
    case Typedef(_, canonical) => Serialize(c, canonical, v, true)
    case Struct(tag) =>
      if IsCompound(c.table, ty) && v.VParts? && |v.parts| == |c.table.structs[tag].members| then
        match SerializeMembers(c, c.table.structs[tag].members, v.parts, |v.parts|)
        case None => Aborted
        case Some(obj) => if obj.Keys == {} then Nothing else Emitted(Object(obj))
      else Aborted
    case Array(elem, length) =>
      if v.VParts? && |v.parts| == length then
        match SerializeElements(c, elem, v.parts, |v.parts|)
        case None => Aborted
        case Some(items) => Emitted(List(items))
      else Aborted
    case Unknown => Nothing
  }

  function SerializeBuiltin(c: Context, id: BuiltinId, v: Value): SerializeResult {
    match id
    case BoolId => if v.VBool? then Emitted(Boolean(v.b)) else Aborted
    case DoubleId =>
      if !v.VReal? then Aborted
      else if IsFinite(v.bits) then Emitted(Real(v.bits)) else Nothing
    case VoidId => if c.skipUnknown then Nothing else Aborted
    case _ => if v.VInt? && IsInt64(v.n) then Emitted(Integer(v.n)) else Aborted
  }

  predicate IsInt64(n: int) {
    -0x8000_0000_0000_0000 <= n < 0x8000_0000_0000_0000
  }

  /** The stored value is emitted exactly when some enumerator equals it. */
  function SerializeEnum(d: EnumDef, v: Value): SerializeResult {
    if v.VInt? && v.n in d.values then Emitted(Integer(v.n)) else Aborted
  }

  /** The object after the first `n` members; members that print as nothing are left out. */
  function SerializeMembers(c: Context, ms: seq<Member>, parts: seq<Value>, n: nat)
    : Option<map<string, Json>>
    requires n <= |parts| == |ms|
    decreases parts, n
  {
    if n == 0 then Some(map[])
    else
      match SerializeMembers(c, ms, parts, n - 1)
      case None => None
      case Some(obj) =>
        match Serialize(c, ms[n - 1].ty, parts[n - 1], true)
        case Aborted => None
        case Nothing => Some(obj)
        case Emitted(j) => Some(obj[ms[n - 1].name := j])
  }

  /** The array after the first `n` elements; elements that print as nothing become null. */
  function SerializeElements(c: Context, elem: RType, parts: seq<Value>, n: nat): Option<seq<Json>>
    requires n <= |parts|
    decreases parts, n
  {
    if n == 0 then Some([])
    else
      match SerializeElements(c, elem, parts, n - 1)
      case None => None
      case Some(items) =>
        match Serialize(c, elem, parts[n - 1], true)
        case Aborted => None
        case Nothing => Some(items + [Null])
        case Emitted(j) => Some(items + [j])
  }

  /** `json_serialize` on a non-null value. */
  function TopSerialize(c: Context, ty: RType, v: Value): SerializeResult {
    var r := Serialize(c, ty, v, true);
    if r.Emitted? && c.invertable then
      Emitted(Object(map["type" := Text(c.typeName(ty)), "value" := r.json]))
    else r
  }
}

/** The deserializer as a function of JSON trees: the deep value `_json_deserialize` builds. */
module Deserializer {
  import opened Bytes
  import opened Types
  import opened Values
  import opened JsonTree
  import opened Codec

  /**
   * `_json_deserialize`. The tree is absent below a missing object key; then the recursion
   * follows the type alone, and `open` holds the structs it is inside of. Entering one of them
   * again with nothing left to read can only repeat itself for ever.
   */
  function Deserialize(c: Context, ty: RType, j: Option<Json>, open: set<string>, doHook: bool)
    : DeserializeResult
    decreases j.Some?, Tree(j), c.table.structs.Keys - open, ty, if doHook then 3 else 2, 0
  {
    if ty.Unknown? then NoBlock
    else if doHook && HasDeserializer(c, ty) then
      c.hooks[c.typeName(ty)].deserializer.value(ty, j, Deserialize(c, ty, j, open, false))
    else DeserializeDefault(c, ty, j, open)
  }

  function DeserializeDefault(c: Context, ty: RType, j: Option<Json>, open: set<string>): DeserializeResult
    decreases j.Some?, Tree(j), c.table.structs.Keys - open, ty, 1, 0
  {
    match ty
    case Builtin(b) => DeserializeBuiltin(IdOf(b), j)
    case Enum(tag) =>
      if tag in c.table.enums then
        Built(VInt(Wrap(IntegerValue(j), Width(IdOf(c.table.enums[tag].basic)))))
      else Crashed
    case Pointer(pointee) =>
      if j == Some(Null) then Built(VNull)
      else (match Deserialize(c, pointee, j, open, true)
            case Built(target) => Built(VPtr(target))
            case NoBlock => Built(VNull)
            case r => r)
    case Struct(tag) =>
      if tag !in c.table.structs then Crashed
      else if j.None? && tag in open then Diverged
      else DeserializeParts(c, ty, j, open, |Parts(c.table, ty)|)
    case Array(elem, length) =>
      if !ArrayAllocates(c.table, elem, length) then Crashed
      else DeserializeParts(c, ty, j, open, length)
    case Union(_) | Function | Typedef(_, _) | Unknown => Crashed
  }

  function DeserializeBuiltin(id: BuiltinId, j: Option<Json>): DeserializeResult {
    match id
    case BoolId => Built(VBool(j == Some(Boolean(true))))
    case DoubleId => Built(VReal(RealValue(j)))
    case VoidId => Crashed
    case _ => Built(VInt(Wrap(IntegerValue(j), Width(id))))
  }

  /** The tree part `i` of a compound type is read from. */
  function PartTree(t: TypeTable, ty: RType, j: Option<Json>, i: nat): Option<Json>
    requires IsCompound(t, ty) && i < |Parts(t, ty)|
  {
    if ty.Array? then At(j, i) else Get(j, t.structs[ty.tag].members[i].name)
  }

  /** The structs being read, inside a part of `ty`. */
  function OpenInside(ty: RType, j: Option<Json>, open: set<string>): set<string> {
    if j.None? && ty.Struct? then open + {ty.tag} else open
  }

  /** The first `n` members or elements; an element the tree does not supply fails an assertion. */
  function DeserializeParts(c: Context, ty: RType, j: Option<Json>, open: set<string>, n: nat): (r: DeserializeResult)
    requires IsCompound(c.table, ty) && n <= |Parts(c.table, ty)|
    requires ty.Struct? && j.None? ==> ty.tag !in open
    ensures r.Built? ==> r.value.VParts? && |r.value.parts| == n
    ensures !r.NoBlock?
    decreases j.Some?, Tree(j), c.table.structs.Keys - open, ty, 0, n
  {
    if n == 0 then Built(VParts([]))
    else
      var before := DeserializeParts(c, ty, j, open, n - 1);
      var part := PartTree(c.table, ty, j, n - 1);
      if !before.Built? then before
      else if ty.Array? && part.None? then Crashed
      else
        match Deserialize(c, Parts(c.table, ty)[n - 1].ty, part, OpenInside(ty, j, open), true)
        case Built(v) => Built(VParts(before.value.parts + [v]))
        case NoBlock => Crashed
        case r => r
  }

  /** An array element must be in the tree; a struct member need not. */
  predicate Present(t: TypeTable, ty: RType, j: Option<Json>, i: nat)
    requires IsCompound(t, ty) && i < |Parts(t, ty)|
  {
    ty.Array? ==> PartTree(t, ty, j, i).Some?
  }

  /** Part `i` reads as `v`. */
  predicate PartRead(c: Context, ty: RType, j: Option<Json>, open: set<string>, i: nat, v: Value)
    requires IsCompound(c.table, ty) && i < |Parts(c.table, ty)|
  {
    && Present(c.table, ty, j, i)
    && Deserialize(c, Parts(c.table, ty)[i].ty, PartTree(c.table, ty, j, i), OpenInside(ty, j, open), true) == Built(v)
  }

  lemma {:induction false} PartsBuilt(c: Context, ty: RType, j: Option<Json>, open: set<string>, n: nat)
    requires IsCompound(c.table, ty) && n <= |Parts(c.table, ty)|
    requires ty.Struct? && j.None? ==> ty.tag !in open
    requires DeserializeParts(c, ty, j, open, n).Built?
    ensures forall i | 0 <= i < n :: PartRead(c, ty, j, open, i, DeserializeParts(c, ty, j, open, n).value.parts[i])
  {
    if n > 0 {
      PartsBuilt(c, ty, j, open, n - 1);
    }
  }

  lemma {:induction false} PartsSuffice(c: Context, ty: RType, j: Option<Json>, open: set<string>,
      parts: seq<Value>, n: nat)
    requires IsCompound(c.table, ty) && n <= |parts| == |Parts(c.table, ty)|
    requires ty.Struct? && j.None? ==> ty.tag !in open
    requires forall i | 0 <= i < n :: PartRead(c, ty, j, open, i, parts[i])
    ensures DeserializeParts(c, ty, j, open, n) == Built(VParts(parts[..n]))
  {
    if n > 0 {
      PartsSuffice(c, ty, j, open, parts, n - 1);
      assert PartRead(c, ty, j, open, n - 1, parts[n - 1]);
      assert parts[..n] == parts[..n - 1] + [parts[n - 1]];
    }
  }

  /** A struct or array is built exactly when each of its parts is, from the tree under its own key or index. */
  lemma PartsExactly(c: Context, ty: RType, j: Option<Json>, open: set<string>, parts: seq<Value>)
    requires IsCompound(c.table, ty) && |parts| == |Parts(c.table, ty)|
    requires ty.Struct? && j.None? ==> ty.tag !in open
    ensures DeserializeParts(c, ty, j, open, |parts|) == Built(VParts(parts))
            <==> forall i | 0 <= i < |parts| :: PartRead(c, ty, j, open, i, parts[i])
  {
    if DeserializeParts(c, ty, j, open, |parts|) == Built(VParts(parts)) {
      PartsBuilt(c, ty, j, open, |parts|);
    }
    if forall i | 0 <= i < |parts| :: PartRead(c, ty, j, open, i, parts[i]) {
      PartsSuffice(c, ty, j, open, parts, |parts|);
      assert parts[..|parts|] == parts;
    }
  }

  /** `json_deserialize`: the type is looked up by name and the first match is taken. */
  function TopDeserialize(c: Context, j: Json): DeserializeResult {
    match Get(Some(j), "type")
    case Some(Text(name)) =>
      if |c.typesByName(name)| == 0 then Crashed
      else Deserialize(c, c.typesByName(name)[0], Get(Some(j), "value"), {}, true)
    case _ => NoBlock
  }
}

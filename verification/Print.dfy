/** The serializer over memory, with the library handles it takes and gives back. */
module Print {
  import opened Bytes
  import opened Types
  import opened Values
  import opened JsonTree
  import opened Codec
  import opened Serializer
  import opened SerializerLaws
  import opened Memory
  import opened Session
  import opened EnumMember

  /** A result, or a null result with an error set. */
  datatype Printed = Done(result: SerializeResult) | Failed

  // ----- Loads

  function ByteOf(cell: Cell): byte {
    if cell.Plain? then cell.val else 0
  }

  function BytesOf(cells: seq<Cell>): (bs: seq<byte>)
    ensures |bs| == |cells|
  {
    seq(|cells|, i requires 0 <= i < |cells| => ByteOf(cells[i]))
  }

  /** Dereference a pointer to a signed integer type as wide as the cells. */
  function LoadSigned(cells: seq<Cell>): int {
    DecodeSigned(BytesOf(cells))
  }

  function LoadPointer(cells: seq<Cell>): Option<Loc> {
    if IsPointer(cells) then Some(Target(cells)) else None
  }

  lemma LoadInt(n: int, w: nat)
    requires InSignedRange(n, w)
    ensures LoadSigned(IntCells(n, w)) == n
  {
    assert BytesOf(IntCells(n, w)) == Encode(n, w);
    LoadStored(n, w);
    WrapInRange(n, w);
  }

  lemma LoadUnsigned(n: nat, w: nat)
    requires n < Pow256(w)
    ensures DecodeUnsigned(BytesOf(IntCells(n, w))) == n
  {
    assert BytesOf(IntCells(n, w)) == Encode(n, w);
    DecodeEncode(n, w);
    DivModUnique(n, Pow256(w), 0, n);
  }

  // ----- Enums

  /** The position of the first enumerator with value `n`, or their number. */
  function FirstMatch(values: seq<Int64>, n: int): (k: nat)
    ensures k <= |values|
    ensures k < |values| ==> values[k] == n
    ensures forall i | 0 <= i < k :: values[i] != n
  {
    if |values| == 0 || values[0] == n then 0 else 1 + FirstMatch(values[1..], n)
  }

  /**
   * Handles the enum search keeps: for each enumerator it asks, the type reference inside the
   * value query, and for the one that matches the member and its type.
   */
  function EnumLeak(d: EnumDef, tag: string, n: int): multiset<Handle> {
    var k := FirstMatch(d.values, n);
    var asked := TypeHandle(Builtin(d.basic));
    if k < |d.values| then Times(asked, k + 2) + multiset{MemberHandle(Enum(tag), k)}
    else Times(asked, k)
  }

  /** Handles a walk over `v` keeps. */
  function Leak(t: TypeTable, ty: RType, v: Value): multiset<Handle>
    decreases v, ty
  {
    match ty
    case Enum(tag) => if tag in t.enums && v.VInt? then EnumLeak(t.enums[tag], tag, v.n) else multiset{}
    case Pointer(pointee) => if v.VPtr? then Leak(t, pointee, v.target) else multiset{}
    case Typedef(_, canonical) => Leak(t, canonical, v)
    case Struct(_) | Array(_, _) =>
      if IsCompound(t, ty) && v.VParts? && |v.parts| == |Parts(t, ty)| then
        LeakParts(t, Parts(t, ty), v.parts, |v.parts|)
      else multiset{}
    case _ => multiset{}
  }

  function LeakParts(t: TypeTable, slots: seq<Slot>, parts: seq<Value>, n: nat): multiset<Handle>
    requires n <= |slots| && n <= |parts|
    decreases parts, n
  {
    if n == 0 then multiset{} else LeakParts(t, slots, parts, n - 1) + Leak(t, slots[n - 1].ty, parts[n - 1])
  }

  lemma {:induction false} LeakPartsGrow(t: TypeTable, slots: seq<Slot>, parts: seq<Value>, i: nat, n: nat)
    requires i <= n <= |slots| && n <= |parts|
    ensures LeakParts(t, slots, parts, i) <= LeakParts(t, slots, parts, n)
    decreases n
  {
    if i < n {
      LeakPartsGrow(t, slots, parts, i, n - 1);
    }
  }

  ghost predicate EnumFree(t: TypeTable, ty: RType, v: Value) {
    All(t, ty, v, (x: RType) => false, (x: RType, y: Value) => !x.Enum?)
  }

  /** A walk that meets no enum keeps no handle; one that gets past every enum it meets keeps some. */
  lemma {:induction false} KeepsNothingExactly(c: Context, ty: RType, v: Value)
    ensures EnumFree(c.table, ty, v) ==> Leak(c.table, ty, v) == multiset{}
    ensures AllPrint(c, ty, v) && Leak(c.table, ty, v) == multiset{} ==> EnumFree(c.table, ty, v)
    decreases v, ty, 1
  {
    match ty
    case Enum(tag) =>
      if AllPrint(c, ty, v) {
        MatchKeeps(c.table.enums[tag], tag, v.n);
      }
    case Pointer(pointee) =>
      if v.VPtr? {
        KeepsNothingExactly(c, pointee, v.target);
      }
    case Typedef(_, canonical) => KeepsNothingExactly(c, canonical, v);
    case Struct(_) | Array(_, _) =>
      if IsCompound(c.table, ty) && v.VParts? && |v.parts| == |Parts(c.table, ty)| {
        PartsKeepNothing(c, ty, v);
      }
    case _ =>
  }

  lemma {:induction false} PartsKeepNothing(c: Context, ty: RType, v: Value)
    requires IsCompound(c.table, ty) && v.VParts? && |v.parts| == |Parts(c.table, ty)|
    ensures EnumFree(c.table, ty, v) ==> Leak(c.table, ty, v) == multiset{}
    ensures AllPrint(c, ty, v) && Leak(c.table, ty, v) == multiset{} ==> EnumFree(c.table, ty, v)
    decreases v, ty, 0
  {
    forall i | 0 <= i < |v.parts|
      ensures var slot := Parts(c.table, ty)[i];
              && (EnumFree(c.table, slot.ty, v.parts[i]) ==> Leak(c.table, slot.ty, v.parts[i]) == multiset{})
              && (AllPrint(c, slot.ty, v.parts[i]) && Leak(c.table, slot.ty, v.parts[i]) == multiset{} ==>
                    EnumFree(c.table, slot.ty, v.parts[i]))
    {
      KeepsNothingExactly(c, Parts(c.table, ty)[i].ty, v.parts[i]);
    }
    NoLeakParts(c.table, Parts(c.table, ty), v.parts, |v.parts|);
  }

  lemma MatchKeeps(d: EnumDef, tag: string, n: int)
    requires n in d.values
    ensures EnumLeak(d, tag, n) != multiset{}
  {
    assert MemberHandle(Enum(tag), FirstMatch(d.values, n)) in EnumLeak(d, tag, n);
  }

  /** An enum keeps its type once for each enumerator before the one that matches, and three handles for that. */
  lemma EnumKeepsExactly(t: TypeTable, tag: string, n: int, k: nat)
    requires tag in t.enums && k < |t.enums[tag].values| && t.enums[tag].values[k] == n
    requires forall i | 0 <= i < k :: t.enums[tag].values[i] != n
    ensures var kept := Leak(t, Enum(tag), VInt(n));
            && |kept| == k + 3
            && kept[TypeHandle(Builtin(t.enums[tag].basic))] == k + 2 && kept[MemberHandle(Enum(tag), k)] == 1
  {
    var asked := TypeHandle(Builtin(t.enums[tag].basic));
    assert FirstMatch(t.enums[tag].values, n) == k;
    assert Times(asked, k + 2) == multiset{}[asked := k + 2];
    assert |Times(asked, k + 2)| == k + 2;
  }

  /** The condition matters: an enum whose first enumerator matches keeps three handles. */
  lemma MatchKeepsThree(c: Context, tag: string)
    requires tag in c.table.enums && c.table.enums[tag] == EnumDef(UnsignedInt, [0])
    ensures AllPrint(c, Enum(tag), VInt(0))
    ensures var asked := TypeHandle(Builtin(UnsignedInt));
            Leak(c.table, Enum(tag), VInt(0)) == multiset{asked, asked, MemberHandle(Enum(tag), 0)}
  {
    assert FirstMatch([0], 0) == 0;
  }

  lemma {:induction false} NoLeakParts(t: TypeTable, slots: seq<Slot>, parts: seq<Value>, n: nat)
    requires n <= |slots| && n <= |parts|
    ensures LeakParts(t, slots, parts, n) == multiset{} <==>
            forall i | 0 <= i < n :: Leak(t, slots[i].ty, parts[i]) == multiset{}
  {
    if n > 0 {
      NoLeakParts(t, slots, parts, n - 1);
      SumEmpty(LeakParts(t, slots, parts, n - 1), Leak(t, slots[n - 1].ty, parts[n - 1]));
    }
  }

  lemma SumEmpty(a: multiset<Handle>, b: multiset<Handle>)
    ensures a + b == multiset{} <==> a == multiset{} && b == multiset{}
  {
    assert a <= a + b && b <= a + b;
  }

  // ----- Accounts

  /**
   * The account of one call that began with `before` handles: it keeps `kept` more. Without a
   * failure it returns what the specification says and keeps exactly `leak`; with one it
   * returns an error and keeps no more than that. A failed assertion ends the process.
   */
  ghost predicate Accounted(spec: SerializeResult, leak: multiset<Handle>, before: multiset<Handle>,
                            after: multiset<Handle>, failed: bool, r: Printed, kept: multiset<Handle>)
  {
    && (failed <==> r.Failed?)
    && (r.Done? ==> r.result == spec)
    && (r.Failed? || !r.result.Aborted? ==> after == before + kept)
    && (r.Done? && !r.result.Aborted? ==> kept == leak)
    && (r.Failed? ==> kept <= leak)
  }

  predicate Ends(r: Printed) {
    r.Done? && r.result.Aborted?
  }

  lemma Regroup(a: multiset<Handle>, b: multiset<Handle>, c: multiset<Handle>)
    ensures a + b + c == a + (b + c)
  {
  }

  lemma KeptSoFar(t: TypeTable, slots: seq<Slot>, parts: seq<Value>, i: nat, kept: multiset<Handle>)
    requires i < |slots| == |parts| && kept <= Leak(t, slots[i].ty, parts[i])
    ensures LeakParts(t, slots, parts, i) + kept <= LeakParts(t, slots, parts, |parts|)
  {
    LeakPartsGrow(t, slots, parts, i + 1, |parts|);
  }

  lemma {:induction false} MembersStayAborted(c: Context, ms: seq<Member>, parts: seq<Value>, i: nat, n: nat)
    requires i <= n <= |parts| == |ms| && SerializeMembers(c, ms, parts, i).None?
    ensures SerializeMembers(c, ms, parts, n).None?
    decreases n
  {
    if i < n {
      MembersStayAborted(c, ms, parts, i, n - 1);
    }
  }

  lemma {:induction false} ElementsStayAborted(c: Context, elem: RType, parts: seq<Value>, i: nat, n: nat)
    requires i <= n <= |parts| && SerializeElements(c, elem, parts, i).None?
    ensures SerializeElements(c, elem, parts, n).None?
    decreases n
  {
    if i < n {
      ElementsStayAborted(c, elem, parts, i, n - 1);
    }
  }

  /** What one more member does to the object, or to the whole call. */
  lemma MemberAdded(c: Context, ms: seq<Member>, parts: seq<Value>, i: nat, obj: map<string, Json>, r: SerializeResult)
    requires i < |parts| == |ms| && SerializeMembers(c, ms, parts, i) == Some(obj)
    requires r == Serialize(c, ms[i].ty, parts[i], true)
    ensures r.Aborted? ==> SerializeMembers(c, ms, parts, |parts|).None?
    ensures !r.Aborted? ==>
              var next := if r.Emitted? then obj[ms[i].name := r.json] else obj;
              && SerializeMembers(c, ms, parts, i + 1) == Some(next)
              && (next.Keys != {} <==> obj.Keys != {} || r.Emitted?)
  {
    if r.Emitted? {
      assert ms[i].name in obj[ms[i].name := r.json].Keys;
    }
    if r.Aborted? {
      MembersStayAborted(c, ms, parts, i + 1, |parts|);
    }
  }

  lemma ElementAdded(c: Context, elem: RType, parts: seq<Value>, i: nat, items: seq<Json>, r: SerializeResult)
    requires i < |parts| && SerializeElements(c, elem, parts, i) == Some(items)
    requires r == Serialize(c, elem, parts[i], true)
    ensures r.Aborted? ==> SerializeElements(c, elem, parts, |parts|).None?
    ensures !r.Aborted? ==>
              SerializeElements(c, elem, parts, i + 1) == Some(items + [if r.Emitted? then r.json else Null])
  {
    if r.Aborted? {
      ElementsStayAborted(c, elem, parts, i + 1, |parts|);
    }
  }

  // ----- Methods

  /** `json_serialize_builtin`. */
  method PrintBuiltin(c: Context, id: BuiltinId, cells: seq<Cell>, ghost v: Value) returns (r: SerializeResult)
    requires |cells| == Width(id) && HoldsBuiltin(cells, id, v)
    ensures r == SerializeBuiltin(c, id, v)
  {
    match id
    case BoolId =>
      LoadUnsigned(if v.b then 1 else 0, 1);
      r := Emitted(Boolean(DecodeUnsigned(BytesOf(cells)) != 0));
    case DoubleId =>
      Pow256Of8();
      LoadUnsigned(v.bits, 8);
      var bits: Bits64 := DecodeUnsigned(BytesOf(cells));
      r := if IsFinite(bits) then Emitted(Real(bits)) else Nothing;
    case VoidId => r := if c.skipUnknown then Nothing else Aborted;
    case _ =>
      LoadInt(v.n, Width(id));
      NarrowIsInt64(v.n, Width(id));
      r := Emitted(Integer(LoadSigned(cells)));
  }

  /** Ask a new enumerator for its value in the enum's signedness and compare. */
  method MatchesEnumerator(s: Client, basic: BasicType, value: Int64, val: Int64) returns (ok: bool, equal: bool)
    requires !s.failed
    modifies s
    ensures s.failed == !ok
    ensures ok ==> equal == (val == value)
    ensures s.held == if ok then old(s.held) + multiset{TypeHandle(Builtin(basic))} else old(s.held)
  {
    var member := new Enumerator(basic, value);
    equal := false;
    ComparisonsAgree(val, value);
    if IsSigned(basic) {
      var v;
      ok, v := member.ValueSigned(s);
      equal := ok && val == v.value;
    } else {
      var v;
      ok, v := member.ValueUnsigned(s);
      equal := ok && Unsigned(val) == v.value;
    }
  }

  /** The loop body of `json_serialize_enum`; on a match both handles of the body are kept too. */
  method TryEnumerator(s: Client, container: RType, basic: BasicType, i: nat, val: Int64, value: Int64)
    returns (ok: bool, equal: bool)
    requires !s.failed
    modifies s
    ensures s.failed == !ok
    ensures ok ==> equal == (val == value)
    ensures s.held ==
            if !ok then old(s.held)
            else if equal then
              old(s.held) + multiset{MemberHandle(container, i)} + multiset{TypeHandle(Builtin(basic))}
              + multiset{TypeHandle(Builtin(basic))}
            else old(s.held) + multiset{TypeHandle(Builtin(basic))}
  {
    var member, ty := MemberHandle(container, i), TypeHandle(Builtin(basic));
    ghost var base := s.held;
    equal := false;
    ok := s.Fetch(member);
    if !ok {
      return;
    }
    ok := s.Fetch(ty);
    if !ok {
      s.Drop(member, base);
      return;
    }
    ok := s.Check();
    if ok {
      ok, equal := MatchesEnumerator(s, basic, value, val);
    }
    if !ok {
      s.Drop(ty, base + multiset{member});
      s.Drop(member, base);
      return;
    }
    if !equal {
      s.Drop(ty, base + multiset{member} + multiset{ty});
      s.Release(member, base, multiset{ty});
    }
  }

  lemma AskedOnce(a: multiset<Handle>, h: Handle, i: nat)
    ensures a + Times(h, i) + multiset{h} == a + Times(h, i + 1)
  {
  }

  lemma AskedAndMatched(a: multiset<Handle>, h: Handle, i: nat, m: Handle)
    requires h != m
    ensures a + Times(h, i) + multiset{m} + multiset{h} + multiset{h} == a + (Times(h, i + 2) + multiset{m})
  {
  }

  lemma EnumFound(d: EnumDef, tag: string, n: int, i: nat, base: multiset<Handle>)
    requires i < |d.values| && d.values[i] == n && i <= FirstMatch(d.values, n)
    ensures SerializeEnum(d, VInt(n)) == Emitted(Integer(n))
    ensures var asked, member := TypeHandle(Builtin(d.basic)), MemberHandle(Enum(tag), i);
            base + Times(asked, i) + multiset{member} + multiset{asked} + multiset{asked} == base + EnumLeak(d, tag, n)
  {
    AskedAndMatched(base, TypeHandle(Builtin(d.basic)), i, MemberHandle(Enum(tag), i));
  }

  lemma EnumNotFound(d: EnumDef, tag: string, n: int)
    requires FirstMatch(d.values, n) == |d.values|
    ensures SerializeEnum(d, VInt(n)) == Aborted
  {
  }

  lemma EnumAsked(d: EnumDef, tag: string, n: int, i: nat)
    requires i <= FirstMatch(d.values, n)
    ensures Times(TypeHandle(Builtin(d.basic)), i) <= EnumLeak(d, tag, n)
  {
  }

  /**
   * `json_serialize_enum`: the first enumerator equal to the stored value ends the search. The
   * memory does not change, so the value is loaded once and not for each enumerator.
   */
  method PrintEnum(s: Client, c: Context, tag: string, cells: seq<Cell>, ghost n: int)
    returns (r: Printed, ghost kept: multiset<Handle>)
    requires !s.failed && tag in c.table.enums && WellLaid(c.table)
    requires |cells| == Size(c.table, Enum(tag))
    requires InSignedRange(n, |cells|) && cells == IntCells(n, |cells|)
    modifies s
    ensures Accounted(SerializeEnum(c.table.enums[tag], VInt(n)), EnumLeak(c.table.enums[tag], tag, n),
                      old(s.held), s.held, s.failed, r, kept)
  {
    LoadInt(n, |cells|);
    NarrowIsInt64(n, |cells|);
    var val: Int64 := LoadSigned(cells);
    r, kept := SearchEnum(s, c.table.enums[tag], tag, val);
  }

  method SearchEnum(s: Client, d: EnumDef, tag: string, n: Int64)
    returns (r: Printed, ghost kept: multiset<Handle>)
    requires !s.failed
    modifies s
    ensures Accounted(SerializeEnum(d, VInt(n)), EnumLeak(d, tag, n), old(s.held), s.held, s.failed, r, kept)
  {
    ghost var asked := TypeHandle(Builtin(d.basic));
    kept := multiset{};
    var ok := s.Check();
    if !ok {
      return Failed, kept;
    }
    for i := 0 to |d.values|
      invariant !s.failed && i <= FirstMatch(d.values, n)
      invariant s.held == old(s.held) + Times(asked, i)
    {
      var equal;
      ok, equal := TryEnumerator(s, Enum(tag), d.basic, i, n, d.values[i]);
      if !ok {
        EnumAsked(d, tag, n, i);
        return Failed, Times(asked, i);
      }
      if equal {
        EnumFound(d, tag, n, i, old(s.held));
        return Done(Emitted(Integer(n))), EnumLeak(d, tag, n);
      }
      AskedOnce(old(s.held), asked, i);
    }
    EnumNotFound(d, tag, n);
    r := Done(Aborted);
  }

  /** `_json_serialize` without hooks; `l` is absent for a null value. */
  method PrintValue(s: Client, c: Context, m: Mem, ty: RType, l: Option<Loc>, ghost v: Value)
    returns (r: Printed, ghost kept: multiset<Handle>)
    requires !s.failed && Unhooked(c) && WellLaid(c.table)
    requires l.Some? ==> Holds(m, c.table, ty, l.value, v)
    modifies s
    ensures l.None? ==> r == Done(Nothing) && !s.failed && s.held == old(s.held)
    ensures l.Some? ==>
              Accounted(Serialize(c, ty, v, true), Leak(c.table, ty, v), old(s.held), s.held, s.failed, r, kept)
    decreases v, ty, 2
  {
    kept := multiset{};
    if ty.Unknown? || l.None? {
      return Done(Nothing), kept;
    }
    s.Take(StringHandle(c.typeName(ty)));
    s.Drop(StringHandle(c.typeName(ty)), old(s.held));
    assert Serialize(c, ty, v, true) == SerializeDefault(c, ty, v);
    r, kept := PrintDefault(s, c, m, ty, l.value, v);
  }

  /** The switch on the type id. */
  method PrintDefault(s: Client, c: Context, m: Mem, ty: RType, l: Loc, ghost v: Value)
    returns (r: Printed, ghost kept: multiset<Handle>)
    requires !s.failed && Unhooked(c) && WellLaid(c.table)
    requires !ty.Unknown? && Holds(m, c.table, ty, l, v)
    modifies s
    ensures Accounted(SerializeDefault(c, ty, v), Leak(c.table, ty, v), old(s.held), s.held, s.failed, r, kept)
    decreases v, ty, 1
  {
    kept := multiset{};
    match ty
    case Builtin(b) =>
      var result := PrintBuiltin(c, IdOf(b), Range(m, l, Size(c.table, ty)), v);
      r := Done(result);
    case Enum(tag) => r, kept := PrintEnum(s, c, tag, Range(m, l, Size(c.table, ty)), v.n);
    case Union(_) | Function => r := Done(if c.skipUnknown then Nothing else Aborted);
    case Pointer(pointee) => r, kept := PrintPointer(s, c, m, pointee, l, v);
    case Typedef(_, canonical) =>
      s.Take(TypeHandle(canonical));
      r, kept := PrintValue(s, c, m, canonical, Some(l), v);
      if !Ends(r) {
        s.Release(TypeHandle(canonical), old(s.held), kept);
      }
    case Struct(tag) => r, kept := PrintStruct(s, c, m, tag, l, v);
    case Array(elem, length) => r, kept := PrintArray(s, c, m, elem, length, l, v);
  }

  /** The pointer case: a null pointer is JSON null, any other prints as its pointee. */
  method PrintPointer(s: Client, c: Context, m: Mem, pointee: RType, l: Loc, ghost v: Value)
    returns (r: Printed, ghost kept: multiset<Handle>)
    requires !s.failed && Unhooked(c) && WellLaid(c.table)
    requires Holds(m, c.table, Pointer(pointee), l, v)
    modifies s
    ensures Accounted(SerializeDefault(c, Pointer(pointee), v), Leak(c.table, Pointer(pointee), v),
                      old(s.held), s.held, s.failed, r, kept)
    decreases v, Pointer(pointee), 0
  {
    kept := multiset{};
    var target := LoadPointer(Range(m, l, POINTER_SIZE));
    assert IntCells(0, POINTER_SIZE)[0].Plain?;
    if target.None? {
      return Done(Emitted(Null)), kept;
    }
    s.Take(TypeHandle(pointee));
    r, kept := PrintValue(s, c, m, pointee, target, v.target);
    if !Ends(r) {
      s.Release(TypeHandle(pointee), old(s.held), kept);
    }
  }

  /** `json_serialize_struct_member`: a member that prints as nothing is not inserted. */
  method PrintMember(s: Client, c: Context, m: Mem, member: Member, l: Loc, obj: map<string, Json>, ghost v: Value)
    returns (r: Printed, inserted: bool, obj': map<string, Json>, ghost kept: multiset<Handle>)
    requires !s.failed && Unhooked(c) && WellLaid(c.table)
    requires Holds(m, c.table, member.ty, l, v)
    modifies s
    ensures Accounted(Serialize(c, member.ty, v, true), Leak(c.table, member.ty, v),
                      old(s.held), s.held, s.failed, r, kept)
    ensures inserted <==> r.Done? && r.result.Emitted?
    ensures obj' == if inserted then obj[member.name := r.result.json] else obj
    decreases v, member.ty, 4
  {
    ghost var base := s.held;
    inserted, obj', kept := false, obj, multiset{};
    var ok := s.Fetch(TypeHandle(member.ty));
    if !ok {
      return Failed, false, obj, kept;
    }
    r, inserted, obj', kept := PrintInto(s, c, m, member, l, obj, v);
    if !Ends(r) {
      s.Release(TypeHandle(member.ty), base, kept);
    }
  }

  /** The part between taking and giving back the member's type. */
  method PrintInto(s: Client, c: Context, m: Mem, member: Member, l: Loc, obj: map<string, Json>, ghost v: Value)
    returns (r: Printed, inserted: bool, obj': map<string, Json>, ghost kept: multiset<Handle>)
    requires !s.failed && Unhooked(c) && WellLaid(c.table)
    requires Holds(m, c.table, member.ty, l, v)
    modifies s
    ensures Accounted(Serialize(c, member.ty, v, true), Leak(c.table, member.ty, v),
                      old(s.held), s.held, s.failed, r, kept)
    ensures inserted <==> r.Done? && r.result.Emitted?
    ensures obj' == if inserted then obj[member.name := r.result.json] else obj
    decreases v, member.ty, 3
  {
    inserted, obj' := false, obj;
    r, kept := PrintValue(s, c, m, member.ty, Some(l), v);
    if r.Done? && r.result.Emitted? {
      inserted, obj' := Insert(s, obj, member.name, r.result.json);
      if !inserted {
        r := Failed;
      }
    }
  }

  /** Ask for the member's name and set the key. */
  method Insert(s: Client, obj: map<string, Json>, name: string, j: Json) returns (ok: bool, obj': map<string, Json>)
    requires !s.failed
    modifies s
    ensures s.failed == !ok && s.held == old(s.held)
    ensures obj' == if ok then obj[name := j] else obj
  {
    obj' := obj;
    ok := s.Fetch(StringHandle(name));
    if ok {
      obj' := obj[name := j];
      s.Drop(StringHandle(name), old(s.held));
    }
  }

  /** The loop body of `json_serialize_struct`. */
  method PrintMemberAt(s: Client, c: Context, m: Mem, tag: string, i: nat, l: Loc, obj: map<string, Json>,
      ghost v: Value)
    returns (r: Printed, inserted: bool, obj': map<string, Json>, ghost kept: multiset<Handle>)
    requires !s.failed && Unhooked(c) && WellLaid(c.table)
    requires tag in c.table.structs && i < |c.table.structs[tag].members|
    requires Holds(m, c.table, c.table.structs[tag].members[i].ty, Shift(l, c.table.structs[tag].members[i].offset), v)
    modifies s
    ensures var member := c.table.structs[tag].members[i];
            && Accounted(Serialize(c, member.ty, v, true), Leak(c.table, member.ty, v),
                         old(s.held), s.held, s.failed, r, kept)
            && (inserted <==> r.Done? && r.result.Emitted?)
            && obj' == if inserted then obj[member.name := r.result.json] else obj
    decreases v, c.table.structs[tag].members[i].ty, 5
  {
    var member, handle := c.table.structs[tag].members[i], MemberHandle(Struct(tag), i);
    ghost var base := s.held;
    inserted, obj', kept := false, obj, multiset{};
    var ok := s.Fetch(handle);
    if !ok {
      return Failed, false, obj, kept;
    }
    ok := s.Check();
    if !ok {
      s.Drop(handle, base);
      return Failed, false, obj, kept;
    }
    r, inserted, obj', kept := PrintMember(s, c, m, member, Shift(l, member.offset), obj, v);
    if !Ends(r) {
      s.Release(handle, base, kept);
    }
  }

  /** The account after `i` parts, and what part `i` adds to it. */
  lemma AccountStep(t: TypeTable, slots: seq<Slot>, parts: seq<Value>, i: nat, base: multiset<Handle>,
                    held: multiset<Handle>, kept: multiset<Handle>, more: multiset<Handle>)
    requires i < |slots| == |parts|
    requires kept == LeakParts(t, slots, parts, i) && more <= Leak(t, slots[i].ty, parts[i])
    requires held == base + kept + more
    ensures held == base + (kept + more)
    ensures kept + more <= LeakParts(t, slots, parts, |parts|)
    ensures more == Leak(t, slots[i].ty, parts[i]) ==> kept + more == LeakParts(t, slots, parts, i + 1)
  {
    Regroup(base, kept, more);
    KeptSoFar(t, slots, parts, i, more);
  }

  /** The invariant of the struct loop. */
  ghost predicate MembersSoFar(c: Context, tag: string, v: Value, i: nat, obj: map<string, Json>, didInsert: bool,
                               base: multiset<Handle>, held: multiset<Handle>, kept: multiset<Handle>)
  {
    && tag in c.table.structs && v.VParts? && i <= |v.parts| == |c.table.structs[tag].members|
    && SerializeMembers(c, c.table.structs[tag].members, v.parts, i) == Some(obj)
    && (didInsert <==> obj.Keys != {})
    && kept == LeakParts(c.table, Parts(c.table, Struct(tag)), v.parts, i) && held == base + kept
  }

  lemma NextMember(c: Context, tag: string, v: Value, i: nat, obj: map<string, Json>, didInsert: bool,
                   base: multiset<Handle>, held: multiset<Handle>, kept: multiset<Handle>,
                   held': multiset<Handle>, failed: bool, part: Printed, inserted: bool, more: multiset<Handle>)
    requires MembersSoFar(c, tag, v, i, obj, didInsert, base, held, kept) && i < |v.parts|
    requires var ty := c.table.structs[tag].members[i].ty;
             Accounted(Serialize(c, ty, v.parts[i], true), Leak(c.table, ty, v.parts[i]),
                       held, held', failed, part, more)
    requires inserted <==> part.Done? && part.result.Emitted?
    ensures Ends(part) || part.Failed? ==>
              Accounted(SerializeDefault(c, Struct(tag), v), Leak(c.table, Struct(tag), v),
                        base, held', failed, part, kept + more)
    ensures part.Done? && !Ends(part) ==>
              var next := if inserted then obj[c.table.structs[tag].members[i].name := part.result.json] else obj;
              MembersSoFar(c, tag, v, i + 1, next, didInsert || inserted, base, held', kept + more)
  {
    var ms, slots := c.table.structs[tag].members, Parts(c.table, Struct(tag));
    assert slots[i] == Slot(ms[i].ty, ms[i].offset);
    if part.Done? {
      MemberAdded(c, ms, v.parts, i, obj, part.result);
    }
    if !Ends(part) {
      AccountStep(c.table, slots, v.parts, i, base, held', kept, more);
    }
  }

  lemma LastMember(c: Context, tag: string, v: Value, obj: map<string, Json>, didInsert: bool,
                   base: multiset<Handle>, held: multiset<Handle>, kept: multiset<Handle>)
    requires v.VParts? && MembersSoFar(c, tag, v, |v.parts|, obj, didInsert, base, held, kept)
    ensures Accounted(SerializeDefault(c, Struct(tag), v), Leak(c.table, Struct(tag), v), base, held, false,
                      Done(if didInsert then Emitted(Object(obj)) else Nothing), kept)
  {
  }

  /** `json_serialize_struct`. */
  method PrintStruct(s: Client, c: Context, m: Mem, tag: string, l: Loc, ghost v: Value)
    returns (r: Printed, ghost kept: multiset<Handle>)
    requires !s.failed && Unhooked(c) && WellLaid(c.table) && tag in c.table.structs
    requires Holds(m, c.table, Struct(tag), l, v)
    modifies s
    ensures Accounted(SerializeDefault(c, Struct(tag), v), Leak(c.table, Struct(tag), v),
                      old(s.held), s.held, s.failed, r, kept)
    decreases v, Struct(tag), 0
  {
    var ms := c.table.structs[tag].members;
    var obj, didInsert := map[], false;
    kept := multiset{};
    var ok := s.Check();
    if !ok {
      return Failed, kept;
    }
    for i := 0 to |ms|
      invariant !s.failed
      invariant MembersSoFar(c, tag, v, i, obj, didInsert, old(s.held), s.held, kept)
    {
      assert Parts(c.table, Struct(tag))[i] == Slot(ms[i].ty, ms[i].offset);
      ghost var held := s.held;
      var part, inserted, obj', more := PrintMemberAt(s, c, m, tag, i, l, obj, v.parts[i]);
      NextMember(c, tag, v, i, obj, didInsert, old(s.held), held, kept, s.held, s.failed, part, inserted, more);
      kept := kept + more;
      if Ends(part) || part.Failed? {
        return part, kept;
      }
      obj, didInsert := obj', didInsert || inserted;
    }
    LastMember(c, tag, v, obj, didInsert, old(s.held), s.held, kept);
    r := Done(if didInsert then Emitted(Object(obj)) else Nothing);
  }

  /** The invariant of the array loop. */
  ghost predicate ElementsSoFar(c: Context, ty: RType, v: Value, i: nat, items: seq<Json>,
                                base: multiset<Handle>, held: multiset<Handle>, kept: multiset<Handle>)
  {
    && ty.Array? && v.VParts? && i <= |v.parts| == ty.length
    && SerializeElements(c, ty.elem, v.parts, i) == Some(items)
    && kept == LeakParts(c.table, Parts(c.table, ty), v.parts, i) && held == base + kept
  }

  lemma NextElement(c: Context, ty: RType, v: Value, i: nat, items: seq<Json>,
                    base: multiset<Handle>, held: multiset<Handle>, kept: multiset<Handle>,
                    held': multiset<Handle>, failed: bool, part: Printed, more: multiset<Handle>)
    requires ElementsSoFar(c, ty, v, i, items, base, held, kept) && i < |v.parts|
    requires Accounted(Serialize(c, ty.elem, v.parts[i], true), Leak(c.table, ty.elem, v.parts[i]),
                       held, held', failed, part, more)
    ensures Ends(part) || part.Failed? ==>
              Accounted(SerializeDefault(c, ty, v), Leak(c.table, ty, v), base, held', failed, part, kept + more)
    ensures part.Done? && !Ends(part) ==>
              var next := items + [if part.result.Emitted? then part.result.json else Null];
              ElementsSoFar(c, ty, v, i + 1, next, base, held', kept + more)
  {
    var slots := Parts(c.table, ty);
    assert slots[i].ty == ty.elem;
    if part.Done? {
      ElementAdded(c, ty.elem, v.parts, i, items, part.result);
    }
    if !Ends(part) {
      AccountStep(c.table, slots, v.parts, i, base, held', kept, more);
    }
  }

  lemma LastElement(c: Context, ty: RType, v: Value, items: seq<Json>,
                    base: multiset<Handle>, held: multiset<Handle>, kept: multiset<Handle>)
    requires v.VParts? && ElementsSoFar(c, ty, v, |v.parts|, items, base, held, kept)
    ensures Accounted(SerializeDefault(c, ty, v), Leak(c.table, ty, v),
                      base, held, false, Done(Emitted(List(items))), kept)
  {
  }

  /** `json_serialize_array`. */
  method PrintArray(s: Client, c: Context, m: Mem, elem: RType, length: nat, l: Loc, ghost v: Value)
    returns (r: Printed, ghost kept: multiset<Handle>)
    requires !s.failed && Unhooked(c) && WellLaid(c.table)
    requires Holds(m, c.table, Array(elem, length), l, v)
    modifies s
    ensures Accounted(SerializeDefault(c, Array(elem, length), v), Leak(c.table, Array(elem, length), v),
                      old(s.held), s.held, s.failed, r, kept)
    decreases v, Array(elem, length), 0
  {
    var ty := Array(elem, length);
    kept := multiset{};
    var ok := s.Check();
    if !ok {
      return Failed, kept;
    }
    var items := [];
    for i := 0 to length
      invariant !s.failed
      invariant ElementsSoFar(c, ty, v, i, items, old(s.held), s.held, kept)
    {
      var slot := Parts(c.table, ty)[i];
      ghost var held := s.held;
      var part, more := PrintElement(s, c, m, MemberHandle(ty, i), slot.ty, Shift(l, slot.offset), v.parts[i]);
      NextElement(c, ty, v, i, items, old(s.held), held, kept, s.held, s.failed, part, more);
      kept := kept + more;
      if Ends(part) || part.Failed? {
        return part, kept;
      }
      items := items + [if part.result.Emitted? then part.result.json else Null];
    }
    LastElement(c, ty, v, items, old(s.held), s.held, kept);
    r := Done(Emitted(List(items)));
  }

  /** The loop body of `json_serialize_array`. */
  method PrintElement(s: Client, c: Context, m: Mem, member: Handle, elem: RType, l: Loc, ghost v: Value)
    returns (r: Printed, ghost kept: multiset<Handle>)
    requires !s.failed && Unhooked(c) && WellLaid(c.table)
    requires Holds(m, c.table, elem, l, v)
    modifies s
    ensures Accounted(Serialize(c, elem, v, true), Leak(c.table, elem, v), old(s.held), s.held, s.failed, r, kept)
    decreases v, elem, 4
  {
    ghost var base := s.held;
    kept := multiset{};
    var ok := s.Fetch(member);
    if !ok {
      return Failed, kept;
    }
    r, kept := PrintTyped(s, c, m, elem, l, v);
    if !Ends(r) {
      s.Release(member, base, kept);
    }
  }

  /** The part of that body between taking and giving back the element's type. */
  method PrintTyped(s: Client, c: Context, m: Mem, elem: RType, l: Loc, ghost v: Value)
    returns (r: Printed, ghost kept: multiset<Handle>)
    requires !s.failed && Unhooked(c) && WellLaid(c.table)
    requires Holds(m, c.table, elem, l, v)
    modifies s
    ensures Accounted(Serialize(c, elem, v, true), Leak(c.table, elem, v), old(s.held), s.held, s.failed, r, kept)
    decreases v, elem, 3
  {
    ghost var base := s.held;
    kept := multiset{};
    var ok := s.Fetch(TypeHandle(elem));
    if !ok {
      return Failed, kept;
    }
    ok := s.Check();
    if !ok {
      s.Drop(TypeHandle(elem), base);
      return Failed, kept;
    }
    r, kept := PrintValue(s, c, m, elem, Some(l), v);
    if !Ends(r) {
      s.Release(TypeHandle(elem), base, kept);
    }
  }
}

/** Reference counts of the introspection objects: who owns what, over every sequence of calls. */
module Ownership {
  import opened Bytes

  type Id = nat

  /**
   * `RString`, `RType`, `RTypeMember` and `RMemory`. The slots `name` and `ty` own what they
   * point at. Those of types and members are caches, filled on first use.
   */
  datatype Object =
    | StringObj(refcount: nat, text: string)
    | TypeObj(refcount: nat, proxy: nat, name: Option<Id>)
    | MemberObj(refcount: nat, proxy: nat, aggregate: bool, name: Option<Id>, ty: Option<Id>)
    | MemoryObj(refcount: nat, size: nat, ty: Option<Id>)

  function NameSlot(o: Object): Option<Id> {
    if o.TypeObj? || o.MemberObj? then o.name else None
  }

  function TypeSlot(o: Object): Option<Id> {
    if o.MemberObj? || o.MemoryObj? then o.ty else None
  }

  /** What never changes in an object: its kind and what it was made from. */
  function Identity(o: Object): Object {
    match o
    case StringObj(_, text) => StringObj(0, text)
    case TypeObj(_, proxy, _) => TypeObj(0, proxy, None)
    case MemberObj(_, proxy, aggregate, _, _) => MemberObj(0, proxy, aggregate, None, None)
    case MemoryObj(_, size, _) => MemoryObj(0, size, None)
  }

  /** The live objects, and the references the client holds. Ids are never used twice. */
  datatype State = State(objects: map<Id, Object>, handles: multiset<Id>, next: Id)

  const EMPTY := State(map[], multiset{}, 0)

  // ----- Owners

  function NamedBy(objects: map<Id, Object>, x: Id): set<Id> {
    set k | k in objects && NameSlot(objects[k]) == Some(x)
  }

  function TypedBy(objects: map<Id, Object>, x: Id): set<Id> {
    set k | k in objects && TypeSlot(objects[k]) == Some(x)
  }

  /** The slots of live objects that point at `x`, and the client's references to it. */
  function Owners(s: State, x: Id): nat {
    |NamedBy(s.objects, x)| + |TypedBy(s.objects, x)| + s.handles[x]
  }

  /** The slots of `k` point at live objects of the right kind. */
  predicate Linked(s: State, k: Id) {
    k in s.objects ==>
      && (NameSlot(s.objects[k]).Some? ==>
            NameSlot(s.objects[k]).value in s.objects && s.objects[NameSlot(s.objects[k]).value].StringObj?)
      && (TypeSlot(s.objects[k]).Some? ==>
            TypeSlot(s.objects[k]).value in s.objects && s.objects[TypeSlot(s.objects[k]).value].TypeObj?)
  }

  /** Ids are old; every slot and handle points at a live object, of the right kind. */
  ghost predicate WellLinked(s: State) {
    && (forall x | x in s.objects :: x < s.next)
    && (forall x | x in s.handles :: x in s.objects)
    && (forall k {:trigger Linked(s, k)} :: Linked(s, k))
  }

  /** Every count is positive and is the number of owners. */
  ghost predicate Counted(s: State) {
    forall x {:trigger Owners(s, x)} | x in s.objects :: 0 < s.objects[x].refcount == Owners(s, x)
  }

  ghost predicate Inv(s: State) {
    WellLinked(s) && Counted(s)
  }

  lemma CountAt(s: State, x: Id)
    requires Inv(s) && x in s.objects
    ensures 0 < s.objects[x].refcount == Owners(s, x)
  {
  }

  function One(b: bool): nat {
    if b then 1 else 0
  }

  lemma SizeBut(a: set<Id>, b: set<Id>, t: Id)
    requires a - {t} == b - {t}
    ensures |a| + One(t in b) == |b| + One(t in a)
  {
    assert |a - {t}| == |a| - One(t in a);
    assert |b - {t}| == |b| - One(t in b);
  }

  predicate Names(objects: map<Id, Object>, k: Id, x: Id) {
    k in objects && NameSlot(objects[k]) == Some(x)
  }

  predicate Types(objects: map<Id, Object>, k: Id, x: Id) {
    k in objects && TypeSlot(objects[k]) == Some(x)
  }

  /** Changing one object changes the owners of `x` by what its own slots say. */
  lemma PutOwners(objects: map<Id, Object>, k: Id, o: Object, x: Id)
    ensures |NamedBy(objects[k := o], x)| + One(Names(objects, k, x))
            == |NamedBy(objects, x)| + One(NameSlot(o) == Some(x))
    ensures |TypedBy(objects[k := o], x)| + One(Types(objects, k, x))
            == |TypedBy(objects, x)| + One(TypeSlot(o) == Some(x))
  {
    SizeBut(NamedBy(objects[k := o], x), NamedBy(objects, x), k);
    SizeBut(TypedBy(objects[k := o], x), TypedBy(objects, x), k);
  }

  lemma RemoveOwners(objects: map<Id, Object>, k: Id, x: Id)
    ensures |NamedBy(objects - {k}, x)| + One(Names(objects, k, x)) == |NamedBy(objects, x)|
    ensures |TypedBy(objects - {k}, x)| + One(Types(objects, k, x)) == |TypedBy(objects, x)|
  {
    SizeBut(NamedBy(objects - {k}, x), NamedBy(objects, x), k);
    SizeBut(TypedBy(objects - {k}, x), TypedBy(objects, x), k);
  }

  lemma Unowned(s: State, x: Id)
    requires WellLinked(s) && x !in s.objects
    ensures Owners(s, x) == 0
  {
    NamesOnStringsOnly(s, x);
    TypesOnTypesOnly(s, x);
  }

  /** Only live strings are named. */
  lemma NamesOnStringsOnly(s: State, x: Id)
    requires WellLinked(s)
    ensures (x in s.objects && s.objects[x].StringObj?) || NamedBy(s.objects, x) == {}
  {
    forall k | k in NamedBy(s.objects, x)
      ensures x in s.objects && s.objects[x].StringObj?
    {
      assert Linked(s, k);
    }
  }

  /** Only live types are pointed at as types. */
  lemma TypesOnTypesOnly(s: State, x: Id)
    requires WellLinked(s)
    ensures (x in s.objects && s.objects[x].TypeObj?) || TypedBy(s.objects, x) == {}
  {
    forall k | k in TypedBy(s.objects, x)
      ensures x in s.objects && s.objects[x].TypeObj?
    {
      assert Linked(s, k);
    }
  }

  /** An object is live exactly as long as it has an owner. */
  lemma LiveExactlyOwned(s: State, x: Id)
    requires Inv(s)
    ensures x in s.objects <==> Owners(s, x) > 0
  {
    if x !in s.objects {
      Unowned(s, x);
    }
  }

  // ----- References given and taken back

  /** One more reference to `x` for the client. */
  function AddRef(s: State, x: Id): State
    requires x in s.objects
  {
    s.(objects := s.objects[x := s.objects[x].(refcount := s.objects[x].refcount + 1)],
       handles := s.handles + multiset{x})
  }

  lemma AddRefKeeps(s: State, x: Id)
    requires Inv(s) && x in s.objects
    ensures Inv(AddRef(s, x))
  {
    var s', o := AddRef(s, x), s.objects[x].(refcount := s.objects[x].refcount + 1);
    forall y | y in s'.objects
      ensures 0 < s'.objects[y].refcount == Owners(s', y)
    {
      PutOwners(s.objects, x, o, y);
      assert s'.handles[y] == s.handles[y] + One(y == x);
      assert Owners(s', y) == Owners(s, y) + One(y == x);
    }
    SameSlotsLink(s, s', x, o.refcount);
  }

  /** Changing a count breaks no link. */
  lemma SameSlotsLink(s: State, s': State, x: Id, n: nat)
    requires WellLinked(s) && x in s.objects && s'.next == s.next
    requires s'.objects == s.objects[x := s.objects[x].(refcount := n)]
    requires forall h | h in s'.handles :: h in s.objects
    ensures WellLinked(s')
  {
    forall k
      ensures Linked(s', k)
    {
      assert Linked(s, k);
    }
  }

  /** One reference less, not the last. */
  function DropRef(s: State, x: Id): State
    requires x in s.objects && s.objects[x].refcount > 0
  {
    s.(objects := s.objects[x := s.objects[x].(refcount := s.objects[x].refcount - 1)],
       handles := s.handles - multiset{x})
  }

  lemma DropRefKeeps(s: State, x: Id)
    requires Inv(s) && x in s.objects && x in s.handles && s.objects[x].refcount > 1
    ensures Inv(DropRef(s, x))
  {
    var s', o := DropRef(s, x), s.objects[x].(refcount := s.objects[x].refcount - 1);
    forall y | y in s'.objects
      ensures 0 < s'.objects[y].refcount == Owners(s', y)
    {
      PutOwners(s.objects, x, o, y);
      assert s'.handles[y] == s.handles[y] - One(y == x);
      assert Owners(s', y) == Owners(s, y) - One(y == x);
    }
    SameSlotsLink(s, s', x, o.refcount);
  }

  function Handle(slot: Option<Id>): multiset<Id> {
    if slot.Some? then multiset{slot.value} else multiset{}
  }

  /** The object goes; the references in its slots are still to be given back. */
  function Remove(s: State, x: Id): State
    requires x in s.objects
  {
    s.(objects := s.objects - {x},
       handles := s.handles - multiset{x} + Handle(NameSlot(s.objects[x])) + Handle(TypeSlot(s.objects[x])))
  }

  /** When the last reference is a handle, no slot points at the object. */
  lemma OnlyHandle(s: State, x: Id)
    requires Owners(s, x) == 1 && x in s.handles
    ensures s.handles[x] == 1
    ensures forall k | k in s.objects :: NameSlot(s.objects[k]) != Some(x) && TypeSlot(s.objects[k]) != Some(x)
  {
    assert |NamedBy(s.objects, x)| == 0 && |TypedBy(s.objects, x)| == 0;
    forall k | k in s.objects
      ensures NameSlot(s.objects[k]) != Some(x) && TypeSlot(s.objects[k]) != Some(x)
    {
      assert k !in NamedBy(s.objects, x) && k !in TypedBy(s.objects, x);
    }
  }

  lemma RemoveHandles(s: State, x: Id, y: Id)
    requires x in s.objects && x in s.handles
    ensures Remove(s, x).handles[y]
            == s.handles[y] - One(y == x)
               + One(NameSlot(s.objects[x]) == Some(y)) + One(TypeSlot(s.objects[x]) == Some(y))
  {
  }

  lemma RemoveLinks(s: State, x: Id)
    requires Inv(s) && x in s.objects && x in s.handles && s.objects[x].refcount == 1
    ensures WellLinked(Remove(s, x))
  {
    OnlyHandle(s, x);
    var s' := Remove(s, x);
    assert Linked(s, x);
    assert NameSlot(s.objects[x]) != Some(x) && TypeSlot(s.objects[x]) != Some(x);
    forall h | h in s'.handles
      ensures h in s'.objects
    {
      RemoveHandles(s, x, h);
      assert s'.handles[h] > 0;
    }
    forall k
      ensures Linked(s', k)
    {
      assert Linked(s, k);
    }
  }

  lemma RemoveCounts(s: State, x: Id, y: Id)
    requires Inv(s) && x in s.objects && x in s.handles && s.objects[x].refcount == 1
    requires y in s.objects && y != x
    ensures Owners(Remove(s, x), y) == Owners(s, y)
  {
    RemoveOwners(s.objects, x, y);
    RemoveHandles(s, x, y);
  }

  lemma RemoveKeeps(s: State, x: Id)
    requires Inv(s) && x in s.objects && x in s.handles && s.objects[x].refcount == 1
    ensures Inv(Remove(s, x))
    ensures NameSlot(s.objects[x]).Some? ==>
              var n := NameSlot(s.objects[x]).value;
              n in Remove(s, x).objects && n in Remove(s, x).handles && s.objects[n].StringObj?
    ensures TypeSlot(s.objects[x]).Some? ==>
              var t := TypeSlot(s.objects[x]).value;
              t in Remove(s, x).objects && t in Remove(s, x).handles && s.objects[t].TypeObj?
  {
    var s' := Remove(s, x);
    RemoveLinks(s, x);
    OnlyHandle(s, x);
    assert Linked(s, x);
    forall y | y in s'.objects
      ensures 0 < s'.objects[y].refcount == Owners(s', y)
    {
      RemoveCounts(s, x, y);
    }
    assert NameSlot(s.objects[x]).Some? ==> NameSlot(s.objects[x]).value in s'.handles;
    assert TypeSlot(s.objects[x]).Some? ==> TypeSlot(s.objects[x]).value in s'.handles;
  }

  /** The decrement and test at the head of every unref. */
  function Lowered(s: State, x: Id): State
    requires Inv(s) && x in s.objects
  {
    CountAt(s, x);
    if s.objects[x].refcount > 1 then DropRef(s, x) else Remove(s, x)
  }

  /** `r_string_unref`. */
  function UnrefString(s: State, x: Id): (s': State)
    requires Inv(s) && x in s.objects && x in s.handles && s.objects[x].StringObj?
    ensures Inv(s')
    ensures s'.handles == s.handles - multiset{x}
  {
    CountAt(s, x);
    if s.objects[x].refcount > 1 then
      DropRefKeeps(s, x);
      DropRef(s, x)
    else
      RemoveKeeps(s, x);
      Remove(s, x)
  }

  /** Giving back a string touches nothing else. */
  lemma UnrefStringTouches(s: State, x: Id, y: Id)
    requires Inv(s) && x in s.objects && x in s.handles && s.objects[x].StringObj?
    requires y in s.objects && y in s.handles && y != x
    ensures var s' := UnrefString(s, x);
            y in s'.objects && y in s'.handles && s'.objects[y] == s.objects[y]
  {
    CountAt(s, x);
    if s.objects[x].refcount == 1 {
      RemoveHandles(s, x, y);
      assert Remove(s, x).handles[y] == s.handles[y];
    } else {
      assert DropRef(s, x).handles[y] == s.handles[y];
    }
  }

  /** `r_type_unref`: the last reference takes the type with it, and the name it owns. */
  function UnrefType(s: State, x: Id): (s': State)
    requires Inv(s) && x in s.objects && x in s.handles && s.objects[x].TypeObj?
    ensures Inv(s')
    ensures s'.handles == s.handles - multiset{x}
  {
    var name := NameSlot(s.objects[x]);
    CountAt(s, x);
    if s.objects[x].refcount > 1 then
      DropRefKeeps(s, x);
      DropRef(s, x)
    else
      RemoveKeeps(s, x);
      if name.Some? then UnrefString(Remove(s, x), name.value) else Remove(s, x)
  }

  /** What the slots of a dead object hand over is what is then given back. */
  lemma HandedOver(handles: multiset<Id>, name: Option<Id>, ty: Option<Id>)
    ensures handles + Handle(name) + Handle(ty) - Handle(name) - Handle(ty) == handles
  {
  }

  /** `r_type_member_unref` and `r_memory_unref`: the last reference takes the name and then the type. */
  function UnrefHolder(s: State, x: Id): (s': State)
    requires Inv(s) && x in s.objects && x in s.handles && !s.objects[x].StringObj? && !s.objects[x].TypeObj?
    ensures Inv(s')
    ensures s'.handles == s.handles - multiset{x}
  {
    CountAt(s, x);
    if s.objects[x].refcount > 1 then
      DropRefKeeps(s, x);
      DropRef(s, x)
    else
      RemoveKeeps(s, x);
      HandedOver(s.handles - multiset{x}, NameSlot(s.objects[x]), TypeSlot(s.objects[x]));
      UnrefSlots(Remove(s, x), NameSlot(s.objects[x]), TypeSlot(s.objects[x]))
  }

  /** Give back a member's name and type, in this order. */
  function UnrefSlots(s: State, name: Option<Id>, ty: Option<Id>): (s': State)
    requires Inv(s)
    requires name.Some? ==> name.value in s.objects && name.value in s.handles && s.objects[name.value].StringObj?
    requires ty.Some? ==> ty.value in s.objects && ty.value in s.handles && s.objects[ty.value].TypeObj?
    ensures Inv(s')
    ensures s'.handles == s.handles - Handle(name) - Handle(ty)
  {
    if name.None? then (if ty.Some? then UnrefType(s, ty.value) else s)
    else if ty.None? then UnrefString(s, name.value)
    else
      UnrefStringTouches(s, name.value, ty.value);
      UnrefType(UnrefString(s, name.value), ty.value)
  }

  function Unref(s: State, x: Id): (s': State)
    requires Inv(s) && x in s.objects && x in s.handles
    ensures Inv(s')
    ensures s'.handles == s.handles - multiset{x}
  {
    match s.objects[x]
    case StringObj(_, _) => UnrefString(s, x)
    case TypeObj(_, _, _) => UnrefType(s, x)
    case _ => UnrefHolder(s, x)
  }

  // ----- Calls that make objects and fill caches

  /** A new object with empty slots, held by the client. */
  function Create(s: State, o: Object): State {
    s.(objects := s.objects[s.next := o], handles := s.handles + multiset{s.next}, next := s.next + 1)
  }

  lemma CreateKeeps(s: State, o: Object)
    requires Inv(s) && o.refcount == 1 && NameSlot(o).None? && TypeSlot(o).None?
    ensures Inv(Create(s, o))
  {
    var s', x := Create(s, o), s.next;
    Unowned(s, x);
    forall y | y in s'.objects
      ensures 0 < s'.objects[y].refcount == Owners(s', y)
    {
      PutOwners(s.objects, x, o, y);
      assert s'.handles[y] == s.handles[y] + One(y == x);
      assert Owners(s', y) == Owners(s, y) + One(y == x);
    }
    forall k
      ensures Linked(s', k)
    {
      assert Linked(s, k);
    }
  }

  /** Object `k` changes into `o`, one of whose slots takes over a reference the client holds. */
  function Settle(s: State, k: Id, o: Object, x: Id): State {
    s.(objects := s.objects[k := o], handles := s.handles - multiset{x})
  }

  lemma SettleKeeps(s: State, k: Id, o: Object, x: Id)
    requires Inv(s) && k in s.objects && x in s.objects && x in s.handles && k != x
    requires o.refcount == s.objects[k].refcount
    requires o.StringObj? == s.objects[k].StringObj? && o.TypeObj? == s.objects[k].TypeObj?
    requires || (NameSlot(s.objects[k]).None? && NameSlot(o) == Some(x) && TypeSlot(o) == TypeSlot(s.objects[k])
                 && s.objects[x].StringObj?)
             || (TypeSlot(s.objects[k]).None? && TypeSlot(o) == Some(x) && NameSlot(o) == NameSlot(s.objects[k])
                 && s.objects[x].TypeObj?)
    ensures Inv(Settle(s, k, o, x))
  {
    var s' := Settle(s, k, o, x);
    forall y | y in s'.objects
      ensures 0 < s'.objects[y].refcount == Owners(s', y)
    {
      PutOwners(s.objects, k, o, y);
      assert s'.handles[y] == s.handles[y] - One(y == x);
      assert Owners(s', y) == Owners(s, y);
    }
    SettleLinks(s, s', k, o, x);
  }

  lemma SettleLinks(s: State, s': State, k: Id, o: Object, x: Id)
    requires WellLinked(s) && k in s.objects && x in s.objects && s' == Settle(s, k, o, x)
    requires o.StringObj? == s.objects[k].StringObj? && o.TypeObj? == s.objects[k].TypeObj?
    requires NameSlot(o) == NameSlot(s.objects[k]) || (NameSlot(o) == Some(x) && s.objects[x].StringObj?)
    requires TypeSlot(o) == TypeSlot(s.objects[k]) || (TypeSlot(o) == Some(x) && s.objects[x].TypeObj?)
    ensures WellLinked(s')
  {
    forall y
      ensures Linked(s', y)
    {
      assert Linked(s, y);
    }
  }

  /** `r_memory_new`: a block whose slot takes a new reference to the type. */
  function CreateBlock(s: State, ty: Id, size: nat): (s': State)
    requires Inv(s) && ty in s.objects && s.objects[ty].TypeObj?
    ensures Inv(s') && s'.handles == s.handles + multiset{s.next}
  {
    AddRefKeeps(s, ty);
    var held := AddRef(s, ty);
    CreateKeeps(held, MemoryObj(1, size, None));
    var block := Create(held, MemoryObj(1, size, None));
    SettleKeeps(block, s.next, MemoryObj(1, size, Some(ty)), ty);
    Settle(block, s.next, MemoryObj(1, size, Some(ty)), ty)
  }

  /** The first `r_type_name` or `r_aggregate_member_name`: the slot and the client each get a reference. */
  function FillName(s: State, k: Id, text: string): (s': State)
    requires Inv(s) && k in s.objects && (s.objects[k].TypeObj? || s.objects[k].MemberObj?) && s.objects[k].name.None?
    ensures Inv(s') && s'.handles == s.handles + multiset{s.next}
    ensures k in s'.objects && NameSlot(s'.objects[k]) == Some(s.next)
    ensures s.next in s'.objects && s'.objects[s.next] == StringObj(2, text)
  {
    CreateKeeps(s, StringObj(1, text));
    var made := Create(s, StringObj(1, text));
    assert made.handles - multiset{s.next} == s.handles;
    var o := s.objects[k].(name := Some(s.next));
    SettleKeeps(made, k, o, s.next);
    AddRefKeeps(Settle(made, k, o, s.next), s.next);
    AddRef(Settle(made, k, o, s.next), s.next)
  }

  function WithType(o: Object, x: Id): Object
    requires o.MemberObj?
  {
    MemberObj(o.refcount, o.proxy, o.aggregate, o.name, Some(x))
  }

  /** The first `r_type_member_type`: the slot and the client each get a reference. */
  function FillType(s: State, k: Id, proxy: nat): (s': State)
    requires Inv(s) && k in s.objects && s.objects[k].MemberObj? && s.objects[k].ty.None?
    ensures Inv(s') && s'.handles == s.handles + multiset{s.next}
    ensures k in s'.objects && TypeSlot(s'.objects[k]) == Some(s.next)
    ensures s.next in s'.objects && s'.objects[s.next] == TypeObj(2, proxy, None)
  {
    CreateKeeps(s, TypeObj(1, proxy, None));
    var made := Create(s, TypeObj(1, proxy, None));
    assert made.handles - multiset{s.next} == s.handles;
    var o := WithType(s.objects[k], s.next);
    SettleKeeps(made, k, o, s.next);
    AddRefKeeps(Settle(made, k, o, s.next), s.next);
    AddRef(Settle(made, k, o, s.next), s.next)
  }

  // ----- Runs

  /**
   * The calls of the library. An answer of `None` is a backend call that failed; `proxy` is
   * what the backend returned otherwise.
   */
  datatype Call =
    | NewString(text: string)
    | NewType(proxy: nat)
    | NewMember(container: Id, proxy: nat, aggregate: bool)
    | Allocate(ty: Id, size: nat, typeSize: nat)
    | Ref(x: Id)
    | Release(x: Id)
    | Name(x: Id, answer: Option<string>)
    | TypeOfMember(x: Id, found: Option<nat>)
    | TypeOfMemory(x: Id)

  /** What the library asks of its callers: live arguments, and a reference to give back. */
  predicate Allowed(s: State, call: Call) {
    match call
    case NewString(_) | NewType(_) => true
    case NewMember(container, _, _) => container in s.objects && s.objects[container].TypeObj?
    case Allocate(ty, size, typeSize) => ty in s.objects && s.objects[ty].TypeObj?
    case Ref(x) => x in s.objects
    case Release(x) => x in s.objects && x in s.handles
    case Name(x, _) => x in s.objects && (s.objects[x].TypeObj? || (s.objects[x].MemberObj? && s.objects[x].aggregate))
    case TypeOfMember(x, _) => x in s.objects && s.objects[x].MemberObj?
    case TypeOfMemory(x) => x in s.objects && s.objects[x].MemoryObj? && s.objects[x].ty.Some?
  }

  function NewObject(s: State, o: Object): (s': State)
    requires Inv(s) && o.refcount == 1 && NameSlot(o).None? && TypeSlot(o).None?
    ensures Inv(s')
  {
    CreateKeeps(s, o);
    Create(s, o)
  }

  function NewRef(s: State, x: Id): (s': State)
    requires Inv(s) && x in s.objects
    ensures Inv(s') && s'.handles == s.handles + multiset{x}
    ensures forall k | k in s.objects ::
              k in s'.objects && NameSlot(s'.objects[k]) == NameSlot(s.objects[k])
              && TypeSlot(s'.objects[k]) == TypeSlot(s.objects[k])
  {
    AddRefKeeps(s, x);
    AddRef(s, x)
  }

  /** A type's or a member's name: a new reference to the cached one, or the first call. */
  function AskName(s: State, x: Id, answer: Option<string>): (s': State)
    requires Inv(s) && x in s.objects && (s.objects[x].TypeObj? || s.objects[x].MemberObj?)
    ensures Inv(s') && x in s'.objects && s'.handles == s.handles + Handle(NameSlot(s'.objects[x]))
    ensures s.objects[x].name.None? && answer.Some? ==>
              && NameSlot(s'.objects[x]) == Some(s.next)
              && s.next in s'.objects && s'.objects[s.next] == StringObj(2, answer.value)
    ensures s.objects[x].name.None? && answer.None? ==> s' == s
  {
    assert Linked(s, x);
    if s.objects[x].name.Some? then NewRef(s, s.objects[x].name.value)
    else if answer.Some? then FillName(s, x, answer.value)
    else s
  }

  /** A member's type: a new reference to the cached one, or the first call. */
  function AskType(s: State, x: Id, found: Option<nat>): (s': State)
    requires Inv(s) && x in s.objects && s.objects[x].MemberObj?
    ensures Inv(s') && x in s'.objects && s'.handles == s.handles + Handle(TypeSlot(s'.objects[x]))
    ensures s.objects[x].ty.None? && found.Some? ==>
              && TypeSlot(s'.objects[x]) == Some(s.next)
              && s.next in s'.objects && s'.objects[s.next] == TypeObj(2, found.value, None)
    ensures s.objects[x].ty.None? && found.None? ==> s' == s
  {
    assert Linked(s, x);
    if s.objects[x].ty.Some? then NewRef(s, s.objects[x].ty.value)
    else if found.Some? then FillType(s, x, found.value)
    else s
  }

  /** A block's type: a new reference to it. */
  function AskBlockType(s: State, x: Id): (s': State)
    requires Inv(s) && x in s.objects && s.objects[x].MemoryObj? && s.objects[x].ty.Some?
    ensures Inv(s') && s'.handles == s.handles + Handle(TypeSlot(s.objects[x]))
  {
    assert Linked(s, x);
    NewRef(s, s.objects[x].ty.value)
  }

  /** One call. An allocation smaller than its type fails an assertion and has no next state. */
  function Next(s: State, call: Call): (s': State)
    requires Inv(s) && Allowed(s, call)
    ensures Inv(s')
  {
    match call
    case NewString(text) => NewObject(s, StringObj(1, text))
    case NewType(proxy) => NewObject(s, TypeObj(1, proxy, None))
    case NewMember(_, proxy, aggregate) => NewObject(s, MemberObj(1, proxy, aggregate, None, None))
    case Allocate(ty, size, typeSize) => if typeSize <= size then CreateBlock(s, ty, size) else s
    case Ref(x) => NewRef(s, x)
    case Release(x) => Unref(s, x)
    case Name(x, answer) => AskName(s, x, answer)
    case TypeOfMember(x, found) => AskType(s, x, found)
    case TypeOfMemory(x) => AskBlockType(s, x)
  }

  /** Every call of the run is allowed when its turn comes. */
  predicate AllowedRun(s: State, calls: seq<Call>)
    requires Inv(s)
    decreases |calls|
  {
    |calls| == 0 || (Allowed(s, calls[0]) && AllowedRun(Next(s, calls[0]), calls[1..]))
  }

  function Run(s: State, calls: seq<Call>): (s': State)
    requires Inv(s) && AllowedRun(s, calls)
    ensures Inv(s')
    decreases |calls|
  {
    if |calls| == 0 then s else Run(Next(s, calls[0]), calls[1..])
  }

  /**
   * After any run from the empty state: each live object's count is the number of its owners,
   * no slot or handle dangles, and an object is dead exactly when nothing owns it.
   */
  lemma RunsStayCounted(calls: seq<Call>, x: Id)
    requires AllowedRun(EMPTY, calls)
    ensures var s := Run(EMPTY, calls);
            && (x in s.objects ==> s.objects[x].refcount == Owners(s, x))
            && (x in s.objects <==> Owners(s, x) > 0)
            && (x in s.objects && NameSlot(s.objects[x]).Some? ==> NameSlot(s.objects[x]).value in s.objects)
            && (x in s.objects && TypeSlot(s.objects[x]).Some? ==> TypeSlot(s.objects[x]).value in s.objects)
            && (x in s.handles ==> x in s.objects)
  {
    LiveExactlyOwned(Run(EMPTY, calls), x);
    assert Linked(Run(EMPTY, calls), x);
  }

  // ----- What the calls make

  /** Object `x` is new and owned by the client alone. */
  predicate MadeFor(s: State, s': State, o: Object) {
    s'.next == s.next + 1 && s'.objects == s.objects[s.next := o]
  }

  /** New strings, types, members and blocks are what was asked for, and only they are new. */
  lemma CallsMake(s: State, call: Call)
    requires Inv(s) && Allowed(s, call)
    ensures call.NewString? ==> MadeFor(s, Next(s, call), StringObj(1, call.text))
    ensures call.NewType? ==> MadeFor(s, Next(s, call), TypeObj(1, call.proxy, None))
    ensures call.NewMember? ==>
              MadeFor(s, Next(s, call), MemberObj(1, call.proxy, call.aggregate, None, None))
    ensures call.Allocate? && call.typeSize <= call.size ==>
              s.next in Next(s, call).objects
              && Next(s, call).objects[s.next] == MemoryObj(1, call.size, Some(call.ty))
    ensures call.Allocate? && call.typeSize > call.size ==> Next(s, call) == s
  {
  }

  /** The first name asked for is the backend's; it is a new string that the slot and the client own. */
  lemma FirstName(s: State, x: Id, answer: Option<string>)
    requires Inv(s) && Allowed(s, Name(x, answer)) && NameSlot(s.objects[x]).None?
    ensures var s' := Next(s, Name(x, answer));
            match answer
            case None => s' == s
            case Some(text) => NameSlot(s'.objects[x]) == Some(s.next) && s'.objects[s.next] == StringObj(2, text)
  {
  }

  /** The first type asked for is the backend's. */
  lemma FirstType(s: State, x: Id, found: Option<nat>)
    requires Inv(s) && Allowed(s, TypeOfMember(x, found)) && TypeSlot(s.objects[x]).None?
    ensures var s' := Next(s, TypeOfMember(x, found));
            match found
            case None => s' == s
            case Some(proxy) =>
              TypeSlot(s'.objects[x]) == Some(s.next) && s'.objects[s.next] == TypeObj(2, proxy, None)
  {
  }

  /** A later call is answered from the slot, whatever the backend would say now: the count rises, and no more. */
  lemma LaterAnswers(s: State, call: Call, k: Id)
    requires Inv(s) && Allowed(s, call)
    requires || (call.Name? && NameSlot(s.objects[call.x]) == Some(k))
             || ((call.TypeOfMember? || call.TypeOfMemory?) && TypeSlot(s.objects[call.x]) == Some(k))
    ensures k in s.objects && Next(s, call) == AddRef(s, k)
  {
    assert Linked(s, call.x);
  }

  // ----- What the client holds

  lemma NoTypeSlots(s: State, x: Id)
    requires forall k | k in s.objects :: s.objects[k].TypeObj? || s.objects[k].StringObj?
    ensures TypedBy(s.objects, x) == {}
  {
  }

  lemma NoNameSlots(s: State, x: Id)
    requires forall k | k in s.objects :: s.objects[k].StringObj?
    ensures NamedBy(s.objects, x) == {}
  {
  }

  lemma AllGone(s: State)
    requires Inv(s) && s.handles == multiset{}
    ensures s.objects == map[]
  {
    forall x | x in s.objects
      ensures s.objects[x].TypeObj? || s.objects[x].StringObj?
    {
      CountAt(s, x);
      NamesOnStringsOnly(s, x);
      TypesOnTypesOnly(s, x);
    }
    forall x | x in s.objects
      ensures s.objects[x].StringObj?
    {
      CountAt(s, x);
      NoTypeSlots(s, x);
      NamesOnStringsOnly(s, x);
    }
    forall x | x in s.objects
      ensures false
    {
      CountAt(s, x);
      NoNameSlots(s, x);
      TypesOnTypesOnly(s, x);
    }
  }

  /** Nothing is left exactly when the client holds nothing. */
  lemma NothingLeaks(s: State)
    requires Inv(s)
    ensures s.objects == map[] <==> s.handles == multiset{}
  {
    if s.handles == multiset{} {
      AllGone(s);
    } else {
      var x :| x in s.handles;
      assert x in s.objects;
    }
  }

  /** The reference a call returns: for a name or a type, the one its slot holds from then on. */
  function Returned(s: State, call: Call): Option<Id>
    requires Inv(s) && Allowed(s, call)
  {
    match call
    case NewString(_) | NewType(_) | NewMember(_, _, _) => Some(s.next)
    case Allocate(_, size, typeSize) => if typeSize <= size then Some(s.next) else None
    case Ref(x) => Some(x)
    case Release(_) => None
    case Name(x, _) => NameSlot(Next(s, call).objects[x])
    case TypeOfMember(x, _) => TypeSlot(Next(s, call).objects[x])
    case TypeOfMemory(x) => s.objects[x].ty
  }

  /** The reference a call takes back. */
  function Taken(call: Call): Option<Id> {
    if call.Release? then Some(call.x) else None
  }

  /** Each call changes the client's references by the one it returns and the one it takes back. */
  lemma NextHandles(s: State, call: Call)
    requires Inv(s) && Allowed(s, call)
    ensures Next(s, call).handles + Handle(Taken(call)) == s.handles + Handle(Returned(s, call))
  {
  }

  /** The references a run returns. */
  function HandedOut(s: State, calls: seq<Call>): multiset<Id>
    requires Inv(s) && AllowedRun(s, calls)
    decreases |calls|
  {
    if |calls| == 0 then multiset{}
    else Handle(Returned(s, calls[0])) + HandedOut(Next(s, calls[0]), calls[1..])
  }

  /** The references a run takes back. */
  function GivenBack(calls: seq<Call>): multiset<Id> {
    if |calls| == 0 then multiset{} else Handle(Taken(calls[0])) + GivenBack(calls[1..])
  }

  lemma BalanceStep(before: multiset<Id>, mid: multiset<Id>, after: multiset<Id>, got: multiset<Id>,
      gave: multiset<Id>, got': multiset<Id>, gave': multiset<Id>)
    requires mid + gave == before + got && after + gave' == mid + got'
    ensures after + (gave + gave') == before + (got + got')
  {
    forall x: Id
      ensures (after + (gave + gave'))[x] == (before + (got + got'))[x]
    {
      assert (mid + gave)[x] == (before + got)[x] && (after + gave')[x] == (mid + got')[x];
    }
  }

  /** What the client holds after a run is what it held before and was handed, less what it gave back. */
  lemma {:induction false} RunsBalance(s: State, calls: seq<Call>)
    requires Inv(s) && AllowedRun(s, calls)
    ensures Run(s, calls).handles + GivenBack(calls) == s.handles + HandedOut(s, calls)
    decreases |calls|
  {
    if |calls| > 0 {
      var s' := Next(s, calls[0]);
      NextHandles(s, calls[0]);
      RunsBalance(s', calls[1..]);
      BalanceStep(s.handles, s'.handles, Run(s, calls).handles, Handle(Returned(s, calls[0])), Handle(Taken(calls[0])),
                  HandedOut(s', calls[1..]), GivenBack(calls[1..]));
    }
  }

  lemma Cancels(h: multiset<Id>, got: multiset<Id>, gave: multiset<Id>)
    requires h + gave == multiset{} + got
    ensures h == multiset{} <==> got == gave
  {
    assert multiset{} + got == got;
    if h == multiset{} {
      assert h + gave == gave;
    }
    if got == gave {
      forall x: Id
        ensures h[x] == 0
      {
        assert (h + gave)[x] == (multiset{} + got)[x];
      }
    }
  }

  /** A run leaves nothing behind exactly when the client gives back just what it was handed. */
  lemma BalancedExactly(calls: seq<Call>)
    requires AllowedRun(EMPTY, calls)
    ensures Run(EMPTY, calls).objects == map[] <==> HandedOut(EMPTY, calls) == GivenBack(calls)
  {
    var s := Run(EMPTY, calls);
    RunsBalance(EMPTY, calls);
    NothingLeaks(s);
    Cancels(s.handles, HandedOut(EMPTY, calls), GivenBack(calls));
  }

  lemma RunStep(s: State, call: Call, rest: seq<Call>)
    requires Inv(s) && Allowed(s, call) && AllowedRun(Next(s, call), rest)
    ensures AllowedRun(s, [call] + rest) && Run(s, [call] + rest) == Run(Next(s, call), rest)
  {
    assert ([call] + rest)[1..] == rest;
  }

  /** A type and its name, both held by the client, can be given back in this order. */
  lemma NameThenType(s: State)
    requires Inv(s) && s.handles == multiset{0, 1}
    ensures AllowedRun(s, [Release(1)] + [Release(0)]) && Run(s, [Release(1)] + [Release(0)]).objects == map[]
  {
    assert 1 in s.handles;
    var s' := Next(s, Release(1));
    assert s'.handles == multiset{0};
    assert 0 in s'.handles;
    var last := Next(s', Release(0));
    assert last.handles == multiset{};
    NothingLeaks(last);
    assert AllowedRun(last, []);
    RunStep(s', Release(0), []);
    assert [Release(0)] + [] == [Release(0)];
    RunStep(s, Release(1), [Release(0)]);
  }

  lemma NameAsked(s: State, text: string)
    requires Inv(s) && s.handles == multiset{0} && s.next == 1 && 0 in s.objects && s.objects[0].TypeObj?
    requires NameSlot(s.objects[0]).None?
    ensures Next(s, Name(0, Some(text))).handles == multiset{0, 1}
  {
    FirstName(s, 0, Some(text));
    NextHandles(s, Name(0, Some(text)));
  }

  /** A client that asks a new type for its name and gives both back leaves nothing. */
  lemma NamedTypeComesAndGoes(proxy: nat, text: string)
    ensures var calls := [NewType(proxy)] + ([Name(0, Some(text))] + ([Release(1)] + [Release(0)]));
            AllowedRun(EMPTY, calls) && Run(EMPTY, calls).objects == map[]
  {
    var s := Next(EMPTY, NewType(proxy));
    assert s.objects[0] == TypeObj(1, proxy, None) && s.handles == multiset{0};
    NameAsked(s, text);
    NameThenType(Next(s, Name(0, Some(text))));
    RunStep(s, Name(0, Some(text)), [Release(1)] + [Release(0)]);
    RunStep(EMPTY, NewType(proxy), [Name(0, Some(text))] + ([Release(1)] + [Release(0)]));
  }

  // ----- What runs do not change

  /** Old objects keep what they are and their filled slots; dead ones stay dead. */
  predicate Steady(s: State, s': State) {
    && s.next <= s'.next
    && forall k | k in s'.objects && k < s.next ::
         && k in s.objects
         && Identity(s'.objects[k]) == Identity(s.objects[k])
         && (NameSlot(s.objects[k]).Some? ==> NameSlot(s'.objects[k]) == NameSlot(s.objects[k]))
         && (TypeSlot(s.objects[k]).Some? ==> TypeSlot(s'.objects[k]) == TypeSlot(s.objects[k]))
  }

  /** Every block has its type. */
  predicate BlocksTyped(s: State) {
    forall x | x in s.objects && s.objects[x].MemoryObj? :: s.objects[x].ty.Some?
  }

  lemma SteadyChain(a: State, b: State, c: State)
    requires Steady(a, b) && Steady(b, c)
    ensures Steady(a, c)
  {
  }

  lemma RemoveSteady(s: State, x: Id)
    requires x in s.objects
    ensures Steady(s, Remove(s, x))
  {
  }

  lemma DropRefSteady(s: State, x: Id)
    requires WellLinked(s) && x in s.objects && s.objects[x].refcount > 0
    ensures Steady(s, DropRef(s, x))
  {
  }

  lemma AddRefSteady(s: State, x: Id)
    requires WellLinked(s) && x in s.objects
    ensures Steady(s, AddRef(s, x)) && (BlocksTyped(s) ==> BlocksTyped(AddRef(s, x)))
  {
  }

  /** Steady steps that make nothing new leave every block its type. */
  lemma SteadyBlocks(s: State, s': State)
    requires Steady(s, s') && s'.next == s.next && BlocksTyped(s)
    requires forall x | x in s'.objects :: x < s'.next
    ensures BlocksTyped(s')
  {
  }

  lemma UnrefStringSteady(s: State, x: Id)
    requires Inv(s) && x in s.objects && x in s.handles && s.objects[x].StringObj?
    ensures Steady(s, UnrefString(s, x)) && UnrefString(s, x).next == s.next
  {
    CountAt(s, x);
  }

  lemma UnrefTypeSteady(s: State, x: Id)
    requires Inv(s) && x in s.objects && x in s.handles && s.objects[x].TypeObj?
    ensures Steady(s, UnrefType(s, x)) && UnrefType(s, x).next == s.next
  {
    var name := NameSlot(s.objects[x]);
    CountAt(s, x);
    RemoveSteady(s, x);
    DropRefSteady(s, x);
    if s.objects[x].refcount == 1 && name.Some? {
      RemoveKeeps(s, x);
      UnrefStringSteady(Remove(s, x), name.value);
      SteadyChain(s, Remove(s, x), UnrefType(s, x));
    }
  }

  lemma UnrefSlotsSteady(s: State, name: Option<Id>, ty: Option<Id>)
    requires Inv(s)
    requires name.Some? ==> name.value in s.objects && name.value in s.handles && s.objects[name.value].StringObj?
    requires ty.Some? ==> ty.value in s.objects && ty.value in s.handles && s.objects[ty.value].TypeObj?
    ensures Steady(s, UnrefSlots(s, name, ty)) && UnrefSlots(s, name, ty).next == s.next
  {
    if name.Some? {
      UnrefStringSteady(s, name.value);
      if ty.Some? {
        UnrefStringTouches(s, name.value, ty.value);
        UnrefTypeSteady(UnrefString(s, name.value), ty.value);
        SteadyChain(s, UnrefString(s, name.value), UnrefSlots(s, name, ty));
      }
    } else if ty.Some? {
      UnrefTypeSteady(s, ty.value);
    }
  }

  lemma UnrefHolderSteady(s: State, x: Id)
    requires Inv(s) && x in s.objects && x in s.handles && !s.objects[x].StringObj? && !s.objects[x].TypeObj?
    ensures Steady(s, UnrefHolder(s, x)) && UnrefHolder(s, x).next == s.next
  {
    CountAt(s, x);
    RemoveSteady(s, x);
    DropRefSteady(s, x);
    if s.objects[x].refcount == 1 {
      RemoveKeeps(s, x);
      UnrefSlotsSteady(Remove(s, x), NameSlot(s.objects[x]), TypeSlot(s.objects[x]));
      SteadyChain(s, Remove(s, x), UnrefHolder(s, x));
    }
  }

  lemma UnrefSteady(s: State, x: Id)
    requires Inv(s) && x in s.objects && x in s.handles
    ensures Steady(s, Unref(s, x))
    ensures BlocksTyped(s) ==> BlocksTyped(Unref(s, x))
  {
    match s.objects[x] {
      case StringObj(_, _) => UnrefStringSteady(s, x);
      case TypeObj(_, _, _) => UnrefTypeSteady(s, x);
      case _ => UnrefHolderSteady(s, x);
    }
    if BlocksTyped(s) {
      SteadyBlocks(s, Unref(s, x));
    }
  }

  lemma CreateBlockSteady(s: State, ty: Id, size: nat)
    requires Inv(s) && ty in s.objects && s.objects[ty].TypeObj?
    ensures Steady(s, CreateBlock(s, ty, size))
    ensures BlocksTyped(s) ==> BlocksTyped(CreateBlock(s, ty, size))
  {
  }

  lemma FillNameSteady(s: State, k: Id, text: string)
    requires Inv(s) && k in s.objects && (s.objects[k].TypeObj? || s.objects[k].MemberObj?) && s.objects[k].name.None?
    ensures Steady(s, FillName(s, k, text))
    ensures BlocksTyped(s) ==> BlocksTyped(FillName(s, k, text))
  {
  }

  lemma FillTypeSteady(s: State, k: Id, proxy: nat)
    requires Inv(s) && k in s.objects && s.objects[k].MemberObj? && s.objects[k].ty.None?
    ensures Steady(s, FillType(s, k, proxy))
    ensures BlocksTyped(s) ==> BlocksTyped(FillType(s, k, proxy))
  {
  }

  lemma AskNameSteady(s: State, x: Id, answer: Option<string>)
    requires Inv(s) && x in s.objects && (s.objects[x].TypeObj? || s.objects[x].MemberObj?)
    ensures Steady(s, AskName(s, x, answer))
    ensures BlocksTyped(s) ==> BlocksTyped(AskName(s, x, answer))
  {
    assert Linked(s, x);
    if s.objects[x].name.Some? {
      AddRefSteady(s, s.objects[x].name.value);
    } else if answer.Some? {
      FillNameSteady(s, x, answer.value);
    }
  }

  lemma AskTypeSteady(s: State, x: Id, found: Option<nat>)
    requires Inv(s) && x in s.objects && s.objects[x].MemberObj?
    ensures Steady(s, AskType(s, x, found))
    ensures BlocksTyped(s) ==> BlocksTyped(AskType(s, x, found))
  {
    assert Linked(s, x);
    if s.objects[x].ty.Some? {
      AddRefSteady(s, s.objects[x].ty.value);
    } else if found.Some? {
      FillTypeSteady(s, x, found.value);
    }
  }

  lemma AskBlockTypeSteady(s: State, x: Id)
    requires Inv(s) && x in s.objects && s.objects[x].MemoryObj? && s.objects[x].ty.Some?
    ensures Steady(s, AskBlockType(s, x))
    ensures BlocksTyped(s) ==> BlocksTyped(AskBlockType(s, x))
  {
    assert Linked(s, x);
    AddRefSteady(s, s.objects[x].ty.value);
  }

  lemma NewSteady(s: State, o: Object)
    requires Inv(s) && o.refcount == 1 && NameSlot(o).None? && TypeSlot(o).None? && !o.MemoryObj?
    ensures Steady(s, NewObject(s, o))
    ensures BlocksTyped(s) ==> BlocksTyped(NewObject(s, o))
  {
  }

  lemma NextSteady(s: State, call: Call)
    requires Inv(s) && Allowed(s, call)
    ensures Steady(s, Next(s, call))
    ensures BlocksTyped(s) ==> BlocksTyped(Next(s, call))
  {
    match call
    case NewString(text) => NewSteady(s, StringObj(1, text));
    case NewType(proxy) => NewSteady(s, TypeObj(1, proxy, None));
    case NewMember(_, proxy, aggregate) => NewSteady(s, MemberObj(1, proxy, aggregate, None, None));
    case Allocate(ty, size, typeSize) =>
      if typeSize <= size {
        CreateBlockSteady(s, ty, size);
      }
    case Ref(x) => AddRefSteady(s, x);
    case Release(x) => UnrefSteady(s, x);
    case Name(x, answer) => AskNameSteady(s, x, answer);
    case TypeOfMember(x, found) => AskTypeSteady(s, x, found);
    case TypeOfMemory(x) => AskBlockTypeSteady(s, x);
  }

  /**
   * Along any run a filled cache never changes while its object lives, so every later call for
   * the same name or type gives the same object; and every block has a type to give.
   */
  lemma {:induction false} CachesNeverChange(s: State, calls: seq<Call>)
    requires Inv(s) && AllowedRun(s, calls)
    ensures Steady(s, Run(s, calls))
    ensures BlocksTyped(s) ==> BlocksTyped(Run(s, calls))
    decreases |calls|
  {
    if |calls| > 0 {
      NextSteady(s, calls[0]);
      CachesNeverChange(Next(s, calls[0]), calls[1..]);
      SteadyChain(s, Next(s, calls[0]), Run(s, calls));
    }
  }
}

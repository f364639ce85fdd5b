/** The introspection objects as the library keeps them: counts and slots updated in place. */
module Introspection {
  import opened Bytes
  import opened Ownership

  lemma RemoveIfLast(s: State, x: Id)
    requires Inv(s) && x in s.objects && x in s.handles
    ensures s.objects[x].refcount == 1 ==>
              var s' := Remove(s, x);
              && Inv(s')
              && (NameSlot(s.objects[x]).Some? ==>
                    var n := NameSlot(s.objects[x]).value;
                    n in s'.objects && n in s'.handles && s'.objects[n].StringObj?)
              && (TypeSlot(s.objects[x]).Some? ==>
                    var t := TypeSlot(s.objects[x]).value;
                    t in s'.objects && t in s'.handles && s'.objects[t].TypeObj?)
  {
    if s.objects[x].refcount == 1 {
      RemoveKeeps(s, x);
    }
    CountAt(s, x);
  }

  class Library {
    var objects: map<Id, Object>
    var next: Id
    ghost var handles: multiset<Id>

    ghost function View(): State
      reads this
    {
      State(objects, handles, next)
    }

    constructor ()
      ensures View() == EMPTY
    {
      objects, next, handles := map[], 0, multiset{};
    }

    /** Allocate an object with one reference. */
    method Make(o: Object) returns (x: Id)
      requires Inv(View()) && o.refcount == 1 && NameSlot(o).None? && TypeSlot(o).None?
      modifies this
      ensures x == old(next) && View() == Create(old(View()), o) && Inv(View())
    {
      CreateKeeps(View(), o);
      x := next;
      objects, next, handles := objects[x := o], next + 1, handles + multiset{x};
    }

    /** `r_string_ref`, `r_type_ref`, `r_type_member_ref`, `r_memory_ref`. */
    method Ref(x: Id)
      requires Inv(View()) && x in objects
      modifies this
      ensures View() == AddRef(old(View()), x) && Inv(View())
    {
      AddRefKeeps(View(), x);
      objects := objects[x := objects[x].(refcount := objects[x].refcount + 1)];
      handles := handles + multiset{x};
    }

    method Lower(x: Id)
      requires x in objects && objects[x].refcount > 0
      modifies this
      ensures View() == DropRef(old(View()), x)
    {
      objects := objects[x := objects[x].(refcount := objects[x].refcount - 1)];
      handles := handles - multiset{x};
    }

    /** The object goes; what its slots own is left to be given back. */
    method Erase(x: Id)
      requires x in objects
      modifies this
      ensures View() == Remove(old(View()), x)
    {
      handles := Remove(View(), x).handles;
      objects := objects - {x};
    }

    /** The decrement and test at the head of every unref; the object leaves with its last reference. */
    method DecrementAndTest(x: Id) returns (last: bool)
      requires Inv(View()) && x in objects && x in handles
      modifies this
      ensures last <==> old(objects)[x].refcount == 1
      ensures View() == Lowered(old(View()), x)
      ensures Inv(View())
    {
      CountAt(View(), x);
      last := objects[x].refcount - 1 == 0;
      if last {
        RemoveKeeps(View(), x);
        Erase(x);
      } else {
        DropRefKeeps(View(), x);
        Lower(x);
      }
    }

    method StringUnref(x: Id)
      requires Inv(View()) && x in objects && x in handles && objects[x].StringObj?
      modifies this
      ensures View() == UnrefString(old(View()), x) && Inv(View())
      ensures handles == old(handles) - multiset{x}
    {
      CountAt(View(), x);
      var last := DecrementAndTest(x);
    }

    method TypeUnref(x: Id)
      requires Inv(View()) && x in objects && x in handles && objects[x].TypeObj?
      modifies this
      ensures View() == UnrefType(old(View()), x) && Inv(View())
      ensures handles == old(handles) - multiset{x}
    {
      var name := objects[x].name;
      RemoveIfLast(View(), x);
      CountAt(View(), x);
      var last := DecrementAndTest(x);
      if last && name.Some? {
        StringUnref(name.value);
      }
    }

    /** The two releases of `r_type_member_destroy`. */
    method SlotsUnref(name: Option<Id>, ty: Option<Id>)
      requires Inv(View())
      requires name.Some? ==> name.value in objects && name.value in handles && objects[name.value].StringObj?
      requires ty.Some? ==> ty.value in objects && ty.value in handles && objects[ty.value].TypeObj?
      modifies this
      ensures View() == UnrefSlots(old(View()), name, ty) && Inv(View())
      ensures handles == old(handles) - Handle(name) - Handle(ty)
    {
      if name.Some? {
        if ty.Some? {
          UnrefStringTouches(View(), name.value, ty.value);
        }
        StringUnref(name.value);
      }
      if ty.Some? {
        TypeUnref(ty.value);
      }
    }

    method MemberUnref(x: Id)
      requires Inv(View()) && x in objects && x in handles && objects[x].MemberObj?
      modifies this
      ensures View() == UnrefHolder(old(View()), x) && Inv(View())
      ensures handles == old(handles) - multiset{x}
    {
      var name, ty := objects[x].name, objects[x].ty;
      RemoveIfLast(View(), x);
      CountAt(View(), x);
      var last := DecrementAndTest(x);
      if last {
        SlotsUnref(name, ty);
      }
    }

    method MemoryUnref(x: Id)
      requires Inv(View()) && x in objects && x in handles && objects[x].MemoryObj?
      modifies this
      ensures View() == UnrefHolder(old(View()), x) && Inv(View())
      ensures handles == old(handles) - multiset{x}
    {
      var ty := objects[x].ty;
      RemoveIfLast(View(), x);
      CountAt(View(), x);
      var last := DecrementAndTest(x);
      if last && ty.Some? {
        TypeUnref(ty.value);
      }
    }

    /** A filled slot takes over a reference. */
    method Keep(k: Id, o: Object, x: Id)
      requires Inv(View()) && Inv(Settle(View(), k, o, x))
      modifies this
      ensures View() == Settle(old(View()), k, o, x)
    {
      objects := objects[k := o];
      handles := handles - multiset{x};
    }

    method FillNameSlot(k: Id, text: string)
      requires Inv(View()) && k in objects && (objects[k].TypeObj? || objects[k].MemberObj?) && objects[k].name.None?
      modifies this
      ensures View() == FillName(old(View()), k, text) && Inv(View())
    {
      var o := objects[k];
      var x := Make(StringObj(1, text));
      SettleKeeps(View(), k, o.(name := Some(x)), x);
      Keep(k, o.(name := Some(x)), x);
      Ref(x);
    }

    /** `r_type_name` and `r_aggregate_member_name`; `answer` is the backend's. */
    method NameOf(k: Id, answer: Option<string>) returns (r: Option<Id>)
      requires Inv(View()) && k in objects && (objects[k].TypeObj? || objects[k].MemberObj?)
      modifies this
      ensures View() == AskName(old(View()), k, answer) && Inv(View())
      ensures k in objects && r == NameSlot(objects[k]) && handles == old(handles) + Handle(r)
      ensures NameSlot(old(objects)[k]).None? ==>
                if answer.None? then r.None?
                else r == Some(old(next)) && r.value in objects && objects[r.value] == StringObj(2, answer.value)
      ensures NameSlot(old(objects)[k]).Some? ==> r == NameSlot(old(objects)[k])
    {
      assert Linked(View(), k);
      r := objects[k].name;
      if r.Some? {
        Ref(r.value);
      } else if answer.Some? {
        r := Some(next);
        FillNameSlot(k, answer.value);
      }
    }

    method FillTypeSlot(k: Id, proxy: nat)
      requires Inv(View()) && k in objects && objects[k].MemberObj? && objects[k].ty.None?
      modifies this
      ensures View() == FillType(old(View()), k, proxy) && Inv(View())
    {
      var o := objects[k];
      var x := Make(TypeObj(1, proxy, None));
      SettleKeeps(View(), k, WithType(o, x), x);
      Keep(k, WithType(o, x), x);
      Ref(x);
    }

    /** `r_type_member_type`; `found` is the backend's answer. */
    method TypeOf(k: Id, found: Option<nat>) returns (r: Option<Id>)
      requires Inv(View()) && k in objects && objects[k].MemberObj?
      modifies this
      ensures View() == AskType(old(View()), k, found) && Inv(View())
      ensures k in objects && r == TypeSlot(objects[k]) && handles == old(handles) + Handle(r)
      ensures TypeSlot(old(objects)[k]).None? ==>
                if found.None? then r.None?
                else r == Some(old(next)) && r.value in objects && objects[r.value] == TypeObj(2, found.value, None)
      ensures TypeSlot(old(objects)[k]).Some? ==> r == TypeSlot(old(objects)[k])
    {
      assert Linked(View(), k);
      r := objects[k].ty;
      if r.Some? {
        Ref(r.value);
      } else if found.Some? {
        r := Some(next);
        FillTypeSlot(k, found.value);
      }
    }

    /** `r_mem_malloc_sized_fn`; `None` is its failed size assertion. */
    method MallocSized(ty: Id, size: nat, typeSize: nat) returns (r: Option<Id>)
      requires Inv(View()) && ty in objects && objects[ty].TypeObj?
      modifies this
      ensures View() == (if typeSize <= size then CreateBlock(old(View()), ty, size) else old(View())) && Inv(View())
      ensures r == if typeSize <= size then Some(old(next)) else None
      ensures handles == old(handles) + Handle(r)
      ensures r.Some? ==> r.value in objects && objects[r.value] == MemoryObj(1, size, Some(ty))
    {
      if typeSize > size {
        return None;
      }
      ghost var before := View();
      Ref(ty);
      var x := Make(MemoryObj(1, size, None));
      SettleKeeps(View(), x, MemoryObj(1, size, Some(ty)), ty);
      Keep(x, MemoryObj(1, size, Some(ty)), ty);
      assert View() == CreateBlock(before, ty, size);
      r := Some(x);
    }

    /** `r_mem_type`. */
    method MemoryType(k: Id) returns (r: Id)
      requires Inv(View()) && k in objects && objects[k].MemoryObj? && objects[k].ty.Some?
      modifies this
      ensures View() == AskBlockType(old(View()), k) && Inv(View())
      ensures k in objects && Some(r) == TypeSlot(objects[k]) && handles == old(handles) + multiset{r}
    {
      assert Linked(View(), k);
      r := objects[k].ty.value;
      Ref(r);
    }
  }
}

/** A client of the introspection library: the handles it holds and the backend calls it makes. */
module Session {
  import opened Types

  /** One reference the client must give back. */
  datatype Handle =
    | TypeHandle(ty: RType)
    | MemberHandle(container: RType, index: nat)
    | StringHandle(text: string)

  /** `k` handles of the same kind. */
  function Times(h: Handle, k: nat): multiset<Handle> {
    multiset{}[h := k]
  }

  class Client {
    /** Whether the k-th checked backend call fails. */
    const plan: nat -> bool
    var calls: nat
    var failed: bool
    var held: multiset<Handle>

    constructor (plan: nat -> bool)
      ensures this.plan == plan && calls == 0 && !failed && held == multiset{}
    {
      this.plan := plan;
      calls, failed, held := 0, false, multiset{};
    }

    /** A backend call whose failure the caller tests for. */
    method Check() returns (ok: bool)
      modifies this`calls, this`failed
      ensures calls == old(calls) + 1
      ensures ok == !plan(old(calls))
      ensures failed == (old(failed) || !ok)
    {
      ok := !plan(calls);
      calls := calls + 1;
      failed := failed || !ok;
    }

    /** A checked call that returns a new reference on success. */
    method Fetch(h: Handle) returns (ok: bool)
      modifies this
      ensures failed == (old(failed) || !ok)
      ensures held == if ok then old(held) + multiset{h} else old(held)
    {
      ok := Check();
      if ok {
        Take(h);
      }
    }

    method Take(h: Handle)
      modifies this`held
      ensures held == old(held) + multiset{h}
    {
      held := held + multiset{h};
    }

    /** Give back one handle; `rest` is what is held besides. */
    method Drop(h: Handle, ghost rest: multiset<Handle>)
      requires held == rest + multiset{h}
      modifies this`held
      ensures held == rest
    {
      assert h in held;
      held := held - multiset{h};
      assert held == rest;
    }

    /** Give back a handle taken before `more` came to be held. */
    method Release(h: Handle, ghost base: multiset<Handle>, ghost more: multiset<Handle>)
      requires held == base + multiset{h} + more
      modifies this`held
      ensures held == base + more
    {
      assert base + multiset{h} + more == base + more + multiset{h};
      Drop(h, base + more);
    }

    /**
     * `r_aggregate_type_member_by_name`: the first member of that name, its handle the only
     * one kept. A failure and an unknown name both give nothing back and keep nothing.
     */
    method MemberByName(container: RType, names: seq<string>, name: string) returns (found: int)
      requires !failed
      modifies this
      ensures -1 <= found < |names|
      ensures failed ==> found == -1
      ensures found >= 0 ==> names[found] == name && forall i | 0 <= i < found :: names[i] != name
      ensures !failed && found == -1 ==> forall i | 0 <= i < |names| :: names[i] != name
      ensures held == if found >= 0 then old(held) + multiset{MemberHandle(container, found)} else old(held)
    {
      var ok := Check();
      if !ok {
        return -1;
      }
      ghost var base := held;
      for i := 0 to |names|
        invariant !failed && held == base == old(held)
        invariant forall k | 0 <= k < i :: names[k] != name
      {
        ok := Fetch(MemberHandle(container, i));
        if !ok {
          return -1;
        }
        ok := Fetch(StringHandle(names[i]));
        if !ok {
          Drop(MemberHandle(container, i), base);
          return -1;
        }
        var equal := names[i] == name;
        Drop(StringHandle(names[i]), base + multiset{MemberHandle(container, i)});
        if equal {
          return i;
        }
        Drop(MemberHandle(container, i), base);
      }
      found := -1;
    }
  }
}

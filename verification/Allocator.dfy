/** The typed allocator: counted blocks that remember their type. */
module Allocator {
  import opened Bytes
  import opened Types
  import opened Values
  import opened Codec
  import opened Memory
  import opened Session

  function Overwrite(cells: seq<Cell>, offset: nat, data: seq<Cell>): (r: seq<Cell>)
    requires offset + |data| <= |cells|
    ensures |r| == |cells|
  {
    cells[..offset] + data + cells[offset + |data|..]
  }

  /** Memory after `data` is stored at a location inside a block. */
  function Put(m: Mem, l: Loc, data: seq<Cell>): Mem
    requires l.block in m && l.offset + |data| <= |m[l.block].cells|
  {
    m[l.block := m[l.block].(cells := Overwrite(m[l.block].cells, l.offset, data))]
  }

  function Min(a: nat, b: nat): nat {
    if a < b then a else b
  }

  /** A new block, an error because the size query failed, or the failed size assertion. */
  datatype Allocation = Allocated(block: nat) | NoSize | TooSmall

  class Heap {
    var blocks: Mem
    /** Block ids are never used twice. */
    var next: nat
    /** How many bytes have been stored past the end of a block. */
    var spilled: nat

    ghost predicate Valid()
      reads this
    {
      forall b | b in blocks :: b < next && blocks[b].refcount > 0
    }

    /** `r_memory_new` behind the size assertion; `None` is the assertion failed. */
    method Reserve(t: TypeTable, ty: RType, size: nat) returns (b: Option<nat>)
      requires Valid()
      modifies this
      ensures Valid() && spilled == old(spilled)
      ensures b.Some? <==> Size(t, ty) <= size
      ensures b.None? ==> blocks == old(blocks)
      ensures b.Some? ==>
                && b.value !in old(blocks)
                && blocks == old(blocks)[b.value := Block(ty, 1, seq(size, _ => Undef))]
    {
      if Size(t, ty) > size {
        return None;
      }
      b := Some(next);
      blocks := blocks[next := Block(ty, 1, seq(size, _ => Undef))];
      next := next + 1;
    }

    /** `r_mem_malloc_sized_fn`. */
    method MallocSized(s: Client, t: TypeTable, ty: RType, size: nat) returns (r: Allocation)
      requires Valid()
      modifies this, s
      ensures Valid() && spilled == old(spilled)
      ensures s.held == old(s.held) && s.failed == (old(s.failed) || r.NoSize?)
      ensures r.TooSmall? ==> size < Size(t, ty)
      ensures !r.Allocated? ==> blocks == old(blocks)
      ensures r.Allocated? ==>
                && Size(t, ty) <= size && r.block !in old(blocks)
                && blocks == old(blocks)[r.block := Block(ty, 1, seq(size, _ => Undef))]
    {
      var ok := s.Check();
      if !ok {
        return NoSize;
      }
      var b := Reserve(t, ty, size);
      r := if b.Some? then Allocated(b.value) else TooSmall;
    }

    /** `r_mem_malloc_fn`: the size that is asked for first is not asked for again. */
    method Malloc(s: Client, t: TypeTable, ty: RType) returns (b: Option<nat>)
      requires Valid()
      modifies this, s
      ensures Valid() && spilled == old(spilled)
      ensures s.held == old(s.held) && s.failed == (old(s.failed) || b.None?)
      ensures b.None? ==> blocks == old(blocks)
      ensures b.Some? ==>
                && b.value !in old(blocks)
                && blocks == old(blocks)[b.value := Block(ty, 1, seq(Size(t, ty), _ => Undef))]
    {
      var ok := s.Check();
      if !ok {
        return None;
      }
      b := Reserve(t, ty, Size(t, ty));
    }

    /** `r_mem_calloc_sized_fn`: the product wraps around, and the whole block is cleared. */
    method CallocSized(s: Client, t: TypeTable, ty: RType, size: nat, nmemb: nat) returns (r: Allocation)
      requires Valid()
      modifies this, s
      ensures Valid() && spilled == old(spilled)
      ensures s.held == old(s.held) && s.failed == (old(s.failed) || r.NoSize?)
      ensures r.TooSmall? ==> SizeProduct(size, nmemb) < Size(t, ty)
      ensures !r.Allocated? ==> blocks == old(blocks)
      ensures r.Allocated? ==>
                && Size(t, ty) <= SizeProduct(size, nmemb) && r.block !in old(blocks)
                && blocks == old(blocks)[r.block := Block(ty, 1, seq(SizeProduct(size, nmemb), _ => Plain(0)))]
    {
      var realSize := SizeProduct(size, nmemb);
      r := MallocSized(s, t, ty, realSize);
      if r.Allocated? {
        var zeroes := seq(realSize, _ => Plain(0));
        assert Overwrite(blocks[r.block].cells, 0, zeroes) == zeroes;
        Write(Loc(r.block, 0), zeroes);
      }
    }

    /** `r_mem_ref`. */
    method Ref(b: nat)
      requires Valid() && b in blocks
      modifies this
      ensures Valid() && spilled == old(spilled)
      ensures blocks == old(blocks)[b := old(blocks)[b].(refcount := old(blocks)[b].refcount + 1)]
    {
      blocks := blocks[b := blocks[b].(refcount := blocks[b].refcount + 1)];
    }

    /** `r_mem_unref`: the block goes with its last reference. */
    method Unref(b: nat)
      requires Valid() && b in blocks
      modifies this
      ensures Valid() && spilled == old(spilled)
      ensures blocks ==
              if old(blocks)[b].refcount == 1 then old(blocks) - {b}
              else old(blocks)[b := old(blocks)[b].(refcount := old(blocks)[b].refcount - 1)]
    {
      var refcount := blocks[b].refcount - 1;
      if refcount == 0 {
        blocks := blocks - {b};
      } else {
        blocks := blocks[b := blocks[b].(refcount := refcount)];
      }
    }

    /** A store or `memcpy` that must stay inside its block. */
    method Write(l: Loc, data: seq<Cell>)
      requires Valid()
      requires l.block in blocks && l.offset + |data| <= |blocks[l.block].cells|
      modifies this
      ensures Valid() && spilled == old(spilled)
      ensures blocks == Put(old(blocks), l, data)
    {
      blocks := blocks[l.block := blocks[l.block].(cells := Overwrite(blocks[l.block].cells, l.offset, data))];
    }

    /** A store at the start of a block that may be too small; the excess bytes spill. */
    method WriteUnchecked(b: nat, data: seq<Cell>)
      requires Valid() && b in blocks
      modifies this
      ensures Valid()
      ensures var room := Min(|data|, |old(blocks)[b].cells|);
              && blocks == Put(old(blocks), Loc(b, 0), data[..room])
              && spilled == old(spilled) + |data| - room
    {
      var room := Min(|data|, |blocks[b].cells|);
      blocks := blocks[b := blocks[b].(cells := Overwrite(blocks[b].cells, 0, data[..room]))];
      spilled := spilled + |data| - room;
    }
  }
}

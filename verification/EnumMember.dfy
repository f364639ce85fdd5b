/** Enumerators: the value is asked for once and kept, in the signedness of the enum's type. */
module EnumMember {
  import opened Bytes
  import opened Types
  import opened Session

  /** The value of a 64-bit integer converted to `uintmax_t`. */
  function Unsigned(n: Int64): nat {
    if n >= 0 then n else n + 0x1_0000_0000_0000_0000
  }

  /** It is a 64-bit value with the same bytes. */
  lemma UnsignedImage(n: Int64)
    ensures Unsigned(n) < 0x1_0000_0000_0000_0000 && Encode(Unsigned(n), 8) == Encode(n, 8)
  {
    Pow256Of8();
    if n < 0 {
      EncodeShift(n, 1, 8);
    }
  }

  /** The signed and the unsigned comparison of the enum search agree. */
  lemma ComparisonsAgree(a: Int64, b: Int64)
    ensures Unsigned(a) == Unsigned(b) <==> a == b
  {
  }

  datatype Stored = Signed(signd: Int64) | NotSigned(unsignd: nat)

  class Enumerator {
    /** What the backend answers. */
    const basic: BasicType
    const value: Int64
    var stored: Option<Stored>

    ghost predicate Valid()
      reads this
    {
      stored.Some? ==> stored.value == if IsSigned(basic) then Signed(value) else NotSigned(Unsigned(value))
    }

    constructor (basic: BasicType, value: Int64)
      ensures this.basic == basic && this.value == value && stored.None? && Valid()
    {
      this.basic, this.value, stored := basic, value, None;
    }

    /** `ensure_value_init`: the type reference taken on the way is given back only on failure. */
    method EnsureValueInit(s: Client) returns (ok: bool)
      requires Valid() && !s.failed
      modifies this, s
      ensures Valid() && s.failed == !ok
      ensures ok <==> stored.Some?
      ensures s.held ==
              if ok && old(stored).None? then old(s.held) + multiset{TypeHandle(Builtin(basic))} else old(s.held)
    {
      if stored.Some? {
        return true;
      }
      ok := s.Fetch(TypeHandle(Builtin(basic)));
      if !ok {
        return;
      }
      ok := s.Check();
      if ok {
        ok := s.Check();
      }
      if !ok {
        s.Drop(TypeHandle(Builtin(basic)), old(s.held));
        return;
      }
      stored := Some(if IsSigned(basic) then Signed(value) else NotSigned(Unsigned(value)));
    }

    /** `r_enum_member_value_signed`; `None` is its failed assertion. */
    method ValueSigned(s: Client) returns (ok: bool, v: Option<Int64>)
      requires Valid() && !s.failed
      modifies this, s
      ensures Valid() && s.failed == !ok && (ok <==> stored.Some?)
      ensures ok ==> v == if IsSigned(basic) then Some(value) else None
      ensures s.held ==
              if ok && old(stored).None? then old(s.held) + multiset{TypeHandle(Builtin(basic))} else old(s.held)
    {
      ok := EnsureValueInit(s);
      v := None;
      if ok && stored.value.Signed? {
        v := Some(stored.value.signd);
      }
    }

    /** `r_enum_member_value_unsigned`; `None` is its failed assertion. */
    method ValueUnsigned(s: Client) returns (ok: bool, v: Option<nat>)
      requires Valid() && !s.failed
      modifies this, s
      ensures Valid() && s.failed == !ok && (ok <==> stored.Some?)
      ensures ok ==> v == if IsSigned(basic) then None else Some(Unsigned(value))
      ensures s.held ==
              if ok && old(stored).None? then old(s.held) + multiset{TypeHandle(Builtin(basic))} else old(s.held)
    {
      ok := EnsureValueInit(s);
      v := None;
      if ok && stored.value.NotSigned? {
        v := Some(stored.value.unsignd);
      }
    }
  }
}

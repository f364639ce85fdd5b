/** Fixed-width integers as byte sequences: little-endian, two's complement. */
module Bytes {

  type byte = x: int | 0 <= x < 256

  type Int64 = x: int | -0x8000_0000_0000_0000 <= x < 0x8000_0000_0000_0000

  /** A 64-bit pattern. */
  type Bits64 = x: int | 0 <= x < 0x1_0000_0000_0000_0000

  datatype Option<+T> = None | Some(value: T)

  function Pow256(w: nat): (p: int)
    ensures p > 0
    ensures w > 0 ==> p % 2 == 0
  {
    if w == 0 then 1 else 256 * Pow256(w - 1)
  }

  predicate InSignedRange(n: int, w: nat) {
    -Pow256(w) <= 2 * n < Pow256(w)
  }

  /** Conversion of any integer to a signed C type of `w` bytes. */
  function Wrap(n: int, w: nat): int {
    var u := n % Pow256(w);
    if 2 * u < Pow256(w) then u else u - Pow256(w)
  }

  /** The low `w` bytes of `n` in two's complement. */
  function Encode(n: int, w: nat): (bs: seq<byte>)
    ensures |bs| == w
    decreases w
  {
    if w == 0 then [] else [n % 256] + Encode(n / 256, w - 1)
  }

  function DecodeUnsigned(bs: seq<byte>): nat {
    if |bs| == 0 then 0 else bs[0] + 256 * DecodeUnsigned(bs[1..])
  }

  /** The value a load of a signed C integer yields. */
  function DecodeSigned(bs: seq<byte>): int {
    Wrap(DecodeUnsigned(bs), |bs|)
  }

  lemma DivModUnique(n: int, d: int, q: int, r: int)
    requires d > 0 && 0 <= r < d && n == q * d + r
    ensures n / d == q && n % d == r
  {
    var k := n / d - q;
    assert k * d == r - n % d;
  }

  lemma ModSplit(n: int, p: int)
    requires p > 0
    ensures n % (256 * p) == n % 256 + 256 * ((n / 256) % p)
  {
    var q, r := n / 256, n % 256;
    var k, s := q / p, q % p;
    assert n == k * (256 * p) + (256 * s + r) by {
      assert q == k * p + s;
      assert 256 * (k * p) == k * (256 * p);
    }
    DivModUnique(n, 256 * p, k, 256 * s + r);
  }

  lemma {:induction false} DecodeEncode(n: int, w: nat)
    ensures DecodeUnsigned(Encode(n, w)) == n % Pow256(w)
    decreases w
  {
    if w > 0 {
      DecodeEncode(n / 256, w - 1);
      ModSplit(n, Pow256(w - 1));
      assert Encode(n, w)[1..] == Encode(n / 256, w - 1);
    }
  }

  lemma {:induction false} DecodeBound(bs: seq<byte>)
    ensures DecodeUnsigned(bs) < Pow256(|bs|)
  {
    if |bs| > 0 {
      DecodeBound(bs[1..]);
    }
  }

  /** Storing any integer and loading it back is the C narrowing conversion. */
  lemma LoadStored(n: int, w: nat)
    ensures DecodeSigned(Encode(n, w)) == Wrap(n, w)
  {
    DecodeEncode(n, w);
    DivModUnique(n % Pow256(w), Pow256(w), 0, n % Pow256(w));
  }

  lemma WrapInRange(n: int, w: nat)
    requires InSignedRange(n, w)
    ensures Wrap(n, w) == n
  {
    var p := Pow256(w);
    if n >= 0 {
      DivModUnique(n, p, 0, n);
    } else {
      DivModUnique(n, p, -1, n + p);
    }
  }

  lemma WrapBounds(n: int, w: nat)
    requires w > 0
    ensures InSignedRange(Wrap(n, w), w)
  {
  }

  lemma {:induction false} EncodeShift(n: int, k: int, w: nat)
    ensures Encode(n + k * Pow256(w), w) == Encode(n, w)
    decreases w
  {
    if w > 0 {
      var p := Pow256(w - 1);
      var m := n + k * Pow256(w);
      assert m == (n / 256 + k * p) * 256 + n % 256 by {
        assert k * (256 * p) == (k * p) * 256;
      }
      DivModUnique(m, 256, n / 256 + k * p, n % 256);
      EncodeShift(n / 256, k, w - 1);
    }
  }

  /** Narrowing before a store does not change the stored bytes. */
  lemma EncodeWrap(n: int, w: nat)
    ensures Encode(Wrap(n, w), w) == Encode(n, w)
  {
    var p := Pow256(w);
    var k := -(n / p) - (if 2 * (n % p) < p then 0 else 1);
    assert Wrap(n, w) == n + k * p by {
      assert n == (n / p) * p + n % p;
      assert (-(n / p)) * p == -((n / p) * p);
      assert (-(n / p) - 1) * p == -((n / p) * p) - p;
    }
    EncodeShift(n, k, w);
  }

  lemma {:induction false} EncodeDecodeUnsigned(bs: seq<byte>)
    ensures Encode(DecodeUnsigned(bs), |bs|) == bs
  {
    if |bs| > 0 {
      EncodeDecodeUnsigned(bs[1..]);
      DivModUnique(DecodeUnsigned(bs), 256, DecodeUnsigned(bs[1..]), bs[0]);
      assert bs == [bs[0]] + bs[1..];
    }
  }

  /** Loading bytes as a signed integer and storing the result restores them. */
  lemma StoreLoaded(bs: seq<byte>)
    ensures Encode(DecodeSigned(bs), |bs|) == bs
  {
    EncodeWrap(DecodeUnsigned(bs), |bs|);
    EncodeDecodeUnsigned(bs);
  }

  /** A wider store begins with the bytes of a narrower one. */
  lemma {:induction false} EncodePrefix(n: int, w: nat, wide: nat)
    requires w <= wide
    ensures Encode(n, wide)[..w] == Encode(n, w)
    decreases w
  {
    if w > 0 {
      EncodePrefix(n / 256, w - 1, wide - 1);
      assert Encode(n, wide)[..w] == [n % 256] + Encode(n / 256, wide - 1)[..w - 1];
    }
  }

  lemma {:induction false} Pow256Grows(v: nat, w: nat)
    requires v <= w
    ensures Pow256(v) <= Pow256(w)
  {
    if v < w {
      Pow256Grows(v, w - 1);
    }
  }

  /** Every signed integer of at most eight bytes is a 64-bit integer. */
  lemma NarrowIsInt64(n: int, w: nat)
    requires w <= 8 && InSignedRange(n, w)
    ensures -0x8000_0000_0000_0000 <= n < 0x8000_0000_0000_0000
  {
    Pow256Grows(w, 8);
    Pow256Of8();
  }

  lemma Pow256Of8()
    ensures Pow256(8) == 0x1_0000_0000_0000_0000
  {
    assert Pow256(4) == 0x1_0000_0000;
  }
}

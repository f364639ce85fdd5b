/** Reading the debugger's listening port, an int, from a pipe that delivers it in pieces. */
module Port {
  import opened Bytes

  const INT_SIZE: nat := 4

  /** How many bytes a read takes when `wanted` and `there` are both positive: at least one. */
  function Taken(cut: nat, wanted: nat, there: nat): (k: nat)
    ensures wanted > 0 && there > 0 ==> 1 <= k
    ensures k <= wanted && k <= there
  {
    var most := if wanted < there then wanted else there;
    if most == 0 then 0 else if cut == 0 then 1 else if cut < most then cut else most
  }

  /** The read end of a pipe whose writer has written `pending` and gone. */
  class Pipe {
    /** How the k-th read is cut short, and whether it fails. */
    const cut: nat -> nat
    const fails: nat -> bool
    var pending: seq<byte>
    var calls: nat
    var failed: bool

    constructor (pending: seq<byte>, cut: nat -> nat, fails: nat -> bool)
      ensures this.pending == pending && this.cut == cut && this.fails == fails && calls == 0 && !failed
    {
      this.pending, this.cut, this.fails := pending, cut, fails;
      calls, failed := 0, false;
    }

    /** `read(2)`: -1 on failure, and no bytes at the end of the file. */
    method Read(wanted: nat) returns (count: int, bs: seq<byte>)
      modifies this
      ensures calls == old(calls) + 1 && failed == (old(failed) || fails(old(calls)))
      ensures fails(old(calls)) ==> count == -1 && bs == [] && pending == old(pending)
      ensures !fails(old(calls)) ==>
                && count == |bs| == Taken(cut(old(calls)), wanted, |old(pending)|)
                && bs == old(pending)[..count] && pending == old(pending)[count..]
    {
      var failure, most := fails(calls), Taken(cut(calls), wanted, |pending|);
      calls := calls + 1;
      if failure {
        failed := true;
        return -1, [];
      }
      count, bs := most, pending[..most];
      pending := pending[most..];
    }
  }

  /** How many bytes `k` reads have gathered, from read `first` on, each asking for what is missing. */
  function Gathered(data: seq<byte>, cut: nat -> nat, first: nat, k: nat): (n: nat)
    ensures n <= INT_SIZE && n <= |data|
  {
    if k == 0 then 0
    else
      var n := Gathered(data, cut, first, k - 1);
      n + Taken(cut(first + k - 1), INT_SIZE - n, |data| - n)
  }

  /** The loop is left after read `k`: the read fails, gets nothing at first, or completes the int. */
  predicate Leaves(data: seq<byte>, cut: nat -> nat, fails: nat -> bool, first: nat, k: nat) {
    fails(first + k) || Done(Gathered(data, cut, first, k + 1))
  }

  predicate Done(gathered: nat) {
    gathered == 0 || gathered == INT_SIZE
  }

  /** The loop is not left within `n` reads. */
  predicate Stays(data: seq<byte>, cut: nat -> nat, fails: nat -> bool, first: nat, n: nat) {
    n == 0 || (Stays(data, cut, fails, first, n - 1) && !Leaves(data, cut, fails, first, n - 1))
  }

  /** `StillReading` is a loop not left within the reads it was given. */
  datatype PortResult = PortNumber(port: int) | ReadError | ShortRead | StillReading

  lemma NextRead(data: seq<byte>, cut: nat -> nat, fails: nat -> bool, first: nat, k: nat, n: nat)
    requires n == Gathered(data, cut, first, k)
    ensures var next := n + Taken(cut(first + k), INT_SIZE - n, |data| - n);
            && Gathered(data, cut, first, k + 1) == next
            && (Leaves(data, cut, fails, first, k) <==> fails(first + k) || Done(next))
  {
  }

  /** `n` bytes have gone from the pipe into the int. */
  predicate Moved(data: seq<byte>, pending: seq<byte>, port: seq<byte>, n: nat) {
    n <= |data| && n <= |port| && pending == data[n..] && port[..n] == data[..n]
  }

  method Store(a: array<byte>, at: nat, bs: seq<byte>)
    requires at + |bs| <= a.Length
    modifies a
    ensures a[..at + |bs|] == old(a[..at]) + bs
  {
    forall i | 0 <= i < |bs| {
      a[at + i] := bs[i];
    }
  }

  /** Read number `first + k`, into the place after the bytes already there; -1 if it fails. */
  method ReadPiece(p: Pipe, port: array<byte>, nbRead: nat, ghost data: seq<byte>, ghost first: nat, ghost k: nat)
    returns (count: int)
    requires port.Length == INT_SIZE && !p.failed && p.calls == first + k
    requires nbRead == Gathered(data, p.cut, first, k) < INT_SIZE && Moved(data, p.pending, port[..], nbRead)
    modifies p, port
    ensures p.calls == first + k + 1 && (p.failed <==> count == -1) && -1 <= count
    ensures p.failed ==> p.pending == data[nbRead..]
    ensures !p.failed ==>
              nbRead + count == Gathered(data, p.cut, first, k + 1) && Moved(data, p.pending, port[..], nbRead + count)
    ensures Leaves(data, p.cut, p.fails, first, k) <==> p.failed || Done(nbRead + count)
  {
    var bs;
    NextRead(data, p.cut, p.fails, first, k, nbRead);
    count, bs := p.Read(INT_SIZE - nbRead);
    if count != -1 {
      Store(port, nbRead, bs);
      assert data[..nbRead + count] == data[..nbRead] + bs;
    }
  }

  /**
   * `read_child_port`, followed for at most `budget` reads. The port is made of exactly the first
   * four bytes, in order, however they arrive, and nothing more is consumed.
   */
  method ReadChildPort(p: Pipe, budget: nat) returns (r: PortResult, made: nat)
    requires !p.failed
    modifies p
    ensures made <= budget && p.calls == old(p.calls) + made && (p.failed <==> r.ReadError?)
    ensures if r.StillReading? then made == budget
            else made > 0 && Leaves(old(p.pending), p.cut, p.fails, old(p.calls), made - 1)
    ensures Stays(old(p.pending), p.cut, p.fails, old(p.calls), if r.StillReading? then made else made - 1)
    ensures var good := if r.ReadError? then made - 1 else made;
            0 <= good && p.pending == old(p.pending)[Gathered(old(p.pending), p.cut, old(p.calls), good)..]
    ensures r.ShortRead? ==> |old(p.pending)| == 0
    ensures r.PortNumber? ==>
              && INT_SIZE <= |old(p.pending)| && p.pending == old(p.pending)[INT_SIZE..]
              && r.port == DecodeSigned(old(p.pending)[..INT_SIZE])
  {
    ghost var data, first := p.pending, p.calls;
    var port := new byte[INT_SIZE];
    var nbRead := 0;
    made := 0;
    while made < budget
      invariant made <= budget && p.calls == first + made && !p.failed
      invariant nbRead == Gathered(data, p.cut, first, made) < INT_SIZE
      invariant Moved(data, p.pending, port[..], nbRead)
      invariant Stays(data, p.cut, p.fails, first, made)
    {
      var count := ReadPiece(p, port, nbRead, data, first, made);
      made := made + 1;
      if count == -1 {
        return ReadError, made;
      }
      nbRead := nbRead + count;
      if nbRead == 0 {
        return ShortRead, made;
      }
      if nbRead == INT_SIZE {
        assert port[..] == data[..INT_SIZE];
        return PortNumber(DecodeSigned(port[..])), made;
      }
    }
    r := StillReading;
  }

  lemma {:induction false} EachReadGathers(data: seq<byte>, cut: nat -> nat, first: nat, k: nat)
    ensures Gathered(data, cut, first, k) >= k || Gathered(data, cut, first, k) == INT_SIZE
            || Gathered(data, cut, first, k) == |data|
    ensures k > 0 && |data| > 0 ==> Gathered(data, cut, first, k) > 0
  {
    if k > 0 {
      EachReadGathers(data, cut, first, k - 1);
    }
  }

  /** One to three bytes, and no failing read: the loop then reads at the end of the file. */
  predicate Stuck(data: seq<byte>, fails: nat -> bool, first: nat, n: nat) {
    0 < |data| < INT_SIZE && forall i | first <= i < first + n :: !fails(i)
  }

  lemma {:induction false} StuckStays(data: seq<byte>, cut: nat -> nat, fails: nat -> bool, first: nat, n: nat)
    requires Stuck(data, fails, first, n)
    ensures Stays(data, cut, fails, first, n)
  {
    if n > 0 {
      StuckStays(data, cut, fails, first, n - 1);
      EachReadGathers(data, cut, first, n);
    }
  }

  lemma {:induction false} StaysAt(data: seq<byte>, cut: nat -> nat, fails: nat -> bool, first: nat, k: nat, n: nat)
    requires Stays(data, cut, fails, first, n) && k < n
    ensures !Leaves(data, cut, fails, first, k)
    decreases n
  {
    if k < n - 1 {
      StaysAt(data, cut, fails, first, k, n - 1);
    }
  }

  /** Four reads are enough: after them the loop is still not left exactly if it is stuck. */
  lemma EndsExactly(data: seq<byte>, cut: nat -> nat, fails: nat -> bool, first: nat, n: nat)
    requires INT_SIZE <= n
    ensures Stays(data, cut, fails, first, n) <==> Stuck(data, fails, first, n)
  {
    if Stuck(data, fails, first, n) {
      StuckStays(data, cut, fails, first, n);
    } else if Stays(data, cut, fails, first, n) {
      StaysAt(data, cut, fails, first, 0, n);
      StaysAt(data, cut, fails, first, INT_SIZE - 1, n);
      EachReadGathers(data, cut, first, INT_SIZE);
      var i :| first <= i < first + n && fails(i);
      StaysAt(data, cut, fails, first, i - first, n);
    }
  }

  /** The condition matters: a debugger that writes one byte and goes is read for ever. */
  lemma OneByteNeverEnds(cut: nat -> nat, first: nat, n: nat)
    ensures Stays([7], cut, (k: nat) => false, first, n)
  {
    StuckStays([7], cut, (k: nat) => false, first, n);
  }
}

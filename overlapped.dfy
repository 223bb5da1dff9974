/** The OVERLAPPED record: a 32-byte buffer the operating system writes while an
    overlapped read or write is in flight, its two status fields, the completion
    query built on it, and the "poll again while the status is STATUS_PENDING"
    loop that the pipe revisions run after issuing a read or a write.

    Both binding revisions lay the record out and decode it the same way: the
    transferred count is the 4 bytes written into lpNumberOfBytesTransferred, read
    as a little-endian 32-bit value (a Uint32Array element in one revision, a
    Uint8Array reinterpreted in the other). */
module OverlappedIo {
  import opened Errors
  import opened Kernel
  import opened Layout

  /** Internal, InternalHigh, Pointer and hEvent: four 8-byte fields. */
  const RECORD_SIZE: nat := 32

  /** What one GetOverlappedResult call observes: the BOOL it returns, the 4 bytes it
      writes into lpNumberOfBytesTransferred, and the record as it stands when it
      returns. */
  datatype Completion = Completion(ret: int, transferred: seq<byte>, record: seq<byte>)

  predicate WellFormed(c: Completion) {
    |c.transferred| == 4 && |c.record| == RECORD_SIZE
  }

  predicate AllWellFormed(cs: seq<Completion>) {
    forall i :: 0 <= i < |cs| ==> WellFormed(cs[i])
  }

  /** The `Internal` field: bytes 0..7 as an unsigned 64-bit value. */
  function Status(record: seq<byte>): (v: nat)
    requires |record| == RECORD_SIZE
    ensures v < Pow256(8) && EncodeLE(v, 8) == record[..8]
  {
    EncodeDecode(record[..8]);
    DecodeLE(record[..8])
  }

  /** The `InternalHigh` field: bytes 8..15 as an unsigned 64-bit value. */
  function BytesTransferred(record: seq<byte>): (v: nat)
    requires |record| == RECORD_SIZE
    ensures v < Pow256(8) && EncodeLE(v, 8) == record[8..16]
  {
    EncodeDecode(record[8..16]);
    DecodeLE(record[8..16])
  }

  /** A fresh, all-zero record does not read as pending. */
  lemma ZeroRecordNotPending()
    ensures Status(Zeros(RECORD_SIZE)) == 0 && BytesTransferred(Zeros(RECORD_SIZE)) == 0
  {
    assert Zeros(RECORD_SIZE)[..8] == Zeros(8);
    assert Zeros(RECORD_SIZE)[8..16] == Zeros(8);
    DecodeZeros(8);
  }

  /** The `bWait ? 1 : 0` argument of GetOverlappedResult. */
  function WaitFlag(wait: bool): (flag: int)
    ensures flag == 0 || flag == 1
    ensures flag == 1 <==> wait
  {
    if wait then 1 else 0
  }

  /** A poll ends the loop: the query failed, or the record no longer reads pending. */
  predicate Settles(c: Completion)
    requires WellFormed(c)
  {
    c.ret != 1 || Status(c.record) != STATUS_PENDING
  }

  /** The operating system eventually completes the operation or the query fails. */
  predicate EventuallySettles(cs: seq<Completion>)
    requires AllWellFormed(cs)
  {
    exists i :: 0 <= i < |cs| && Settles(cs[i])
  }

  /** The index of the poll that ends the loop: the first one that settles. */
  function FirstSettled(cs: seq<Completion>): (k: nat)
    requires AllWellFormed(cs) && EventuallySettles(cs)
    ensures k < |cs| && Settles(cs[k])
    ensures forall j :: 0 <= j < k ==> !Settles(cs[j])
  {
    if Settles(cs[0]) then 0
    else
      assert forall i :: 1 <= i < |cs| ==> cs[1..][i - 1] == cs[i];
      1 + FirstSettled(cs[1..])
  }

  /** What the loop yields: the count of the settling poll, or the failure. A count is
      only ever taken from a poll that returned 1 on a record no longer pending. */
  function Awaited(cs: seq<Completion>): (r: Result<nat>)
    requires AllWellFormed(cs) && EventuallySettles(cs)
    ensures var c := cs[FirstSettled(cs)];
      && (r.Ok? <==> c.ret == 1)
      && (r.Ok? ==> Status(c.record) != STATUS_PENDING && r.value == DecodeLE(c.transferred))
      && (r.Err? ==> r.error == OverlappedFailed)
  {
    var c := cs[FirstSettled(cs)];
    if c.ret == 1 then Ok(DecodeLE(c.transferred)) else Err(OverlappedFailed)
  }

  /** `n` GetOverlappedResult calls on `handle`, each with bWait = 1. */
  function WaitingPolls(handle: int, n: nat): (calls: seq<Effect>)
    ensures |calls| == n && forall i :: 0 <= i < n ==> calls[i] == PollCall(handle, 1)
  {
    seq(n, _ => PollCall(handle, 1))
  }

  class Overlapped {
    const handle: int
    const data: array<byte>

    constructor (handle: int)
      ensures this.handle == handle && fresh(data)
      ensures data.Length == RECORD_SIZE && data[..] == Zeros(RECORD_SIZE)
    {
      this.handle := handle;
      data := new byte[RECORD_SIZE](_ => 0);
    }

    function Internal(): (v: nat)
      reads data
      requires data.Length == RECORD_SIZE
      ensures v == Status(data[..]) && v < Pow256(8) && EncodeLE(v, 8) == data[..8]
    {
      Status(data[..])
    }

    function InternalHigh(): (v: nat)
      reads data
      requires data.Length == RECORD_SIZE
      ensures v == BytesTransferred(data[..]) && v < Pow256(8) && EncodeLE(v, 8) == data[8..16]
    {
      BytesTransferred(data[..])
    }

    /** One GetOverlappedResult call: the record reads as the operating system left it,
        and the count is returned only when the call returned exactly 1. */
    method GetResult(c: Completion, wait: bool := false) returns (r: Result<nat>, call: Effect)
      requires WellFormed(c) && data.Length == RECORD_SIZE
      modifies data
      ensures data[..] == c.record
      ensures call == PollCall(handle, WaitFlag(wait))
      ensures c.ret == 1 ==> r == Ok(DecodeLE(c.transferred)) && r.value < TWO_TO_THE_32
      ensures c.ret != 1 ==> r == Err(OverlappedFailed)
    {
      forall i | 0 <= i < RECORD_SIZE {
        data[i] := c.record[i];
      }
      call := PollCall(handle, WaitFlag(wait));
      if c.ret != 1 {
        return Err(OverlappedFailed), call;
      }
      r := Ok(DecodeLE(c.transferred));
    }
  }

  /** `result = await getResult(true); while (internal === 259n) result = await getResult(true);`
      The loop stops at the first poll that settles; it returns that poll's result,
      and the record is left as that poll observed it. */
  method PollWhilePending(ov: Overlapped, cs: seq<Completion>) returns (r: Result<nat>, calls: seq<Effect>)
    requires ov.data.Length == RECORD_SIZE
    requires AllWellFormed(cs) && EventuallySettles(cs)
    modifies ov.data
    ensures r == Awaited(cs)
    ensures ov.data[..] == cs[FirstSettled(cs)].record
    ensures calls == WaitingPolls(ov.handle, FirstSettled(cs) + 1)
  {
    ghost var k := FirstSettled(cs);
    var call;
    r, call := ov.GetResult(cs[0], true);
    calls := [call];
    var i := 1;
    while r.Ok? && ov.Internal() == STATUS_PENDING
      invariant 1 <= i <= k + 1
      invariant ov.data[..] == cs[i - 1].record
      invariant r == (if cs[i - 1].ret == 1 then Ok(DecodeLE(cs[i - 1].transferred)) else Err(OverlappedFailed))
      invariant calls == WaitingPolls(ov.handle, i)
      decreases k + 1 - i
    {
      assert !Settles(cs[i - 1]);
      r, call := ov.GetResult(cs[i], true);
      calls := calls + [call];
      i := i + 1;
    }
    assert Settles(cs[i - 1]);
    assert i - 1 == k;
  }
}

/** The earliest `NamedPipe` revision: no pending set, `read` and `write` both throw
    once the pipe is closed, and `close` marks the pipe closed only when CloseHandle
    returned 1. */
module Mod {
  import opened Errors
  import opened Kernel
  import opened Layout
  import opened OverlappedIo
  import WinApi

  /** What `peek` returns. Without a buffer there are no bytes-read and
      bytes-left-this-message cells, and those fields are undefined. */
  datatype PeekInfo = PeekInfo(bytesRead: Option<nat>, totalBytesAvailable: nat, bytesLeftThisMessage: Option<nat>)

  /** What PeekNamedPipe reports: its BOOL and the 4 bytes of each count cell as the
      operating system leaves them (a cell passed as NULL is never read). */
  datatype PeekReply = PeekReply(ret: int, bytesRead: seq<byte>, totalAvail: seq<byte>, bytesLeft: seq<byte>)

  predicate PeekWellFormed(p: PeekReply) {
    |p.bytesRead| == 4 && |p.totalAvail| == 4 && |p.bytesLeft| == 4
  }

  /** `into ? new Uint8Array(4) : null`: a count cell exists only with a buffer. */
  function CellFor(into: Option<seq<byte>>): (cell: Option<seq<byte>>)
    ensures cell.Some? <==> into.Some?
    ensures cell.Some? ==> cell.value == Zeros(4)
  {
    if into.Some? then Some(Zeros(4)) else None
  }

  /** The decoded count of a cell that exists, or undefined. */
  function CellValue(cell: Option<seq<byte>>, bytes: seq<byte>): (v: Option<nat>)
    requires |bytes| == 4
    ensures v.Some? <==> cell.Some?
    ensures v.Some? ==> v.value == DecodeLE(bytes) && v.value < TWO_TO_THE_32
  {
    if cell.Some? then Some(DecodeLE(bytes)) else None
  }

  class NamedPipe {
    const name: string
    const handle: int
    var closed: bool
    /** Every call made on the operating system so far, and the closing mark. */
    ghost var trace: seq<Effect>

    constructor (name: string, handle: int)
      ensures this.name == name && this.handle == handle
      ensures !closed && trace == []
    {
      this.name := name;
      this.handle := handle;
      closed := false;
      trace := [];
    }

    /** Both ends report the pipe's own name over the "unix" transport. */
    function RemoteAddr(): (a: Addr)
      ensures a.transport == "unix" && a.path == name
    {
      Addr("unix", name)
    }

    function LocalAddr(): (a: Addr)
      ensures a == RemoteAddr()
    {
      RemoteAddr()
    }

    /** The handle itself is the resource id. */
    function Rid(): (rid: int)
      ensures rid == handle
    {
      handle
    }

    function CloseWrite(): (o: Outcome)
      ensures o == Fail(MethodNotImplemented)
    {
      Fail(MethodNotImplemented)
    }

    /** Throws on a closed pipe before any call. Otherwise peeks once; a zero result
        throws "Failed to Peek Named Pipe: 0", any other returns the counts, with the
        bytes-read and bytes-left counts present only when a buffer was given. */
    method Peek(into: Option<seq<byte>>, p: PeekReply) returns (r: Result<PeekInfo>)
      requires PeekWellFormed(p)
      modifies this`trace
      ensures old(closed) ==> r == Err(AlreadyClosed) && trace == old(trace)
      ensures !old(closed) ==>
        trace == old(trace) + [WinApi.PeekNamedPipe(handle, into, CellFor(into), Zeros(4), CellFor(into))]
      ensures !old(closed) ==> (r.Err? <==> p.ret == 0)
      ensures !old(closed) && r.Err? ==> r.error == PeekFailed(p.ret)
      ensures r.Ok? ==> r.value.totalBytesAvailable == DecodeLE(p.totalAvail)
      ensures r.Ok? ==> (r.value.bytesRead.Some? <==> into.Some?) && (r.value.bytesLeftThisMessage.Some? <==> into.Some?)
      ensures r.Ok? && into.Some? ==>
        r.value.bytesRead == Some(DecodeLE(p.bytesRead)) && r.value.bytesLeftThisMessage == Some(DecodeLE(p.bytesLeft))
    {
      if closed {
        return Err(AlreadyClosed);
      }
      var bytesRead := CellFor(into);
      var bytesLeft := CellFor(into);
      trace := trace + [WinApi.PeekNamedPipe(handle, into, bytesRead, Zeros(4), bytesLeft)];
      if p.ret == 0 {
        return Err(PeekFailed(p.ret));
      }
      r := Ok(PeekInfo(CellValue(bytesRead, p.bytesRead), DecodeLE(p.totalAvail), CellValue(bytesLeft, p.bytesLeft)));
    }

    /** Throws on a closed pipe before any call. Otherwise issues an overlapped
        WriteFile on a fresh record (the BOOL it returns is not looked at), then polls
        with wait = 1 until the record no longer reads STATUS_PENDING, and returns the
        last poll's count. */
    method Write(data: seq<byte>, polls: seq<Completion>) returns (r: Result<nat>)
      requires AllWellFormed(polls) && (!closed ==> EventuallySettles(polls))
      modifies this`trace
      ensures old(closed) ==> r == Err(AlreadyClosed) && trace == old(trace)
      ensures !old(closed) ==> r == Awaited(polls)
      ensures !old(closed) ==>
        trace == old(trace) + [WinApi.WriteFile(handle, data, |data|, Some(Zeros(4)), Some(Zeros(RECORD_SIZE)))]
                            + WaitingPolls(handle, FirstSettled(polls) + 1)
    {
      if closed {
        return Err(AlreadyClosed);
      }
      var ov := new Overlapped(handle);
      trace := trace + [WinApi.WriteFile(handle, data, |data|, Some(Zeros(4)), Some(ov.data[..]))];
      var calls;
      r, calls := PollWhilePending(ov, polls);
      trace := trace + calls;
    }

    /** As Write, with ReadFile; this revision's `read` also throws on a closed pipe. */
    method Read(into: seq<byte>, polls: seq<Completion>) returns (r: Result<nat>)
      requires AllWellFormed(polls) && (!closed ==> EventuallySettles(polls))
      modifies this`trace
      ensures old(closed) ==> r == Err(AlreadyClosed) && trace == old(trace)
      ensures !old(closed) ==> r == Awaited(polls)
      ensures !old(closed) ==>
        trace == old(trace) + [WinApi.ReadFile(handle, into, |into|, Some(Zeros(4)), Some(Zeros(RECORD_SIZE)))]
                            + WaitingPolls(handle, FirstSettled(polls) + 1)
    {
      if closed {
        return Err(AlreadyClosed);
      }
      var ov := new Overlapped(handle);
      trace := trace + [WinApi.ReadFile(handle, into, |into|, Some(Zeros(4)), Some(ov.data[..]))];
      var calls;
      r, calls := PollWhilePending(ov, polls);
      trace := trace + calls;
    }

    /** Throws on a closed pipe before any call. Otherwise closes the handle, whose
        result `ret` decides: 1 marks the pipe closed, anything else throws
        "Failed to close NamedPipe: <ret>" and leaves it open. */
    method Close(ret: int) returns (o: Outcome)
      modifies this`trace, this`closed
      ensures old(closed) ==> o == Fail(AlreadyClosed) && closed && trace == old(trace)
      ensures !old(closed) ==> (closed <==> ret == 1) && (o == Pass <==> ret == 1)
      ensures !old(closed) && ret == 1 ==> trace == old(trace) + [CloseHandleCall(handle), MarkClosed]
      ensures !old(closed) && ret != 1 ==> o == Fail(CloseFailed(ret)) && trace == old(trace) + [CloseHandleCall(handle)]
    {
      if closed {
        return Fail(AlreadyClosed);
      }
      trace := trace + [CloseHandleCall(handle)];
      if ret == 1 {
        closed := true;
        trace := trace + [MarkClosed];
        o := Pass;
      } else {
        o := Fail(CloseFailed(ret));
      }
    }
  }
}

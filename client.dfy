/** The latest `NamedPipe` revision. Its Kernel32 calls go through a helper library:
    each overlapped read or write is tracked by an AbortController, which `close`
    aborts; a failed or aborted operation resolves to 0 bytes instead of throwing.
    It also offers the pipe as a readable and a writable byte stream.

    What the library's `unwrap` makes of a call, and what an overlapped operation
    settles to, are not visible here: both are parameters (an Outcome and a
    Result). */
module Client {
  import opened Errors
  import opened Kernel
  import opened Layout

  /** An AbortController: aborting it is what `close` does to a pending operation. */
  class Controller {
    var aborted: bool

    constructor ()
      ensures !aborted
    {
      aborted := false;
    }
  }

  /** What `peek` returns: the three counts PeekNamedPipe writes. */
  datatype PeekInfo = PeekInfo(bytesRead: nat, totalBytesAvailable: nat, bytesLeftThisMessage: nat)

  /** What PeekNamedPipe reports: what `unwrap` makes of it, and the 4 bytes of each
      Uint32Array cell. */
  datatype PeekReply = PeekReply(unwrapped: Outcome, bytesRead: seq<byte>, totalAvail: seq<byte>, bytesLeft: seq<byte>)

  predicate PeekWellFormed(p: PeekReply) {
    |p.bytesRead| == 4 && |p.totalAvail| == 4 && |p.bytesLeft| == 4
  }

  /** What the streams tell their consumer. */
  datatype StreamEvent =
    | Respond(n: nat)        // byobRequest.respond(n)
    | CloseStream            // ctx.close()
    | ErrorStream(e: Error)  // ctx.error(e)

  /** One `write` inside the writable's loop: what `unwrap` makes of the WriteFile
      call, and what the operation settles to. */
  datatype WriteStep = WriteStep(issue: Outcome, settled: Result<nat>)

  /** `.catch((_) => 0)`: a failed operation counts as 0 bytes. */
  function Count(settled: Result<nat>): (n: nat)
    ensures settled.Ok? ==> n == settled.value
    ensures settled.Err? ==> n == 0
  {
    if settled.Ok? then settled.value else 0
  }

  /** The bytes the first `|steps|` writes report, in total. */
  function Sent(steps: seq<WriteStep>): nat
  {
    if steps == [] then 0 else Sent(steps[..|steps| - 1]) + Count(steps[|steps| - 1].settled)
  }

  lemma SentExtend(steps: seq<WriteStep>, k: nat)
    requires k < |steps|
    ensures Sent(steps[..k + 1]) == Sent(steps[..k]) + Count(steps[k].settled)
  {
    assert steps[..k + 1][..k] == steps[..k];
  }

  /** The writes reported so far never decrease. */
  lemma {:induction false} SentMonotonic(steps: seq<WriteStep>, j: nat, k: nat)
    requires j <= k <= |steps|
    ensures Sent(steps[..j]) <= Sent(steps[..k])
  {
    if j < k {
      SentMonotonic(steps, j, k - 1);
      SentExtend(steps, k - 1);
    }
  }

  /** A write step ends the loop: its issue throws, or the chunk is now fully sent. */
  predicate StopsAt(len: nat, steps: seq<WriteStep>, k: nat)
    requires k < |steps|
  {
    steps[k].issue.Fail? || Sent(steps[..k + 1]) >= len
  }

  /** The operating system eventually accepts the whole chunk or a write throws. */
  predicate Drains(len: nat, steps: seq<WriteStep>) {
    exists k :: 0 <= k < |steps| && StopsAt(len, steps, k)
  }

  /** The index of the write that ends the loop. */
  function Ends(len: nat, steps: seq<WriteStep>): (k: nat)
    requires Drains(len, steps)
    ensures k < |steps| && StopsAt(len, steps, k)
    ensures forall j :: 0 <= j < k ==> !StopsAt(len, steps, j)
  {
    EndsFrom(len, steps, 0)
  }

  function EndsFrom(len: nat, steps: seq<WriteStep>, i: nat): (k: nat)
    requires i <= |steps|
    requires exists k :: i <= k < |steps| && StopsAt(len, steps, k)
    requires forall j :: 0 <= j < i ==> !StopsAt(len, steps, j)
    ensures i <= k < |steps| && StopsAt(len, steps, k)
    ensures forall j :: 0 <= j < k ==> !StopsAt(len, steps, j)
    decreases |steps| - i
  {
    if StopsAt(len, steps, i) then i else EndsFrom(len, steps, i + 1)
  }

  /** If no write reports more than what was left to send, the loop sends exactly the
      chunk: the reported counts sum to its length. */
  lemma ExactWhenBounded(len: nat, steps: seq<WriteStep>)
    requires Drains(len, steps)
    requires var k := Ends(len, steps); steps[k].issue.Pass?
    requires forall j :: 0 <= j < |steps| && Sent(steps[..j]) <= len ==> Count(steps[j].settled) <= len - Sent(steps[..j])
    ensures Sent(steps[..Ends(len, steps) + 1]) == len
  {
    var k := Ends(len, steps);
    SentExtend(steps, k);
    if k > 0 {
      assert !StopsAt(len, steps, k - 1);
    }
  }

  /** `chunk.subarray(begin)`: the bytes from `begin` on, and none when `begin` is
      past the end. */
  function Subarray(chunk: seq<byte>, begin: nat): (rest: seq<byte>)
    ensures begin <= |chunk| ==> rest == chunk[begin..]
    ensures begin >= |chunk| ==> rest == []
  {
    if begin <= |chunk| then chunk[begin..] else []
  }

  /** The WriteFile calls of the loop: the j-th passes the part of the chunk not yet
      reported written. */
  function ChunkCalls(handle: int, chunk: seq<byte>, steps: seq<WriteStep>, m: nat): (calls: seq<Effect>)
    requires m <= |steps|
    ensures |calls| == m
    ensures forall j :: 0 <= j < m ==> calls[j] == WriteCall(handle, Subarray(chunk, Sent(steps[..j])))
  {
    seq(m, j requires 0 <= j < m => WriteCall(handle, Subarray(chunk, Sent(steps[..j]))))
  }

  /** One more turn of the loop adds one WriteFile, of what is left of the chunk. */
  lemma ChunkCallsExtend(handle: int, chunk: seq<byte>, steps: seq<WriteStep>, i: nat)
    requires i < |steps|
    ensures ChunkCalls(handle, chunk, steps, i + 1)
         == ChunkCalls(handle, chunk, steps, i) + [WriteCall(handle, Subarray(chunk, Sent(steps[..i])))]
  {
  }

  /** `Storage.WriteFile(handle, data, data.length, null, overlapped.buffer)`. */
  function WriteCall(handle: int, data: seq<byte>): (call: Effect)
    ensures call.WriteFileCall? && call.buffer == Bytes(data) && call.toWrite == |data|
    ensures call.bytesWritten == Null && call.overlapped == Opaque
  {
    WriteFileCall(handle, Bytes(data), |data|, Null, Opaque)
  }

  /** `Storage.ReadFile(handle, into, into.byteLength, null, overlapped.buffer)`. */
  function ReadCall(handle: int, into: seq<byte>): (call: Effect)
    ensures call.ReadFileCall? && call.buffer == Buffer(|into|) && call.toRead == |into|
    ensures call.bytesRead == Null && call.overlapped == Opaque
  {
    ReadFileCall(handle, Buffer(|into|), |into|, Null, Opaque)
  }

  /** One abort per pending controller, in the set's order. */
  function AbortCalls(pending: seq<Controller>): (calls: seq<Effect>)
    ensures |calls| == |pending| && forall i :: 0 <= i < |pending| ==> calls[i] == AbortCall(pending[i])
  {
    seq(|pending|, i requires 0 <= i < |pending| => AbortCall(pending[i]))
  }

  /** What `close` does on an open pipe, in order: abort every pending operation,
      disconnect a server-side connection, close the handle, mark the pipe closed. */
  function CloseEffects(handle: int, isServerConn: bool, pending: seq<Controller>): (effects: seq<Effect>)
    ensures |effects| == |pending| + (if isServerConn then 3 else 2)
    ensures effects[..|pending|] == AbortCalls(pending)
    ensures isServerConn ==> effects[|pending|] == DisconnectCall(handle)
    ensures effects[|effects| - 2] == CloseHandleCall(handle) && effects[|effects| - 1] == MarkClosed
  {
    var effects := AbortCalls(pending) + (if isServerConn then [DisconnectCall(handle)] else []) + [CloseHandleCall(handle), MarkClosed];
    assert effects[..|pending|] == AbortCalls(pending);
    effects
  }

  class NamedPipe {
    const name: string
    const handle: int
    const isServerConn: bool
    var closed: bool
    /** The `#pending` set of controllers, in insertion order. */
    var pending: seq<Controller>
    /** Every call made on the operating system so far, the aborts, and the closing mark. */
    ghost var trace: seq<Effect>

    ghost predicate Valid()
      reads this`pending
    {
      Distinct(pending)
    }

    constructor (name: string, handle: int, isServerConn: bool := false)
      ensures Valid()
      ensures this.name == name && this.handle == handle && this.isServerConn == isServerConn
      ensures !closed && pending == [] && trace == []
    {
      this.name := name;
      this.handle := handle;
      this.isServerConn := isServerConn;
      closed := false;
      pending := [];
      trace := [];
    }

    /** Both ends report the pipe's own name over the "win32" transport. */
    function RemoteAddr(): (a: Addr)
      ensures a.transport == "win32" && a.path == name
    {
      Addr("win32", name)
    }

    function LocalAddr(): (a: Addr)
      ensures a == RemoteAddr()
    {
      RemoteAddr()
    }

    /** The pointer value of the handle stands in for a resource id. */
    function Rid(): (rid: int)
      ensures rid == handle
    {
      handle
    }

    function CloseWrite(): (o: Outcome)
      ensures o == Fail(MethodNotImplemented)
    {
      Fail(MethodNotImplemented)
    }

    function SetNoDelay(noDelay: bool): (o: Outcome)
      ensures o == Fail(Unimplemented)
    {
      Fail(Unimplemented)
    }

    function SetKeepAlive(keepAlive: bool): (o: Outcome)
      ensures o == Fail(Unimplemented)
    {
      Fail(Unimplemented)
    }

    /** Throws on a closed pipe before any call; otherwise peeks once, with the
        buffer's length (0 without one) as its size, and returns the three counts or
        the error `unwrap` raises. */
    method Peek(into: Option<seq<byte>>, p: PeekReply) returns (r: Result<PeekInfo>)
      requires PeekWellFormed(p)
      modifies this`trace
      ensures old(closed) ==> r == Err(AlreadyClosed) && trace == old(trace)
      ensures !old(closed) ==>
        trace == old(trace) + [PeekCall(handle, OrNull(into), if into.Some? then |into.value| else 0, Buffer(4), Buffer(4), Buffer(4))]
      ensures !old(closed) ==> (r.Err? <==> p.unwrapped.Fail?)
      ensures !old(closed) && r.Err? ==> r.error == p.unwrapped.error
      ensures r.Ok? ==> r.value == PeekInfo(DecodeLE(p.bytesRead), DecodeLE(p.totalAvail), DecodeLE(p.bytesLeft))
    {
      if closed {
        return Err(AlreadyClosed);
      }
      var size := if into.Some? then |into.value| else 0;
      trace := trace + [PeekCall(handle, OrNull(into), size, Buffer(4), Buffer(4), Buffer(4))];
      if p.unwrapped.Fail? {
        return Err(p.unwrapped.error);
      }
      r := Ok(PeekInfo(DecodeLE(p.bytesRead), DecodeLE(p.totalAvail), DecodeLE(p.bytesLeft)));
    }

    /** The first half of `write`: throws on a closed pipe; otherwise issues the
        WriteFile under a fresh controller, which joins the pending set only if
        `unwrap` did not throw. */
    method BeginWrite(data: seq<byte>, issue: Outcome) returns (r: Result<Controller>)
      requires Valid()
      modifies this`trace, this`pending
      ensures Valid()
      ensures old(closed) ==> r == Err(AlreadyClosed) && trace == old(trace) && pending == old(pending)
      ensures !old(closed) ==> trace == old(trace) + [WriteCall(handle, data)]
      ensures !old(closed) ==> (r.Err? <==> issue.Fail?)
      ensures !old(closed) && r.Err? ==> r.error == issue.error && pending == old(pending)
      ensures r.Ok? ==> fresh(r.value) && !r.value.aborted && pending == old(pending) + [r.value]
    {
      if closed {
        return Err(AlreadyClosed);
      }
      var controller := new Controller();
      trace := trace + [WriteCall(handle, data)];
      if issue.Fail? {
        return Err(issue.error);
      }
      pending := pending + [controller];
      r := Ok(controller);
    }

    /** The first half of `read`: on a closed pipe, end of stream (None) without any
        call; otherwise as BeginWrite, with ReadFile. */
    method BeginRead(into: seq<byte>, issue: Outcome) returns (r: Result<Option<Controller>>)
      requires Valid()
      modifies this`trace, this`pending
      ensures Valid()
      ensures old(closed) ==> r == Ok(None) && trace == old(trace) && pending == old(pending)
      ensures !old(closed) ==> trace == old(trace) + [ReadCall(handle, into)]
      ensures !old(closed) ==> (r.Err? <==> issue.Fail?)
      ensures !old(closed) && r.Err? ==> r.error == issue.error && pending == old(pending)
      ensures !old(closed) && r.Ok? ==> r.value.Some? && fresh(r.value.value) && !r.value.value.aborted
      ensures !old(closed) && r.Ok? ==> pending == old(pending) + [r.value.value]
    {
      if closed {
        return Ok(None);
      }
      var controller := new Controller();
      trace := trace + [ReadCall(handle, into)];
      if issue.Fail? {
        return Err(issue.error);
      }
      pending := pending + [controller];
      r := Ok(Some(controller));
    }

    /** The second half of `read` and `write`: the operation settles, a failure
        counting as 0 bytes, and its controller leaves the pending set either way. */
    method Settle(controller: Controller, settled: Result<nat>) returns (n: nat)
      requires Valid()
      modifies this`pending
      ensures Valid()
      ensures n == Count(settled)
      ensures pending == Without(old(pending), controller) && controller !in pending
    {
      pending := Without(pending, controller);
      n := Count(settled);
    }

    /** `write` run without interruption: throws on a closed pipe, or when `unwrap`
        throws on the WriteFile; otherwise returns what the operation settles to, 0
        for a failure. Its controller is pending only while it runs. */
    method Write(data: seq<byte>, issue: Outcome, settled: Result<nat>) returns (r: Result<nat>)
      requires Valid()
      modifies this`trace, this`pending
      ensures Valid() && pending == old(pending)
      ensures old(closed) ==> r == Err(AlreadyClosed) && trace == old(trace)
      ensures !old(closed) ==> trace == old(trace) + [WriteCall(handle, data)]
      ensures !old(closed) ==> (r.Err? <==> issue.Fail?)
      ensures !old(closed) && r.Err? ==> r.error == issue.error
      ensures r.Ok? ==> r.value == Count(settled)
    {
      var begun := BeginWrite(data, issue);
      if begun.Err? {
        return Err(begun.error);
      }
      var n := Settle(begun.value, settled);
      AddThenDelete(old(pending), begun.value);
      r := Ok(n);
    }

    /** Throws on a closed pipe before any effect. Otherwise aborts every pending
        controller, disconnects a server-side connection, closes the handle and marks
        the pipe closed; the results of those calls are not looked at. */
    method Close() returns (o: Outcome)
      requires Valid()
      modifies this`closed, this`trace, pending
      ensures old(closed) ==> o == Fail(AlreadyClosed) && closed && trace == old(trace)
      ensures old(closed) ==> forall i :: 0 <= i < |pending| ==> pending[i].aborted == old(pending[i].aborted)
      ensures !old(closed) ==> o == Pass && closed && trace == old(trace) + CloseEffects(handle, isServerConn, pending)
      ensures !old(closed) ==> forall i :: 0 <= i < |pending| ==> pending[i].aborted
    {
      if closed {
        return Fail(AlreadyClosed);
      }
      var i := 0;
      while i < |pending|
        invariant 0 <= i <= |pending| && !closed
        invariant trace == old(trace) + AbortCalls(pending[..i])
        invariant forall j :: 0 <= j < i ==> pending[j].aborted
      {
        pending[i].aborted := true;
        trace := trace + [AbortCall(pending[i])];
        assert AbortCalls(pending[..i + 1]) == AbortCalls(pending[..i]) + [AbortCall(pending[i])];
        i := i + 1;
      }
      assert pending[..i] == pending;
      if isServerConn {
        trace := trace + [DisconnectCall(handle)];
      }
      trace := trace + [CloseHandleCall(handle)];
      closed := true;
      trace := trace + [MarkClosed];
      o := Pass;
    }

    /** `#tryClose`: Close with its error swallowed. The pipe is closed afterwards;
        closing an already closed pipe this way has no effect at all. */
    method TryClose()
      requires Valid()
      modifies this`closed, this`trace, pending
      ensures closed
      ensures old(closed) ==> trace == old(trace)
      ensures old(closed) ==> forall i :: 0 <= i < |pending| ==> pending[i].aborted == old(pending[i].aborted)
      ensures !old(closed) ==> trace == old(trace) + CloseEffects(handle, isServerConn, pending)
      ensures !old(closed) ==> forall i :: 0 <= i < |pending| ==> pending[i].aborted
    {
      var _ := Close();
    }

    /** The readable stream's `pull`: a read on a closed pipe yields end of stream,
        which closes the stream and responds 0; a read whose issue throws errors the
        stream and closes the pipe; any other read responds with its count, 0 when the
        operation failed. */
    method Pull(view: seq<byte>, issue: Outcome, settled: Result<nat>) returns (events: seq<StreamEvent>)
      requires Valid()
      modifies this`closed, this`trace, this`pending, pending
      ensures Valid() && pending == old(pending)
      ensures old(closed) ==> events == [CloseStream, Respond(0)] && closed && trace == old(trace)
      ensures !old(closed) && issue.Fail? ==>
        && events == [ErrorStream(issue.error)] && closed
        && trace == old(trace) + [ReadCall(handle, view)] + CloseEffects(handle, isServerConn, pending)
      ensures !old(closed) && issue.Pass? ==>
        && events == [Respond(Count(settled))] && !closed
        && trace == old(trace) + [ReadCall(handle, view)]
    {
      var r := BeginRead(view, issue);
      if r.Err? {
        events := [ErrorStream(r.error)];
        TryClose();
        return;
      }
      match r.value
      case None =>
        TryClose();
        events := [CloseStream, Respond(0)];
      case Some(controller) =>
        var n := Settle(controller, settled);
        AddThenDelete(old(pending), controller);
        events := [Respond(n)];
    }

    /** The `while (written < chunk.length)` loop of the writable stream on an open
        pipe: each write passes the part of the chunk not yet reported written. It
        stops when the reported counts reach the chunk's length, or at the first
        write that throws, which it returns. */
    method SendChunk(chunk: seq<byte>, steps: seq<WriteStep>) returns (thrown: Option<Error>, written: nat)
      requires Valid() && !closed && |chunk| > 0 && Drains(|chunk|, steps)
      modifies this`trace, this`pending
      ensures Valid() && pending == old(pending)
      ensures var k := Ends(|chunk|, steps);
        && trace == old(trace) + ChunkCalls(handle, chunk, steps, k + 1)
        && (thrown.Some? <==> steps[k].issue.Fail?)
        && (thrown.Some? ==> thrown.value == steps[k].issue.error && written == Sent(steps[..k]))
        && (thrown.None? ==> written == Sent(steps[..k + 1]) && written >= |chunk|)
    {
      ghost var k := Ends(|chunk|, steps);
      written := 0;
      var i := 0;
      while written < |chunk|
        invariant 0 <= i <= k + 1 && pending == old(pending) && Valid()
        invariant written == Sent(steps[..i])
        invariant trace == old(trace) + ChunkCalls(handle, chunk, steps, i)
        invariant i <= k ==> written < |chunk|
        invariant i == k + 1 ==> steps[k].issue.Pass? && written >= |chunk|
        decreases k + 1 - i
      {
        var r := Write(Subarray(chunk, written), steps[i].issue, steps[i].settled);
        ChunkCallsExtend(handle, chunk, steps, i);
        if r.Err? {
          assert StopsAt(|chunk|, steps, i) && i == k;
          return Some(r.error), written;
        }
        var n := r.value;
        SentExtend(steps, i);
        if i < k {
          assert !StopsAt(|chunk|, steps, i);
        }
        written := written + n;
        i := i + 1;
      }
      thrown := None;
    }

    /** The writable stream's `write`: sends the chunk; a write that throws (on a
        closed pipe, or when `unwrap` throws) errors the stream and closes the pipe. */
    method WriteChunk(chunk: seq<byte>, steps: seq<WriteStep>) returns (events: seq<StreamEvent>, written: nat)
      requires Valid()
      requires closed || |chunk| == 0 || Drains(|chunk|, steps)
      modifies this`closed, this`trace, this`pending, pending
      ensures Valid() && pending == old(pending)
      ensures |chunk| == 0 ==> events == [] && written == 0 && closed == old(closed) && trace == old(trace)
      ensures old(closed) && |chunk| > 0 ==>
        events == [ErrorStream(AlreadyClosed)] && written == 0 && closed && trace == old(trace)
      ensures !old(closed) && |chunk| > 0 ==>
        var k := Ends(|chunk|, steps);
        && (steps[k].issue.Fail? ==>
              && events == [ErrorStream(steps[k].issue.error)] && closed && written == Sent(steps[..k])
              && trace == old(trace) + ChunkCalls(handle, chunk, steps, k + 1) + CloseEffects(handle, isServerConn, pending))
        && (steps[k].issue.Pass? ==>
              && events == [] && !closed && written == Sent(steps[..k + 1]) && written >= |chunk|
              && trace == old(trace) + ChunkCalls(handle, chunk, steps, k + 1))
    {
      events := [];
      written := 0;
      if |chunk| == 0 {
        return;
      }
      if closed {
        var r := BeginWrite(chunk, Pass);
        events := [ErrorStream(r.error)];
        TryClose();
        return;
      }
      var thrown;
      thrown, written := SendChunk(chunk, steps);
      if thrown.Some? {
        events := [ErrorStream(thrown.value)];
        TryClose();
      }
    }
  }
}

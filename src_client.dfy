/** The second `NamedPipe` revision: a client (or server-side) connection over a
    HANDLE that keeps the OVERLAPPED records of its in-flight reads and writes in a
    set, cancels them on close, and throws once closed (except `read`, which then
    reports end of stream).

    A JavaScript `async` read or write suspends between issuing the call and
    finishing its polling loop, and `close` may run in that gap. Each is therefore
    split in two methods, `Begin*` (issue the call, record it as pending) and
    `Finish*` (poll until settled, drop it from the pending set), so that a `Close`
    can be called between them. */
module SrcClient {
  import opened Errors
  import opened Kernel
  import opened Layout
  import opened OverlappedIo
  import W = SrcWinApi

  /** What `peek` returns: the three counts PeekNamedPipe writes. */
  datatype PeekInfo = PeekInfo(bytesRead: nat, totalBytesAvailable: nat, bytesLeftThisMessage: nat)

  /** What PeekNamedPipe reports: its reply and the 4 bytes of each Uint32Array cell. */
  datatype PeekReply = PeekReply(reply: W.Reply, bytesRead: seq<byte>, totalAvail: seq<byte>, bytesLeft: seq<byte>)

  predicate PeekWellFormed(p: PeekReply) {
    |p.bytesRead| == 4 && |p.totalAvail| == 4 && |p.bytesLeft| == 4
  }

  /** One CancelIoEx per pending record, in the set's order. */
  function CancelSteps(handle: int, pending: seq<Overlapped>, cancels: seq<W.Reply>): (steps: seq<Syscall>)
    requires |cancels| == |pending|
    ensures |steps| == |pending|
    ensures forall i :: 0 <= i < |pending| ==> steps[i] == W.CancelIoEx(handle, pending[i].data, cancels[i])
  {
    seq(|pending|, i requires 0 <= i < |pending| => W.CancelIoEx(handle, pending[i].data, cancels[i]))
  }

  /** DisconnectNamedPipe for a server-side connection only, then CloseHandle. */
  function ReleaseSteps(handle: int, isServerConn: bool, disconnect: W.Reply, closeHandle: W.Reply): (steps: seq<Syscall>)
    ensures |steps| == (if isServerConn then 2 else 1)
    ensures isServerConn ==> steps[0] == W.DisconnectNamedPipe(handle, disconnect)
    ensures steps[|steps| - 1] == W.CloseHandle(handle, closeHandle)
  {
    (if isServerConn then [W.DisconnectNamedPipe(handle, disconnect)] else []) + [W.CloseHandle(handle, closeHandle)]
  }

  /** The calls `close` makes, each with what UnwrapError makes of its reply: the
      cancellations, then DisconnectNamedPipe for a server-side connection only, and
      CloseHandle last. */
  function CloseSteps(handle: int, isServerConn: bool, pending: seq<Overlapped>,
                      cancels: seq<W.Reply>, disconnect: W.Reply, closeHandle: W.Reply): (steps: seq<Syscall>)
    requires |cancels| == |pending|
    ensures |steps| == |pending| + (if isServerConn then 2 else 1)
    ensures forall i :: 0 <= i < |pending| ==> steps[i] == W.CancelIoEx(handle, pending[i].data, cancels[i])
    ensures isServerConn ==> steps[|pending|] == W.DisconnectNamedPipe(handle, disconnect)
    ensures steps[|steps| - 1] == W.CloseHandle(handle, closeHandle)
  {
    CancelSteps(handle, pending, cancels) + ReleaseSteps(handle, isServerConn, disconnect, closeHandle)
  }

  /** The index of the first call whose outcome is a failure, or `|steps|` if none. */
  function FirstFailure(steps: seq<Syscall>): (k: nat)
    ensures k <= |steps|
    ensures forall j :: 0 <= j < k ==> steps[j].outcome == Pass
    ensures k < |steps| ==> steps[k].outcome.Fail?
  {
    if steps == [] then 0
    else if steps[0].outcome.Fail? then 0
    else
      assert forall j :: 1 <= j < |steps| ==> steps[1..][j - 1] == steps[j];
      1 + FirstFailure(steps[1..])
  }

  /** What running `steps` one after the other yields when the first failure stops
      the run: that failure, or Pass. */
  function Verdict(steps: seq<Syscall>): (o: Outcome)
  {
    if steps == [] then Pass
    else if steps[0].outcome.Fail? then steps[0].outcome
    else Verdict(steps[1..])
  }

  /** The calls such a run makes, in order. */
  function Run(steps: seq<Syscall>): (calls: seq<Effect>)
    ensures |calls| <= |steps|
  {
    if steps == [] then []
    else if steps[0].outcome.Fail? then [steps[0].call]
    else [steps[0].call] + Run(steps[1..])
  }

  /** A run yields the outcome of the first failing step, or Pass if none fails. */
  lemma {:induction false} VerdictIsFirstFailure(steps: seq<Syscall>)
    ensures var k := FirstFailure(steps);
      Verdict(steps) == if k < |steps| then steps[k].outcome else Pass
  {
    if steps != [] && steps[0].outcome.Pass? {
      VerdictIsFirstFailure(steps[1..]);
    }
  }

  /** A run makes exactly the calls up to and including the first failing one, in
      order. */
  lemma {:induction false} RunStopsAtFirstFailure(steps: seq<Syscall>)
    ensures var k := FirstFailure(steps);
      |Run(steps)| == if k < |steps| then k + 1 else |steps|
    ensures forall i :: 0 <= i < |Run(steps)| ==> Run(steps)[i] == steps[i].call
  {
    if steps != [] && steps[0].outcome.Pass? {
      RunStopsAtFirstFailure(steps[1..]);
      assert forall i :: 1 <= i < |Run(steps)| ==> Run(steps)[i] == Run(steps[1..])[i - 1];
    }
  }

  lemma {:induction false} RunAppend(a: seq<Syscall>, b: seq<Syscall>)
    ensures Verdict(a + b) == if Verdict(a).Pass? then Verdict(b) else Verdict(a)
    ensures Run(a + b) == Run(a) + if Verdict(a).Pass? then Run(b) else []
  {
    if a == [] {
      assert a + b == b;
    } else {
      assert (a + b)[1..] == a[1..] + b;
      RunAppend(a[1..], b);
    }
  }

  /** One more step after a run that has not failed so far. */
  lemma RunExtend(steps: seq<Syscall>, i: nat)
    requires i < |steps| && Verdict(steps[..i]) == Pass
    ensures Verdict(steps[..i + 1]) == steps[i].outcome
    ensures Run(steps[..i + 1]) == Run(steps[..i]) + [steps[i].call]
  {
    assert steps[..i + 1] == steps[..i] + [steps[i]];
    RunAppend(steps[..i], [steps[i]]);
    assert [steps[i]][1..] == [];
  }

  /** A step that fails decides the whole run. */
  lemma RunStopsAt(steps: seq<Syscall>, i: nat)
    requires i < |steps| && Verdict(steps[..i + 1]).Fail?
    ensures Verdict(steps) == Verdict(steps[..i + 1]) && Run(steps) == Run(steps[..i + 1])
  {
    assert steps == steps[..i + 1] + steps[i + 1..];
    RunAppend(steps[..i + 1], steps[i + 1..]);
  }

  /** A cancellation that throws ends `close` before CloseHandle, whatever the later
      replies would have been: the handle stays open and the pipe is not marked
      closed. A record left pending by a failed poll is cancelled by every later
      `close`. */
  lemma CancelFailureKeepsHandleOpen(handle: int, isServerConn: bool, pending: seq<Overlapped>,
                                     cancels: seq<W.Reply>, disconnect: W.Reply, closeHandle: W.Reply, i: nat)
    requires |cancels| == |pending| && i < |pending| && W.UnwrapError(cancels[i]).Fail?
    ensures var steps := CloseSteps(handle, isServerConn, pending, cancels, disconnect, closeHandle);
      && Verdict(steps).Fail?
      && CloseHandleCall(handle) !in Run(steps)
      && forall e :: e in Run(steps) ==> e.CancelCall?
  {
    var steps := CloseSteps(handle, isServerConn, pending, cancels, disconnect, closeHandle);
    var k := FirstFailure(steps);
    assert steps[i].outcome.Fail?;
    assert k <= i;
    VerdictIsFirstFailure(steps);
    RunStopsAtFirstFailure(steps);
    forall e | e in Run(steps)
      ensures e.CancelCall?
    {
      var j :| 0 <= j < |Run(steps)| && Run(steps)[j] == e;
      assert e == steps[j].call;
    }
  }

  class NamedPipe {
    const name: string
    const handle: int
    const isServerConn: bool
    var closed: bool
    /** The `#pending` set, in insertion order. */
    var pending: seq<Overlapped>
    /** Every call made on the operating system so far, and the closing mark. */
    ghost var trace: seq<Effect>

    /** Each pending record is distinct, belongs to this pipe's handle and is a
        full 32-byte record. */
    ghost predicate Valid()
      reads this`pending
    {
      && Distinct(pending)
      && forall i :: 0 <= i < |pending| ==> pending[i].handle == handle && pending[i].data.Length == RECORD_SIZE
    }

    constructor (name: string, handle: int, isServerConn: bool := false)
      ensures Valid()
      ensures this.name == name && this.handle == handle && this.isServerConn == isServerConn
      ensures !closed && pending == [] && trace == []
    {
      this.name := name;
      this.handle := handle;
      this.isServerConn := isServerConn;
      closed := false;
      pending := [];
      trace := [];
    }

    /** Both ends report the pipe's own name over the "win32" transport. */
    function RemoteAddr(): (a: Addr)
      ensures a.transport == "win32" && a.path == name
    {
      Addr("win32", name)
    }

    function LocalAddr(): (a: Addr)
      ensures a == RemoteAddr()
    {
      RemoteAddr()
    }

    /** The raw handle value stands in for a resource id. */
    function Rid(): (rid: int)
      ensures rid == handle
    {
      handle
    }

    function CloseWrite(): (o: Outcome)
      ensures o == Fail(MethodNotImplemented)
    {
      Fail(MethodNotImplemented)
    }

    function SetNoDelay(noDelay: bool): (o: Outcome)
      ensures o == Fail(Unimplemented)
    {
      Fail(Unimplemented)
    }

    function SetKeepAlive(keepAlive: bool): (o: Outcome)
      ensures o == Fail(Unimplemented)
    {
      Fail(Unimplemented)
    }

    /** Throws on a closed pipe before any call; otherwise peeks once (no buffer means
        buffer size 0) and returns the three counts, or the peek's error. */
    method Peek(into: Option<seq<byte>>, p: PeekReply) returns (r: Result<PeekInfo>)
      requires Valid() && PeekWellFormed(p)
      modifies this`trace
      ensures Valid()
      ensures old(closed) ==> r == Err(AlreadyClosed) && trace == old(trace)
      ensures !old(closed) ==> trace == old(trace) + [W.PeekNamedPipe(handle, into, p.reply).call]
      ensures !old(closed) ==> (r.Err? <==> W.UnwrapError(p.reply).Fail?)
      ensures !old(closed) && r.Err? ==> r.error == W.UnwrapError(p.reply).error
      ensures r.Ok? ==> r.value == PeekInfo(DecodeLE(p.bytesRead), DecodeLE(p.totalAvail), DecodeLE(p.bytesLeft))
      ensures r.Ok? ==> r.value.bytesRead < TWO_TO_THE_32 && r.value.totalBytesAvailable < TWO_TO_THE_32
                        && r.value.bytesLeftThisMessage < TWO_TO_THE_32
    {
      if closed {
        return Err(AlreadyClosed);
      }
      var s := W.PeekNamedPipe(handle, into, p.reply);
      trace := trace + [s.call];
      if s.outcome.Fail? {
        return Err(s.outcome.error);
      }
      r := Ok(PeekInfo(DecodeLE(p.bytesRead), DecodeLE(p.totalAvail), DecodeLE(p.bytesLeft)));
    }

    /** The first half of `write`: throws on a closed pipe; otherwise issues an
        overlapped WriteFile on a fresh record, which joins the pending set only if
        the issue did not fail. */
    method BeginWrite(data: seq<byte>, issue: W.Reply) returns (r: Result<Overlapped>)
      requires Valid()
      modifies this`trace, this`pending
      ensures Valid()
      ensures old(closed) ==> r == Err(AlreadyClosed) && trace == old(trace) && pending == old(pending)
      ensures !old(closed) ==> trace == old(trace) + [W.WriteFile(handle, data, |data|, Zeros(RECORD_SIZE), issue).call]
      ensures !old(closed) ==> (r.Err? <==> W.UnwrapError(issue, [ERROR_IO_PENDING]).Fail?)
      ensures !old(closed) && r.Err? ==> r.error == W.UnwrapError(issue, [ERROR_IO_PENDING]).error && pending == old(pending)
      ensures r.Ok? ==> fresh(r.value) && fresh(r.value.data) && r.value.handle == handle && r.value.data[..] == Zeros(RECORD_SIZE)
      ensures r.Ok? ==> pending == old(pending) + [r.value]
    {
      if closed {
        return Err(AlreadyClosed);
      }
      var ov := new Overlapped(handle);
      var s := W.WriteFile(handle, data, |data|, ov.data[..], issue);
      trace := trace + [s.call];
      if s.outcome.Fail? {
        return Err(s.outcome.error);
      }
      pending := pending + [ov];
      r := Ok(ov);
    }

    /** The second half of `write`: polls with wait = 1 until the record no longer
        reads STATUS_PENDING and returns the last poll's count. The record leaves the
        pending set only when polling ends normally; a failed poll leaves it there. */
    method FinishWrite(ov: Overlapped, polls: seq<Completion>) returns (r: Result<nat>)
      requires Valid() && ov in pending
      requires AllWellFormed(polls) && EventuallySettles(polls)
      modifies this`trace, this`pending, ov.data
      ensures Valid()
      ensures r == Awaited(polls)
      ensures r.Ok? ==> r.value < TWO_TO_THE_32
      ensures ov.data[..] == polls[FirstSettled(polls)].record
      ensures trace == old(trace) + WaitingPolls(handle, FirstSettled(polls) + 1)
      ensures r.Ok? ==> pending == Without(old(pending), ov) && ov !in pending
      ensures r.Err? ==> pending == old(pending)
    {
      var calls;
      r, calls := PollWhilePending(ov, polls);
      trace := trace + calls;
      if r.Ok? {
        pending := Without(pending, ov);
      }
    }

    /** The first half of `read`: on a closed pipe, end of stream (None) without any
        call; otherwise as BeginWrite, with ReadFile. */
    method BeginRead(into: seq<byte>, issue: W.Reply) returns (r: Result<Option<Overlapped>>)
      requires Valid()
      modifies this`trace, this`pending
      ensures Valid()
      ensures old(closed) ==> r == Ok(None) && trace == old(trace) && pending == old(pending)
      ensures !old(closed) ==> trace == old(trace) + [W.ReadFile(handle, into, |into|, Zeros(RECORD_SIZE), issue).call]
      ensures !old(closed) ==> (r.Err? <==> W.UnwrapError(issue, [ERROR_IO_PENDING]).Fail?)
      ensures !old(closed) && r.Err? ==> r.error == W.UnwrapError(issue, [ERROR_IO_PENDING]).error && pending == old(pending)
      ensures !old(closed) && r.Ok? ==> r.value.Some? && fresh(r.value.value) && fresh(r.value.value.data) && r.value.value.handle == handle
      ensures !old(closed) && r.Ok? ==> r.value.value.data[..] == Zeros(RECORD_SIZE) && pending == old(pending) + [r.value.value]
    {
      if closed {
        return Ok(None);
      }
      var ov := new Overlapped(handle);
      var s := W.ReadFile(handle, into, |into|, ov.data[..], issue);
      trace := trace + [s.call];
      if s.outcome.Fail? {
        return Err(s.outcome.error);
      }
      pending := pending + [ov];
      r := Ok(Some(ov));
    }

    /** The second half of `read`: polls as FinishWrite, but returns the record's
        InternalHigh (bytes 8..15) rather than the poll's count. */
    method FinishRead(ov: Overlapped, polls: seq<Completion>) returns (r: Result<nat>)
      requires Valid() && ov in pending
      requires AllWellFormed(polls) && EventuallySettles(polls)
      modifies this`trace, this`pending, ov.data
      ensures Valid()
      ensures r.Ok? <==> Awaited(polls).Ok?
      ensures r.Err? ==> r.error == OverlappedFailed
      ensures r.Ok? ==> r.value == BytesTransferred(polls[FirstSettled(polls)].record) && r.value < Pow256(8)
      ensures ov.data[..] == polls[FirstSettled(polls)].record
      ensures trace == old(trace) + WaitingPolls(handle, FirstSettled(polls) + 1)
      ensures r.Ok? ==> pending == Without(old(pending), ov) && ov !in pending
      ensures r.Err? ==> pending == old(pending)
    {
      var polled, calls := PollWhilePending(ov, polls);
      trace := trace + calls;
      if polled.Err? {
        return Err(polled.error);
      }
      pending := Without(pending, ov);
      r := Ok(ov.InternalHigh());
    }

    /** The `for (const overlapped of this.#pending)` loop of `close`: cancels each
        pending record in order and stops at the first cancellation that fails. */
    method CancelPending(cancels: seq<W.Reply>) returns (o: Outcome)
      requires Valid() && |cancels| == |pending|
      modifies this`trace
      ensures Valid()
      ensures var steps := CancelSteps(handle, pending, cancels);
        o == Verdict(steps) && trace == old(trace) + Run(steps)
    {
      ghost var steps := CancelSteps(handle, pending, cancels);
      var i := 0;
      while i < |pending|
        invariant 0 <= i <= |pending|
        invariant Verdict(steps[..i]) == Pass && trace == old(trace) + Run(steps[..i])
      {
        var s := W.CancelIoEx(handle, pending[i].data, cancels[i]);
        trace := trace + [s.call];
        RunExtend(steps, i);
        if s.outcome.Fail? {
          RunStopsAt(steps, i);
          return s.outcome;
        }
        i := i + 1;
      }
      assert steps[..i] == steps;
      o := Pass;
    }

    /** The rest of `close` after the cancellations: DisconnectNamedPipe for a
        server-side connection, then CloseHandle unless the disconnect failed. */
    method DisconnectAndCloseHandle(disconnect: W.Reply, closeHandle: W.Reply) returns (o: Outcome)
      modifies this`trace
      ensures var steps := ReleaseSteps(handle, isServerConn, disconnect, closeHandle);
        o == Verdict(steps) && trace == old(trace) + Run(steps)
    {
      ghost var steps := ReleaseSteps(handle, isServerConn, disconnect, closeHandle);
      ghost var last := steps[|steps| - 1];
      assert Verdict([last]) == last.outcome && Run([last]) == [last.call] by {
        assert [last][1..] == [];
      }
      if isServerConn {
        var s := W.DisconnectNamedPipe(handle, disconnect);
        trace := trace + [s.call];
        assert steps == [s] + [last];
        if s.outcome.Fail? {
          return s.outcome;
        }
      }
      var s := W.CloseHandle(handle, closeHandle);
      trace := trace + [s.call];
      o := s.outcome;
    }

    /** Throws on a closed pipe before any call. Otherwise cancels every pending
        record in order, disconnects a server-side connection, closes the handle and
        only then marks the pipe closed; the first call that fails stops it there,
        with the pipe still open. The pending set itself is left as it was. */
    method Close(cancels: seq<W.Reply>, disconnect: W.Reply, closeHandle: W.Reply) returns (o: Outcome)
      requires Valid() && |cancels| == |pending|
      modifies this`trace, this`closed
      ensures Valid()
      ensures old(closed) ==> o == Fail(AlreadyClosed) && closed && trace == old(trace)
      ensures !old(closed) ==>
        var steps := CloseSteps(handle, isServerConn, old(pending), cancels, disconnect, closeHandle);
        && o == Verdict(steps)
        && (closed <==> o == Pass)
        && trace == old(trace) + Run(steps) + (if o == Pass then [MarkClosed] else [])
    {
      if closed {
        return Fail(AlreadyClosed);
      }
      ghost var cancelling := CancelSteps(handle, pending, cancels);
      ghost var release := ReleaseSteps(handle, isServerConn, disconnect, closeHandle);
      ghost var steps := CloseSteps(handle, isServerConn, pending, cancels, disconnect, closeHandle);
      assert steps == cancelling + release;
      RunAppend(cancelling, release);
      o := CancelPending(cancels);
      ghost var trace1 := trace;
      assert trace1 == old(trace) + Run(cancelling);
      if o.Fail? {
        assert Verdict(steps) == o && Run(steps) == Run(cancelling);
        assert trace == old(trace) + Run(steps) + [];
        return;
      }
      o := DisconnectAndCloseHandle(disconnect, closeHandle);
      assert Verdict(steps) == o && Run(steps) == Run(cancelling) + Run(release);
      ghost var trace2 := old(trace) + Run(steps);
      assert trace == trace2 by {
        assert trace == trace1 + Run(release);
      }
      if o.Fail? {
        assert trace == trace2 + [];
        return;
      }
      closed := true;
      trace := trace + [MarkClosed];
    }
  }
}

/** The Kernel32 wrappers of the second binding revision. ReadFile, WriteFile,
    PeekNamedPipe, CloseHandle, DisconnectNamedPipe and CancelIoEx go through
    UnwrapError, which turns a zero result into an error carrying the thread's
    last-error code unless that code is 0 or explicitly excluded. GetOverlappedResult
    instead returns its raw BOOL (see `OverlappedIo.Overlapped.GetResult`), and the
    handle-creating calls compare their handle with INVALID_HANDLE_VALUE (see
    `Kernel.CheckedHandle`). */
module SrcWinApi {
  import opened Errors
  import opened Kernel
  import opened Layout

  /** What a BOOL-returning call reports: its return value, and what GetLastError and
      FormatMessage would report right after it. */
  datatype Reply = Reply(ret: int, lastError: nat, text: string)

  /** A nonzero result is success; a zero result is success only when the last
      error is 0 or in `exclude`, and otherwise an error "(code) message". */
  function UnwrapError(r: Reply, exclude: seq<nat> := []): (o: Outcome)
    ensures r.ret != 0 ==> o == Pass
    ensures r.ret == 0 ==> (o == Pass <==> r.lastError == 0 || r.lastError in exclude)
    ensures o.Fail? ==> o.error == Os(r.lastError, r.text)
    ensures o.Fail? ==> CodeOf(Message(o.error)) == Some(r.lastError)
  {
    if r.ret == 0 && r.lastError != 0 && r.lastError !in exclude
    then Fail(Os(r.lastError, r.text))
    else Pass
  }

  /** ReadFile into `lpBuffer` with an overlapped record; the byte-count pointer is NULL
      and ERROR_IO_PENDING is not an error. */
  function ReadFile(hFile: int, lpBuffer: seq<byte>, n: int, lpOverlapped: seq<byte>, r: Reply): (s: Syscall)
    ensures s.call == ReadFileCall(hFile, Buffer(|lpBuffer|), n, Null, Buffer(|lpOverlapped|))
    ensures s.outcome == UnwrapError(r, [ERROR_IO_PENDING])
  {
    Syscall(ReadFileCall(hFile, Buffer(|lpBuffer|), n, Null, Buffer(|lpOverlapped|)),
            UnwrapError(r, [ERROR_IO_PENDING]))
  }

  /** WriteFile of the bytes of `lpBuffer`, shaped as ReadFile. */
  function WriteFile(hFile: int, lpBuffer: seq<byte>, n: int, lpOverlapped: seq<byte>, r: Reply): (s: Syscall)
    ensures s.call == WriteFileCall(hFile, Bytes(lpBuffer), n, Null, Buffer(|lpOverlapped|))
    ensures s.outcome == UnwrapError(r, [ERROR_IO_PENDING])
  {
    Syscall(WriteFileCall(hFile, Bytes(lpBuffer), n, Null, Buffer(|lpOverlapped|)),
            UnwrapError(r, [ERROR_IO_PENDING]))
  }

  /** An overlapped read or write that is still in flight is not an error; any other
      nonzero last error after a zero result is, and carries its code. */
  lemma IssueOutcome(h: int, buf: seq<byte>, rec: seq<byte>, r: Reply)
    ensures r.ret == 0 && r.lastError == ERROR_IO_PENDING ==>
      ReadFile(h, buf, |buf|, rec, r).outcome == Pass && WriteFile(h, buf, |buf|, rec, r).outcome == Pass
    ensures r.ret == 0 && r.lastError !in {0, ERROR_IO_PENDING} ==>
      ReadFile(h, buf, |buf|, rec, r).outcome == Fail(Os(r.lastError, r.text)) &&
      WriteFile(h, buf, |buf|, rec, r).outcome == Fail(Os(r.lastError, r.text))
  {
  }

  /** PeekNamedPipe: the buffer size is the buffer's byte length, or 0 without one,
      truncated to 32 bits; the three counts go to 4-byte Uint32Array cells. */
  function PeekNamedPipe(hNamedPipe: int, lpBuffer: Option<seq<byte>>, r: Reply): (s: Syscall)
    ensures s.call.PeekCall? && s.call.handle == hNamedPipe && s.call.buffer == OrNull(lpBuffer)
    ensures lpBuffer.None? ==> s.call.bufferSize == 0
    ensures lpBuffer.Some? ==> s.call.bufferSize == ToUint32(|lpBuffer.value|)
    ensures s.call.bytesRead == s.call.totalAvail == s.call.bytesLeft == Buffer(4)
    ensures s.outcome == UnwrapError(r)
  {
    var size := ToUint32(match lpBuffer case None => 0 case Some(b) => |b|);
    Syscall(PeekCall(hNamedPipe, OrNull(lpBuffer), size, Buffer(4), Buffer(4), Buffer(4)), UnwrapError(r))
  }

  function CloseHandle(handle: int, r: Reply): (s: Syscall)
    ensures s.call == CloseHandleCall(handle) && s.outcome == UnwrapError(r)
  {
    Syscall(CloseHandleCall(handle), UnwrapError(r))
  }

  function DisconnectNamedPipe(hNamedPipe: int, r: Reply): (s: Syscall)
    ensures s.call == DisconnectCall(hNamedPipe) && s.outcome == UnwrapError(r)
  {
    Syscall(DisconnectCall(hNamedPipe), UnwrapError(r))
  }

  function CancelIoEx(hFile: int, lpOverlapped: array<byte>, r: Reply): (s: Syscall)
    ensures s.call == CancelCall(hFile, lpOverlapped) && s.outcome == UnwrapError(r)
  {
    Syscall(CancelCall(hFile, lpOverlapped), UnwrapError(r))
  }
}

/** The Kernel32 wrappers of the first binding revision. They return the raw BOOL of
    each call to the caller instead of classifying it, and pass NULL for every
    pointer argument the caller leaves out. */
module WinApi {
  import opened Errors
  import opened Kernel
  import opened Layout
  import SrcWinApi

  /** PeekNamedPipe: an absent buffer, bytes-read cell or bytes-left cell becomes NULL,
      and the buffer size is 0 without a buffer and its byte length (truncated to
      32 bits) with one. */
  function PeekNamedPipe(hNamedPipe: int, lpBuffer: Option<seq<byte>>, lpBytesRead: Option<seq<byte>>,
                         lpTotalBytesAvail: seq<byte>, lpBytesLeftThisMessage: Option<seq<byte>>): (call: Effect)
    ensures call.PeekCall? && call.handle == hNamedPipe
    ensures call.buffer == OrNull(lpBuffer) && call.bytesRead == OrNull(lpBytesRead)
    ensures call.totalAvail == Buffer(|lpTotalBytesAvail|) && call.bytesLeft == OrNull(lpBytesLeftThisMessage)
    ensures lpBuffer.None? ==> call.bufferSize == NULL
    ensures lpBuffer.Some? ==> call.bufferSize == ToUint32(|lpBuffer.value|)
  {
    var size := match lpBuffer case None => NULL case Some(b) => ToUint32(|b|);
    PeekCall(hNamedPipe, OrNull(lpBuffer), size, OrNull(lpBytesRead),
             Buffer(|lpTotalBytesAvail|), OrNull(lpBytesLeftThisMessage))
  }

  /** WriteFile of the bytes of `lpBuffer`: an absent byte-count cell or overlapped
      record becomes NULL. */
  function WriteFile(hFile: int, lpBuffer: seq<byte>, nNumberOfBytesToWrite: int,
                     lpNumberOfBytesWritten: Option<seq<byte>>, lpOverlapped: Option<seq<byte>>): (call: Effect)
    ensures call.WriteFileCall? && call.handle == hFile && call.toWrite == nNumberOfBytesToWrite
    ensures call.buffer == Bytes(lpBuffer)
    ensures call.bytesWritten == OrNull(lpNumberOfBytesWritten) && call.overlapped == OrNull(lpOverlapped)
  {
    WriteFileCall(hFile, Bytes(lpBuffer), nNumberOfBytesToWrite, OrNull(lpNumberOfBytesWritten), OrNull(lpOverlapped))
  }

  /** ReadFile: as WriteFile. */
  function ReadFile(hFile: int, lpBuffer: seq<byte>, nNumberOfBytesToRead: int,
                    lpNumberOfBytesRead: Option<seq<byte>>, lpOverlapped: Option<seq<byte>>): (call: Effect)
    ensures call.ReadFileCall? && call.handle == hFile && call.toRead == nNumberOfBytesToRead
    ensures call.buffer == Buffer(|lpBuffer|)
    ensures call.bytesRead == OrNull(lpNumberOfBytesRead) && call.overlapped == OrNull(lpOverlapped)
  {
    ReadFileCall(hFile, Buffer(|lpBuffer|), nNumberOfBytesToRead, OrNull(lpNumberOfBytesRead), OrNull(lpOverlapped))
  }

  /** Both revisions hand PeekNamedPipe the same buffer pointer and size: the later
      `(lpBuffer?.byteLength ?? 0) >>> 0` agrees with the earlier NULL substitution. */
  lemma PeekSizeAgrees(h: int, lpBuffer: Option<seq<byte>>, cell: seq<byte>, r: SrcWinApi.Reply)
    ensures var early := PeekNamedPipe(h, lpBuffer, Some(cell), cell, Some(cell));
            var late := SrcWinApi.PeekNamedPipe(h, lpBuffer, r).call;
            early.buffer == late.buffer && early.bufferSize == late.bufferSize
  {
  }
}

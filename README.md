# deno_namedpipe, modelled in Dafny

deno_namedpipe gives Deno programs on Windows a `Deno.Conn`-like connection over
a named pipe. It works through Kernel32 calls (CreateFileA, PeekNamedPipe,
ReadFile, WriteFile, GetOverlappedResult, CancelIoEx, DisconnectNamedPipe,
CloseHandle). Reads and writes are overlapped: each one gets a 32-byte OVERLAPPED
record, and the binding polls GetOverlappedResult until the record's `Internal`
field no longer reads STATUS_PENDING (259).

The repository has three revisions of the `NamedPipe` class. Each is modelled as
a Dafny class with its own module:

- `Mod` models `mod.ts`, the earliest revision, over the raw wrappers of
  `winapi.ts` (module `WinApi`). Those wrappers return each call's BOOL to the
  caller.
- `SrcClient` models `src/client.ts`, over the wrappers of `src/winapi.ts`
  (module `SrcWinApi`). ReadFile, WriteFile, PeekNamedPipe, CloseHandle,
  DisconnectNamedPipe and CancelIoEx classify their result through
  `UnwrapError`. GetOverlappedResult returns its raw BOOL, which the record's
  `getResult` compares with 1. CreateFileA and CreateNamedPipeA compare the handle
  they get with INVALID_HANDLE_VALUE. The pipe keeps its in-flight OVERLAPPED
  records in a pending set and cancels them on close.
- `Client` models `client.ts`, the latest revision. It calls a helper library.
  Each operation in flight is tracked by an AbortController. A failed operation
  resolves to 0 bytes. The pipe is also offered as a readable and a writable
  byte stream.

Shared parts:

- `OverlappedIo` models the OVERLAPPED record class, which both wrapper revisions
  define alike. It also models the "poll while pending" loop that `mod.ts` and
  `src/client.ts` run after each read and write. `client.ts` has no such loop,
  because its helper library does the waiting.
- `Layout` holds the little-endian decoding of Uint32Array and BigUint64Array
  views.
- `CString` models `cstr`.
- `Kernel` holds the status constants, pointer arguments, the handle check and
  the `Set` operations.
- `Errors` holds the error kinds and their message texts.

Every Kernel32 call is an oracle. Its return value, last-error code and the bytes
it writes are parameters of the operation that issues it. Each pipe keeps a ghost
`trace` of the calls it makes, in order. Contracts state that trace exactly,
together with the result and the new `closed` flag and pending set.

A single JavaScript `async` read or write suspends between issuing its call
and settling, and `close` can run in that gap. So `SrcClient` and `Client`
split each single read and write into a `Begin*` method and a
`Finish*`/`Settle` method, and a `Close` can be called between them. The
stream callbacks of `client.ts` (`Pull`, `SendChunk`, `WriteChunk`) are each
one method, so their awaits run without a close in between.

## Model

| member | source | states |
|---|---|---|
| Errors.Message | src/winapi.ts:374-381 | every error has a non-empty message; the code of an operating-system error can be read back from its "(code) text" message |
| Errors.OsMessage | src/winapi.ts:379 | the message starts with the code in parentheses, and `CodeOf` reads back exactly that code |
| Errors.DecimalRoundTrip | src/winapi.ts:379 | the decimal digits a template literal prints for a code read back as the same code |
| Kernel.ToUint32 | src/winapi.ts:193 | `x >>> 0` is below 2^32, congruent to `x` modulo 2^32, and equal to `x` when `x` already fits |
| Kernel.OrNull | winapi.ts:160-164 | `b ?? NULL` is the null pointer exactly when the buffer is absent, and otherwise a buffer of the same length |
| Kernel.CheckSupported | src/winapi.ts:120-124 | passes exactly on Windows; everywhere else it fails with the "only works on Windows" error |
| Kernel.CheckedHandle | src/winapi.ts:175-178 | off Windows the error is Unsupported; on Windows it fails exactly when the handle is INVALID_HANDLE_VALUE, and otherwise returns the handle unchanged |
| Kernel.Without | src/client.ts:96 | `Set.delete`: removes exactly `x`, keeps every other element, leaves a set without `x` unchanged, and keeps elements distinct with the size one smaller |
| Kernel.WithoutAt | src/client.ts:96 | `Set.delete` of the element at index `k` of a distinct sequence leaves exactly the elements before it followed by those after it, so insertion order is kept |
| Kernel.AddThenDelete | client.ts:86-90 | adding a fresh element and then deleting it gives back the original set, order included |
| Layout.DecodeLE | src/winapi.ts:269-275 | the little-endian value of `n` bytes is below 256^n |
| Layout.DecodeEncode | src/winapi.ts:269-275 | decoding the `n`-byte encoding of a value below 256^n gives back the value |
| Layout.EncodeDecode | src/winapi.ts:269-275 | encoding the decoded value of a byte sequence in as many bytes gives back the sequence |
| Layout.DecodeZeros | src/winapi.ts:260-265 | an all-zero buffer decodes to 0 |
| CString.Terminated | src/winapi.ts:126-130 | `str.length + 1` bytes, beginning with the encoding, every byte after it zero |
| CString.CStr | src/winapi.ts:126-130 | fails with a RangeError exactly when the encoding is longer than `str.length + 1`; otherwise a fresh array holding the terminated bytes |
| CString.AsciiBytes | src/winapi.ts:128 | an ASCII string encodes to one byte per character, equal to the character's code |
| CString.AsciiRoundTrip | src/winapi.ts:126-130 | for ASCII without NUL, `cstr` is the encoding plus one NUL, and reading the C string back gives the string |
| OverlappedIo.Status | src/winapi.ts:269-271 | `Internal` is bytes 0..7 read as an unsigned 64-bit value; re-encoding it gives those bytes |
| OverlappedIo.BytesTransferred | src/winapi.ts:273-275 | `InternalHigh` is bytes 8..15 read as an unsigned 64-bit value; re-encoding it gives those bytes |
| OverlappedIo.ZeroRecordNotPending | src/winapi.ts:260-265 | a fresh zeroed record reads status 0 and transferred count 0, so it is not pending |
| OverlappedIo.WaitFlag | src/winapi.ts:255 | `bWait ? 1 : 0` is 0 or 1, and 1 exactly when waiting |
| OverlappedIo.FirstSettled | src/client.ts:91-94 | the poll that ends the loop settles, and no earlier poll does |
| OverlappedIo.Awaited | src/client.ts:91-94 | the loop succeeds exactly when the ending poll returned 1; then the record is no longer pending and the count is that poll's 4 transferred bytes; otherwise the error is "GetOverlappedResult failed" |
| OverlappedIo.WaitingPolls | src/client.ts:91-94 | `n` GetOverlappedResult calls, each on the record's handle with bWait = 1 |
| OverlappedIo.Overlapped.constructor | src/winapi.ts:259-267 | a fresh 32-byte all-zero record on the given handle |
| OverlappedIo.Overlapped.Internal | src/winapi.ts:269-271 | the record's `Internal` field, below 2^64 |
| OverlappedIo.Overlapped.InternalHigh | src/winapi.ts:273-275 | the record's `InternalHigh` field, below 2^64 |
| OverlappedIo.Overlapped.GetResult | src/winapi.ts:277-292 | one GetOverlappedResult call with the wait flag: the record reads as the operating system left it; the count is returned (below 2^32) only when the call returned exactly 1, and otherwise it fails |
| OverlappedIo.PollWhilePending | src/client.ts:91-94 | polls with wait until the first settling poll and no further; returns `Awaited`, leaves the record as that poll saw it, and makes exactly `FirstSettled + 1` waiting polls |
| SrcWinApi.UnwrapError | src/winapi.ts:374-381 | a nonzero result passes; a zero result passes exactly when the last error is 0 or excluded, and otherwise fails with the code and its formatted message |
| SrcWinApi.ReadFile | src/winapi.ts:225-242 | ReadFile on the buffer with a NULL byte count and the record, where ERROR_IO_PENDING is not an error |
| SrcWinApi.WriteFile | src/winapi.ts:206-223 | WriteFile, shaped as ReadFile, except that the call carries the bytes of the buffer it writes |
| SrcWinApi.IssueOutcome | src/winapi.ts:221 | an overlapped read or write still in flight (997) passes; any other nonzero last error after a zero result fails with its code |
| SrcWinApi.PeekNamedPipe | src/winapi.ts:181-199 | the buffer size is 0 without a buffer and its length truncated to 32 bits with one; all three count cells are 4 bytes; the result goes through UnwrapError |
| SrcWinApi.CloseHandle | src/winapi.ts:201-204 | one CloseHandle on the handle, classified by UnwrapError |
| SrcWinApi.DisconnectNamedPipe | src/winapi.ts:338-341 | one DisconnectNamedPipe on the handle, classified by UnwrapError |
| SrcWinApi.CancelIoEx | src/winapi.ts:343-346 | one CancelIoEx on the handle and that record, classified by UnwrapError |
| WinApi.PeekNamedPipe | winapi.ts:150-166 | each absent buffer or cell becomes NULL; the size is NULL without a buffer and its length truncated to 32 bits with one |
| WinApi.WriteFile | winapi.ts:173-188 | an absent byte-count cell or record becomes NULL; the handle, the bytes of the buffer and the count are passed through |
| WinApi.ReadFile | winapi.ts:190-205 | as WriteFile, for ReadFile |
| WinApi.PeekSizeAgrees | winapi.ts:159-161 | both wrapper revisions give PeekNamedPipe the same buffer pointer and the same size |
| Mod.CellFor | mod.ts:49-51 | a 4-byte zero cell exists exactly when a buffer was given |
| Mod.CellValue | mod.ts:64-70 | a count is present exactly when its cell exists, and it is the cell's 32-bit little-endian value |
| Mod.NamedPipe.constructor | mod.ts:26-28 | an open pipe on the name and handle, with no calls made |
| Mod.NamedPipe.RemoteAddr | mod.ts:34-36 | the pipe's name over the "unix" transport |
| Mod.NamedPipe.LocalAddr | mod.ts:30-32 | the same address as the remote end |
| Mod.NamedPipe.Rid | mod.ts:38-40 | the handle itself |
| Mod.NamedPipe.CloseWrite | mod.ts:42-44 | always throws "Method not implemented." |
| Mod.NamedPipe.Peek | mod.ts:46-73 | closed: throws with no call. Open: one PeekNamedPipe with cells only when there is a buffer; a zero result throws "Failed to Peek Named Pipe: 0"; otherwise returns the decoded counts, where bytes-read and bytes-left are present exactly when a buffer was given |
| Mod.NamedPipe.Write | mod.ts:75-93 | closed: throws with no call. Open: one WriteFile (its BOOL ignored), then exactly the waiting polls up to the first settling one; returns that poll's count or its failure |
| Mod.NamedPipe.Read | mod.ts:95-117 | as Write, with ReadFile; also throws on a closed pipe |
| Mod.NamedPipe.Close | mod.ts:123-128 | closed: throws with no call. Open: one CloseHandle; the pipe becomes closed exactly when it returned 1, and otherwise throws "Failed to close NamedPipe: ret" and stays open |
| SrcClient.CancelSteps | src/client.ts:130-132 | one CancelIoEx per pending record, in the set's order |
| SrcClient.ReleaseSteps | src/client.ts:133-134 | DisconnectNamedPipe only for a server-side connection, then CloseHandle |
| SrcClient.CloseSteps | src/client.ts:128-136 | the cancellations in order, then DisconnectNamedPipe for a server connection, and CloseHandle last |
| SrcClient.FirstFailure | src/client.ts:128-136 | every step before the index passed, and the step at it failed |
| SrcClient.VerdictIsFirstFailure | src/client.ts:128-136 | a run of throwing calls yields the first failure's error, or success when none fails |
| SrcClient.RunStopsAtFirstFailure | src/client.ts:128-136 | a run makes exactly the calls up to and including the first failing one, in order, and no others |
| SrcClient.RunAppend | src/client.ts:128-136 | running two sequences one after the other: the second runs only if the first did not fail |
| SrcClient.RunExtend | src/client.ts:130-132 | after a run that has not failed, one more step adds exactly its call and decides the verdict |
| SrcClient.RunStopsAt | src/client.ts:130-132 | a step that fails decides the whole run; nothing after it is called |
| SrcClient.CancelFailureKeepsHandleOpen | src/client.ts:128-136 | once any cancellation throws, `close` fails, CloseHandle is never called, and every call it made was a cancellation |
| SrcClient.NamedPipe.constructor | src/client.ts:28-34 | an open pipe with an empty pending set and no calls made |
| SrcClient.NamedPipe.RemoteAddr | src/client.ts:40-45 | the pipe's name over the "win32" transport |
| SrcClient.NamedPipe.LocalAddr | src/client.ts:36-38 | the same address as the remote end |
| SrcClient.NamedPipe.Rid | src/client.ts:47-49 | the handle's value |
| SrcClient.NamedPipe.CloseWrite | src/client.ts:51-53 | always throws "Method not implemented." |
| SrcClient.NamedPipe.SetNoDelay | src/client.ts:138-140 | always throws "Unimplemented" |
| SrcClient.NamedPipe.SetKeepAlive | src/client.ts:142-144 | always throws "Unimplemented" |
| SrcClient.NamedPipe.Peek | src/client.ts:55-74 | closed: throws with no call. Open: one PeekNamedPipe; fails exactly when UnwrapError does, with its error; otherwise returns the three decoded 32-bit counts |
| SrcClient.NamedPipe.BeginWrite | src/client.ts:78-89 | closed: throws with no call. Open: one WriteFile on a fresh zeroed record with a fresh buffer; fails exactly when UnwrapError does, leaving the set unchanged; otherwise the record joins the end of the pending set |
| SrcClient.NamedPipe.FinishWrite | src/client.ts:91-98 | returns `Awaited` after exactly the waiting polls; the record leaves the pending set only when polling ends normally, and stays in it after a failed poll |
| SrcClient.NamedPipe.BeginRead | src/client.ts:101-112 | closed: end of stream with no call. Open: as BeginWrite, with ReadFile, on a fresh record with a fresh buffer |
| SrcClient.NamedPipe.FinishRead | src/client.ts:114-121 | succeeds exactly when polling does; returns the settled record's InternalHigh rather than the poll's count; the pending set is as for FinishWrite |
| SrcClient.NamedPipe.CancelPending | src/client.ts:130-132 | cancels the pending records in order and stops at the first cancellation that throws; the result and the calls are those of running CancelSteps |
| SrcClient.NamedPipe.DisconnectAndCloseHandle | src/client.ts:133-134 | the result and the calls are those of running ReleaseSteps |
| SrcClient.NamedPipe.Close | src/client.ts:128-136 | closed: throws with no call. Open: the result and the calls are those of running CloseSteps; the pipe is marked closed exactly when every call passed, and the pending records stay valid |
| Client.Count | client.ts:88 | a settled count is kept, and a failure counts as 0 |
| Client.SentMonotonic | client.ts:177-180 | the total reported written never decreases as the loop goes on |
| Client.Ends | client.ts:177-180 | the write that ends the loop throws or completes the chunk, and no earlier write does |
| Client.ExactWhenBounded | client.ts:177-180 | when no write reports more than what was left, the loop sends exactly the chunk's length |
| Client.ChunkCalls | client.ts:179 | the j-th WriteFile of the loop passes `chunk.subarray(written)`: exactly the bytes of the chunk after the total the earlier writes reported, and their count |
| Client.Subarray | client.ts:179 | `subarray(begin)` is the suffix of the chunk from `begin`, and empty when `begin` is past its end |
| Client.ChunkCallsExtend | client.ts:177-180 | one more turn of the loop appends the WriteFile of the bytes after the total reported so far |
| Client.WriteCall | client.ts:78-84 | WriteFile of the data's bytes, with the data's length, a NULL byte-count pointer and the library's record |
| Client.ReadCall | client.ts:98-104 | ReadFile with the view's byte length, a NULL byte-count pointer and the library's record |
| Client.AbortCalls | client.ts:119-121 | one abort per pending controller, in the set's order |
| Client.CloseEffects | client.ts:117-125 | the aborts in order, DisconnectNamedPipe for a server connection, CloseHandle, then the closed mark |
| Client.Controller.constructor | client.ts:76 | a controller not yet aborted |
| Client.NamedPipe.constructor | client.ts:22-28 | an open pipe with no pending operations and no calls made |
| Client.NamedPipe.RemoteAddr | client.ts:34-39 | the pipe's name over the "win32" transport |
| Client.NamedPipe.LocalAddr | client.ts:30-32 | the same address as the remote end |
| Client.NamedPipe.Rid | client.ts:41-43 | the handle's value |
| Client.NamedPipe.CloseWrite | client.ts:45-47 | always throws "Method not implemented." |
| Client.NamedPipe.SetNoDelay | client.ts:127-129 | always throws "Unimplemented" |
| Client.NamedPipe.SetKeepAlive | client.ts:131-133 | always throws "Unimplemented" |
| Client.NamedPipe.Peek | client.ts:49-69 | closed: throws with no call. Open: one PeekNamedPipe sized by the buffer's length (0 without one); fails exactly when `unwrap` throws; otherwise returns the three decoded counts |
| Client.NamedPipe.BeginWrite | client.ts:73-86 | closed: throws with no call. Open: one WriteFile under a fresh controller that is not aborted; it joins the pending set only if `unwrap` did not throw |
| Client.NamedPipe.BeginRead | client.ts:93-106 | closed: end of stream with no call. Open: as BeginWrite, with ReadFile |
| Client.NamedPipe.Settle | client.ts:88-90 | the settled count, 0 for a failure, and the controller leaves the pending set either way |
| Client.NamedPipe.Write | client.ts:73-91 | an uninterrupted write throws exactly when the pipe is closed or `unwrap` throws, and otherwise returns the settled count; the pending set is as before |
| Client.NamedPipe.Close | client.ts:117-125 | closed: throws with no effect. Open: aborts every pending controller in order, then disconnects a server connection, closes the handle and marks the pipe closed, with the call results ignored |
| Client.NamedPipe.TryClose | client.ts:135-141 | the pipe is closed afterwards; on a pipe already closed it has no effect at all |
| Client.NamedPipe.Pull | client.ts:148-163 | a closed pipe closes the stream and responds 0; a read whose issue throws errors the stream and closes the pipe; any other read responds with its count, 0 for a failure |
| Client.NamedPipe.SendChunk | client.ts:177-180 | each write passes the bytes of the chunk after the total reported so far; the loop stops at the write that completes the chunk or the first that throws, whose error it returns along with the total reported |
| Client.NamedPipe.WriteChunk | client.ts:175-185 | an empty chunk does nothing; a closed pipe errors the stream with "already closed"; otherwise the chunk is sent, and a throwing write errors the stream and closes the pipe |

## Left out

- Loading Kernel32 through `Deno.dlopen`, and the foreign-call marshalling itself. Every call is an oracle whose reply is a parameter.
- GetLastError and FormatMessage. The last-error code and its text are parts of the reply, because they belong to the operating system.
- The connect functions, `CreateFileA`/`CreateNamedPipeA` argument marshalling and ConnectNamedPipe. Only the INVALID_HANDLE_VALUE check of a returned handle is modelled, in `Kernel.CheckedHandle`.
- The helper library used by `client.ts` (`unwrap`, `OverlappedPromise`, the Foundation/Pipes/Storage wrappers) is not part of this model. What `unwrap` makes of a call is an `Outcome` parameter, and what an operation settles to is a `Result` parameter. This also covers the constructor's `unwrap(Number(handle))`.
- Client.NamedPipe.constructor: does not model the handle check of `unwrap(Number(handle))`, because that function is not part of this model.
- The JavaScript event loop, promises, AbortSignal listeners and ReadableStream/WritableStream machinery. The suspension of a single read or write is a split between two methods. Stream events are returned as a list and are kept apart from the operating-system trace, so their interleaving with the calls is not captured.
- Client.NamedPipe.SendChunk: the awaits inside one chunk run without interruption, so a close between the writes of one chunk (from the stream's `abort`, `close` or `cancel`, client.ts:164-166, 186-191) is not modelled; `SendChunk` requires an open pipe. In the source the aborted write settles to 0, and the next turn's `write` throws "NamedPipe is already closed", which errors the stream. Client.NamedPipe.Pull and Client.NamedPipe.WriteChunk are each one method for the same reason: a close between a pull's issue and its settling is not modelled either.
- The stream `cancel`, `close` and `abort` callbacks (client.ts:164-166, 186-191). Each one only calls `#tryClose`, which is `Client.NamedPipe.TryClose`.
- Loop termination. The polling loop and the writable's write loop end only if the operating system eventually settles, or the chunk is eventually drained. These facts are preconditions (`EventuallySettles`, `Drains`); a non-terminating run is outside the model.
- SrcClient.NamedPipe.Rid: does not model the precision loss of `Number(handle.value)` above 2^53, because handles are modelled as unbounded integers.
- Client.NamedPipe.Rid: does not model the precision loss of `Number(handle)` above 2^53, for the same reason.
- SrcClient.NamedPipe.FinishRead: `Number(internalHigh)` is returned as the exact 64-bit value, without the precision loss above 2^53.
- The bytes PeekNamedPipe copies into the caller's buffer. Only the three counts are modelled.
- `cstr` of non-ASCII strings. The runtime's UTF-8 encoder is not part of this model, so its output is a parameter of `CString.CStr`.
- Pinning of the OVERLAPPED buffer while the kernel writes it, and memory safety of the pointers.
- The `Deno.customInspect` printers and the unused flag constants of both wrapper files.
- `checkSupported` inside each wrapper is modelled once, as `Kernel.CheckSupported`, and at handle creation. The pipe methods assume the library is loaded, since a pipe exists only after a handle was created.
- Client.NamedPipe.Pull: responding 0 to a BYOB request on a stream that is still readable makes the Web Streams runtime throw a TypeError. client.ts's `catch` would then error the stream and close the pipe. The model follows the code as written: it responds 0 and leaves the pipe open, because the stream runtime is not part of this model.
- Kernel.CheckedHandle: handles are modelled as signed integers, so INVALID_HANDLE_VALUE arrives as -1. If the runtime hands pointer values over as unsigned 64-bit numbers, the source's `handle.value === BigInt(-1)` comparison never holds, and the model does not capture that.
- SrcClient.NamedPipe.FinishWrite: a failed poll leaves its record in the pending set, as src/client.ts:91-96 does, so every later `close` cancels it again. What the operating system answers then (CancelIoEx fails with ERROR_NOT_FOUND when nothing is left to cancel) is a reply parameter. When that reply is a failure, `SrcClient.CancelFailureKeepsHandleOpen` shows that `close` throws before CloseHandle every time, so the handle can never be released.

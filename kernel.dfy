/** The Kernel32 surface as the binding sees it: the few status values it compares
    against, pointer arguments, and the calls it makes, recorded as effects so that
    their order can be stated. Every call itself is an oracle: its return value and
    last-error code are parameters of the operations that issue it. */
module Kernel {
  import opened Errors
  import opened Layout

  /** CreateFileA / CreateNamedPipeA return this handle value on failure. */
  const INVALID_HANDLE_VALUE: int := -1
  /** The `Internal` field of an OVERLAPPED record holds this while the I/O is in flight. */
  const STATUS_PENDING: nat := 259
  /** The last error of an overlapped ReadFile / WriteFile that is still in flight. */
  const ERROR_IO_PENDING: nat := 997
  /** The null pointer, passed for an absent pointer argument. */
  const NULL: int := 0

  const TWO_TO_THE_32: nat := 0x1_0000_0000

  /** A pointer argument: NULL, a JavaScript-owned byte buffer of the given length
      (whose contents the call writes), a JavaScript-owned buffer whose contents the
      call reads, or a buffer owned by a helper library whose size is not visible
      here. */
  datatype Ptr = Null | Buffer(byteLength: nat) | Bytes(contents: seq<byte>) | Opaque

  /** One step the binding takes against the operating system, in the order taken. */
  datatype Effect =
    | ReadFileCall(handle: int, buffer: Ptr, toRead: int, bytesRead: Ptr, overlapped: Ptr)
    | WriteFileCall(handle: int, buffer: Ptr, toWrite: int, bytesWritten: Ptr, overlapped: Ptr)
    | PeekCall(handle: int, buffer: Ptr, bufferSize: int, bytesRead: Ptr, totalAvail: Ptr, bytesLeft: Ptr)
    | PollCall(handle: int, wait: int)                 // GetOverlappedResult
    | CancelCall(handle: int, record: array<byte>)      // CancelIoEx on one record
    | AbortCall(controller: object)                    // AbortController.abort
    | DisconnectCall(handle: int)                      // DisconnectNamedPipe
    | CloseHandleCall(handle: int)
    | MarkClosed                                       // the pipe's closed flag is set

  /** A Kernel32 call together with what the binding makes of its result. */
  datatype Syscall = Syscall(call: Effect, outcome: Outcome)

  /** The address a pipe reports for both of its ends. */
  datatype Addr = Addr(transport: string, path: string)

  /** JavaScript's `x >>> 0`: the integer taken modulo 2^32. */
  function ToUint32(x: int): (r: nat)
    ensures r < TWO_TO_THE_32
    ensures (x - r) % TWO_TO_THE_32 == 0
    ensures 0 <= x < TWO_TO_THE_32 ==> r == x
  {
    x % TWO_TO_THE_32
  }

  /** `b ?? NULL`: an absent buffer becomes the null pointer. */
  function OrNull(b: Option<seq<byte>>): (p: Ptr)
    ensures p == Null <==> b.None?
    ensures b.Some? ==> p == Buffer(|b.value|)
  {
    match b
    case None => Null
    case Some(bytes) => Buffer(|bytes|)
  }

  /** The library is loaded, and every wrapper usable, only on Windows. */
  function CheckSupported(os: string): (o: Outcome)
    ensures o == Pass <==> os == "windows"
    ensures o.Fail? ==> o.error == Unsupported
  {
    if os == "windows" then Pass else Fail(Unsupported)
  }

  /** CreateFileA and CreateNamedPipeA: after the support check, a returned handle
      equal to INVALID_HANDLE_VALUE is an error and any other is returned as is. */
  function CheckedHandle(os: string, call: string, returned: int): (r: Result<int>)
    ensures os != "windows" ==> r == Err(Unsupported)
    ensures os == "windows" ==> (r.Err? <==> returned == INVALID_HANDLE_VALUE)
    ensures r.Err? && os == "windows" ==> r.error == InvalidHandle(call)
    ensures r.Ok? ==> r.value == returned && r.value != INVALID_HANDLE_VALUE
  {
    if CheckSupported(os).Fail? then Err(Unsupported)
    else if returned == INVALID_HANDLE_VALUE then Err(InvalidHandle(call))
    else Ok(returned)
  }

  /** No element occurs twice: a JavaScript Set kept in insertion order. */
  ghost predicate Distinct<T>(s: seq<T>) {
    forall i, j :: 0 <= i < j < |s| ==> s[i] != s[j]
  }

  /** `Set.delete`: `s` without `x`, the order of the rest kept. */
  function Without<T(==)>(s: seq<T>, x: T): (r: seq<T>)
    ensures forall i :: 0 <= i < |r| ==> r[i] in s && r[i] != x
    ensures forall i :: 0 <= i < |s| && s[i] != x ==> s[i] in r
    ensures x !in s ==> r == s
    ensures Distinct(s) ==> Distinct(r) && |r| == if x in s then |s| - 1 else |s|
  {
    if s == [] then []
    else if s[0] == x then Without(s[1..], x)
    else [s[0]] + Without(s[1..], x)
  }

  /** The tail of a distinct sequence is distinct and does not hold its head. */
  lemma DistinctTail<T>(s: seq<T>)
    requires Distinct(s) && s != []
    ensures Distinct(s[1..]) && s[0] !in s[1..]
  {
    forall i | 0 <= i < |s[1..]|
      ensures s[1..][i] != s[0]
    {
      assert s[1..][i] == s[i + 1];
    }
  }

  /** Deleting the element at index `k` of a set keeps every other element in its
      insertion order. */
  lemma {:induction false} WithoutAt<T>(s: seq<T>, k: int)
    requires Distinct(s) && 0 <= k < |s|
    ensures Without(s, s[k]) == s[..k] + s[k + 1..]
  {
    DistinctTail(s);
    SkipAt(s, k);
    if k > 0 {
      WithoutAt(s[1..], k - 1);
    }
  }

  /** Skipping index `k` of `s`, told through its head and tail. */
  lemma SkipAt<T>(s: seq<T>, k: int)
    requires 0 <= k < |s|
    ensures k == 0 ==> s[..k] + s[k + 1..] == s[1..]
    ensures k > 0 ==> s[1..][k - 1] == s[k] && s[..k] + s[k + 1..] == [s[0]] + (s[1..][..k - 1] + s[1..][k..])
  {
  }

  /** Adding a fresh element and deleting it again leaves the set as it was. */
  lemma AddThenDelete<T>(s: seq<T>, x: T)
    requires x !in s
    ensures Without(s + [x], x) == s
  {
    if s != [] {
      assert (s + [x])[1..] == s[1..] + [x];
      AddThenDelete(s[1..], x);
    } else {
      assert Without([x], x) == Without([], x);
    }
  }
}

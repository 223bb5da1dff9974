/** Errors raised by the named-pipe binding, kept as a tagged enumeration so that
    misuse (a closed pipe) and operating-system failures can be told apart, together
    with the message text each one carries. */
module Errors {

  datatype Option<T> = None | Some(value: T)

  datatype Error =
    | AlreadyClosed               // a closed pipe was used
    | MethodNotImplemented        // closeWrite
    | Unimplemented               // setNoDelay, setKeepAlive
    | Os(code: nat, text: string) // UnwrapError: last-error code and its formatted message
    | OverlappedFailed            // GetOverlappedResult did not return 1
    | InvalidHandle(call: string) // a handle-creating call returned INVALID_HANDLE_VALUE
    | Unsupported                 // the Kernel32 library is not loaded
    | PeekFailed(ret: int)        // earliest revision: PeekNamedPipe returned 0
    | CloseFailed(ret: int)       // earliest revision: CloseHandle did not return 1
    | RangeError                  // cstr: the encoded bytes do not fit the buffer

  datatype Result<T> = Ok(value: T) | Err(error: Error)

  datatype Outcome = Pass | Fail(error: Error)

  predicate IsDigit(c: char) {
    '0' <= c <= '9'
  }

  predicate AllDigits(s: string) {
    forall i :: 0 <= i < |s| ==> IsDigit(s[i])
  }

  /** The decimal digits of `n`, as JavaScript's template literals print a number. */
  function Decimal(n: nat): (s: string)
    ensures |s| >= 1 && AllDigits(s)
  {
    var d := ['0' + (n % 10) as char];
    if n < 10 then d else Decimal(n / 10) + d
  }

  /** A possibly negative integer in decimal, with a leading '-'. */
  function SignedDecimal(i: int): (s: string)
    ensures |s| >= 1
    ensures (s[0] == '-') <==> i < 0
  {
    if i < 0 then "-" + Decimal(-i) else Decimal(i)
  }

  /** The value of a string of decimal digits. */
  function DigitsValue(s: string): nat
    requires AllDigits(s)
  {
    if s == [] then 0
    else 10 * DigitsValue(s[..|s| - 1]) + (s[|s| - 1] - '0') as nat
  }

  lemma {:induction false} DecimalRoundTrip(n: nat)
    ensures DigitsValue(Decimal(n)) == n
  {
    var s := Decimal(n);
    if n >= 10 {
      DecimalRoundTrip(n / 10);
      assert s[..|s| - 1] == Decimal(n / 10);
    }
  }

  /** The longest prefix of `s` made of digits. */
  function DigitRun(s: string): (d: string)
    ensures |d| <= |s| && d == s[..|d|] && AllDigits(d)
    ensures |d| < |s| ==> !IsDigit(s[|d|])
  {
    if s == [] || !IsDigit(s[0]) then [] else [s[0]] + DigitRun(s[1..])
  }

  lemma {:induction false} DigitRunOf(d: string, rest: string)
    requires AllDigits(d)
    requires rest == [] || !IsDigit(rest[0])
    ensures DigitRun(d + rest) == d
  {
    if d != [] {
      assert (d + rest)[1..] == d[1..] + rest;
      DigitRunOf(d[1..], rest);
    }
  }

  /** Reads back the code from a message of the form "(<digits>) ...". */
  function CodeOf(m: string): Option<nat> {
    if |m| == 0 || m[0] != '(' then None
    else
      var d := DigitRun(m[1..]);
      if |d| == 0 || |m| <= |d| + 1 || m[|d| + 1] != ')' then None
      else Some(DigitsValue(d))
  }

  /** The text of the error the program throws. */
  function Message(e: Error): (m: string)
    ensures |m| > 0
    ensures e.Os? ==> CodeOf(m) == Some(e.code)
  {
    match e
    case AlreadyClosed => "NamedPipe is already closed"
    case MethodNotImplemented => "Method not implemented."
    case Unimplemented => "Unimplemented"
    case Os(code, text) => OsMessage(code, text)
    case OverlappedFailed => "GetOverlappedResult failed"
    case InvalidHandle(call) => call + " failed"
    case Unsupported => "deno_namedpipe only works on Windows."
    case PeekFailed(ret) => "Failed to Peek Named Pipe: " + SignedDecimal(ret)
    case CloseFailed(ret) => "Failed to close NamedPipe: " + SignedDecimal(ret)
    case RangeError => "offset is out of bounds"
  }

  /** "(code) text": the message starts with the code in parentheses, and the code
      can be read back from it. */
  function OsMessage(code: nat, text: string): (m: string)
    ensures |m| > |Decimal(code)| + 1
    ensures m[0] == '(' && m[1..|Decimal(code)| + 1] == Decimal(code)
    ensures CodeOf(m) == Some(code)
  {
    var d := Decimal(code);
    var m := "(" + d + ") " + text;
    assert m[1..] == d + (") " + text);
    DigitRunOf(d, ") " + text);
    DecimalRoundTrip(code);
    m
  }
}

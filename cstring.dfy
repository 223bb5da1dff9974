/** `cstr`: a string as a NUL-terminated byte buffer for the A-suffixed Kernel32
    calls. The string encoder belongs to the runtime, so the bytes it produces are a
    parameter; for ASCII input they are the characters' codes. */
module CString {
  import opened Errors
  import opened Layout

  /** What `cstr` yields for a string of length `n` whose encoding is `encoded`:
      `n + 1` bytes, the encoding first and zeros after it. */
  function Terminated(n: nat, encoded: seq<byte>): (s: seq<byte>)
    requires |encoded| <= n + 1
    ensures |s| == n + 1 && s[..|encoded|] == encoded
    ensures forall i :: |encoded| <= i < n + 1 ==> s[i] == 0
  {
    encoded + Zeros(n + 1 - |encoded|)
  }

  /** Allocates `str.length + 1` zero bytes and copies the encoding over the front;
      an encoding longer than that makes the copy throw a RangeError. */
  method CStr(str: string, encoded: seq<byte>) returns (r: Result<array<byte>>)
    ensures r.Err? <==> |encoded| > |str| + 1
    ensures r.Err? ==> r.error == RangeError
    ensures r.Ok? ==> fresh(r.value) && r.value[..] == Terminated(|str|, encoded)
  {
    var res := new byte[|str| + 1](_ => 0);
    if |encoded| > res.Length {
      return Err(RangeError);
    }
    var i := 0;
    while i < |encoded|
      invariant 0 <= i <= |encoded|
      invariant res[..i] == encoded[..i]
      invariant forall j :: i <= j < res.Length ==> res[j] == 0
    {
      res[i] := encoded[i];
      i := i + 1;
    }
    assert res[..|encoded|] == encoded;
    return Ok(res);
  }

  predicate IsAscii(str: string) {
    forall i :: 0 <= i < |str| ==> str[i] < 128 as char
  }

  /** The encoding of an ASCII string: one byte per character, its code. */
  function AsciiBytes(str: string): (b: seq<byte>)
    requires IsAscii(str)
    ensures |b| == |str|
    ensures forall i :: 0 <= i < |str| ==> b[i] as int == str[i] as int
  {
    if str == [] then [] else [str[0] as int as byte] + AsciiBytes(str[1..])
  }

  /** Reads a C string back: the characters before the first NUL byte. */
  function ReadCString(b: seq<byte>): (s: string)
    ensures |s| <= |b|
  {
    if b == [] || b[0] == 0 then [] else [b[0] as int as char] + ReadCString(b[1..])
  }

  /** For an ASCII string without NUL characters, `cstr` is NUL-terminated and
      reading the C string back gives the string. */
  lemma {:induction false} AsciiRoundTrip(str: string)
    requires IsAscii(str)
    requires forall i :: 0 <= i < |str| ==> str[i] != 0 as char
    ensures Terminated(|str|, AsciiBytes(str)) == AsciiBytes(str) + [0]
    ensures ReadCString(Terminated(|str|, AsciiBytes(str))) == str
  {
    var b := AsciiBytes(str) + [0];
    assert Zeros(1) == [0];
    if str != [] {
      assert b[1..] == AsciiBytes(str[1..]) + [0];
      AsciiRoundTrip(str[1..]);
      assert b[0] != 0 by {
        assert b[0] as int == str[0] as int;
      }
    }
  }
}

/** Little-endian unsigned integers in byte buffers, as a BigUint64Array or
    Uint32Array view reads them on a Windows (x86-64) target. */
module Layout {

  /** One element of a Uint8Array. */
  newtype byte = x: int | 0 <= x < 256

  function Pow256(n: nat): (p: nat)
    ensures p >= 1
  {
    if n == 0 then 1 else 256 * Pow256(n - 1)
  }

  /** The unsigned value of `s`, least significant byte first. */
  function DecodeLE(s: seq<byte>): (v: nat)
    ensures v < Pow256(|s|)
  {
    if s == [] then 0
    else
      var rest := DecodeLE(s[1..]);
      assert rest <= Pow256(|s| - 1) - 1;
      assert 256 * rest <= 256 * Pow256(|s| - 1) - 256;
      s[0] as nat + 256 * rest
  }

  /** The `n` bytes of `v`, least significant first. */
  function EncodeLE(v: nat, n: nat): (s: seq<byte>)
    requires v < Pow256(n)
    ensures |s| == n
  {
    if n == 0 then []
    else [(v % 256) as byte] + EncodeLE(v / 256, n - 1)
  }

  /** Splitting a value into its low byte and the rest. */
  lemma ByteSplit(lo: nat, hi: nat)
    requires lo < 256
    ensures (lo + 256 * hi) % 256 == lo && (lo + 256 * hi) / 256 == hi
  {
  }

  /** Dropping the low byte of an `n`-byte value leaves an `n - 1`-byte value. */
  lemma HighBytesBound(v: nat, n: nat)
    requires 0 < n && v < Pow256(n)
    ensures v / 256 < Pow256(n - 1)
  {
    assert v == v % 256 + 256 * (v / 256);
  }

  lemma {:induction false} DecodeEncode(v: nat, n: nat)
    requires v < Pow256(n)
    ensures DecodeLE(EncodeLE(v, n)) == v
  {
    if n > 0 {
      HighBytesBound(v, n);
      var tail := EncodeLE(v / 256, n - 1);
      var s := [(v % 256) as byte] + tail;
      assert EncodeLE(v, n) == s;
      assert s[1..] == tail;
      DecodeEncode(v / 256, n - 1);
      assert DecodeLE(s) == s[0] as nat + 256 * DecodeLE(tail);
    }
  }

  lemma {:induction false} EncodeDecode(s: seq<byte>)
    ensures EncodeLE(DecodeLE(s), |s|) == s
  {
    if s != [] {
      var v := DecodeLE(s);
      var rest := DecodeLE(s[1..]);
      assert v == s[0] as nat + 256 * rest;
      ByteSplit(s[0] as nat, rest);
      EncodeDecode(s[1..]);
      assert EncodeLE(v, |s|) == [(v % 256) as byte] + EncodeLE(rest, |s| - 1);
    }
  }

  function Zeros(n: nat): (s: seq<byte>)
    ensures |s| == n && forall i :: 0 <= i < n ==> s[i] == 0
  {
    seq(n, _ => 0)
  }

  lemma {:induction false} DecodeZeros(n: nat)
    ensures DecodeLE(Zeros(n)) == 0
  {
    if n > 0 {
      assert Zeros(n)[1..] == Zeros(n - 1);
      DecodeZeros(n - 1);
    }
  }
}

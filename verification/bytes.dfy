/**
 * Fixed-width integers and their little-endian byte encoding.
 *
 * hc.c copies `uint32_t`/`uint64_t` values into the fingerprint with
 * `memcpy`, which writes host byte order; this model fixes little-endian.
 */
module Bytes {

  /** An `unsigned char`. */
  type byte = n: nat | n < 256

  type u32 = n: nat | n < 0x1_0000_0000
  type u64 = n: nat | n < 0x1_0000_0000_0000_0000
  /** `time_t` on a 64-bit Linux host. */
  type i64 = n: int | -0x8000_0000_0000_0000 <= n < 0x8000_0000_0000_0000

  /** `n` zero bytes, the state of a `= { 0 }` initialised buffer. */
  function Zeros(n: nat): (r: seq<byte>)
    ensures |r| == n
    ensures forall i :: 0 <= i < n ==> r[i] == 0
  {
    seq(n, _ => 0)
  }

  /** 256 to the power `w`: one more than the largest value `w` bytes hold. */
  function Pow256(w: nat): (r: nat)
    ensures r >= 1
  {
    if w == 0 then 1 else 256 * Pow256(w - 1)
  }

  lemma Pow256Widths()
    ensures Pow256(4) == 0x1_0000_0000
    ensures Pow256(8) == 0x1_0000_0000_0000_0000
  {
  }

  /**
   * The C conversion of a signed 64-bit value to `uint64_t`: the value
   * modulo 2^64, so a negative `time_t` wraps around.
   */
  function ToU64(n: i64): (r: u64)
    ensures n >= 0 ==> r == n
    ensures n < 0 ==> r == n + 0x1_0000_0000_0000_0000
  {
    n % 0x1_0000_0000_0000_0000
  }

  /** The `w` bytes that `memcpy` of a `w`-byte unsigned `n` writes on a little-endian host. */
  function LE(n: nat, w: nat): (r: seq<byte>)
    requires n < Pow256(w)
    ensures |r| == w
  {
    if w == 0 then [] else [n % 256] + LE(n / 256, w - 1)
  }

  /** The unsigned value whose little-endian bytes are `s`. */
  function FromLE(s: seq<byte>): (r: nat)
    ensures r < Pow256(|s|)
  {
    if |s| == 0 then 0
    else
      var rest := FromLE(s[1..]);
      assert rest + 1 <= Pow256(|s| - 1);
      assert 256 * (rest + 1) <= 256 * Pow256(|s| - 1);
      s[0] + 256 * rest
  }

  /** Decoding what was encoded gives the value back. */
  lemma {:induction false} FromLEOfLE(n: nat, w: nat)
    requires n < Pow256(w)
    ensures FromLE(LE(n, w)) == n
  {
    if w > 0 {
      var q := n / 256;
      assert n == 256 * q + n % 256;
      assert q < Pow256(w - 1);
      var s := LE(n, w);
      assert s[1..] == LE(q, w - 1);
      FromLEOfLE(q, w - 1);
    }
  }

  /** Encoding what was decoded gives the bytes back. */
  lemma {:induction false} LEOfFromLE(s: seq<byte>)
    ensures LE(FromLE(s), |s|) == s
  {
    if |s| > 0 {
      var n := FromLE(s);
      LEOfFromLE(s[1..]);
      assert n % 256 == s[0];
      assert n / 256 == FromLE(s[1..]);
      assert LE(n, |s|) == [s[0]] + LE(FromLE(s[1..]), |s| - 1);
    }
  }

  /** Equal widths: the encodings agree exactly when the values do. */
  lemma LEInjective(m: nat, n: nat, w: nat)
    requires m < Pow256(w) && n < Pow256(w)
    ensures LE(m, w) == LE(n, w) <==> m == n
  {
    FromLEOfLE(m, w);
    FromLEOfLE(n, w);
  }
}

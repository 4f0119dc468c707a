/**
 * The interface of the hash-cache engine (hc.h): the request bits a
 * caller passes in, the facts the engine reports back, and the process
 * error codes.
 */
module HcFlags {
  import opened Wrappers

  /** Request bits. `NoUpdate` and `NoCompute` are negative-sense. */
  const NoUpdateBit: bv32 := 1
  const NoComputeBit: bv32 := 2
  const RecomputeBit: bv32 := 4
  const DeleteBit: bv32 := 8
  /** All bits the engine looks at. */
  const RequestMask: bv32 := 15

  /** Return bits that hc.h defines. */
  const RetNoAttrBit: nat := 1
  const RetStaleBit: nat := 2

  /** What a caller asks the engine to do, after decoding the request bits. */
  datatype Request = Request(recompute: bool, compute: bool, update: bool, delete: bool)

  /** The decoding at the start of `hashcache`. */
  function DecodeRequest(flags: bv32): (r: Request)
    ensures flags == 0 ==> r == Request(false, true, true, false)
    ensures flags & RequestMask == RequestMask ==> r == Request(true, false, false, true)
  {
    Request(flags & RecomputeBit != 0, flags & NoComputeBit == 0,
            flags & NoUpdateBit == 0, flags & DeleteBit != 0)
  }

  /** A bit set, within the four request bits, asking for `r`. */
  function EncodeRequest(r: Request): (flags: bv32)
    ensures flags & RequestMask == flags
    ensures DecodeRequest(flags) == r
  {
    (if r.update then 0 else NoUpdateBit)
      | (if r.compute then 0 else NoComputeBit)
      | (if r.recompute then RecomputeBit else 0)
      | (if r.delete then DeleteBit else 0)
  }

  /**
   * The request bits are distinct single bits, so two bit sets ask for the
   * same thing exactly when they agree on those four bits.
   */
  lemma DecodeDeterminedByRequestBits(f: bv32, g: bv32)
    ensures DecodeRequest(f) == DecodeRequest(g) <==> f & RequestMask == g & RequestMask
  {
  }

  /**
   * The facts `hashcache` reports on success. hc.c sets them as bits, but
   * two of the bit macros it uses are not defined in hc.h, so the model
   * keeps them as named booleans.
   */
  datatype RetFlags = RetFlags(noattr: bool, nocomp: bool, stale: bool, mismatch: bool) {
    /** The combinations the engine can produce: a current record exists, a mismatch was computed against a record. */
    predicate Consistent() {
      && (stale || !noattr)
      && (mismatch ==> !nocomp && !noattr)
    }
  }

  /** The process error codes (`enum err_ret`). */
  datatype ErrRet = Success | Mismatch | Usage | System | NoFile

  /** The enumerator's value. */
  function Code(e: ErrRet): (n: nat)
    ensures n <= 4
    ensures n == 0 <==> e == Success
    ensures FromCode(n) == Some(e)
  {
    match e
    case Success => 0
    case Mismatch => 1
    case Usage => 2
    case System => 3
    case NoFile => 4
  }

  /** The enumerator with value `n`, if any. */
  function FromCode(n: int): (r: Option<ErrRet>)
    ensures r.Some? <==> 0 <= n <= 4
  {
    if n == 0 then Some(Success)
    else if n == 1 then Some(Mismatch)
    else if n == 2 then Some(Usage)
    else if n == 3 then Some(System)
    else if n == 4 then Some(NoFile)
    else None
  }

  /** Distinct enumerators have distinct values. */
  lemma CodeInjective(a: ErrRet, b: ErrRet)
    ensures Code(a) == Code(b) <==> a == b
  {
  }

  /** An `int` return value converted to `unsigned int` (two's complement). */
  function ReturnBits(ret: int): (u: nat)
    requires -0x8000_0000 <= ret < 0x8000_0000
    ensures u < 0x1_0000_0000
    ensures ret >= 0 ==> u == ret
    ensures ret < 0 ==> u == ret + 0x1_0000_0000
  {
    ret % 0x1_0000_0000
  }

  /** Whether `ret & bit` is non-zero, for a single-bit mask `bit`. */
  predicate HasBit(u: nat, bit: nat)
    requires bit == 1 || bit == 2
  {
    (u / bit) % 2 == 1
  }

  /** The results of one step that can fail with an error code. */
  datatype Result<T> = Ok(value: T) | Err(code: ErrRet)
}

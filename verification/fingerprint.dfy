/**
 * The 64-byte cache record (hc.c:69-74, 97, 120): a 32-byte metadata
 * stamp followed by a 32-byte SHA-256 digest.
 *
 *   bytes  0..3   the format tag "HC01"
 *   bytes  4..7   generation counter (0 when the filesystem has none)
 *   bytes  8..15  inode number
 *   bytes 16..23  modification time, seconds
 *   bytes 24..31  size
 *   bytes 32..63  digest
 *
 * Integers are little-endian.
 */
module Fingerprint {
  import opened Wrappers
  import opened Bytes

  /** A SHA-256 digest. */
  type Digest = s: seq<byte> | |s| == 32 witness Zeros(32)

  /** A whole cache record, as stored in the attribute. */
  type Block = s: seq<byte> | |s| == 64 witness Zeros(64)

  /** The file facts the stamp records. */
  datatype Identity = Identity(generation: u32, inode: u64, mtime: u64, size: u64)

  /** "HC01" in ASCII. */
  const Tag: seq<byte> := [0x48, 0x43, 0x30, 0x31]

  /** Reads the identity back out of a stamp, or None when `s` is not a stamp of this format. */
  function ParseStamp(s: seq<byte>): (r: Option<Identity>)
    ensures r.Some? <==> |s| == 32 && s[..4] == Tag
  {
    if |s| == 32 && s[..4] == Tag then
      Pow256Widths();
      Some(Identity(FromLE(s[4..8]), FromLE(s[8..16]), FromLE(s[16..24]), FromLE(s[24..32])))
    else
      None
  }

  /** The first 32 bytes of the record for `id`. */
  function Stamp(id: Identity): (r: seq<byte>)
    ensures |r| == 32
    ensures r[..4] == Tag
    ensures ParseStamp(r) == Some(id)
  {
    Pow256Widths();
    var r := Tag + LE(id.generation, 4) + LE(id.inode, 8) + LE(id.mtime, 8) + LE(id.size, 8);
    assert r[4..8] == LE(id.generation, 4);
    assert r[8..16] == LE(id.inode, 8);
    assert r[16..24] == LE(id.mtime, 8);
    assert r[24..32] == LE(id.size, 8);
    FromLEOfLE(id.generation, 4);
    FromLEOfLE(id.inode, 8);
    FromLEOfLE(id.mtime, 8);
    FromLEOfLE(id.size, 8);
    r
  }

  /** Every byte sequence that parses is the stamp of what it parses to. */
  lemma {:induction false} StampOfParse(s: seq<byte>)
    requires ParseStamp(s).Some?
    ensures Stamp(ParseStamp(s).value) == s
  {
    Pow256Widths();
    var id := ParseStamp(s).value;
    LEOfFromLE(s[4..8]);
    LEOfFromLE(s[8..16]);
    LEOfFromLE(s[16..24]);
    LEOfFromLE(s[24..32]);
    assert s == s[..4] + s[4..8] + s[8..16] + s[16..24] + s[24..32];
  }

  /** A 32-byte prefix equals the stamp of `id` exactly when it parses to `id`. */
  lemma StampMatchesIffParses(s: seq<byte>, id: Identity)
    ensures s == Stamp(id) <==> ParseStamp(s) == Some(id)
  {
    if ParseStamp(s) == Some(id) {
      StampOfParse(s);
    }
  }

  /**
   * Comparing stamps compares every field: two stamps are equal exactly
   * when generation, inode, mtime and size all are.
   */
  lemma StampEqualIffFieldsEqual(a: Identity, b: Identity)
    ensures Stamp(a) == Stamp(b) <==>
      a.generation == b.generation && a.inode == b.inode && a.mtime == b.mtime && a.size == b.size
  {
  }

  /** The record written for `id` and digest `d`. */
  function Record(id: Identity, d: Digest): (r: Block)
    ensures r[..32] == Stamp(id)
    ensures r[32..] == d
  {
    Stamp(id) + d
  }

  /** A record is determined by, and determines, its identity and digest. */
  lemma RecordInjective(a: Identity, d: Digest, b: Identity, e: Digest)
    ensures Record(a, d) == Record(b, e) <==> a == b && d == e
  {
  }
}

/**
 * The engine on typical situations: a current record whose
 * digest disagrees, a stale record over unchanged content, a stale record
 * without computation, an empty file, and a file's life from first run to
 * modification.
 */
module Scenarios {
  import opened Wrappers
  import opened Bytes
  import opened HcFlags
  import opened Fingerprint
  import opened Engine
  import opened Driver

  /** The identity the engine derives for metadata `m` and generation `g`. */
  function IdOf(m: Meta, g: u32): (id: Identity)
    requires m.regular
    ensures ReadIdentity(Stat(m), Gen(g)) == Ok(id)
  {
    Identity(g, m.inode, ToU64(m.mtime), m.size)
  }

  /** A regular file with readable metadata and generation. */
  function File(m: Meta, g: u32, content: seq<byte>, attr: Option<Block>): FileState
  {
    FileState(Stat(m), Gen(g), content, attr)
  }

  /** Current metadata, wrong digest, recomputation asked: the anomaly `!`. */
  lemma CurrentRecordWithWrongDigestIsFlagged(flags: bv32, m: Meta, g: u32, content: seq<byte>, d: Digest,
                                              hash: seq<byte> -> Digest)
    requires m.regular && DecodeRequest(flags).recompute
    requires d != Fresh(hash, m.size, content)
    ensures
      var r := HashCache(flags, File(m, g, content, Some(Record(IdOf(m, g), d))), NoFaults, hash);
      && r.ret.Done? && r.ret.flags.mismatch && StatusOf(r.ret.flags) == '!'
      && (DecodeRequest(flags).update ==> r.written == Some(Record(IdOf(m, g), Fresh(hash, m.size, content))))
  {
  }

  /**
   * A stale record (other metadata) whose digest still matches the content,
   * under the default request: refreshed (`r`) with the new stamp and the
   * same digest, and no mismatch.
   */
  lemma StaleRecordWithSameContentIsRefreshed(m: Meta, g: u32, prior: Identity, content: seq<byte>,
                                              hash: seq<byte> -> Digest)
    requires m.regular && prior != IdOf(m, g)
    ensures
      var f := File(m, g, content, Some(Record(prior, Fresh(hash, m.size, content))));
      var r := HashCache(RequestBits(DefaultOptions), f, NoFaults, hash);
      && r.ret.Done? && !r.ret.flags.mismatch && StatusOf(r.ret.flags) == 'r'
      && After(f.attr, r) == Some(Record(IdOf(m, g), Fresh(hash, m.size, content)))
  {
  }

  /** Update asked, nothing computed, record stale: the stale record is removed (`s`). */
  lemma StaleRecordWithoutComputeIsRemoved(flags: bv32, m: Meta, g: u32, content: seq<byte>, rec: Block,
                                           hash: seq<byte> -> Digest)
    requires m.regular
    requires DecodeRequest(flags).update && !DecodeRequest(flags).compute && !DecodeRequest(flags).recompute
    requires rec[..32] != Stamp(IdOf(m, g))
    ensures
      var f := File(m, g, content, Some(rec));
      var r := HashCache(flags, f, NoFaults, hash);
      && r.ret.Done? && r.removed && After(f.attr, r).None? && StatusOf(r.ret.flags) == 's'
  {
  }

  /** A 0-byte file reports the digest of empty input, whatever was asked and stored. */
  lemma EmptyFileDigestIsDigestOfNothing(flags: bv32, m: Meta, g: u32, content: seq<byte>, attr: Option<Block>,
                                         hash: seq<byte> -> Digest)
    requires m.regular && m.size == 0
    ensures
      var r := HashCache(flags, File(m, g, content, attr), NoFaults, hash);
      r.ret.Done? && r.ret.digest == hash([])
  {
  }

  /**
   * A file's life under the default options: first run `n` (record made),
   * second run `c` (record kept), then the content and mtime change and the
   * third run shows `u` and stores the new digest.
   */
  lemma LifeOfAFile(m: Meta, g: u32, content: seq<byte>, mtime': i64, content': seq<byte>,
                    hash: seq<byte> -> Digest)
    requires m.regular && m.size > 0 && mtime' != m.mtime
    requires hash(content') != hash(content)
    ensures
      var flags := RequestBits(DefaultOptions);
      var m' := m.(mtime := mtime');
      var r1 := HashCache(flags, File(m, g, content, None), NoFaults, hash);
      var a1 := After(None, r1);
      var r2 := HashCache(flags, File(m, g, content, a1), NoFaults, hash);
      var a2 := After(a1, r2);
      var r3 := HashCache(flags, File(m', g, content', a2), NoFaults, hash);
      && r1.ret.Done? && StatusOf(r1.ret.flags) == 'n' && a1 == Some(Record(IdOf(m, g), hash(content)))
      && r2.ret.Done? && StatusOf(r2.ret.flags) == 'c' && r2.written.None? && !r2.removed
      && r3.ret.Done? && StatusOf(r3.ret.flags) == 'u' && r3.ret.flags.mismatch
      && After(a2, r3) == Some(Record(IdOf(m', g), hash(content')))
  {
  }

  /**
   * `-i` on a file without a record: nothing is computed or stored. Alone,
   * `-i` turns showing off, so `main` prints nothing; with `-s` added, the
   * line is `##` for the digest and status `-`.
   */
  lemma CheckOnlyWithoutRecord(m: Meta, g: u32, content: seq<byte>, hash: seq<byte> -> Digest)
    requires m.regular
    ensures Configure("i") == Go(NoOptions.(check := true))
    ensures Configure("si") == Go(NoOptions.(check := true, show := true))
    ensures RequestBits(NoOptions.(check := true, show := true)) == RequestBits(NoOptions.(check := true))
    ensures
      var r := HashCache(RequestBits(NoOptions.(check := true)), File(m, g, content, None), NoFaults, hash);
      var e := EventOf(r.ret, false);
      && r.ret.Done? && r.written.None? && !r.removed
      && Main("i", [e]) == Exit(Success, [])
      && Main("si", [e]) == Exit(Success, [Line(Unknown64(), '-')])
  {
    var r := HashCache(RequestBits(NoOptions.(check := true)), File(m, g, content, None), NoFaults, hash);
    var e := EventOf(r.ret, false);
    assert Shown([e]) == [Line(Unknown64(), '-')];
  }

  /** Any option letter turns the defaults off: `-q` alone shows, computes and updates nothing. */
  lemma QuietAloneDisablesDefaults()
    ensures Configure("q") == Go(NoOptions.(quiet := true))
  {
  }

  /** `-ud` and `-cr` are refused before any file is looked at. */
  lemma ConflictingOptionsAreUsageErrors(files: seq<FileEvent>)
    ensures Main("ud", files) == Exit(Usage, [])
    ensures Main("cr", files) == Exit(Usage, [])
  {
  }
}

/**
 * Properties that relate several calls of the engine, or the engine and
 * the driver: idempotence of a second run, the status table against the
 * meaning of each status, the driver over engine runs, and the fate of an
 * engine system error in `main`.
 */
module Properties {
  import opened Wrappers
  import opened Bytes
  import opened HcFlags
  import opened Fingerprint
  import opened Engine
  import opened Driver

  // ---------------------------------------------------------------------
  // Idempotence

  /**
   * Run once asking for an update, then again with the same request on the
   * same, unchanged file: the second run neither writes nor removes.
   */
  lemma SecondRunIsNoOp(flags: bv32, f: FileState, faults1: Faults, faults2: Faults, hash: seq<byte> -> Digest)
    requires DecodeRequest(flags).update && !DecodeRequest(flags).delete
    requires HashCache(flags, f, faults1, hash).ret.Done?
    ensures
      var r2 := HashCache(flags, f.(attr := After(f.attr, HashCache(flags, f, faults1, hash))), faults2, hash);
      r2.written.None? && !r2.removed
  {
  }

  /**
   * What a successful run leaves in the attribute. A run that deletes
   * leaves nothing, unless update was asked as well and there was no record
   * to delete. A run that updates leaves no record or a current one,
   * and when it computed, exactly the current stamp with the fresh digest.
   * A run that neither updates nor deletes leaves the attribute as it was.
   */
  lemma AttributeAfterRun(flags: bv32, f: FileState, faults: Faults, hash: seq<byte> -> Digest)
    requires HashCache(flags, f, faults, hash).ret.Done?
    ensures DecodeRequest(flags).delete && !DecodeRequest(flags).update ==>
      After(f.attr, HashCache(flags, f, faults, hash)).None?
    ensures DecodeRequest(flags).delete && f.attr.Some? ==> After(f.attr, HashCache(flags, f, faults, hash)).None?
    ensures DecodeRequest(flags).update && !DecodeRequest(flags).delete ==>
      var a := After(f.attr, HashCache(flags, f, faults, hash));
      a.None? || a.value[..32] == Stamp(ReadIdentity(f.stat, f.gen).value)
    ensures DecodeRequest(flags).update && !DecodeRequest(flags).delete && !HashCache(flags, f, faults, hash).ret.flags.nocomp ==>
      var id := ReadIdentity(f.stat, f.gen).value;
      After(f.attr, HashCache(flags, f, faults, hash)) == Some(Record(id, Fresh(hash, id.size, f.content)))
    ensures !DecodeRequest(flags).update && !DecodeRequest(flags).delete ==>
      After(f.attr, HashCache(flags, f, faults, hash)) == f.attr
  {
    var r := HashCache(flags, f, faults, hash);
    var id := ReadIdentity(f.stat, f.gen).value;
    var req := DecodeRequest(flags);
    if req.update && !req.delete && !r.ret.flags.nocomp {
      var rec := Record(id, Fresh(hash, id.size, f.content));
      assert !r.removed;
      if r.written.None? {
        assert !r.ret.flags.stale && !r.ret.flags.mismatch;
        assert f.attr.value == f.attr.value[..32] + f.attr.value[32..];
        assert rec == rec[..32] + rec[32..];
      } else {
        assert r.written.value == rec;
      }
    } else if req.update && !req.delete {
      assert r.written.None?;
      assert f.attr.Some? && r.ret.flags.stale ==> r.removed;
    }
  }

  /**
   * The record goes stale when the metadata changes: for two regular files
   * with the same generation, the stamps agree exactly when inode, mtime
   * and size do.
   */
  lemma StampTracksMetadata(m: Meta, m': Meta, g: GenResult)
    requires m.regular && m'.regular && !g.GenFailed?
    ensures
      Stamp(ReadIdentity(Stat(m), g).value) == Stamp(ReadIdentity(Stat(m'), g).value) <==>
      m.inode == m'.inode && m.mtime == m'.mtime && m.size == m'.size
  {
  }

  // ---------------------------------------------------------------------
  // The status table against the meaning of each status

  /** The status of one file, as the help text names them. */
  datatype Status = NoRecord | New | Stale | Refreshed | Updated | Cached | Verified | Unexpected

  /**
   * The meaning of each reachable combination, written independently of
   * the table; None for the combinations that cannot arise.
   */
  function Classify(haveAttr: bool, isUpd: bool, doComp: bool, mismatch: bool): Option<Status>
  {
    if !haveAttr then
      if isUpd || mismatch then None
      else if doComp then Some(New) else Some(NoRecord)
    else if !doComp then
      if mismatch then None
      else if isUpd then Some(Cached) else Some(Stale)
    else if isUpd then
      if mismatch then Some(Unexpected) else Some(Verified)
    else
      if mismatch then Some(Updated) else Some(Refreshed)
  }

  /** The letter each status is shown as. */
  function Letter(s: Status): char
  {
    match s
    case NoRecord => '-'
    case New => 'n'
    case Stale => 's'
    case Refreshed => 'r'
    case Updated => 'u'
    case Cached => 'c'
    case Verified => 'v'
    case Unexpected => '!'
  }

  /** The table holds the letter of each combination's status, and `'e'` exactly where there is none. */
  lemma TableMatchesClassification(haveAttr: bool, isUpd: bool, doComp: bool, mismatch: bool)
    ensures StatusLetter(haveAttr, isUpd, doComp, mismatch) ==
      (match Classify(haveAttr, isUpd, doComp, mismatch)
       case None => 'e'
       case Some(s) => Letter(s))
  {
  }

  /** Every report of the engine has a status: the `assert` in `main` holds for it. */
  lemma EngineReportHasStatus(flags: bv32, f: FileState, faults: Faults, hash: seq<byte> -> Digest)
    requires HashCache(flags, f, faults, hash).ret.Done?
    ensures StatusOf(HashCache(flags, f, faults, hash).ret.flags) != 'e'
    ensures Classify(!HashCache(flags, f, faults, hash).ret.flags.noattr,
                     !HashCache(flags, f, faults, hash).ret.flags.stale,
                     !HashCache(flags, f, faults, hash).ret.flags.nocomp,
                     HashCache(flags, f, faults, hash).ret.flags.mismatch).Some?
  {
  }

  // ---------------------------------------------------------------------
  // The driver over engine runs

  /** One file argument: whether it opens, the file, the faults, and whether `close` fails. */
  datatype Arg = Arg(opens: bool, file: FileState, faults: Faults, closeFails: bool)

  /** The events `main` sees when the engine runs on each argument with the request bits of `o`. */
  function EventsFor(o: Options, args: seq<Arg>, hash: seq<byte> -> Digest): (es: seq<FileEvent>)
    ensures |es| == |args|
    ensures forall i :: 0 <= i < |es| ==> ReportOk(es[i])
    ensures forall i :: 0 <= i < |es| ==> (es[i].OpenFailed? <==> !args[i].opens)
    ensures forall i :: 0 <= i < |es| ==> (es[i].EngineError? <==> EngineFails(o, args[i], hash))
  {
    if |args| == 0 then []
    else
      var a := args[0];
      var e := if !a.opens then OpenFailed
               else EventOf(HashCache(RequestBits(o), a.file, a.faults, hash).ret, a.closeFails);
      [e] + EventsFor(o, args[1..], hash)
  }

  /** The argument opens and the engine fails on it with `-ERR_SYSTEM`. */
  predicate EngineFails(o: Options, a: Arg, hash: seq<byte> -> Digest) {
    a.opens && HashCache(RequestBits(o), a.file, a.faults, hash).ret == Failed(System)
  }

  /**
   * Over real engine runs, `main` as written reaches an exit status exactly
   * when `-s` is off or no argument makes the engine fail with a system
   * error; otherwise its `assert` fires.
   */
  lemma MainOverEngineExits(letters: seq<char>, args: seq<Arg>, hash: seq<byte> -> Digest)
    requires Configure(letters).Go?
    ensures
      var o := Configure(letters).opts;
      Main(letters, EventsFor(o, args, hash)).Exit? <==>
        !o.show || forall i :: 0 <= i < |args| ==> !EngineFails(o, args[i], hash)
  {
    var o := Configure(letters).opts;
    var es := EventsFor(o, args, hash);
    assert EngineErrorIn(es) <==> exists i :: 0 <= i < |args| && EngineFails(o, args[i], hash);
  }

  /** Over real engine runs, the corrected `main` always exits. */
  lemma MainCorrectedOverEngineExits(letters: seq<char>, args: seq<Arg>, hash: seq<byte> -> Digest)
    requires Configure(letters).Go?
    ensures MainCorrected(letters, EventsFor(Configure(letters).opts, args, hash)).Exit?
  {
  }

  // ---------------------------------------------------------------------
  // Finding: an engine system error in `main`

  /** `-ERR_SYSTEM` seen as report bits: "no record" set, "stale" clear. */
  lemma SystemReturnReadsAsCurrentWithoutRecord()
    ensures HasBit(ReturnBits(-(Code(System) as int)), RetNoAttrBit)
    ensures !HasBit(ReturnBits(-(Code(System) as int)), RetStaleBit)
    ensures forall c: bool, m: bool :: StatusLetter(false, true, c, m) == 'e'
  {
  }

  /** A regular file whose attribute cannot be read. */
  predicate UnreadableAttribute(f: FileState, faults: Faults)
  {
    ReadIdentity(f.stat, f.gen).Ok? && faults.readFails
  }

  /**
   * As written, such a file under the default options makes the loop, and
   * so `main` run on that file alone, fail its `assert` instead of
   * reporting a system error.
   */
  lemma UnreadableAttributeAbortsAsWritten(f: FileState, faults: Faults, hash: seq<byte> -> Digest, closeFails: bool)
    requires UnreadableAttribute(f, faults)
    ensures StepAsWritten(DefaultOptions, Start,
      EventOf(HashCache(RequestBits(DefaultOptions), f, faults, hash).ret, closeFails)).AssertFailed?
    ensures Main([], EventsFor(DefaultOptions, [Arg(true, f, faults, closeFails)], hash)) == Abort([])
  {
  }

  /** As written, without `-s` the same error is dropped: `err` becomes success and `errsys_any` stays clear. */
  lemma UnreadableAttributeLostAsWritten(o: Options, acc: Acc, f: FileState, faults: Faults, hash: seq<byte> -> Digest)
    requires !o.show && !acc.errsysAny
    requires UnreadableAttribute(f, faults)
    ensures
      var s := StepAsWritten(o, acc, EventOf(HashCache(RequestBits(o), f, faults, hash).ret, false));
      s.Next? && s.acc.err == Success && !s.acc.errsysAny
  {
  }

  /** With the error recorded, the same file ends `main` with the system-error status. */
  lemma UnreadableAttributeReportedCorrected(letters: seq<char>, f: FileState, faults: Faults, hash: seq<byte> -> Digest)
    requires Configure(letters).Go?
    requires UnreadableAttribute(f, faults)
    ensures MainCorrected(letters, EventsFor(Configure(letters).opts, [Arg(true, f, faults, false)], hash)) == Exit(System, [])
  {
    var o := Configure(letters).opts;
    var es := EventsFor(o, [Arg(true, f, faults, false)], hash);
    assert es == [EngineError(false)];
    assert es[1..] == [];
    assert BatchCorrected(o, Start, es) == Next(Start.(err := System, errsysAny := true));
  }
}

/**
 * The per-file decision engine, `hashcache` in hc.c.
 *
 * The system calls it makes become inputs: the outcome of `fstat`, of the
 * generation query, the bytes a mapping of the file delivers, the stored
 * attribute, and which of the remaining calls fail. SHA-256 is the
 * parameter `hash`. The engine's result records the return value and the
 * attribute writes and removals it performed.
 */
module Engine {
  import opened Wrappers
  import opened Bytes
  import opened HcFlags
  import opened Fingerprint

  /** The fields of `struct stat` the engine reads. */
  datatype Meta = Meta(regular: bool, inode: u64, mtime: i64, size: u64)

  /** Outcome of `fstat`. */
  datatype StatResult = StatFailed | Stat(meta: Meta)

  /** Outcome of the `FS_IOC_GETVERSION` query: a value, `ENOTTY`, or any other failure. */
  datatype GenResult = Gen(value: u32) | GenUnsupported | GenFailed

  /** What the file offers the engine: metadata, generation, content, and stored record. */
  datatype FileState = FileState(stat: StatResult, gen: GenResult, content: seq<byte>, attr: Option<Block>)

  /**
   * Which later system calls fail. `readFails` is an attribute read that
   * fails with an error other than "no such attribute".
   */
  datatype Faults = Faults(readFails: bool, mapFails: bool, unmapFails: bool, setFails: bool, removeFails: bool)

  /** The faults-free environment. */
  const NoFaults := Faults(false, false, false, false, false)

  /** What `hashcache` returns: `-code`, or the report flags with the digest written out. */
  datatype Ret = Failed(code: ErrRet) | Done(flags: RetFlags, digest: Digest)

  /**
   * One call: its return, the record it wrote (if any) and whether it then
   * removed the attribute. A write always precedes a removal.
   */
  datatype Run = Run(ret: Ret, written: Option<Block>, removed: bool)

  /** The attribute after the effects of `r` on `before`. */
  function After(before: Option<Block>, r: Run): (a: Option<Block>)
    ensures r.removed ==> a.None?
    ensures !r.removed && r.written.Some? ==> a == r.written
    ensures !r.removed && r.written.None? ==> a == before
  {
    if r.removed then None else if r.written.Some? then r.written else before
  }

  /**
   * The identity the fingerprint records (hc.c:45-59). A generation query
   * the filesystem does not support leaves the generation 0.
   */
  function ReadIdentity(st: StatResult, gen: GenResult): (r: Result<Identity>)
    ensures r.Err? ==> r.code == System || r.code == NoFile
    ensures r == Err(NoFile) <==> st.Stat? && !st.meta.regular
    ensures r.Ok? <==> st.Stat? && st.meta.regular && !gen.GenFailed?
    ensures r.Ok? && gen.GenUnsupported? ==> r.value.generation == 0
    ensures r.Ok? && gen.Gen? ==> r.value.generation == gen.value
    ensures r.Ok? ==> r.value.inode == st.meta.inode && r.value.size == st.meta.size
    ensures r.Ok? ==> r.value.mtime == ToU64(st.meta.mtime)
    ensures r.Ok? && st.meta.mtime >= 0 ==> r.value.mtime == st.meta.mtime
  {
    match st
    case StatFailed => Err(System)
    case Stat(m) =>
      if !m.regular then Err(NoFile)
      else
        match gen
        case GenFailed => Err(System)
        case GenUnsupported => Ok(Identity(0, m.inode, ToU64(m.mtime), m.size))
        case Gen(g) => Ok(Identity(g, m.inode, ToU64(m.mtime), m.size))
  }

  /** The digest of the file as the engine computes it: of empty input for a 0-byte file. */
  function Fresh(hash: seq<byte> -> Digest, size: u64, content: seq<byte>): Digest
  {
    if size == 0 then hash([]) else hash(content)
  }

  /** The three choices made from the request and the stored record (hc.c:93-95). */
  datatype Decision = Decision(compute: bool, update: bool, delete: bool)

  function Decide(req: Request, haveAttr: bool, isUpd: bool): (d: Decision)
    requires isUpd ==> haveAttr
    ensures d.compute <==> req.recompute || (req.compute && !isUpd)
    ensures d.update <==> req.update && d.compute
    ensures d.delete ==> haveAttr
    ensures d.delete <==> haveAttr && (req.delete || (!isUpd && !d.compute && req.update))
    ensures !(req.update && req.delete) ==> !(d.update && d.delete)
  {
    var compute := req.recompute || (!(haveAttr && isUpd) && req.compute);
    Decision(compute, req.update && compute, haveAttr && (req.delete || (!compute && !isUpd && req.update)))
  }

  /**
   * The engine once the identity is known and the attribute was read
   * (hc.c:76-143): `attr` is the stored record, if any.
   */
  function Proceed(req: Request, id: Identity, content: seq<byte>, attr: Option<Block>, faults: Faults,
                   hash: seq<byte> -> Digest): (r: Run)
    ensures r.ret.Failed? ==> r.ret.code == System
    ensures r.removed ==> attr.Some?
    ensures r.written.Some? ==> r.written.value == Record(id, Fresh(hash, id.size, content))
    ensures !faults.mapFails && !faults.unmapFails && !faults.setFails && !faults.removeFails ==> r.ret.Done?
    ensures r.ret.Done? ==>
      && var computed := Fresh(hash, id.size, content);
      && var fl := r.ret.flags;
      && fl.Consistent()
      && (fl.noattr <==> attr.None?)
      && (!fl.stale <==> attr.Some? && attr.value[..32] == Stamp(id))
      && (!fl.nocomp <==> req.recompute || (req.compute && fl.stale))
      && (fl.mismatch <==> !fl.nocomp && attr.Some? && computed != attr.value[32..])
      // The reported digest.
      && (!fl.nocomp || id.size == 0 ==> r.ret.digest == computed)
      && (fl.nocomp && id.size > 0 && attr.Some? ==> r.ret.digest == attr.value[32..])
      && (fl.nocomp && id.size > 0 && attr.None? ==> r.ret.digest == Zeros(32))
      // The store: written when computed and updating, unless current and agreeing.
      && (r.written.Some? <==> req.update && !fl.nocomp && (fl.stale || fl.mismatch))
      && (!fl.stale && !fl.mismatch ==> r.written.None?)
      && (r.removed <==> attr.Some? && (req.delete || (fl.nocomp && fl.stale && req.update)))
      && (!(req.update && req.delete) ==> !(r.written.Some? && r.removed))
  {
    var haveAttr := attr.Some?;
    var buf: Block := if haveAttr then attr.value else Zeros(64);
    var isUpd := haveAttr && buf[..32] == Stamp(id);
    var d := Decide(req, haveAttr, isUpd);
    var cached: Digest := buf[32..];
    assert !haveAttr ==> cached == Zeros(32);
    var mapped := d.compute && id.size > 0;
    if mapped && (faults.mapFails || faults.unmapFails) then Run(Failed(System), None, false)
    else
      var digest := if id.size == 0 then hash([]) else if d.compute then hash(content) else cached;
      var mismatch := d.compute && haveAttr && digest != cached;
      var update := d.update && !(isUpd && !mismatch);
      var written := if update then Some(Record(id, digest)) else None;
      if update && faults.setFails then Run(Failed(System), None, false)
      else if d.delete && faults.removeFails then Run(Failed(System), written, false)
      else Run(Done(RetFlags(!haveAttr, !d.compute, !isUpd, mismatch), digest), written, d.delete)
  }

  /**
   * `hashcache(digest, fd, flags)` for one file. The race guard
   * (hc.c:64-65) only delays the call and is not part of the model.
   */
  function HashCache(flags: bv32, f: FileState, faults: Faults, hash: seq<byte> -> Digest): (r: Run)
    // Early exits happen before any attribute is touched.
    ensures ReadIdentity(f.stat, f.gen).Err? ==> r == Run(Failed(ReadIdentity(f.stat, f.gen).code), None, false)
    ensures ReadIdentity(f.stat, f.gen).Ok? && faults.readFails ==> r == Run(Failed(System), None, false)
    ensures r.ret.Failed? ==> r.ret.code == System || r.ret.code == NoFile
    ensures r.ret == Failed(NoFile) <==> f.stat.Stat? && !f.stat.meta.regular
    // Without failing calls, a regular file always gets a report.
    ensures ReadIdentity(f.stat, f.gen).Ok? && faults == NoFaults ==> r.ret.Done?
    // A removal needs a record to remove.
    ensures r.removed ==> f.attr.Some?
    // Whatever is written is the stamp of the current identity followed by the fresh digest.
    ensures r.written.Some? ==>
      && ReadIdentity(f.stat, f.gen).Ok?
      && var id := ReadIdentity(f.stat, f.gen).value;
      && r.written.value == Record(id, Fresh(hash, id.size, f.content))
    ensures r.ret.Done? ==>
      && ReadIdentity(f.stat, f.gen).Ok?
      && !faults.readFails
      && var id := ReadIdentity(f.stat, f.gen).value;
      && var req := DecodeRequest(flags);
      && var computed := Fresh(hash, id.size, f.content);
      && var fl := r.ret.flags;
      && fl.Consistent()
      && (fl.noattr <==> f.attr.None?)
      && (!fl.stale <==> f.attr.Some? && f.attr.value[..32] == Stamp(id))
      && (!fl.nocomp <==> req.recompute || (req.compute && fl.stale))
      && (fl.mismatch <==> !fl.nocomp && f.attr.Some? && computed != f.attr.value[32..])
      // The reported digest.
      && (!fl.nocomp || id.size == 0 ==> r.ret.digest == computed)
      && (fl.nocomp && id.size > 0 && f.attr.Some? ==> r.ret.digest == f.attr.value[32..])
      && (fl.nocomp && id.size > 0 && f.attr.None? ==> r.ret.digest == Zeros(32))
      // The store: written when computed and updating, unless current and agreeing.
      && (r.written.Some? <==> req.update && !fl.nocomp && (fl.stale || fl.mismatch))
      && (!fl.stale && !fl.mismatch ==> r.written.None?)
      && (r.removed <==> f.attr.Some? && (req.delete || (fl.nocomp && fl.stale && req.update)))
      && (!(req.update && req.delete) ==> !(r.written.Some? && r.removed))
  {
    match ReadIdentity(f.stat, f.gen)
    case Err(e) => Run(Failed(e), None, false)
    case Ok(id) =>
      if faults.readFails then Run(Failed(System), None, false)
      else Proceed(DecodeRequest(flags), id, f.content, f.attr, faults, hash)
  }

  /**
   * The failures after the attribute read (hc.c:105-125) each end the call
   * with `-ERR_SYSTEM`, and only when the fault-free run makes that call: the
   * mapping when it computes a non-empty file, `fsetxattr` when it writes,
   * `fremovexattr` when it removes. A failed removal keeps the write before
   * it. Otherwise the call behaves as without faults.
   */
  lemma LateFaultsFailOnlyTheirCall(flags: bv32, f: FileState, faults: Faults, hash: seq<byte> -> Digest)
    requires ReadIdentity(f.stat, f.gen).Ok? && !faults.readFails
    ensures
      var id := ReadIdentity(f.stat, f.gen).value;
      var r0 := HashCache(flags, f, NoFaults, hash);
      var r := HashCache(flags, f, faults, hash);
      && r0.ret.Done?
      && var mapFailed := !r0.ret.flags.nocomp && id.size > 0 && (faults.mapFails || faults.unmapFails);
      && var setFailed := r0.written.Some? && faults.setFails;
      && var removeFailed := r0.removed && faults.removeFails;
      && (mapFailed || setFailed ==> r == Run(Failed(System), None, false))
      && (!mapFailed && !setFailed && removeFailed ==> r == Run(Failed(System), r0.written, false))
      && (!mapFailed && !setFailed && !removeFailed ==> r == r0)
  {
  }
}

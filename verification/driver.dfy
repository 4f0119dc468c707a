/**
 * The command-line driver, `main` in hashcache.c: option letters, their
 * validation and defaults, the request bits passed to the engine, the
 * status letter and digest shown per file, and the exit status.
 *
 * Files are not opened here: each file argument is represented by what
 * happened to it (`FileEvent`), which `EventOf` derives from an engine
 * return. Messages on stderr and the "File changed" line are not modelled.
 */
module Driver {
  import opened Bytes
  import opened HcFlags
  import opened Fingerprint
  import Engine

  /** The option booleans of `main`. */
  datatype Options = Options(show: bool, compute: bool, recompute: bool, check: bool,
                             delete: bool, update: bool, quiet: bool)

  const NoOptions := Options(false, false, false, false, false, false, false)

  /** What no option letter at all means: `-scu`. */
  const DefaultOptions := Options(true, true, false, false, false, true, false)

  /** The letters `getopt` accepts, other than `h`. */
  const OptionLetters: seq<char> := "cdirsuq"

  /** The effect of one accepted option letter. */
  function SetOption(o: Options, c: char): Options
    requires c in OptionLetters
  {
    match c
    case 'c' => o.(compute := true)
    case 'd' => o.(delete := true)
    case 'i' => o.(check := true)
    case 's' => o.(show := true)
    case 'r' => o.(recompute := true)
    case 'u' => o.(update := true)
    case 'q' => o.(quiet := true)
  }

  /** Outcome of the option loop (hashcache.c:65-100). */
  datatype Parse = Help | Unknown | Letters(opts: Options)

  /** The position of the first letter the loop does not simply record, or `|letters|`. */
  function FirstStop(letters: seq<char>): (k: nat)
    ensures k <= |letters|
    ensures forall j :: 0 <= j < k ==> letters[j] in OptionLetters
    ensures k < |letters| ==> letters[k] !in OptionLetters
  {
    if |letters| == 0 || letters[0] !in OptionLetters then 0
    else 1 + FirstStop(letters[1..])
  }

  /** The options named by a sequence of accepted letters. */
  function Named(letters: seq<char>): Options
  {
    Options('s' in letters, 'c' in letters, 'r' in letters, 'i' in letters,
            'd' in letters, 'u' in letters, 'q' in letters)
  }

  /**
   * The option loop over the letters `getopt` returns, in order. It stops
   * at the first `h` (help) or unrecognised letter; otherwise each letter
   * sets its option.
   */
  function ParseLetters(letters: seq<char>): (p: Parse)
    ensures p.Letters? <==> FirstStop(letters) == |letters|
    ensures p.Help? <==> FirstStop(letters) < |letters| && letters[FirstStop(letters)] == 'h'
    ensures p.Letters? ==> p.opts == Named(letters)
  {
    if |letters| == 0 then Letters(NoOptions)
    else if letters[0] == 'h' then Help
    else if letters[0] !in OptionLetters then Unknown
    else
      var rest := ParseLetters(letters[1..]);
      if rest.Letters? then
        NamedCons(letters);
        Letters(SetOption(rest.opts, letters[0]))
      else rest
  }

  /** Recording one more accepted letter in front. */
  lemma NamedCons(letters: seq<char>)
    requires |letters| > 0 && letters[0] in OptionLetters
    ensures Named(letters) == SetOption(Named(letters[1..]), letters[0])
  {
  }

  /** What `main` does before looking at any file: stop with a code, or go on with options. */
  datatype Setup = Stop(code: ErrRet) | Go(opts: Options)

  /** Option loop, validation (hashcache.c:102-103) and defaults (hashcache.c:105-106). */
  function Configure(letters: seq<char>): (s: Setup)
    ensures s.Go? ==> !(s.opts.update && s.opts.delete) && !(s.opts.compute && s.opts.recompute)
    ensures letters == [] ==> s == Go(DefaultOptions)
    ensures s.Go? && letters != [] ==> ParseLetters(letters) == Letters(s.opts)
    ensures s.Go? <==>
      && ParseLetters(letters).Letters?
      && var o := Named(letters);
      !(o.update && o.delete) && !(o.compute && o.recompute)
    ensures s == Stop(Success) <==> ParseLetters(letters).Help?
    ensures s == Stop(Usage) <==>
      || ParseLetters(letters).Unknown?
      || (&& ParseLetters(letters).Letters?
          && var o := Named(letters);
          (o.update && o.delete) || (o.compute && o.recompute))
  {
    match ParseLetters(letters)
    case Help => Stop(Success)
    case Unknown => Stop(Usage)
    case Letters(o) =>
      if (o.update && o.delete) || (o.compute && o.recompute) then Stop(Usage)
      else if letters == [] then Go(DefaultOptions)
      else Go(o)
  }

  /** The request bits `main` passes to the engine (hashcache.c:116-128). */
  function RequestBits(o: Options): (flags: bv32)
    ensures flags & RequestMask == flags
    ensures DecodeRequest(flags) == Request(o.recompute, o.compute, o.update, o.delete)
  {
    var f: bv32 := 0;
    var f := if !o.update then f | NoUpdateBit else f;
    var f := if !o.compute then f | NoComputeBit else f;
    var f := if o.delete then f | DeleteBit else f;
    var f := if o.recompute then f | RecomputeBit else f;
    f
  }

  /** The status table `states[have_attr][is_upd][do_comp][mismatch]` (hashcache.c:168-175). */
  const States: seq<seq<seq<seq<char>>>> :=
    [ [ [ ['-', 'e'], ['n', 'e'] ],
        [ ['e', 'e'], ['e', 'e'] ] ],
      [ [ ['s', 'e'], ['r', 'u'] ],
        [ ['c', 'e'], ['v', '!'] ] ] ]

  function Index(b: bool): nat { if b then 1 else 0 }

  /** The table lookup; `'e'` marks the combinations the program asserts never occur. */
  function StatusLetter(haveAttr: bool, isUpd: bool, doComp: bool, mismatch: bool): (c: char)
    ensures c == 'e' <==> (!haveAttr && isUpd) || (mismatch && !(haveAttr && doComp))
  {
    States[Index(haveAttr)][Index(isUpd)][Index(doComp)][Index(mismatch)]
  }

  /** The status letter for an engine report. */
  function StatusOf(fl: RetFlags): char
  {
    StatusLetter(!fl.noattr, !fl.stale, !fl.nocomp, fl.mismatch)
  }

  /** A character `%x` can print: a digit or a lower-case letter up to `f`. */
  predicate IsHexDigit(c: char) {
    ('0' <= c <= '9') || ('a' <= c <= 'f')
  }

  /** The lower-case hexadecimal digit for `n`. */
  function HexDigit(n: nat): (c: char)
    requires n < 16
    ensures IsHexDigit(c)
  {
    if n < 10 then ('0' as int + n) as char else ('a' as int + n - 10) as char
  }

  /** `%02x` of every byte of `d`. */
  function Hex(d: seq<byte>): (s: seq<char>)
    ensures |s| == 2 * |d|
    ensures forall i :: 0 <= i < |s| ==> IsHexDigit(s[i])
  {
    if |d| == 0 then []
    else [HexDigit(d[0] / 16), HexDigit(d[0] % 16)] + Hex(d[1..])
  }

  /** The value of one hexadecimal digit. */
  function DigitValue(c: char): (n: nat)
    requires IsHexDigit(c)
    ensures n < 16 && HexDigit(n) == c
  {
    if c <= '9' then (c as int - '0' as int) else (c as int - 'a' as int) + 10
  }

  /** The bytes that `Hex` printed. */
  function Unhex(s: seq<char>): (d: seq<byte>)
    requires |s| % 2 == 0
    requires forall i :: 0 <= i < |s| ==> IsHexDigit(s[i])
    ensures |d| == |s| / 2
  {
    if |s| == 0 then []
    else [DigitValue(s[0]) * 16 + DigitValue(s[1])] + Unhex(s[2..])
  }

  /** The printed digest can be read back. */
  lemma {:induction false} UnhexOfHex(d: seq<byte>)
    ensures Unhex(Hex(d)) == d
  {
    if |d| > 0 {
      var hi, lo := d[0] / 16, d[0] % 16;
      var s := Hex(d);
      assert s == [HexDigit(hi), HexDigit(lo)] + Hex(d[1..]);
      assert s[2..] == Hex(d[1..]);
      UnhexOfHex(d[1..]);
      assert hi * 16 + lo == d[0];
      assert Unhex(s) == [hi * 16 + lo] + Unhex(s[2..]);
      assert d == [d[0]] + d[1..];
    }
  }

  /** `##` for each of the 32 bytes. */
  function Unknown64(): (s: seq<char>)
    ensures |s| == 64
  {
    seq(64, _ => '#')
  }

  /**
   * The digest column (hashcache.c:161-165): `##` per byte when there is no
   * record and nothing was computed, the hexadecimal digest otherwise.
   */
  function DigestText(fl: RetFlags, digest: Digest): (s: seq<char>)
    ensures |s| == 64
    ensures s == Unknown64() <==> fl.noattr && fl.nocomp
    ensures !(fl.noattr && fl.nocomp) ==> forall i :: 0 <= i < |s| ==> IsHexDigit(s[i])
    ensures !(fl.noattr && fl.nocomp) ==> Unhex(s) == digest
  {
    if fl.noattr && fl.nocomp then Unknown64()
    else
      var s := Hex(digest);
      assert IsHexDigit(s[0]);
      assert s != Unknown64() by { assert Unknown64()[0] == '#'; }
      UnhexOfHex(digest);
      s
  }

  /** One shown line: digest column and status letter. */
  datatype Line = Line(digest: seq<char>, status: char)

  /** What happened to one file argument. */
  datatype FileEvent =
    | OpenFailed
    | NotRegular
    | EngineError(closeFails: bool)
    | Processed(flags: RetFlags, digest: Digest, closeFails: bool)

  /** The event for an engine return on an opened file. */
  function EventOf(ret: Engine.Ret, closeFails: bool): (e: FileEvent)
    ensures e.NotRegular? <==> ret == Engine.Failed(NoFile)
    ensures e.EngineError? <==> ret.Failed? && ret.code != NoFile
    ensures e.Processed? <==> ret.Done?
  {
    match ret
    case Failed(code) => if code == NoFile then NotRegular else EngineError(closeFails)
    case Done(flags, digest) => Processed(flags, digest, closeFails)
  }

  /** The variables `main` carries across files, and the lines shown so far. */
  datatype Acc = Acc(err: ErrRet, mismatchAny: bool, errsysAny: bool, lines: seq<Line>)

  /** Before the first file: `err` starts as `ERR_USAGE`. */
  const Start := Acc(Usage, false, false, [])

  /** After one file: the updated variables, or the failed `assert` on `'e'`. */
  datatype Step = Next(acc: Acc) | AssertFailed(lines: seq<Line>)

  /** The end of the loop body (hashcache.c:183-192) once the file was handled. */
  function Closed(acc: Acc, closeFails: bool): (a: Acc)
    ensures a.err == (if closeFails then System else Success)
    ensures a.errsysAny == (acc.errsysAny || closeFails)
    ensures a.mismatchAny == acc.mismatchAny && a.lines == acc.lines
  {
    acc.(err := if closeFails then System else Success, errsysAny := acc.errsysAny || closeFails)
  }

  /** The handling of an engine report (hashcache.c:144-192). */
  function ProcessReport(o: Options, acc: Acc, fl: RetFlags, digest: Digest, closeFails: bool): (s: Step)
    ensures s.AssertFailed? <==> o.show && StatusOf(fl) == 'e'
    ensures fl.Consistent() ==> s.Next?
    ensures s.Next? ==> s.acc.mismatchAny == (acc.mismatchAny || (o.check && !fl.noattr && fl.mismatch))
    ensures s.Next? ==> s.acc.err == (if closeFails then System else Success)
    ensures s.Next? ==> s.acc.errsysAny == (acc.errsysAny || closeFails)
    ensures s.Next? && o.show ==> s.acc.lines == acc.lines + [Line(DigestText(fl, digest), StatusOf(fl))]
    ensures s.Next? && !o.show ==> s.acc.lines == acc.lines
  {
    var haveAttr := !fl.noattr;
    var doCheck := haveAttr && o.check;
    var acc := if doCheck then acc.(mismatchAny := acc.mismatchAny || fl.mismatch) else acc;
    if o.show && StatusOf(fl) == 'e' then AssertFailed(acc.lines)
    else
      var acc := if o.show then acc.(lines := acc.lines + [Line(DigestText(fl, digest), StatusOf(fl))]) else acc;
      Next(Closed(acc, closeFails))
  }

  /**
   * One iteration of the file loop, with an engine system error recorded
   * like any other system error. See `StepAsWritten` for the code as it
   * stands.
   */
  function StepFile(o: Options, acc: Acc, e: FileEvent): (s: Step)
    ensures e.Processed? ==> s == ProcessReport(o, acc, e.flags, e.digest, e.closeFails)
    ensures !e.Processed? ==> s.Next? && s.acc.lines == acc.lines && s.acc.mismatchAny == acc.mismatchAny
    ensures e.OpenFailed? || e.EngineError? ==> s == Next(acc.(err := System, errsysAny := true))
    ensures e.NotRegular? ==> s == Next(acc.(err := NoFile))
  {
    match e
    case OpenFailed => Next(acc.(err := System, errsysAny := true))
    case NotRegular => Next(acc.(err := NoFile))
    case EngineError(_) => Next(acc.(err := System, errsysAny := true))
    case Processed(fl, digest, closeFails) => ProcessReport(o, acc, fl, digest, closeFails)
  }

  /**
   * One iteration of the file loop as hashcache.c:133-192 has it. A
   * `-ERR_SYSTEM` return is not skipped: its bits are decoded as report
   * flags. Only the two bits hc.h defines matter here, and they say "no
   * record" and "current", a combination the status table marks `'e'`.
   */
  function StepAsWritten(o: Options, acc: Acc, e: FileEvent): (s: Step)
    ensures !e.EngineError? ==> s == StepFile(o, acc, e)
    ensures e.EngineError? ==> (s.AssertFailed? <==> o.show)
    ensures e.EngineError? && s.Next? ==> s.acc.lines == acc.lines && s.acc.mismatchAny == acc.mismatchAny
  {
    match e
    case EngineError(closeFails) =>
      var bits := ReturnBits(-(Code(System) as int));
      var haveAttr := !HasBit(bits, RetNoAttrBit);
      var isUpd := !HasBit(bits, RetStaleBit);
      // The compute and mismatch bits use macros hc.h does not define; no
      // row of the table reached here depends on them.
      if o.show && StatusLetter(haveAttr, isUpd, false, false) == 'e' then AssertFailed(acc.lines)
      else Next(Closed(acc, closeFails))
    case _ => StepFile(o, acc, e)
  }

  /**
   * The file loop over all arguments, in order, as hashcache.c:108-193 has
   * it: an engine system error aborts under `-s` and is otherwise dropped.
   */
  function Batch(o: Options, acc: Acc, files: seq<FileEvent>): (s: Step)
    decreases |files|
    ensures s.Next? ==>
      && (s.acc.mismatchAny <==> acc.mismatchAny || CheckedMismatch(o, files))
      && (s.acc.errsysAny <==> acc.errsysAny || SystemErrorAsWrittenIn(files))
      && s.acc.err == (if |files| == 0 then acc.err else ErrAfterAsWritten(files[|files| - 1]))
    ensures (forall i :: 0 <= i < |files| ==> ReportOk(files[i])) ==>
      (s.AssertFailed? <==> o.show && EngineErrorIn(files))
  {
    if |files| == 0 then Next(acc)
    else
      match StepAsWritten(o, acc, files[0])
      case AssertFailed(lines) => AssertFailed(lines)
      case Next(acc') =>
        var s := Batch(o, acc', files[1..]);
        assert files[1..] == [] || files[|files| - 1] == files[1..][|files[1..]| - 1];
        assert forall i :: 0 < i < |files| ==> files[i] == files[1..][i - 1];
        assert CheckedMismatch(o, files) <==> CheckedIn(o, files[0]) || CheckedMismatch(o, files[1..]);
        assert SystemErrorAsWrittenIn(files) <==>
          SystemErrorAsWritten(files[0]) || SystemErrorAsWrittenIn(files[1..]);
        assert EngineErrorIn(files) <==> files[0].EngineError? || EngineErrorIn(files[1..]);
        s
  }

  /** The file loop with engine system errors recorded (`StepFile`). */
  function BatchCorrected(o: Options, acc: Acc, files: seq<FileEvent>): (s: Step)
    decreases |files|
    ensures s.Next? ==>
      && (s.acc.mismatchAny <==> acc.mismatchAny || CheckedMismatch(o, files))
      && (s.acc.errsysAny <==> acc.errsysAny || SystemErrorIn(files))
      && s.acc.err == (if |files| == 0 then acc.err else ErrAfter(files[|files| - 1]))
    ensures (forall i :: 0 <= i < |files| ==> ReportOk(files[i])) ==> s.Next?
  {
    if |files| == 0 then Next(acc)
    else
      match StepFile(o, acc, files[0])
      case AssertFailed(lines) => AssertFailed(lines)
      case Next(acc') =>
        var s := BatchCorrected(o, acc', files[1..]);
        assert files[1..] == [] || files[|files| - 1] == files[1..][|files[1..]| - 1];
        assert forall i :: 0 < i < |files| ==> files[i] == files[1..][i - 1];
        assert CheckedMismatch(o, files) <==> CheckedIn(o, files[0]) || CheckedMismatch(o, files[1..]);
        assert SystemErrorIn(files) <==> SystemError(files[0]) || SystemErrorIn(files[1..]);
        s
  }

  /** The line `-s` shows for one file: one for each report, none otherwise. */
  function ShownOf(e: FileEvent): seq<Line> {
    if e.Processed? then [Line(DigestText(e.flags, e.digest), StatusOf(e.flags))] else []
  }

  /** The lines `-s` shows for the files, in order. */
  function Shown(files: seq<FileEvent>): (ls: seq<Line>)
    ensures |ls| <= |files|
  {
    if |files| == 0 then [] else ShownOf(files[0]) + Shown(files[1..])
  }

  /** One step of the loop as written adds the file's shown line under `-s`, and nothing otherwise. */
  lemma StepAsWrittenLines(o: Options, acc: Acc, e: FileEvent)
    requires StepAsWritten(o, acc, e).Next?
    ensures StepAsWritten(o, acc, e).acc.lines == acc.lines + (if o.show then ShownOf(e) else [])
  {
  }

  /** The same for the corrected step. */
  lemma StepFileLines(o: Options, acc: Acc, e: FileEvent)
    requires StepFile(o, acc, e).Next?
    ensures StepFile(o, acc, e).acc.lines == acc.lines + (if o.show then ShownOf(e) else [])
  {
  }

  /** Under `-s` the loop as written shows each report's line, in order; without it, nothing. */
  lemma {:induction false} BatchShows(o: Options, acc: Acc, files: seq<FileEvent>)
    ensures Batch(o, acc, files).Next? ==>
      Batch(o, acc, files).acc.lines == acc.lines + (if o.show then Shown(files) else [])
    decreases |files|
  {
    if |files| > 0 {
      var step := StepAsWritten(o, acc, files[0]);
      if step.Next? {
        StepAsWrittenLines(o, acc, files[0]);
        var rest := files[1..];
        assert Batch(o, acc, files) == Batch(o, step.acc, rest);
        BatchShows(o, step.acc, rest);
        assert Shown(files) == ShownOf(files[0]) + Shown(rest);
      }
    }
  }


  /** The same for the corrected loop. */
  lemma {:induction false} BatchCorrectedShows(o: Options, acc: Acc, files: seq<FileEvent>)
    ensures BatchCorrected(o, acc, files).Next? ==>
      BatchCorrected(o, acc, files).acc.lines == acc.lines + (if o.show then Shown(files) else [])
    decreases |files|
  {
    if |files| > 0 {
      var step := StepFile(o, acc, files[0]);
      if step.Next? {
        StepFileLines(o, acc, files[0]);
        var rest := files[1..];
        assert BatchCorrected(o, acc, files) == BatchCorrected(o, step.acc, rest);
        BatchCorrectedShows(o, step.acc, rest);
        assert Shown(files) == ShownOf(files[0]) + Shown(rest);
      }
    }
  }


  /** The file's report satisfies the engine's invariants. */
  predicate ReportOk(e: FileEvent) {
    e.Processed? ==> e.flags.Consistent()
  }

  /** A file counted by `mismatch_any`: `-i` given, a record present, and a mismatch. */
  predicate CheckedIn(o: Options, e: FileEvent) {
    e.Processed? && o.check && !e.flags.noattr && e.flags.mismatch
  }

  predicate CheckedMismatch(o: Options, files: seq<FileEvent>) {
    exists i :: 0 <= i < |files| && CheckedIn(o, files[i])
  }

  predicate EngineErrorIn(files: seq<FileEvent>) {
    exists i :: 0 <= i < |files| && files[i].EngineError?
  }

  /** A file that should set `errsys_any`. */
  predicate SystemError(e: FileEvent) {
    e.OpenFailed? || e.EngineError? || (e.Processed? && e.closeFails)
  }

  predicate SystemErrorIn(files: seq<FileEvent>) {
    exists i :: 0 <= i < |files| && SystemError(files[i])
  }

  /** A file that sets `errsys_any` as the code stands: an engine error counts only through `close`. */
  predicate SystemErrorAsWritten(e: FileEvent) {
    e.OpenFailed? || (e.EngineError? && e.closeFails) || (e.Processed? && e.closeFails)
  }

  predicate SystemErrorAsWrittenIn(files: seq<FileEvent>) {
    exists i :: 0 <= i < |files| && SystemErrorAsWritten(files[i])
  }

  /** `err` after a file was handled, with engine errors recorded. */
  function ErrAfter(e: FileEvent): ErrRet {
    match e
    case OpenFailed => System
    case NotRegular => NoFile
    case EngineError(_) => System
    case Processed(_, _, closeFails) => if closeFails then System else Success
  }

  /** `err` after a file was handled, as the code stands: an engine error leaves only the `close` result. */
  function ErrAfterAsWritten(e: FileEvent): ErrRet {
    match e
    case EngineError(closeFails) => if closeFails then System else Success
    case _ => ErrAfter(e)
  }

  /** The exit status computed at `out2` (hashcache.c:194-204). */
  function ExitCode(acc: Acc): (code: ErrRet)
    ensures acc.mismatchAny ==> code == Mismatch
    ensures !acc.mismatchAny && acc.errsysAny ==> code == System
    ensures !acc.mismatchAny && !acc.errsysAny ==> code == acc.err
  {
    if acc.mismatchAny then Mismatch else if acc.errsysAny then System else acc.err
  }

  /** How the process ends: an exit status and the lines shown, or an aborted assertion. */
  datatype Outcome = Exit(code: ErrRet, lines: seq<Line>) | Abort(lines: seq<Line>)

  /** `main` over the option letters and what happened to each file argument. */
  function Main(letters: seq<char>, files: seq<FileEvent>): (r: Outcome)
    ensures Configure(letters).Stop? ==> r == Exit(Configure(letters).code, [])
    ensures Configure(letters).Go? && files == [] ==> r == Exit(Usage, [])
    ensures Configure(letters).Go? && (forall i :: 0 <= i < |files| ==> ReportOk(files[i])) ==>
      (r.Abort? <==> Configure(letters).opts.show && EngineErrorIn(files))
    ensures r.Exit? && Configure(letters).Go? ==>
      var o := Configure(letters).opts;
      && (r.code == Mismatch <==> CheckedMismatch(o, files))
      && (!CheckedMismatch(o, files) && SystemErrorAsWrittenIn(files) ==> r.code == System)
      && (!CheckedMismatch(o, files) && !SystemErrorAsWrittenIn(files) && files != [] ==>
            r.code == ErrAfterAsWritten(files[|files| - 1]))
      && r.lines == (if o.show then Shown(files) else [])
  {
    match Configure(letters)
    case Stop(code) => Exit(code, [])
    case Go(o) =>
      BatchShows(o, Start, files);
      match Batch(o, Start, files)
      case AssertFailed(lines) => Abort(lines)
      case Next(acc) => Exit(ExitCode(acc), acc.lines)
  }

  /** `main` with engine system errors recorded: it always exits, and such an error gives `ERR_SYSTEM`. */
  function MainCorrected(letters: seq<char>, files: seq<FileEvent>): (r: Outcome)
    ensures Configure(letters).Stop? ==> r == Exit(Configure(letters).code, [])
    ensures Configure(letters).Go? && files == [] ==> r == Exit(Usage, [])
    ensures Configure(letters).Go? && (forall i :: 0 <= i < |files| ==> ReportOk(files[i])) ==> r.Exit?
    ensures r.Exit? && Configure(letters).Go? ==>
      var o := Configure(letters).opts;
      && (r.code == Mismatch <==> CheckedMismatch(o, files))
      && (!CheckedMismatch(o, files) && SystemErrorIn(files) ==> r.code == System)
      && (!CheckedMismatch(o, files) && !SystemErrorIn(files) && files != [] ==> r.code == ErrAfter(files[|files| - 1]))
      && r.lines == (if o.show then Shown(files) else [])
  {
    match Configure(letters)
    case Stop(code) => Exit(code, [])
    case Go(o) =>
      BatchCorrectedShows(o, Start, files);
      match BatchCorrected(o, Start, files)
      case AssertFailed(lines) => Abort(lines)
      case Next(acc) => Exit(ExitCode(acc), acc.lines)
  }
}

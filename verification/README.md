# hashcache — a Dafny model of the per-file hash cache

`hashcache` keeps, for each regular file, a 64-byte record in the extended
attribute `user.hc1_sha256`. The record is a 32-byte metadata stamp followed
by the file's SHA-256 digest. The stamp is the tag `HC01`, the generation
counter, the inode, the mtime and the size. Later runs compare the stamp with
the file's current metadata. If they agree, the cached digest is trusted
without reading the file again.

This project models:

- the decision engine `hashcache()` (hc.c), as the pure function
  `Engine.HashCache`. It covers the stamp layout, reading the record, the
  decision to compute, update or delete, the mismatch test, the record
  write and removal, the reported digest and the report flags;
- the command-line driver `main` (hashcache.c), as `Driver.Main`. It covers
  option letters, validation and defaults, the request bits passed to the
  engine, the status table and its `assert`, the digest column, and the
  exit status. `Driver.MainCorrected` is the same driver with the defect
  under Findings repaired;
- the interface in hc.h: request bits, report flags and error codes
  (`HcFlags`).

Modules, leaves first:

- `Wrappers`: `Option`.
- `Bytes`: fixed-width integers and their little-endian encoding.
- `HcFlags`: hc.h.
- `Fingerprint`: the stamp and the record layout.
- `Engine`: hc.c.
- `Driver`: hashcache.c.
- `Properties`: idempotence, the status table against a reference
  classification, the driver over engine runs, and the finding below.
- `Scenarios`: the engine and the driver on typical situations.

Modelling choices:

- **System calls are inputs.** `fstat` is a `StatResult`. The generation
  query is a `GenResult`: a value, unsupported (`ENOTTY`), or failed. The
  stored attribute is an `Option<Block>`, where a `Block` is 64 bytes. The
  mapped content is a byte sequence. `Faults` says which of the attribute
  read, `mmap`, `munmap`, `fsetxattr` and `fremovexattr` fail. The engine's
  result `Run` records the return, the record it wrote, and whether it
  removed the attribute. `Engine.After` gives the attribute afterwards.
- **SHA-256** is the parameter `hash: seq<byte> -> Digest`. Nothing is
  assumed about it beyond its 32-byte output.
- **Byte order.** `memcpy` writes integers in host byte order. The model
  fixes little-endian.
- **Integer widths.** `st_mtime` is a signed 64-bit `time_t`. Its
  conversion to `uint64_t` is written out modulo 2^64 (`Bytes.ToU64`).
  Inode, size and generation are unsigned values of their C widths.
- **Report flags.** hc.c and hashcache.c use `HC_RET_MISMATCH` and
  `HC_RET_NOCOMP`, which hc.h does not define (it defines `HC_RET_COMP`,
  which nothing uses). The report is therefore the record `RetFlags` of four
  booleans: `noattr`, `nocomp`, `stale` and `mismatch`. Only the two defined
  bits, `HC_RET_NOATTR` = 1 and `HC_RET_STALE` = 2, are used as bits. They
  matter in one place: decoding a negative return (see Findings).
- **Driver input.** The driver sees each file argument as a `FileEvent`:
  open failed, not a regular file, engine error, or a report. An engine
  error and a report carry whether `close` failed; the other two never
  reach `close` (hashcache.c:114, 140). `Driver.EventOf` derives the event from
  an engine return. `Properties.EventsFor` runs the engine on each argument.
- **The `assert` is enabled.** `Driver.Step`'s `AssertFailed` and
  `Driver.Outcome`'s `Abort` model the `assert` at hashcache.c:178 as
  compiled in. Builds with `NDEBUG` are not modelled: there the `e` line
  is printed and the loop goes on. `Abort` lists only the complete lines
  shown before the failure. The digest column printed just before the
  failing `assert` (hashcache.c:161-165) is not modelled. Neither is
  buffered output lost because `abort` does not flush stdout.

Behaviour of the code that a reader might not expect, which the model
keeps:

- **Exit status when both errors occur.** A checked mismatch overrides a
  system error: `ERR_MISMATCH` is assigned last (hashcache.c:198-202).
- **Not-a-regular-file exit status.** `ERR_NOFILE` is the exit status only
  if the **last** argument was not a regular file. A later file resets
  `err`.
- **Digest with no record and nothing computed.** The digest is not
  "undefined". It is the zero-filled cache bytes (hc.c:76, 97). For a
  0-byte file it is the digest of empty input (hc.c:99-100).

## Model

| member | source | states |
|---|---|---|
| `Bytes.ToU64` | hc.c:53 | Converting `time_t` to `uint64_t` keeps non-negative values and adds 2^64 to negative ones. |
| `Bytes.FromLEOfLE` | hc.c:71-74 | Decoding the bytes `memcpy` writes for a `w`-byte unsigned value gives the value back. |
| `Bytes.LEOfFromLE` | hc.c:71-74 | Every `w`-byte field is the encoding of the value it decodes to. |
| `Bytes.LEInjective` | hc.c:71-74 | Two values of one width have equal encodings exactly when they are equal. |
| `HcFlags.DecodeRequest` | hc.c:38-41 | Decodes recompute, compute, update and delete from the flag bits. Flags 0 mean compute and update, with no recompute and no delete. All four bits set mean recompute and delete only. |
| `HcFlags.EncodeRequest` | hc.h:4-7 | Every request has a bit set within the four request bits that decodes back to it. |
| `HcFlags.DecodeDeterminedByRequestBits` | hc.h:4-7 | Two bit sets decode to the same request exactly when they agree on bits 1, 2, 4 and 8. |
| `HcFlags.Code` | hc.h:14 | The error codes are 0..4, `ERR_SUCCESS` is the only 0, and `FromCode` maps each value back to its enumerator. |
| `HcFlags.FromCode` | hc.h:14 | A value names an error code exactly when it is in 0..4. |
| `HcFlags.CodeInjective` | hc.h:14 | Distinct error codes have distinct values, so `-ret` identifies the error. |
| `HcFlags.ReturnBits` | hashcache.c:149-151 | An `int` return seen as `unsigned` is the value itself when non-negative and the value plus 2^32 when negative. `HasBit` is the `ret & HC_RET_NOATTR` and `ret & HC_RET_STALE` test on that value. |
| `Fingerprint.ParseStamp` | hc.c:69-74 | Reads an identity back exactly from 32-byte sequences that begin with `HC01`. |
| `Fingerprint.Stamp` | hc.c:69-74 | The stamp is 32 bytes, begins with `HC01`, and parses back to the identity it encodes. |
| `Fingerprint.StampOfParse` | hc.c:69-74 | Every 32-byte sequence that parses is the stamp of its parse, so the layout has no slack bytes. |
| `Fingerprint.StampMatchesIffParses` | hc.c:89 | A record's first 32 bytes equal the current stamp exactly when they parse to the current identity. |
| `Fingerprint.StampEqualIffFieldsEqual` | hc.c:69-89 | Comparing the first 32 bytes compares the fields. Two stamps are equal exactly when generation, inode, mtime and size all are. |
| `Fingerprint.Record` | hc.c:97-120 | The stored record is the stamp in bytes 0-31 followed by the digest in bytes 32-63. |
| `Fingerprint.RecordInjective` | hc.c:120 | A record determines its identity and its digest, and is determined by them. |
| `Engine.ReadIdentity` | hc.c:43-59 | A failed `fstat` or a failed generation query gives `ERR_SYSTEM`. A non-regular file gives `ERR_NOFILE`. An unsupported generation query leaves the generation 0. Otherwise the identity holds the inode, the size and the mtime converted to `uint64_t`. |
| `Engine.Decide` | hc.c:93-95 | Compute is recompute, or compute-if-missing on a record that is not current. Delete needs a record. A stale record is deleted when update is asked and nothing is computed. Update and delete are not both chosen unless both were asked. |
| `Engine.Proceed` | hc.c:89-143 | Once the record is read: the flags report exactly no record, nothing computed, stale (record missing or stamp differs), and a computed digest that differs from the record. The reported digest is the fresh one (`Engine.Fresh`, of empty input for a 0-byte file) when computed or when the size is 0, else the cached bytes, which are zero with no record. A write happens exactly when update is asked, a digest was computed, and the record is stale or disagrees; it is the current stamp plus the fresh digest. A removal happens exactly when a record exists and delete is asked, or when a stale record meets update without compute. Without failing calls there is always a report; a failure is always `-ERR_SYSTEM`. |
| `Engine.HashCache` | hc.c:36-144 | Early exits (`fstat`, not regular, generation, attribute read) come before any attribute access and return their error code. A regular file with no failing call always gets a report. Otherwise the flags, digest, write and removal are those of `Proceed`, for the identity `ReadIdentity` gives. |
| `Engine.LateFaultsFailOnlyTheirCall` | hc.c:102-125 | A failing `mmap`/`munmap`, `fsetxattr` or `fremovexattr` ends the call with `-ERR_SYSTEM` exactly when the fault-free run makes that call. A failed mapping or write leaves nothing written; a failed removal keeps the write before it. With no such failure the run is the fault-free one. |
| `Driver.FirstStop` | hashcache.c:65-97 | Gives the position of the first letter that is not one of `cdirsuq`; every letter before it is one. |
| `Driver.ParseLetters` | hashcache.c:65-100 | The loop gives help if the first unrecorded letter is `h`, and an error if it is another letter. Otherwise each of `s c r i d u q` is on exactly when its letter was given. |
| `Driver.NamedCons` | hashcache.c:67-99 | Recording one more accepted letter (`SetOption`, the `switch`) switches on exactly its option. |
| `Driver.Configure` | hashcache.c:99-106 | `-h` stops with success. An unknown letter, update with delete, or compute with recompute stops with `ERR_USAGE`. Every other letter sequence goes on to the files. No letters give show, compute and update. Any letter turns the defaults off: the options are exactly those named. |
| `Driver.RequestBits` | hashcache.c:116-128 | The bits passed to the engine stay within the four request bits. They decode in the engine to exactly recompute, compute, update and delete as the options give them. |
| `Driver.StatusLetter` | hashcache.c:167-178 | The table gives `'e'` exactly for "current without a record", or "mismatch without a record or without computing". `StatusOf` looks a report's flags up in it. |
| `Driver.Hex` | hashcache.c:161-165 | `%02x` prints two hexadecimal digits per byte. |
| `Driver.UnhexOfHex` | hashcache.c:165 | The printed digest reads back to the digest. |
| `Driver.DigestText` | hashcache.c:159-165 | The column is 64 characters. It is all `#` exactly when there is no record and nothing was computed. Otherwise it is hexadecimal and reads back to the digest. |
| `Driver.ProcessReport` | hashcache.c:144-192 | The `assert` fails exactly when show is on and the status is `'e'`, which never happens for consistent flags. `mismatch_any` gains a mismatch only with `-i` and a record. With show on, one line with the digest column and status is added. |
| `Driver.StepAsWritten` | hashcache.c:133-183 | As the code stands, an engine system error makes the `assert` fail exactly when show is on. Other events are handled as in `StepFile`. |
| `Driver.Batch` | hashcache.c:108-193 | The loop as written, one `StepAsWritten` per file, each handled report going through `Closed`. Over consistent reports, the `assert` fails exactly when `-s` is on and some file got an engine system error. After all files: `mismatch_any` is set exactly when some file was checked and mismatched. `errsys_any` is set exactly when an open or a `close` failed; an engine error alone does not set it. `err` is the last file's, and an engine error leaves only its `close` result. With `BatchShows`: under `-s` the lines are the digest column and status of each report, in order; without `-s`, none |
| `Driver.BatchCorrected` | hashcache.c:108-193 | The loop with engine system errors recorded (corrected). Over consistent reports no `assert` fails. `errsys_any` is set exactly when an open, the engine or a `close` failed. With `BatchCorrectedShows`, the same lines as the loop as written |
| `Driver.BatchShows` | hashcache.c:154-181 | When the loop as written runs to the end, under `-s` it has shown one line per report, in order, with the digest column and status letter (`Shown`); without `-s`, none. Other events show nothing. |
| `Driver.BatchCorrectedShows` | hashcache.c:154-181 | The same for the corrected loop. |
| `Driver.Main` | hashcache.c:49-205 | Bad options exit before any file with their code. No files give `ERR_USAGE`. Over consistent reports it aborts exactly when `-s` is on and some file got an engine system error. An exit status (`ExitCode`) is `ERR_MISMATCH` exactly on a checked mismatch; then `ERR_SYSTEM` if an open or `close` failed; then the last file's `err`. The code applies `ERR_SYSTEM` first and `ERR_MISMATCH` last. On exit, the printed lines are one per report, in order, under `-s`, and none without it |
| `Driver.MainCorrected` | hashcache.c:49-205 | The corrected driver: over consistent reports it always exits, and an engine system error gives `ERR_SYSTEM` unless a checked mismatch overrides it. The printed lines are as for `Main` |
| `Properties.SecondRunIsNoOp` | hc.c:89-125 | A second run on an unchanged file, with the same request (update asked, delete not) and the first run's resulting attribute, neither writes nor removes. |
| `Properties.AttributeAfterRun` | hc.c:114-125 | After a successful run, the attribute (`Engine.After`, the run's write then removal) is: exactly the current stamp with the fresh digest, for a run that computes and updates without delete. No record or a current one, for a run that updates without computing. No record for delete, unless update was also asked and there was none. Unchanged, for neither update nor delete |
| `Properties.StampTracksMetadata` | hc.c:45-74 | For one generation, the stamps of two regular files agree exactly when inode, mtime and size agree, so any change to them makes the record stale. |
| `Properties.TableMatchesClassification` | hashcache.c:168-175 | The table holds the letter of each combination's named status (new, cached, stale, refreshed, updated, verified, unexpected, none), and `'e'` exactly where no status exists. |
| `Properties.EngineReportHasStatus` | hashcache.c:177-178 | Every successful engine report has a status, so the `assert` holds for non-negative returns. |
| `Properties.EventsFor` | hashcache.c:116-135 | Running the engine with the options' request bits on each argument gives one event per argument (`EventOf`), every report consistent. The event is an engine error exactly when the file opened and the engine returned `-ERR_SYSTEM` |
| `Properties.MainOverEngineExits` | hashcache.c:108-204 | When every file goes through the engine, `main` as written reaches an exit status exactly when `-s` is off or no argument makes the engine fail with `-ERR_SYSTEM`. |
| `Properties.MainCorrectedOverEngineExits` | hashcache.c:108-204 | When every file goes through the engine, the corrected `main` always reaches an exit status. |
| `Properties.SystemReturnReadsAsCurrentWithoutRecord` | hashcache.c:149-151 | `-ERR_SYSTEM` read as report bits has "no record" set and "stale" clear. The table row for that combination is `'e'` throughout. |
| `Properties.UnreadableAttributeAbortsAsWritten` | hashcache.c:105-178 | As written, under the default options, a regular file whose attribute read fails makes the first loop step fail its `assert`, and `main` run on that file alone aborts with no line printed |
| `Properties.UnreadableAttributeLostAsWritten` | hashcache.c:133-191 | As written, without `-s` the same failure is dropped: `err` becomes success and `errsys_any` stays clear. |
| `Properties.UnreadableAttributeReportedCorrected` | hashcache.c:133-142 | With the corrected loop, that file makes `main` exit with `ERR_SYSTEM`, whatever the accepted options. |
| `Scenarios.IdOf` | hc.c:51-59 | For a regular file with a readable generation, the identity is the generation, inode, converted mtime and size. |
| `Scenarios.CurrentRecordWithWrongDigestIsFlagged` | hc.c:93-117 | A current stamp, a wrong digest and recompute give status `!` with mismatch set. With update, the record is rewritten with the fresh digest. |
| `Scenarios.StaleRecordWithSameContentIsRefreshed` | hc.c:89-121 | A stale stamp whose digest still matches, under default flags, gives status `r` with no mismatch. The record is rewritten with the new stamp and the same digest. |
| `Scenarios.StaleRecordWithoutComputeIsRemoved` | hc.c:95-125 | A stale record, with update asked and no compute, is removed, with status `s`. |
| `Scenarios.EmptyFileDigestIsDigestOfNothing` | hc.c:99-100 | A 0-byte file reports the digest of empty input, whatever the request and record. |
| `Scenarios.LifeOfAFile` | hc.c:89-125 | Under default flags: the first run gives `n` and creates the record. A rerun gives `c` and touches nothing. After content and mtime change, the next run gives `u`, reports a mismatch and stores the new digest. |
| `Scenarios.CheckOnlyWithoutRecord` | hashcache.c:99-181 | `-i` on a file without a record computes and stores nothing. `-i` alone turns showing off, so `main` prints nothing and exits with success. `-si` prints one line: `##` for the digest and status `-` |
| `Scenarios.QuietAloneDisablesDefaults` | hashcache.c:92-106 | `-q` alone gives no show, compute or update. |
| `Scenarios.ConflictingOptionsAreUsageErrors` | hashcache.c:102-103 | `-ud` and `-cr` exit with `ERR_USAGE` before any file, and show nothing. |

## Left out

- Race guard (hc.c:64-65): the wait until the wall clock passes the file's
  mtime depends on time and only delays the call.
- Opening files, and the `fd` left open after a non-regular file: the driver
  sees each argument as an event.
- Printing and `perror`: the usage and help text, the "Not a regular file"
  and "File changed" messages, and the error output. The "File changed"
  line depends on the undefined `HC_RET_MISMATCH` bit. The shown lines are
  kept as data (`Driver.Line`).
- `getopt` itself: the model takes the sequence of option letters it
  returns, not the argument vector.
- An attribute of a size other than 64 bytes. A larger one fails the read
  (`ERANGE`), which `Faults.readFails` covers. A shorter one is not reliably
  treated as absent: the code tests an `errno` the short read did not set
  (hc.c:79-86), so the outcome depends on a stale value. It is treated as
  absent when that value is `ENOATTR`, for example one left by the previous
  file's failed read, and is a system error otherwise.
- The content the engine hashes is the sequence `content`. The model does
  not tie it to the size `fstat` reported, because the file can change
  between the two.
- SHA-256 itself.

## Findings

| source | as written | input that shows it | evidently intended | confidence | as-written member | corrected member |
|---|---|---|---|---|---|---|
| hashcache.c:133-142 | A `-ERR_SYSTEM` return from `hashcache` is not skipped. Its bits are decoded as report flags: `-3` has `HC_RET_NOATTR` set and `HC_RET_STALE` clear. That reads as "no record, current", so `states[0][1][..][..]` is `'e'` and the `assert` aborts under `-s`. Without `-s`, `err` is reset to success and the error is lost. | A regular file whose attribute read fails with an error other than `ENOATTR` (for example an attribute over 64 bytes, `ERANGE`), run with default options. | Record the system error (`errsys_any`, exit `ERR_SYSTEM`) and go on with the next file, as for an open failure. | not executed; high for builds without `NDEBUG` | `Properties.UnreadableAttributeAbortsAsWritten` | `Properties.UnreadableAttributeReportedCorrected` |

`Driver.StepAsWritten`, `Driver.Batch` and `Driver.Main` model the code as it
stands. `Driver.StepFile`, `Driver.BatchCorrected` and `Driver.MainCorrected`
are the corrected loop.

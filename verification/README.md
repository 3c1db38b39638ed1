# Patcher reconcile engine — a Dafny model

This project models the reconcile engine of the game launcher's patcher, `install.js`. The engine makes an
emulator directory (`emuPath`) match a file manifest. It takes files from an existing game
installation (`swgPath`) where it can and downloads the rest. It reports byte-level progress as it goes.

It models these parts:

- **Manifest assembly.**
  - `unionByName` merges the bundled default list with the server's list. The server wins per name.
  - `getManifest` first appends nine bootstrap configuration entries when a full scan is requested or
    `swgemu.cfg` is missing from the emulator directory.
  - A failed manifest request starts nothing.
- **The session total.** `checkFiles` adds up the sizes and counts `.zip` archives twice, because an
  archive is downloaded and then extracted.
- **The controller.** This is the session state: `fileIndex`, `completedBytes`, `totalBytes`, `canceling`
  and the single worker. It covers:
  - `installedCallback`, which adds credits, forwards progress, sends the next entry or retires the worker;
  - `progress`, which is muted while cancelling;
  - `cancel`, which kills the worker.
- **The worker's per-file decision cascade.** The checks run in this order:
  - the stat of the file;
  - the size check, where size 0 means "any size";
  - the forced-verification extensions `.cfg .iff .dat .exe .m3d .flt .asi .dll`;
  - a full-scan MD5 check;
  - otherwise a copy.

  A copy whose source and target are the same path (`copyFile`'s `source == target`) completes at once.
- **The worker's accounting.** Every `{progress: n}` is counted in `progressReported`. The final
  `{complete: expectedSize - progressReported}` tops the unit's credits up to its weight.

The file system is a `Snapshot`: a map from `(root, name)` paths to size and MD5 digest. MD5 itself is
not computed. The bytes a stream delivers are modelled as a sequence of chunk lengths (`UnitIo`). Transfer
failures are optional error strings. An archive's extraction ends in one of three ways: it succeeds, it
reports an error through `extractAllToAsync`'s callback, or `new AdmZip` cannot open the file at all. The worker protocol is `Message = Text | Progress | Complete`.

The modules are:

- `JsText`: JavaScript string behaviour the source relies on. This is `toLowerCase` on ASCII, `endsWith`,
  `JSON.stringify` of a string, and when a string is loosely equal to the number 0 (StringToNumber,
  section 7.1.4.1.1 of ECMA-262). A decimal literal is zero when its digits are all zero or when its value
  is at most 2^-1075 and so rounds to +0, as `1e-400` does.
- `Files` and `Manifest`: the data model, the union, the bootstrap step and the weights.
- `Decision`: the worker's cascade.
- `Worker`: the messages one unit sends.
- `Controller`: the session state machine.
- `Reconcile`: connects worker streams to the controller and proves the end-to-end accounting.
- `Scenarios`: concrete entries.

Behaviours of `install.js` that differ from what its comments and names suggest:

- **A failing unit does not move the session on.** A failed copy or extraction calls `complete(err)`,
  which sends only `"err:" + err` and no `{complete}` message (install.js:170). A failed download never
  gets that far: its error handler calls `fs.unlink(dest)` without a callback, which throws, so the worker
  process dies (install.js:187-189). A downloaded archive that is not a readable zip file kills the worker
  the same way: `new AdmZip(dest)` throws inside the response's `end` listener, where nothing catches it
  (install.js:194, :203). The controller dispatches the next entry only on `{complete}` and has
  no `exit` handler, so either way the session stalls (`Reconcile.FailedUnitStalls`). It does not skip to
  the next file.
- **Forced-extension files are not always re-downloaded.** The comment in `getManifest` says "force
  download" (install.js:13). The cascade downloads such a file only when it is missing from the destination, or when
  its digest is stale and the MD5 field is not the `0` sentinel.
- **A cancel does not stop the session from starting.** If `cancel` arrives while the manifest is still
  being fetched, `checkFiles` still forks the worker and sends the first entry (install.js:44-68). Only the forwarding of
  progress stays off.
- **Archives are credited twice their size even when copied.** An archive that is copied rather than
  downloaded is never extracted. Its credits still reach twice its size, because `complete` doubles every
  `.zip` name whatever the action was (install.js:172-174).
- **Progress can overshoot.** The running total can pass `totalBytes` mid-unit when a forced-extension
  file fails its MD5 check (install.js:139-143, `Scenarios.StaleForcedFileOvercredits`). The bytes hashed are credited and so are
  the bytes downloaded. The final `{complete}` brings the unit back to its weight.

## Model

| member | source | states |
|---|---|---|
| Manifest.UnionByName | install.js:33-40 | The result is every entry of `a` whose name `b` does not use, in `a`'s order, followed by all of `b`. |
| Manifest.MergeMembership | install.js:33-40 | An entry is in the union exactly when it is in `b`, or it is in `a` under a name `b` does not use. |
| Manifest.MergePrecedence | install.js:35-38 | For a name the server list uses, any union entry with that name comes from the server list. When the server names each file once, it is exactly the server's entry for that name. |
| Manifest.MergeUnique | install.js:33-40 | Two lists with unique names merge into a list with unique names. |
| Manifest.GetManifest | install.js:7-31 | A failed request yields no manifest. Otherwise the server list is the manifest's tail, and an entry is in the manifest exactly when the server lists it or it is a default (or, with a full scan or a missing `swgemu.cfg`, a bootstrap entry) whose name the server does not use. Ahead of the server list come the surviving defaults, in their order, then the surviving bootstrap entries, in theirs. |
| Manifest.TotalIsSessionWeight | install.js:55-59 | The sum of sizes plus the sum of archive sizes equals the sum of per-entry weights that `complete` credits. |
| Manifest.ComputeTotalBytes | install.js:53-59 | The total is the sum of all sizes plus the sizes of `.zip` entries again. It equals the sum of entry weights. |
| Decision.Decide | install.js:110-163 | With the corrected MD5 sentinel: a stat failure or size mismatch downloads without hashing, whatever the extension. A forced-extension file is never copied and never retracted. A copy runs from the inspected path to the target. Every download fetches the entry's URL into the target, unzipping exactly for `.zip` names. |
| Decision.DecideAsWritten | install.js:133-162 | The cascade with the source's loose `md5 != 0` test, which also reads literals that round to zero as 0, decides exactly as the corrected one for every MD5 field that is not a well-formed digest reading as zero. |
| Decision.DecideDownloadsIff | install.js:117-163 | A unit downloads exactly when one of four things holds: the stat fails; the size mismatches; a forced file is absent from the destination; or a forced file or a full-scanned file is stale. |
| Decision.DecideSkipsIff | install.js:133-148 | The cascade calls `complete()` itself, starting neither a copy nor a download, exactly when a forced file is installed, fits in size and is not stale. |
| Decision.DecideCopiesIff | install.js:151-162 | A unit copies exactly when the file is found, fits, has no forced extension, and either no full scan runs or the scan finds it current. |
| Decision.DecideHashesIff | install.js:133-162 | The MD5 of the file is read exactly when the inspected file exists and fits, and then, for a forced extension, when the file is installed in the destination, and otherwise when the run is a full scan. |
| Decision.DecideRetractsIff | install.js:152-157 | `progress(-size)` is sent exactly when a full scan finds a stale file of an unforced extension. |
| Decision.SentinelNeverDownloads | install.js:138-148 | An installed forced file that fits and carries the MD5 sentinel `0` is left as it is. |
| Decision.ReconciledNeedsNoTransfer | install.js:115-116 | A file already installed with the right size and digest needs no transfer: it is skipped or copied onto itself. |
| Decision.CopyIsSelfIff | install.js:111-116 | A copy's source is its target exactly when the file is already installed or the two roots coincide. |
| Decision.UnverifiedAgreesOffDigests | install.js:140 | The corrected sentinel test agrees with the source's `md5 != 0` on every field that is not a well-formed 32-digit hex digest. |
| Decision.TinyLiteralIsSentinel | install.js:140 | The field `1e-400`, which StringToNumber rounds to 0, is the sentinel both as written and once corrected. The two cascades agree on it, and an installed forced file that fits is kept. |
| Decision.MagicDigestCountsAsZero | install.js:140 | A genuine MD5 digest, `0e462097431906509019562988736854`, is loosely equal to 0 as written, so the source never verifies it. The corrected test does verify it. |
| Decision.MagicDigestKeptAsWritten | install.js:139-157 | For an entry carrying that digest whose installed file fits but differs: as written, a forced file is kept and a plain file on a full scan is copied without retraction; the corrected decision downloads both. |
| Decision.GenuineDigestIsVerified | install.js:139-143 | With the corrected sentinel, an installed forced file that fits but whose digest differs from a genuine digest is downloaded again. |
| Worker.Transfer | install.js:165-229 | A transfer ends on a `{complete}` exactly when it succeeds, and no earlier message is a `{complete}`. |
| Worker.RunUnit | install.js:110-179 | The same holds for a whole unit, including its MD5 read and any retraction: it ends on a `{complete}` exactly when its transfer succeeds, and no earlier message is a `{complete}`. |
| Worker.TransferAccounting | install.js:165-179 | A transfer that succeeds closes with exactly one `{complete}`. Its credits equal the entry's weight less what was already reported. |
| Worker.UnitAccounting | install.js:169-179 | A unit that succeeds credits exactly its weight, size or twice size for an archive, in any plan and any chunking. Its single `{complete}` is the last message. |
| Worker.UnitFailureNeverCompletes | install.js:169-170 | A unit whose stream, copy or extraction fails sends no `{complete}` message. |
| Worker.FailedTransferNeverCompletes | install.js:165-191 | A failed transfer sends no `{complete}` message, whichever way it fails. |
| Worker.FailedTransferEnding | install.js:165-204 | A failed copy, or an extraction whose callback reports an error, ends on its `err:` line. A failed download, or a download `new AdmZip` cannot open, ends after its progress with nothing more, because the worker crashes. The transfer consists only of progress exactly in those cases. |
| Worker.NoTransferIgnoresIo | install.js:214-215 | A skipped or self-copied unit succeeds, and its messages do not depend on any transfer or extraction outcome. |
| Scenarios.StaleForcedFileOvercredits | install.js:139-143 | An installed 100-byte forced file with a stale digest is hashed and then downloaded, with no retraction. Before its `{complete}` it has been credited more than its weight. |
| Scenarios.StaleAsiIsRefetched | install.js:139-143 | An installed `.asi` file of the right size whose digest `def` differs from the manifest's `abc` is hashed and downloaded again, without a retraction. |
| Controller.CheckFiles | install.js:53-68 | The corrected `checkFiles`: it records the manifest and its total without touching `completedBytes` or `canceling`. An empty manifest forks and sends nothing. |
| Controller.CheckFilesStarts | install.js:62-67 | A non-empty manifest forks the worker, which is then listed in `forks` and running, sends it the first entry and advances the index past it. |
| Controller.Step | install.js:69-96 | Neither a message nor `cancel` changes the manifest or the total. A message adds exactly its credit and leaves `canceling` alone. `cancel` sets `canceling`, empties `forks` and kills the worker exactly when it was listed. Every kill leaves the worker dead and unlisted, and nothing is forwarded while cancelling. |
| Controller.StepDispatch | install.js:70-86 | No message sends anything but the next unsent entries, in order. The index never passes the end of the manifest. |
| Controller.StepForwardsUnlessCancelling | install.js:80-88 | A credit adds to `completedBytes`. The new total is forwarded exactly when not cancelling. |
| Controller.CompleteStep | install.js:70-78 | A `{complete}` adds its bytes. While entries remain it sends exactly the next one and advances the index. After the last one it sends nothing and retires the worker. |
| Controller.LastCompletionRetires | install.js:74-78 | The completion that arrives after the last entry was sent removes the worker from `forks` and kills it. It sends nothing. |
| Controller.DispatchesInOrder | install.js:66-79 | Over any run, the entries sent are exactly a prefix of the manifest, in manifest order. |
| Controller.DispatchesEachOnce | install.js:66-79 | With unique names, no entry is sent twice. |
| Controller.CancelledRunIsSilent | install.js:87-89 | Once cancelling, no further progress is forwarded and the flag stays set. |
| Controller.NothingForwardedAfterCancel | install.js:92-96 | Whatever arrives after `cancel` forwards no progress. |
| Controller.CancelStopsWorker | install.js:92-96 | After `cancel`, the worker of a session started by the corrected `checkFiles` is dead and stays dead. |
| Controller.CancelDuringFetchStillDispatches | install.js:44-68 | A cancel before the manifest arrives still lets `checkFiles` fork the worker and send the first entry. |
| Controller.EmptyManifestOrphansWorker | install.js:63-68 | As written, an empty manifest leaves a live worker that is not in `forks`. It survives every later message and `cancel`. |
| Reconcile.UnitRun | install.js:70-79 | Feeding a successful unit's messages to the controller adds exactly its weight. It either sends the next entry or retires the worker. |
| Reconcile.QuietRun | install.js:80-84 | Messages with no `{complete}` only add their credits to `completedBytes` and send no entry. |
| Reconcile.ClosedRun | install.js:70-84 | Progress followed by one `{complete}` adds all their credits. The controller then sends the next entry or, at the end of the manifest, retires the worker. |
| Reconcile.FailedUnitStalls | install.js:165-204 | Feeding a failed unit's messages changes only `completedBytes` and sends nothing, so the session stops there. After a failed download or an unreadable archive the worker process is dead but still listed in `forks`. |
| Reconcile.SessionAccounting | install.js:53-79 | For any manifest, the empty one included, when every unit succeeds the session ends with `completedBytes == totalBytes`, every entry sent exactly once in order, and the worker retired. |
| Reconcile.ReconciledUnitMovesNothing | install.js:115-116 | An entry already installed correctly succeeds without depending on any transfer. |
| Scenarios.BootstrapEntriesAreForced | install.js:15-23 | Every bootstrap file has a forced-verification extension. |
| Scenarios.BootstrapFetchedOnlyWhenMissing | install.js:133-148 | A bootstrap file is downloaded when it is missing from the destination, and otherwise left alone whatever its content. |
| Scenarios.MissingFileIsDownloaded | install.js:117-118 | A plain file found in neither tree is downloaded without hashing and credits its size. |
| Scenarios.InstalledFileCreditsAtOnce | install.js:214-215 | On a run without a full scan, an installed plain file of the right size sends one `complete:` line and one `{complete}` of its full size. |
| Scenarios.InstalledFileFullScanHashes | install.js:152-160 | On a full scan the same installed, current file is hashed first and then copied onto itself: it sends its hash progress, the `complete:` line and `{complete: 0}`. |
| Scenarios.ArchiveCreditsTwice | install.js:172-174 | A downloaded and extracted 1000-byte archive credits 2000 bytes. |

## Left out

- Decision.Decide: the cascade uses the corrected MD5 sentinel, under which a well-formed digest is always compared. The cascade as written is `Decision.DecideAsWritten`; the two differ only on digests such as the one in "## Findings".
- Controller.CheckFiles: this is the corrected `checkFiles`, which forks nothing for an empty manifest. The code as written is `Controller.CheckFilesAsWritten`. `DispatchesInOrder`, `CancelStopsWorker` and `SessionAccounting` are stated over the corrected version.
- Controller.Session: one `install()` call is modelled. In the source, `canceling` and `forks` are shared by all sessions (install.js:42-43), and every `install()` clears `canceling` (install.js:46). So a later `install()` turns forwarding back on for an earlier session that is still running, and a later `cancel` kills the workers of both. The per-session flag makes "once cancelling, always cancelling" hold only within one session.
- JsText.ZeroUnsignedDecimal: rounds a decimal literal exactly, to nearest with ties to even, as Node does. ECMA-262 (RoundMVResult) also lets an implementation cut a literal of more than 20 significant digits after its 20th digit, which can change the result only for a value close to 2^-1075.
- Sizes, totals and credits are JavaScript numbers (doubles), exact only below 2^53. The model uses unbounded integers.
- Network, file system and process I/O are parameters: a `Snapshot` of existing files and a `UnitIo` of chunk lengths and error outcomes. This covers `request`, streams, `fork`, `mkdirp`, AdmZip extraction and the MD5 computation.
- The configuration lookup of the manifest URL (`ipc.invoke`, `server[config.login]`) is left out: it only chooses where the request goes.
- A server reply without a `required` list is left out; `unionByName` would throw on it.
- Manifest.UnionByName: a lookup over a plain JavaScript object would also report names such as `constructor` as present. The model treats every name literally.
- Md5Field models the MD5 field as the number 0 or a string. Other JSON values are left out, and they do not all behave alike. `false != 0` is false, so `false` acts as the sentinel. A non-zero number, `true`, `null` and a missing `md5` (`undefined`) are not sentinels. Each is compared against its `String()` text, such as `"null"` or `"undefined"`, which no MD5 digest equals, so a file that is hashed is always found stale (install.js:140, :154).
- JsText.Lower: lower-cases ASCII only. Non-ASCII case mapping of file names is left out.
- Path joining and normalisation are left out: a `Path` is a `(root, name)` pair, and two paths are the same exactly when both parts are equal.
- HTTP status codes are not checked by the source. The model likewise treats any response body as the file.
- Diagnostic text messages other than the `err:` and `complete:` lines are left out, including the stat failure's `err: ` line (install.js:118) and the `unzipping` line (install.js:202). The controller only logs them, through `JSON.stringify`.
- The model assumes a progress callback is installed. Without one, nothing is forwarded, cancelled or not.
- The model has a single worker, as in the source (`i < 1`). A larger pool is left out.
- A read error on an MD5 stream is left out. The stream has no `error` listener (install.js:209-211), so the error crashes the worker and the session stalls as after a failed download.
- The renderer, the main process, `md5.js`, the setup scripts and the preload script are not part of this model.

## Findings

| source | as written | input that shows it | evidently intended | confidence | as-written member | corrected member |
|---|---|---|---|---|---|---|
| install.js:140 | `fileInfo.md5 != 0` is a loose comparison. Any string that reads as the number zero counts as the "no checksum" sentinel. | A forced-extension file whose genuine MD5 digest is `0e462097431906509019562988736854` (the digest of `240610708`). It is never checked, so a corrupted copy is kept. | A well-formed digest is always compared. | medium, not executed | Decision.MagicDigestKeptAsWritten | Decision.GenuineDigestIsVerified |
| install.js:63-68 | `fork.send(files[fileIndex++])` runs before `forks.push(fork)`. | An empty manifest. `send(undefined)` throws after the worker was spawned and before it was recorded, so `cancel` can never kill it. | An empty manifest starts no worker, so every worker is in `forks`. | medium, not executed | Controller.EmptyManifestOrphansWorker | Controller.CancelStopsWorker |

The same loose comparison appears in the full-scan branch at install.js:154. The corrected `Decision.Unverified`
is used in both branches.

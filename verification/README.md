# Node-RED Control Center: a verified model

Node-RED Control Center manages a Node-RED installation: it rewrites `settings.js`, keeps a
structured mirror of it in `config.json`, keeps environment variables, audit logs and backups. This
project models the parts of it that have to hold under failures, concurrency and crashes, and proves
what they promise, for every input and every run of the model.

| module | what it models |
|---|---|
| `ConfigStore`, `ApplyRuntime` | one apply transaction: revision check, structured commit, snapshot, atomic write, mirror reconciliation, restart, readiness and rollback, with environment updates between any two steps |
| `ApplyCoordinator` | any number of transactions on any paths: the single-flight slots and the recovery points they protect |
| `AuditLog` | the audit log: rotation by hard links, with a failing or crashing file system |
| `JsScan`, `JsString`, `JsBraces`, `JsEdit`, `JsObject`, `JsInsert`, `JsPatch`, `JsNested`, `LoggingModel`, `LoggingPatch`, `LoggingLimits`, `LoggingComments` | the source patcher for the logging block: scanner, quoting, edits, insertion, patch and parse, and where its law ends |
| `Envelope` | the streamed encrypted envelope |
| `EnvStore` | the environment store: set, delete, batch, source merge and the optimistic migration |
| `JsonMerge` | the presence-aware JSON merge |
| `BackupArchive` | creating, verifying and restoring backup archives |
| `Throttle` | the per-client request throttle with its sweep |
| `Wrappers`, `Lexical` | shared result types and the order of strings |

`dafny verify dfyconfig.toml` checks everything.

How the model reads the code:

- A call that may fail returns an arbitrary outcome; what a failing call leaves behind is modelled
  (a rename that happened before the error, a snapshot kept although the call failed, part of a line).
  A link or a remove of the audit log that fails is taken to have had no effect. The size of its files
  counts characters of the lines, which stand for their bytes.
- An update of the JSON store is atomic, and stores what the value becomes when it is written and read
  back. `Codec`, `Crypto`, `Cipher`, `World` carry the laws of JSON, encryption, sealing and checksums.
- The JavaScript sandbox, the rendering of `settings.js`, clocks, random names and the runtime adapter
  are parameters or free choices.
- Text is a sequence of code points; every character the scanner looks at is ASCII, so this is the
  byte scan up to the numbering of offsets. A slice whose bounds are inverted is a panic in Go: such
  inputs are outside the preconditions `Upright`, `Safe` and `Applicable`, and
  `JsScan.EntriesInOrder` says exactly which entries are inverted.

- The order of the handlers is a parameter of the logging patch, and its laws hold for every order;
  `LoggingPatch.HandlerNames` computes the one the code uses.
- An environment update may commit between any two accesses of the store by a transaction; it cannot
  be seen at any other point, so that is where `ApplyRuntime.Host.Others` gives it its turn.

What the proofs found:

- A rollback gives back every field of the store only if each committed value survives being written
  as JSON and read back (`ConfigStore.RollbackErases`: if and only if). A value that does not is no
  longer recognised as the transaction's own and stays.
- A rollback of a raw apply also undoes an environment update that came in meanwhile and happens to
  agree with the source (`ConfigStore.MirrorLosesAgreeingUpdate`); any other update makes it keep the
  rejected source's environment (`ConfigStore.MirrorKeepsRejectedEnv`). `ConfigStore.MirrorErases` says
  exactly when neither happens. Without an earlier mirror it deletes the store whatever was added to it
  since.
- A rollback of a structured apply leaves a store behind where there was none.
- A first apply has no snapshot, so nothing is rolled back when its restart fails: the new file stays.
- Two rotations of the audit log at one clock reading can put the newest backup first in the pruning
  order (`AuditLog.StandingClockBreaksOrder`; `AuditLog.RotationKeepsOrderIff` says exactly when).
- The batch commit of environment variables agrees with repeated single sets exactly when the stored
  keys are distinct (`EnvStore.BatchAgreesIffDistinct`).
- Two patches that set `port` and `uiPort` do not commute (`JsonMerge.PatchesCommute`).
- The comment on the envelope (internal/service/crypto.go:172-181) speaks of a nonce field per chunk
  and an exclusive or; the code writes no such field and overwrites the low eight bytes of the nonce.
  The model follows the code. Bytes after the end marker are ignored.
- The comment on duplicated keys (internal/service/logging_scan.go:113-115) takes the first occurrence
  for the one JavaScript reads; the patcher edits the first, the parser keeps the last. So what is
  submitted for a repeated handler or property is written and not read back, and the law of patch and
  parse holds exactly without such repetitions (`LoggingLimits.PatchThenParseIff`).
- A new handler is added behind the last character that is no white space, also when that belongs to a
  line comment: the comment swallows its comma, and the entry too when the text has one line
  (`LoggingComments.CommentHidesHandler`, and `LoggingComments.PatchThenParseClosedIff` for the law).

## Model

| member | source | states |
|---|---|---|
| ApplyRuntime.Host.Apply | internal/service/apply_runtime.go:28-112 | One transaction under every failure and every interleaving with environment updates. Success replaces exactly the revision the caller saw, snapshots it, and leaves the committed configuration. A failure with no failing restore leaves `settings.js` as it was (unless the write failed after its rename); then a structured request leaves a store, the earlier one (or the empty one) with only the environment updates if and only if no committed value sticks; a raw request leaves the earlier one with only the updates if and only if no reconciled value sticks and the restore leaves the environment the updates make, and without an earlier store it leaves what the updates after the rollback make of nothing. Without an earlier file nothing is rolled back. Whatever fails, `settings.js` is the old or the whole new file. No snapshot is altered. What is committed and rendered has the submitted ports and fields (or follows the source, as for the reconciliation) and keeps what the updates and other services made of the rest. A revision that is not the live one is refused and changes nothing. |
| ApplyRuntime.Host.TransactStructured | internal/service/apply_coordinator.go:209-234 | The same for a structured request: committed first, undone field by field; a store that did not exist before is there afterwards, with nothing but the updates if and only if no committed value sticks; the file is the old or the whole new one. The committed configuration has the submitted ports and fields, and the environment, libraries and runtime state of the store the updates made. |
| ApplyRuntime.Host.TransactRaw | internal/service/apply.go:215-310 | The same for a raw request: source first, then the mirror; all or nothing on a reconcile error; with the exact condition for an existing mirror and the deletion of one that did not exist; the file is the old or the whole new one. The committed mirror follows the source: declared fields from the source, the others from the mirror. |
| ApplyRuntime.Host.RunRuntime | internal/service/apply_runtime.go:64-109 | Restart and readiness; when one fails the recovery runs, and the file and the store are what the recovery leaves, at whichever step it stops. |
| ApplyRuntime.Host.ExecuteRollback | internal/service/apply_rollback.go:117-238 | Refuses without a snapshot, changing nothing. The file is what it was or the snapshot, and the snapshot as soon as it was written, also when restoring the state, the restart or the readiness probe fails; the state is put back unless the recovery stopped before, whatever updates arrived. |
| ApplyRuntime.Host.CommitStructured | internal/service/config.go:239-311 | Publishes the edit against the store as it is under the lock, or leaves the store to the other writers: both ports and every field are the submitted ones, the environment, libraries and runtime state are those of the store, path and source as given. |
| ApplyRuntime.Host.RestoreStructured | internal/service/config.go:342-347 | Puts the previous value into every field that still holds the committed one. |
| ApplyRuntime.Host.ReconcileRaw | internal/service/config_reconcile.go:84-123 | Commits the reconciliation of the applied source with the mirror as it is under the lock: every declared field has the source's value, every other one the mirror's; a failure leaves the mirror. |
| ApplyRuntime.Host.RestoreMirror | internal/service/config_reconcile.go:129-137 | Restores the mirror field by field, or deletes it when there was none. |
| ApplyRuntime.Host.AtomicWrite | internal/service/apply_atomic.go:93-140 | The file is the old or the whole new one; success means the new one; an error may come after the rename. |
| ApplyRuntime.Host.WriteSnapshot | internal/service/apply_snapshot.go:84-110 | A snapshot is made under a name nobody had, with the given bytes; an existing one is never rewritten; a failing call may still leave a complete new one. |
| ApplyRuntime.Host.BackupLive | internal/service/apply.go:352-374 | The one new snapshot holds the live bytes; without a live file there is none. |
| ApplyRuntime.Host.CheckCandidate | internal/service/apply.go:316-340 | A candidate that passes was read by the sandbox and carries the live revision, or none. |
| ApplyRuntime.Host.RestoreSource | internal/service/apply.go:380-388 | The file is what it was or the earlier bytes (or the earlier absence); success means the latter. |
| ApplyRuntime.StructuredErased | internal/service/apply_rollback.go:193-237 | A structured commit that was put back leaves only the environment updates, exactly when nothing sticks. |
| ApplyRuntime.MirrorErased | internal/service/apply_runtime.go:92-98 | The same for a reconciled mirror, for every interleaving, with the exact condition on the environment. |
| ConfigStore.RollbackErases | internal/service/config.go:342-384 | For every interleaving of environment updates before, between and after, commit and restore leave the store with those updates only, if and only if every committed value survives being stored or equals what was there. |
| ConfigStore.MirrorErases | internal/service/config_reconcile.go:129-137 | For every interleaving of updates before, between and after: the mirror ends with those updates only, if and only if every reconciled value survives being stored or equals what was there, and the environment the restore leaves becomes, by the updates that follow, what the updates alone make. |
| ConfigStore.EnvErasedWhen | internal/service/config.go:379-384 | The environment part holds whatever follows if and only if the restore leaves what the updates in between make; no update in between, or a source with nothing new for the environment, is enough. |
| ConfigStore.MirrorKeepsRejectedEnv | internal/service/config_reconcile.go:133-136 | Any update that changes the reconciled environment makes the whole-slice comparison fail, so the rejected source's environment stays in the store. |
| ConfigStore.MirrorLosesAgreeingUpdate | internal/service/config_reconcile.go:133-136 | An update that agrees with the source is undone with it: the environment goes back to the earlier one although the update alone changes it. |
| ConfigStore.ReconcileAgain | internal/service/config_reconcile.go:146-225 | Reconciling the stored mirror with the same source again changes nothing. |
| ConfigStore.RestoreUnchangedFields | internal/service/config.go:368-384 | The loop over the fields restores exactly those that still hold the committed value. |
| ConfigStore.ReconcileWithSource | internal/service/config_reconcile.go:146-225 | A declared field takes the source's value and every other field stays; the ports change together, the editor theme and the environment only with an evaluated source, libraries and runtime state never. |
| ConfigStore.ReconcileCommit | internal/service/config_reconcile.go:99-115 | What is published is the validated reconciliation, which follows the source in this sense; a store that did not exist starts from the parsed source. |
| ConfigStore.EnvAllKeeps | internal/service/config.go:292-298 | Environment updates of a stored configuration change nothing but the environment. |
| ApplyCoordinator.Coordinator.Acquire | internal/service/apply_coordinator.go:238-258 | Grants the slot unless a flight that is not done holds it. |
| ApplyCoordinator.Coordinator.Release | internal/service/apply_coordinator.go:262-270 | Removes the slot if it is still this flight's, and closes the flight. |
| ApplyCoordinator.EveryRun | internal/service/apply_coordinator.go:127-149 | In every run of any number of interleaved transactions the slots are sound and every file and recovery point is what the previous slot holder left. |
| ApplyCoordinator.SingleFlight | internal/service/apply_coordinator.go:238-270 | No two transactions hold the slot of one path, a caller is refused while it is held, the flight in the map is never done (the branch for it is dead), and no channel is closed twice. |
| ApplyCoordinator.FreeWhenUnheld | internal/service/apply_coordinator.go:262-270 | A path is in the map if and only if some transaction holds its slot: none is left locked out. |
| ApplyCoordinator.RecoveryPoint | internal/service/apply.go:352-374 | A transaction's snapshot is exactly the file the previous slot holder left (none if there was none), and no later step of anybody alters or removes it. |
| AuditLog.Lifetime | internal/audit/audit.go:137-203 | Over any actions, failing calls, closes, crashes at any call of the current action and restarts, at every call of the run: every file keeps its contents and only the newest may grow, the newest file stays readable, everything written at the start and, in order, every line reported persisted before is written; no file is lost before a disk had more than five backups, and afterwards only by a call that removes the oldest of more than five while a writer's file is there, so at least five backups of files of their own remain; every backup the run makes holds a file of the full size; a running service has no writer on a file a backup shares; and with an increasing clock the log stays in order. |
| AuditLog.Service.Log | internal/audit/audit.go:153-203 | An event is reported persisted exactly when its whole line was appended; a rotation without error leaves exactly five backups, or one more than there were if those are fewer; without a rotation no backup comes; unless it rotates and finds five backups no file is lost; every call it makes keeps the contents of every file and loses none but the oldest of more than five backups, and wherever the process stops the disk follows from the one before. It rotates exactly when the event was persisted and what the writer counts, the file at its opening and every whole line since, reaches the maximal size with the new line. |
| AuditLog.Service.Rotate | internal/audit/audit.go:275-310 | A rotation without error has moved the active file to the first free name at the reading, kept the newest five names (or all of fewer) and left a writer on an empty file; whichever call fails and wherever it stops, every file keeps its contents, no file is lost if there were fewer than five backups, otherwise only the oldest of more than five, never the newest, and the order is kept. |
| AuditLog.Service.EnsureAvailable | internal/audit/audit.go:252-260 | A writer is opened only once no backup name shares the active file. |
| AuditLog.Service.CleanupAliasedBackups | internal/audit/audit.go:319-348 | Success means no backup name shares the active file; whichever call fails, every file keeps its contents and exactly the files that were lost before are lost. |
| AuditLog.Service.SelectBackupName | internal/audit/audit.go:262-273 | The name has the current time and the first ordinal that is not taken. |
| AuditLog.Service.PruneOld | internal/audit/audit.go:419-430 | Only oldest backups go; after success exactly the newest five remain, or all of fewer, and wherever it stops at least so many; with no more than five nothing changes. |
| AuditLog.Service.MoveAside | internal/audit/audit.go:275-310 | The file moves from its active name to its backup name; whichever call fails, no file is lost. |
| AuditLog.Service.Close | internal/audit/audit.go:222-232 | Closing changes no file. |
| AuditLog.OnDiskIsSuffix | internal/audit/audit.go:384-430 | On a disk in order, what can still be read is a suffix of everything ever written. |
| AuditLog.OneNameEach | internal/audit/audit.go:319-348 | Without an alias every readable file, and so every event in it, is reachable under exactly one name. |
| AuditLog.NothingLost | internal/audit/audit.go:384-430 | As long as no file is lost, everything ever written can be read. |
| AuditLog.PersistedReadable | internal/audit/audit.go:153-203 | Before any file is lost, every line reported persisted can be read, in order. |
| AuditLog.LostOnlyByPruning | internal/audit/audit.go:419-430 | Along any chain of legal calls no file is lost before a disk had more than five backups. |
| AuditLog.LossIsPruning | internal/audit/audit.go:419-430 | A file that a call loses was the oldest of more than five backups and not the active one. |
| AuditLog.LossNeedsFullFiles | internal/audit/audit.go:195-200 | No file is lost before the backups of the start and those made since, each a full file, were more than five. |
| AuditLog.NewestFilesReadable | internal/audit/audit.go:384-430 | On a disk in order what can be read is the whole of the newest files, as many as there are backups of files of their own, and the active one. |
| AuditLog.LinkKeepsOrderIff | internal/audit/audit.go:275-310 | Giving the active file a backup name keeps the log in order if and only if the name sorts behind every backup. |
| AuditLog.RotationKeepsOrderIff | internal/audit/audit.go:262-273 | For the name a rotation selects: if and only if no backup carries a later reading, and those of the same reading are of the old format or have a lower ordinal. |
| AuditLog.StandingClockBreaksOrder | internal/audit/audit.go:262-273 | With a clock that stands still, six rotations of full files, each a rotation as the service makes it, lead to a disk on which the next one selects the first ordinal again, and the newest file sorts first. |
| AuditLog.Sort | internal/audit/audit.go:384-417 | The backups in strictly ascending order, all of them and no others. |
| AuditLog.OlderFirst | internal/audit/audit.go:384-417 | Older readings sort first; at one reading legacy files, then the current format by ordinal, then others by name. |
| JsScan.EntriesInOrder | internal/service/logging_scan.go:63-111 | Every text is scanned to its end into entries in increasing order with spans that do not overlap; a value span is non-empty exactly when there is a value, and inverted exactly when there is none and white space precedes. |
| JsScan.ScanObjectEntries | internal/service/logging_scan.go:63-111 | The scan loop finds exactly the entries of the specification, on every text. |
| JsScan.ScanValueEnd | internal/service/logging_scan.go:309-351 | The token-jumping loop stops where the character automaton does. |
| JsScan.SkipTemplate | internal/service/logging_scan.go:365-383 | Mutually recursive with the brace skipper, it terminates and ends where the automaton leaves the template, or reports that it never does. |
| JsScan.SkipBraces | internal/service/logging_scan.go:387-413 | The same for the braces of a substitution. |
| JsScan.SkipQuoted | internal/service/logging_scan.go:292-302 | Just past the closing quote, escapes skipped, or -1. |
| JsScan.SkipSpaceAndComments | internal/service/logging_scan.go:239-253 | The next character that is neither white space nor in a comment. |
| JsScan.ScanKey | internal/service/logging_scan.go:256-276 | The property name at the offset and its end, quoted or bare. |
| JsScan.TrimTrailingSpace | internal/service/logging_scan.go:356-361 | The end without the white space before it. |
| JsBraces.FindMatchingBrace | internal/service/config.go:1761-1808 | The brace the automaton matches, with its own reading of templates and of the shortest comment, or -1. |
| JsBraces.ObjectBodyOf | internal/service/logging_scan.go:174-184 | The body of an object literal whose inside is balanced is found, whatever follows the literal. |
| JsString.QuoteString | internal/service/logging.go:252-277 | The loop writes the escaped literal. |
| JsString.UnescapeString | internal/service/logging.go:538-578 | The loop resolves the escapes, halves of surrogate pairs included. |
| JsString.UnescapeEscaped | internal/service/logging.go:538-578 | Unescaping an escaped string gives the string back. |
| JsString.EscapesMean | internal/service/logging.go:538-578 | What each escape stands for; an unknown one is the character itself. |
| JsString.UnicodeMeans | internal/service/logging.go:538-578 | A unicode escape is its code unit, half a surrogate pair the replacement character, and without four digits just the letter. |
| JsString.QuotedKeyAt | internal/service/logging_scan.go:256-276 | A quoted key is the raw text between the quotes. |
| JsString.ParseQuoted | internal/service/logging.go:521-534 | Parsing a quoted string gives the string back. |
| JsString.QuotedIsOneToken | internal/service/logging.go:252-277 | Whatever stands before and after, the scanner sees the quoted string as exactly one token. |
| JsEdit.ApplyEdits | internal/service/logging_scan.go:30-40 | The loop applies the edits from the last start to the first. |
| JsEdit.LastToFirst | internal/service/logging_scan.go:30-40 | For disjoint edits in any order this is one splice from left to right: everything outside them keeps content and order. |
| JsObject.BodyScanned | internal/service/logging_scan.go:63-111 | In the text of a tidy body (regular, repeated keys allowed) the scanner finds exactly its entries, where they are. |
| JsInsert.ExtendText | internal/service/logging_scan.go:133-171 | The inserted text is the rendering of the new entries behind the old ones, with the separators of the layout. |
| JsInsert.NewEntriesLine | internal/service/logging_scan.go:133-171 | In a body on several lines each new entry has a line of its own with the indentation of the last entry's line (two blanks more than the closing line in an empty object), else all stay on the line. |
| JsInsert.LineIndentIs | internal/service/logging_scan.go:133-171 | That indentation is the whole run of blanks and tabs the line begins with. |
| JsInsert.ExtendRegular | internal/service/logging_scan.go:133-171 | Inserting entries with new keys keeps a body tidy, and a regular one regular. |
| JsPatch.FirstByKey | internal/service/logging_scan.go:116-124 | Each name with its first entry. |
| JsPatch.PatchText | internal/service/logging.go:346-390 | On a tidy body the edits are disjoint, and their splice replaces exactly the values that were to change, of a repeated key the first, and adds the missing entries behind the last. |
| JsNested.ObjectIsValue | internal/service/logging_scan.go:309-351 | A tidy body in braces is one closed value to both readers. |
| LoggingModel.ReadLiteral | internal/service/logging.go:229-246 | A rendered property reads back as its value. |
| LoggingModel.LiteralText | internal/service/logging.go:229-246 | A property is rendered if and only if it is a level that is not empty, or one of the two flags. |
| LoggingModel.WrittenLiteral | internal/service/logging.go:229-246 | The level is written as a quoted escaped string, a set flag as true, a cleared one as false. |
| LoggingModel.RenderLoggingHandler | internal/service/logging.go:205-222 | The loop renders, in the fixed order, exactly the level that is not empty and the flags. |
| LoggingModel.RenderedIs | internal/service/logging.go:205-222 | A rendered handler has exactly the properties that can be rendered. |
| LoggingModel.MergedProps | internal/service/logging.go:398-446 | The merged handler has its old properties overridden by the renderable submitted ones. |
| LoggingPatch.MergeLoggingHandlerValue | internal/service/logging.go:398-446 | The loop computes the merge; a value that is no object literal is replaced by the whole rendered entry if there is anything to render, and otherwise kept. |
| LoggingPatch.MergeLaw | internal/service/logging.go:398-446 | Merging into a handler with a tidy body gives a closed value; if no property is said twice it says the old properties overridden by the submitted ones. |
| LoggingPatch.PatchLoggingBody | internal/service/logging.go:346-390 | The loop computes the patch, the default console handler included. |
| LoggingPatch.PatchThenParse | internal/service/logging.go:346-390 | Parsing a patched block gives, for every name, the old model overridden pointwise by every submitted level that is not empty and every submitted flag, plus the default console handler when neither side has one, on every block in which no handler stands twice and no handler says a property again further on. |
| LoggingPatch.PatchAgain | internal/service/logging.go:346-390 | Patching a patched block makes no edit: not a character changes, repeated names or not. |
| LoggingPatch.PatchKeepsBlock | internal/service/logging.go:346-390 | The handlers stay in order with everything around their values, and a handler that is not submitted keeps its value. |
| LoggingPatch.PatchKeepsHandler | internal/service/logging.go:398-446 | In a bare literal nothing changes outside the values of the submitted properties and the added entries: every other entry, a handler function say, keeps its text. |
| LoggingPatch.PatchedBlockTidy | internal/service/logging.go:346-390 | A patched block is tidy again, and unambiguous if it was, so the laws hold for any number of patches. |
| LoggingPatch.PatchLoggingEntry | internal/service/logging.go:327-342 | The body inside the first braces is patched, the rest of the entry is not touched. |
| LoggingPatch.PatchEntryThenParse | internal/service/logging.go:478-508 | The patch and parse law for the whole `logging: { ... }` entry. |
| LoggingLimits.PatchThenParseIff | internal/service/logging.go:346-390 | Over all tidy blocks, repeated names or not: the patch and parse law holds for every submission and every name if and only if no handler stands in the block twice and no property can be read from an entry of a handler that an earlier one of its name precedes. |
| LoggingLimits.RepeatedHandlerUnheard | internal/service/logging_scan.go:116-124 | Whatever is submitted for a handler that stands twice, the block says of it what it said before. |
| LoggingLimits.RepeatedPropertyUnheard | internal/service/logging.go:398-446 | The same for a property a handler says again further on. |
| LoggingLimits.LevelOfRepeatedConsole | internal/service/logging.go:346-390 | In `console: {}, console: {}` a submitted level is not read back. |
| LoggingComments.CommentHidesHandler | internal/service/logging_scan.go:133-171 | Whatever new handler is submitted to a block whose last value, without a comma, runs into a line comment, it is not read back. |
| LoggingComments.PatchThenParseClosedIff | internal/service/logging_scan.go:133-171 | Over all tidy blocks and all that would be but for such a comment: the patch and parse law holds for every submission and every name if and only if the block is unambiguous and its last value is closed. |
| LoggingPatch.ParseLoggingBody | internal/service/logging.go:478-508 | The loop reads the model; a later handler of a name wins, one that is no object literal has no property. |
| LoggingPatch.HandlerNames | internal/service/logging.go:109-125 | Every handler once: the managed ones first, the others in ascending order. |
| Envelope.EncryptStream | internal/service/crypto.go:193-258 | Without a fault the output is the envelope of the input; with one it is a prefix of an envelope. |
| Envelope.DecryptStream | internal/service/crypto.go:275-320 | Success means the whole plaintext was written and the envelope was whole; what is written before an error is a prefix of the plaintext. |
| Envelope.RoundTrip | internal/service/crypto.go:275-320 | Decoding an envelope gives the plaintext, whatever follows the end marker. |
| Envelope.TruncationRefused | internal/service/crypto.go:296-319 | Every proper prefix of an envelope is refused, and what it yields before is a prefix of the plaintext. |
| Envelope.EnvelopeSize | internal/service/crypto.go:208-257 | The envelope has 39 + n + 20 times the number of chunks bytes. |
| Envelope.FrameLength | internal/service/crypto.go:208-257 | A frame announces the length of its ciphertext, never zero. |
| Envelope.NoncesDistinct | internal/service/crypto.go:264-269 | The nonces of a stream are pairwise distinct if and only if it has at most 2^64 chunks. |
| Envelope.NonceParts | internal/service/crypto.go:264-269 | A chunk's nonce keeps the first four bytes of the base, and its last eight read back as the counter modulo 2^64. |
| Envelope.BigEndianRoundTrip | internal/service/crypto.go:233-246 | Reading a big-endian number gives its value modulo the width. |
| EnvStore.BatchIsFoldedSet | internal/service/env_bulk_linux.go:200-253 | On distinct keys the batch commit is the fold of the single set, up to the blank source label. |
| EnvStore.BatchAgreesIffDistinct | internal/service/env_bulk_linux.go:200-253 | It agrees for every batch if and only if the stored keys are distinct. |
| EnvStore.Service.Set | internal/service/env_linux.go:272-344 | Succeeds exactly on a valid key whose value can be encrypted if it has to be. Then the first entry of the key has the submitted kind, description, flag and origin, and the submitted value, encrypted if it has to be, except that an empty value keeps that of an encrypted entry; no other entry changes, and a new key is appended once. An error changes nothing. |
| EnvStore.Service.Delete | internal/service/env_linux.go:347-379 | Removes every entry of the key and no other. |
| EnvStore.Service.ApplyBatch | internal/service/env_bulk_linux.go:200-253 | Commits exactly when every line passes the value check and would be accepted by a single set; otherwise nothing changes. Then, line by line, the indexed entry of the key is stored as by a single set, with a blank origin, and an empty value keeps a stored secret. |
| EnvStore.Service.ApplyBulk | internal/service/env_bulk_linux.go:151-195 | On distinct keys the store becomes the fold of the single set over the accepted lines, up to the source label, with keys still distinct; it succeeds exactly when every line is accepted. On any store the lines before the first refused one are stored one after the other as described for the batch or the single set. |
| EnvStore.Service.List | internal/service/env_linux.go:149-195 | Whenever the migration commits, over any interleaved updates, each new ciphertext decrypts to the value stored at commit time, everything else is unchanged and nothing needs migration. A reader never sees the value of an encrypted entry and sees every other value; only kinds of the old vocabulary or outdated by encryption change. |
| EnvStore.MergeEnvVars | internal/service/config_reconcile.go:257-282 | The loop over the index map computes the merge: declaration by declaration, the indexed entry takes the value, and the kind if one is given, unless it is encrypted or a secret; nothing else changes, a new key is appended. |
| EnvStore.DeclaredKeeps | internal/service/config_reconcile.go:257-282 | Whatever the source declares, every entry keeps its key, description, flag and origin; secrets and undeclared keys keep everything. |
| EnvStore.MergeSourceIdempotent | internal/service/config_reconcile.go:257-282 | Merging the same source again changes nothing. |
| EnvStore.MergeSourceKeepsDistinct | internal/service/config_reconcile.go:257-282 | Distinct keys stay distinct. |
| EnvStore.SetOneKeepsDistinct | internal/service/env_linux.go:272-344 | A single set keeps keys distinct. |
| EnvStore.WithoutKey | internal/service/env_linux.go:347-363 | What is left after a delete is exactly the entries of the other keys, and keys stay distinct. |
| EnvStore.WithoutAppend | internal/service/env_linux.go:347-363 | What is left keeps its order. |
| EnvStore.ValidKeyIs | internal/service/env_linux.go:60-68 | A key is valid if and only if it is not empty and has no NUL, line break or equals sign. |
| JsonMerge.MergeValue | internal/service/config_patch.go:81-101 | The overlay loop computes the recursive merge. |
| JsonMerge.MergeAt | internal/service/config_patch.go:81-101 | The value at every path after a merge, at any depth. |
| JsonMerge.MergeInstalls | internal/service/config_patch.go:81-101 | Where either side is no object the patch's value is installed. |
| JsonMerge.MergeIdempotent | internal/service/config_patch.go:81-101 | Merging the same patch again changes nothing. |
| JsonMerge.MergeCommutes | internal/service/config_patch.go:81-101 | Two patches commute on every document if and only if they agree wherever both reach. |
| JsonMerge.MergePatch | internal/service/config_patch.go:29-61 | The field-wise merge, with the port following the editor port. |
| JsonMerge.PatchKeeps | internal/service/config_patch.go:29-61 | A path the patch does not reach keeps its value. |
| JsonMerge.PatchIdempotent | internal/service/config_patch.go:29-61 | Patching again changes nothing. |
| JsonMerge.PortFollows | internal/service/config_patch.go:29-61 | The port follows a submitted editor port unless a port is submitted itself. |
| JsonMerge.PatchesCommute | internal/service/config_patch.go:29-61 | Configuration patches commute if and only if they are compatible and no port clash arises. |
| BackupArchive.VerifyArchive | internal/service/backup.go:1193-1267 | Accepts exactly the archives whose payload is the one their manifest records. |
| BackupArchive.ManifestDecides | internal/service/backup.go:1193-1267 | Archives consistent with one manifest have the same files with the same contents. |
| BackupArchive.TamperedIsInconsistent | internal/service/backup.go:1226-1264 | An extra, missing or altered payload entry makes the archive inconsistent with the manifest. |
| BackupArchive.DataDir.CreateBackup | internal/service/backup.go:649-757 | What is published is the archive of the listed files that exist, its manifest rewritten with their checksums. |
| BackupArchive.CreatedIsConsistent | internal/service/backup.go:833-903 | A created archive passes verification. |
| BackupArchive.DataDir.StageRestore | internal/service/backup.go:1273-1309 | Stages every payload entry where its name leads, or refuses one that is special, outside or over the cap. |
| BackupArchive.DataDir.SwapIn | internal/service/backup.go:1317-1342 | Success puts every staged file in place; stopping half way leaves each file as it was or as staged. |
| BackupArchive.DataDir.Restore | internal/service/backup.go:490-528 | An archive that fails verification, or has a payload entry that is special, outside or over the cap, changes nothing; success overlays exactly the staged files; in between each file is old or new; only a failing call can stop a restorable archive. |
| BackupArchive.RestoredIsCaptured | internal/service/backup.go:490-528 | What a fresh backup restores is exactly the captured bytes. |
| BackupArchive.CreatedIsRestorable | internal/service/backup.go:1273-1342 | A fresh backup of files under the cap is restorable. |
| Throttle.Limiter.Allow | internal/middleware/throttle.go:43-69 | The decision and the new window counters of one request, sweep included. A client that made no more than the limit (at least one) of requests within the last period is let through. |
| Throttle.SweepUnobservable | internal/middleware/throttle.go:43-69 | With readings that do not go back the swept counters decide as an unswept counter per client. |
| Throttle.SweepUnobservableIff | internal/middleware/throttle.go:43-69 | On any readings the swept and the unswept counter decide alike on every request of a client, whatever the limit, if and only if no request of it comes back into a window whose end some reading had reached. |
| Throttle.MonotoneNeverLate | internal/middleware/throttle.go:43-69 | On readings that do not go back none ever does. |
| Throttle.AtMostTwiceTheLimit | internal/middleware/throttle.go:43-69 | Any half-open interval of one period admits at most twice the limit (taken as at least one) per client. |
| Throttle.WithinLimitAdmitted | internal/middleware/throttle.go:63-68 | The same for the reference and the swept counter, on any readings that do not go back. |
| Throttle.SweepObservableWhenClockGoesBack | internal/middleware/throttle.go:44-47 | With a reading that goes back the sweep can be seen. |

## Left out

- The law of patch and parse is stated for tidy blocks: entries with identifier keys and closed non-empty values, handlers that are object literals, braces balanced for both readers, nothing but white space after the last entry. Among these the exact condition is proved; quoted keys, shorthand methods, handlers that are no object literals and other comments behind the last entry than a line comment its value runs into are scanned by the model but covered by no law.
- Finding the `logging:` line in a whole settings.js (internal/service/config.go:1692-1756): the laws start from the entry.
- Invalid UTF-8 in a submitted level: the model's strings are code points.
- Audit events of the apply service, their metadata and redaction, and the diff in the result.
- The apply path without a runtime adapter, and the save paths that bypass the coordinator.
- The copy of the rejected candidate that a rollback keeps beside the live file.
- Temporary siblings, permissions, symbolic links, path cleaning and the order of fsyncs: only atomic rename, exclusive create, link and remove are modelled.
- How the sandbox and the regular expressions parse and render settings.js: a parameter.
- The text level of JSON: documents are trees, numbers and strings are opaque.
- The parse of a bulk environment file and the validation of values: lines arrive parsed, validity is a parameter.
- The synchronisation of environment variables with the Node-RED globals and the restart after a change.
- The date format of audit backup names: a name is what it parses to.
- Backup retention, scheduling, remote providers, the safety backup before a restore and the listing of archives.
- BackupArchive.DataDir.Restore: where a name leads inside the data directory is a parameter, so path traversal is not decided here.
- Handlers, routing, the frontend, metrics, authentication, MFA, flow diffs, pagination: plumbing or clearly easier than what is here.

# OpenChrome: a verified model

This project models the parts of OpenChrome whose correctness depends on interleavings, on long runs, or on
recursion over data, and proves what they keep:

- the tenant key log (`KeyLog`, `KeySync`, `KeyRuns`, `KeyMarks`, `KeyStore`, `KeyCodec`, `Utf8`, `Unicode`): several
  processes append to and read one JSON-lines file, each with an in-memory index and a byte cursor;
- the controller lock (`LockRuns`, `LockInodes`, `ControllerLock`): a lock file with dead-owner recovery,
  health-checked takeover and heartbeats, once with whole decisions as steps and once at the level of inodes;
- the browser layer (`ClientRuns`, `LaunchFailure`, `Scheduler`, `BatchLimiter`, `PagePool`, `NamedContexts`):
  connection generations, the launch-failure handler, the screenshot queue, the page pool and the named contexts;
- playbooks (`Json`, `Schema`, `SchemaKeywords`, `SchemaPaths`, `SchemaReports`, `SchemaValidator`, `Vars`, `Playbook`,
  `PlaybookValidation`): the JSON Schema validator, variable substitution, the runner, and the preparation that simulates it;
- text and bits (`Recovery`, `JsText`, `JsBits`, `Base32`, `Base62`, `Totp`): recovery of the first of several concatenated
  JSON objects, base32 and base62, and one-time codes.

Files that change step by step in the source are classes and methods here. Concurrent ones come twice: as a state
machine over values, whose steps are the code between two awaits and whose runs are all sequences of enabled
steps, and as a class whose methods are proved to take exactly those steps and to leave the fields as they state. Theorems are about every run. Where
a property that the source or its comments promise turns out false, a lemma gives the run that breaks it, and
another lemma says when it does hold.

What the models take from outside:

- Hashes, argon2, the regular expression engine and `JSON.parse`/`JSON.stringify` are functions of which only the
  stated laws are used. `KeyLog.Lawful` asks of the key codec that a printed record is one line that begins with
  an ASCII byte and parses back, and that no strict prefix of it parses; `KeyCodec.LawfulExists` shows that such
  codecs exist.
- The browser, Chrome, the launcher, timers, probes, the network and the other processes are events that may
  happen at any time, or values that may be anything.
- In `KeyRuns` the cross-process lock is correct and new inodes have new numbers; nothing else is asked of the
  outside. At any time, also inside a critical section, a process may crash at any byte, and the file may be
  created, replaced, deleted, or rewritten in place with any contents. Three steps taint a process until a sync
  empties its fields: a read of complete lines with ill-formed text that decoding lengthens (`Misread`, exact by
  `KeySync.ReadTracks`); a change of the file after which the same inode reaches the cursor with other bytes below
  it (`Overtaken`, see `KeyMarks.RegrownIff`); and the end of an append whose file was changed since the stat inside
  the lock, or whose record does not agree with what it closes (exact by `KeySync.AppendAgreesIff` and
  `KeyMarks.FinishRightIff`). Nothing is claimed of a tainted store. `KeyMarks.UndisturbedUnmarked` says when no
  process is ever tainted.

Findings, each with its counterexample and its condition:

- A crash that loses only the line feed of a record makes the next writer's index miss a key that every replay has.
- A log that is replaced between a writer's sync and its append leaves that writer behind a key on disk that its
  index does not have (`KeyMarks.ReplacedUnderWriter`); one replaced while it is open for the append leaves the
  writer with a key that is nowhere on disk (`ReplacedUnderOpenWriter`). `FinishRightIff` says exactly when a
  writer is right.
- A log that is cut and grows back past a reader's cursor between two stats is not noticed
  (`KeyMarks.RegrowthUnnoticed`, and `RegrownIff` for exactly when it does not matter).
- Cursor arithmetic on the decoded text is right exactly when no ill-formed subpart is shorter than its
  replacement (`Utf8.LengthPreservedIff`).
- Comments promise that hosts which share a lock directory never race. Only the health check compares the host:
  `acquireControllerLock` looks the owner's process id up on its own host and unlinks the file of a live owner of
  another host (`LockRuns.AcquireUnlinksHolderIff`, `SharedDirectoryUnlocks`). `LockRuns.ExclusionIff` says exactly
  which runs keep every holder's file linked.
- A handle released twice unlinks the newer lock of its process (`LockRuns.SecondReleaseUnlocks`).
- A takeover is decided on a heartbeat read before the probes and compares only process id and start, so a
  heartbeat during the probes does not save the owner (`LateHeartbeatEvicted`, and `EvictedIff` for exactly when).
- A contender that reads the lock between truncation and rewriting of a heartbeat takes it from a live owner
  (`LockInodes.TruncatedReadUnlinks`), and one whose read finds the lock just released may unlink the next one
  (`MissedReadUnlinks`).
- `forceReconnect` clears the browser field after an await and can forget a newer connection
  (`ClientRuns.NewerBrowserForgotten`, and `ForgottenIff` for exactly when).
- A late tab close is charged to the next context of the same name and can close it with a tab open
  (`NamedContexts.LateTabClosesNewContext`, and `RunKeepsCountsIff` for exactly when).
- A page released twice can be lent again after the pool asked to close it (`PagePool.ReleasedTwice`,
  and `KeptOpenIff` for exactly when).
- The two copies of the recovery loop differ in one call of `trim`: behind a byte order mark they recover different
  objects (`Recovery.MarkedFileDisagrees`, and `CopiesAgreeIff` for exactly when).

## Model

| member | source | states |
|---|---|---|
| `Utf8.DecodedConcat` | src/auth/api-key-store.ts:229-234 | Decoding a file in two pieces gives the text of the whole when the cut is after a line feed or before an ASCII byte, whatever the bytes |
| `Utf8.LengthPreservedIff` | src/auth/api-key-store.ts:229-234 | The byte count of the decoded text, by which the cursor moves, equals the bytes read exactly when no ill-formed subpart is one or two bytes long |
| `Utf8.CutPreservedIff` | src/auth/api-key-store.ts:321-330 | A prefix of well-formed text keeps its byte count when decoded exactly when the cut is not one or two bytes into a longer character |
| `Unicode.WellFormedIff` | src/auth/api-key-store.ts:229-234 | The decoder finds a character at the front of bytes exactly when they begin with the arithmetic encoding (RFC 3629, section 3) of a scalar value, and takes just that encoding |
| `Unicode.SubpartMaximal` | src/auth/api-key-store.ts:229-234 | What it takes otherwise is the longest beginning of some character that is there, or one byte |
| `Unicode.DecodedReplacement` | src/auth/api-key-store.ts:229-234 | And puts the encoding of U+FFFD for it |
| `Unicode.DecodedEncoded` | src/auth/api-key-store.ts:229-234 | The encoding of any sequence of scalar values decodes to itself |
| `Unicode.DecodedSameIff` | src/auth/api-key-store.ts:229-234 | Bytes decode to themselves exactly when they are the encoding of some sequence of scalar values |
| `KeyLog.SplitJoined` | src/auth/api-key-store.ts:163-163 | Lines without line feeds, joined by line feeds, split into these lines |
| `KeyLog.JoinedSplit` | src/auth/api-key-store.ts:163-163 | Every text is its lines joined by line feeds |
| `KeyLog.ApplyRecordIs` | src/auth/api-key-store.ts:173-178 | A record replaces the one of its key and touches no other; only a revocation time other than 0 is kept when the record has none |
| `KeyLog.ReplayConcat` | src/auth/api-key-store.ts:162-180 | Replaying a log that ends with a line feed and then what follows it is one replay of both |
| `KeyLog.ReplayKeyed` | src/auth/api-key-store.ts:162-180 | Every index that a replay builds holds each record under its own key id |
| `KeyLog.RevokedStaysApplied` | src/auth/api-key-store.ts:173-178 | No lines, whatever they say, make a revoked key active |
| `KeyLog.RevokedForever` | src/auth/api-key-store.ts:162-180 | Once a complete prefix of the log revokes a key, every replay of any longer log has it revoked |
| `KeySync.CompleteDecoded` | src/auth/api-key-store.ts:229-233 | Cutting the decoded chunk at its last line feed takes exactly the complete lines of the bytes |
| `KeySync.ReadTracks` | src/auth/api-key-store.ts:208-238 | A read leaves index and cursor equal to a replay of what was seen plus the complete lines read, exactly when those preserve their length |
| `KeySync.AppendedReplay` | src/auth/api-key-store.ts:301-331 | After an append with its newline repair the whole file replays to the complete lines, then the torn tail as a line, then the record |
| `KeySync.AppendAgreesIff` | src/auth/api-key-store.ts:321-330 | The index a writer keeps after an append is the replay of the file exactly when the tail it closed changes nothing it keeps and the record clears no revocation |
| `KeyRuns.StepKeepsInv` | src/auth/api-key-store.ts:162-331 | Each step of any process, a crash at any byte of an append included, and each creation, replacement, deletion or rewriting of the file with any contents at any time, keeps: the index of an untainted process is the replay up to its cursor at a boundary, and only the lock holder is in its section |
| `KeyRuns.IndexIsReplay` | src/auth/api-key-store.ts:185-331 | In every run, whatever happens to the file and to the processes at any time, each untainted process has the index of the plain replay of the bytes before its cursor, which is 0 or just after a line feed, whenever its inode is still the log and reaches its cursor; what taints a process is one of three concrete steps, until a sync empties its fields |
| `KeyRuns.OutsideSteps` | src/auth/api-key-store.ts:185-331 | What happens from outside changes the file alone; a crash empties one process and frees its lock |
| `KeyMarks.UndisturbedUnmarked` | src/auth/api-key-store.ts:263-331 | From a clean log no process is ever tainted when outside changes come between the sections, leave clean contents and overtake no cursor in place, crashes leave harmless tails, clocks are positive and key ids new |
| `KeyMarks.FinishRightIff` | src/auth/api-key-store.ts:301-331 | In every run a writer that ends its append, whatever happened to the file before or after it was opened, is right exactly when the file it then finds ends with a line feed and says of the record and of all other keys what its index says; an unmarked writer always finds one |
| `KeyMarks.TouchedWriterIff` | src/auth/api-key-store.ts:301-331 | If the line begins a line of a file changed before it was opened, exactly when that file agrees on all other keys and has the key revoked only if the record revokes it |
| `KeyMarks.GluedWriterIff` | src/auth/api-key-store.ts:301-331 | If the line is glued to a torn tail instead, exactly when the complete lines it met and the glued line say just what its index says |
| `KeyMarks.ReplacedUnderWriter` | src/auth/api-key-store.ts:263-331 | A run in which the file is replaced between a writer's sync and its append: its cursor ends behind a key on disk that its index does not have |
| `KeyMarks.ReplacedUnderOpenWriter` | src/auth/api-key-store.ts:301-331 | A run in which the file is replaced after the writer opened it: its index also has a key that no replay has |
| `KeyRuns.AppendsExtend` | src/auth/api-key-store.ts:301-331 | Runs of appends only extend the file |
| `KeyRuns.FreshSync` | src/auth/api-key-store.ts:185-238 | A sync with a fresh stat, in a process that is untainted after it, ends with exactly the replay of the lines complete at its stat, whatever peers append meanwhile |
| `KeyRuns.IncrementalEqualsBatch` | src/auth/api-key-store.ts:185-238 | After any run, with any outside changes and crashes at any time, an uninterrupted sync ends with the index of one replay of the final complete lines, unless its store is still tainted after the stat |
| `KeyRuns.RevokedInEveryReplay` | src/auth/api-key-store.ts:343-458 | After any run of appends by any processes a key revoked in a complete line is revoked in the replay |
| `KeyRuns.KnownInEveryReplay` | src/auth/api-key-store.ts:343-458 | And a key on disk stays on disk |
| `KeyRuns.RevokeTakesEffect` | src/auth/api-key-store.ts:381-392 | Among any peers, a revoking section that appends nothing has found the key revoked on disk, and one that ends its append unmarked leaves it revoked in every replay |
| `KeyRuns.RotatedInRun` | src/auth/api-key-store.ts:394-408 | Among any peers between and after the two sections of a rotation, the new record is on disk when the second one ends, with the old key revoked, and after any further appends the old key is still revoked and the new one still known |
| `KeyRuns.LaterSyncSeesRevocation` | src/auth/api-key-store.ts:410-441 | Every sync that takes its stat after the revoking line, in any process, ends with the key revoked |
| `KeyMarks.CrashHarmlessIff` | src/auth/api-key-store.ts:301-331 | The fragment a crash leaves is harmless exactly when it is not a whole record without line feed and the cut is not one or two bytes into a longer character |
| `KeyMarks.LostLineFeed` | src/auth/api-key-store.ts:321-330 | Otherwise the next writer's cursor passes a record that its index does not have |
| `KeyMarks.CursorPastTornCharacter` | src/auth/api-key-store.ts:229-234 | Otherwise a reader's cursor runs past the end of the file |
| `KeyMarks.RegrowthUnnoticed` | src/auth/api-key-store.ts:197-206 | A file that shrinks and grows back to the cursor in place between two stats is not noticed |
| `KeyMarks.RegrownIff` | src/auth/api-key-store.ts:197-206 | A store that has read a file is right for the file cut and grown past its cursor exactly when the cursor is at a boundary there and the new bytes behind the last line that is left replay to what the old ones did |
| `KeyCodec.LawfulExists` | src/auth/api-key-store.ts:162-180 | The laws asked of the codec are consistent: some codec has them |
| `KeyStore.ApiKeyStore.constructor` | src/auth/api-key-store.ts:114-160 | Opening creates a missing log and runs the first sync: the index is the replay of the log and the cursor is at its last boundary |
| `KeyStore.ApiKeyStore.EnsureFile` | src/auth/api-key-store.ts:282-288 | A missing log is created empty, and an existing one is left alone |
| `KeyStore.ApiKeyStore.ApplyLines` | src/auth/api-key-store.ts:162-180 | The loop over the lines computes the replay of the text |
| `KeyStore.ApiKeyStore.StatStep` | src/auth/api-key-store.ts:185-208 | The code before the read empties the index and the cursor for another inode or a shorter file, and all fields for a missing one; it returns the size to read up to |
| `KeyStore.ApiKeyStore.ReadStep` | src/auth/api-key-store.ts:208-238 | Nothing to read changes nothing, a short read empties the fields, and else exactly the complete lines of the bytes up to the size are applied and the cursor moves by their length as text |
| `KeyStore.ApiKeyStore.DoSyncFromDisk` | src/auth/api-key-store.ts:185-238 | An uninterrupted sync ends with the index of the file and the cursor at its last boundary, or with empty fields when the log is missing; where the complete lines are the UTF-8 of any text, the index is that of these bytes as they stand |
| `KeyStore.ApiKeyStore.AppendRecord` | src/auth/api-key-store.ts:301-331 | The file grows by a line feed behind a torn tail, the record and a line feed; the record is set in the index and the cursor is at the end |
| `KeyStore.ApiKeyStore.Commit` | src/auth/api-key-store.ts:263-331 | A critical section changes the replay of the file by exactly the decided record |
| `KeyStore.ApiKeyStore.Create` | src/auth/api-key-store.ts:343-374 | Adds exactly one active key with the input's tenant, scopes, description and expiry, or refuses an empty tenant or scope list |
| `KeyStore.ApiKeyStore.Revoke` | src/auth/api-key-store.ts:381-392 | The key on disk is revoked, once; nothing else changes |
| `KeyStore.ApiKeyStore.TouchLastUsed` | src/auth/api-key-store.ts:443-458 | Changes the last-used time on disk and no key's revocation |
| `KeyStore.ApiKeyStore.Rotate` | src/auth/api-key-store.ts:394-408 | The old key ends revoked, one new active key has its tenant, scopes, description and expiry, all other keys are as before; for a stored key with an empty tenant or scope list the old key is revoked and no key is added |
| `KeyStore.ApiKeyStore.Verify` | src/auth/api-key-store.ts:410-441 | Accepts exactly a key that is on disk, not revoked, not expired, and whose hash matches |
| `KeyStore.SyncCatchesUp` | src/auth/api-key-store.ts:185-238 | A sync of a quiet file from any valid state ends at the last boundary with the replay of the complete lines |
| `KeyStore.SyncOfText` | src/auth/api-key-store.ts:185-238 | When the complete lines are the UTF-8 of any text, whatever the torn tail, a sync of a quiet file gives the records of these bytes unchanged and the cursor just behind the last line feed |
| `KeyStore.CommitReplays` | src/auth/api-key-store.ts:301-331 | The file after the append of a decided record replays to the old index with that record set |
| `LockRuns.StepKeepsInv` | src/chrome/controller-lock.ts:138-186 | Over any hosts and handles each step keeps: handles belong to live processes and to files created earlier, suspicions to live processes, and the linked file names the process of its handle |
| `LockRuns.StepKeepsHoldersIff` | src/chrome/controller-lock.ts:138-186 | A step keeps every holder's file linked exactly when it is neither an acquire by a host without a process of the holder's id nor a release of another handle, or of one released before, with the holder's process id |
| `LockRuns.ExclusionIff` | src/chrome/controller-lock.ts:138-186 | Over any hosts and any handles, every holder's file is the linked one in all worlds of a run up to n exactly when no step before n meets one of these guards |
| `LockRuns.MutualExclusion` | src/chrome/controller-lock.ts:138-186 | So in every run on one host whose processes keep at most one handle, and release no old one again while they have one, at most one live process holds a handle that was neither released nor taken over, and it is the linked file |
| `LockRuns.DeadOwnerReplaced` | src/chrome/controller-lock.ts:160-173 | When the owner of the linked file crashes, two turns of any other process of its host unlink it and hold a new lock |
| `LockRuns.AcquireUnlinksHolderIff` | src/chrome/controller-lock.ts:160-173 | Acquiring unlinks a live holder's file exactly when the caller's host has no process with the holder's id; never on the holder's own host |
| `LockRuns.SharedDirectoryUnlocks` | src/chrome/controller-lock.ts:160-173 | A run in which two hosts with a shared directory both hold the lock |
| `LockRuns.ReleaseUnlinksHolderIff` | src/chrome/controller-lock.ts:178-186 | Releasing one handle unlinks another holder's file exactly when both have one process id |
| `LockRuns.UntidyReleaseUnlocks` | src/chrome/controller-lock.ts:178-186 | For any number of probes, a run in which a process that keeps a handle that was taken over, and acquires again, loses exclusion by releasing the old one |
| `LockRuns.SecondReleaseUnlocks` | src/chrome/controller-lock.ts:178-186 | A run in which a process that acquires again loses exclusion by releasing its first handle a second time |
| `LockRuns.SuspicionGrounded` | src/chrome/controller-lock.ts:358-381 | Behind every suspicion is an earlier state in which the contender saw that owner, alive, on its own host, with a heartbeat graceMs old, and since then only failed probes, as many as counted |
| `LockRuns.TakeOverGrounded` | src/chrome/controller-lock.ts:298-309 | A takeover that removes a lock removes the process id and start seen then, after exactly probeAttempts failed probes, or one where that is less than one, and no answered one; it ends no handle but the linked one |
| `LockRuns.RefreshedNeverEvicted` | src/chrome/controller-lock.ts:370-377 | An owner whose heartbeat is never graceMs old while it is linked is never taken over |
| `LockRuns.EvictedIff` | src/chrome/controller-lock.ts:298-309 | A step evicts a handle exactly when it is the takeover of a contender with at least probeAttempts failed probes and at least one, and the linked file is that handle's, with the process id and start it suspected; the heartbeat does not matter |
| `LockRuns.LateHeartbeatEvicted` | src/chrome/controller-lock.ts:298-309 | For any number of probes, a run in which an owner is taken over although its heartbeat is of this very moment |
| `LockInodes.OwnerNeverChanges` | src/chrome/controller-lock.ts:406-452 | Under every interleaving of create, write, truncate, read and unlink, by acquiring, takeover and release, an inode names the same process and start whenever it can be read |
| `LockInodes.HeartbeatTouchesOwnFile` | src/chrome/controller-lock.ts:411-451 | A heartbeat step never changes the link, nor a file of another owner, also when its own lock is taken over while its process lives; what it writes names the recorded owner |
| `LockInodes.NeverLinkedAgain` | src/chrome/controller-lock.ts:402-452 | An inode that is no longer linked, by whatever unlink, is never linked again: a lock that was taken over is not resurrected |
| `LockInodes.NeverReplaced` | src/chrome/controller-lock.ts:146-173 | The exclusive create never takes the place of a linked file: only an unlink changes a link, and leaves none |
| `LockInodes.UnlinkRemovesJudged` | src/chrome/controller-lock.ts:160-309 | Whoever unlinks the readable inode it read removes what it judged: a dead owner's file when acquiring, the compared process id and start in a takeover, its own process id in a release |
| `LockInodes.UnlinkOfLiveOwner` | src/chrome/controller-lock.ts:160-173 | A contender unlinks a live process's file only if its read found no file, or could not read it, or judged an earlier file at the path |
| `LockInodes.CreatedAlone` | src/chrome/controller-lock.ts:146-159 | Creating and writing, uninterrupted, link a file that names the process and its start |
| `LockInodes.JudgedAlone` | src/chrome/controller-lock.ts:160-173 | A colliding contender, uninterrupted, judges just the linked file, may unlink it exactly when it cannot be read or its process is dead, and otherwise leaves all as it was |
| `LockInodes.TakenOverAlone` | src/chrome/controller-lock.ts:298-309 | A takeover, uninterrupted, unlinks exactly the file whose process id and start were judged |
| `LockInodes.ReleasedAlone` | src/chrome/controller-lock.ts:178-186 | A release, uninterrupted, unlinks the file of its own process or an unreadable one, and leaves any other |
| `LockInodes.BeatAlone` | src/chrome/controller-lock.ts:406-452 | A heartbeat, uninterrupted, gives the linked file of its process the time and changes nothing else |
| `LockInodes.OtherBeatAlone` | src/chrome/controller-lock.ts:411-432 | It changes nothing when the linked file is of another process or unreadable |
| `LockInodes.MissedReadUnlinks` | src/chrome/controller-lock.ts:160-173 | A run in which a contender collides with a lock, reads after its release, and unlinks the live lock created since |
| `LockInodes.TruncatedReadUnlinks` | src/chrome/controller-lock.ts:92-120 | A run in which a contender reads a just-truncated file and takes a live owner's lock |
| `ControllerLock.LockDirectory.AcquireTurn` | src/chrome/controller-lock.ts:146-175 | One turn of the acquire loop is the machine's step: without a file it creates one for the process and this time, with a living owner it changes nothing and reports it, with a dead one it unlinks |
| `ControllerLock.LockDirectory.ReleaseLock` | src/chrome/controller-lock.ts:178-186 | Releasing a handle, for the first time or again, is the machine's step: the file goes unless it names another process id |
| `ControllerLock.LockDirectory.UnlinkStaleLock` | src/chrome/controller-lock.ts:298-309 | Compare-and-unlink is the machine's step: true exactly when the lock was gone or names the judged process id and start, and then it is gone |
| `ControllerLock.LockDirectory.RecordHeartbeat` | src/chrome/controller-lock.ts:406-452 | The heartbeat is the machine's step: a file with this process id gets the time, any other file is left alone |
| `ControllerLock.ProbeOwnerHealthy` | src/chrome/controller-lock.ts:277-289 | True exactly when the first probe, or one numbered below the wanted attempts, is answered |
| `ControllerLock.Judge` | src/chrome/controller-lock.ts:361-381 | Goes on exactly for a duplicate error that is enabled, of an owner of this host or of none, whose heartbeat is graceMs old, with the first probe and all below the wanted attempts unanswered |
| `ControllerLock.AcquireWithHealthCheck` | src/chrome/controller-lock.ts:326-399 | Returns what the deciding call met: every earlier call met an owner of this host past the grace none of whose probes was answered, with takeovers to spare; at most maxTakeovers takeovers, counted one by one, and maxTakeovers + 8 turns before a last call |
| `ControllerLock.TakenOverInVain` | src/chrome/controller-lock.ts:379-391 | So each takeover follows a call whose owner answered none of its probes |
| `ClientRuns.StepKeepsInv` | src/cdp/client.ts:622-839 | Each step of any connect, forceReconnect, handleDisconnect or disconnect keeps the four invariants below |
| `ClientRuns.Generations` | src/cdp/client.ts:766-839 | In every run installs follow the generations strictly, so none installs twice; the browser is the last installed; each completed handshake was installed or else disconnected |
| `ClientRuns.CurrentInstalls` | src/cdp/client.ts:820-829 | A handshake under the current generation is its first install; one under an old generation is disconnected and leaves browser and installs alone |
| `ClientRuns.StepBegins` | src/cdp/client.ts:622-664 | In every world handleDisconnect, forceReconnect and a connect without a pending attempt make the generation one higher and begin one attempt under it: at launching, or for a forceReconnect with a browser at closing that, and with launching allowed as asked, never by handleDisconnect; no other step does |
| `ClientRuns.ReconnectCloses` | src/cdp/client.ts:1191-1209 | After forceReconnect nothing is pending; both disconnect the browser in the field, and handleDisconnect clears it |
| `ClientRuns.SupersededNeverInstalls` | src/cdp/client.ts:794-829 | In every run no attempt begun before such a step installs after it |
| `ClientRuns.UndisturbedInstalls` | src/cdp/client.ts:794-829 | In every run a new attempt whose old browser, if any, is closed and whose Chrome is launched, with no such step since, is the one whose handshake goes into the field, whatever steps others take |
| `ClientRuns.FailedRetries` | src/cdp/client.ts:836-877 | A failed attempt goes on launching as long as it may retry and is current, and is over otherwise; the handshake of the current one leaves no browser |
| `ClientRuns.CoalescedAlike` | src/cdp/client.ts:1135-1171 | Whoever waits for an attempt asked for the autoLaunch it was started with |
| `ClientRuns.InstalledAt` | src/cdp/client.ts:820-829 | The browser in the field was installed in one step, stayed there ever since, and is disconnected exactly when a later forceReconnect or disconnect disconnected it |
| `ClientRuns.ForgottenIff` | src/cdp/client.ts:1191-1219 | When forceReconnect clears the field, the field holds another browser than the one the call disconnected exactly when a newer attempt installed it; what is cleared is still connected exactly when it is newer and no step disconnected it since its install; nothing is lost while the attempt is current |
| `ClientRuns.NewerBrowserForgotten` | src/cdp/client.ts:1203-1213 | A run in which a newer, connected browser is forgotten |
| `ClientRuns.CDPClient.Connect` | src/cdp/client.ts:1135-1171 | The code after the fast path is the machine's step: a caller gets the pending attempt of its own autoLaunch, waits and calls again for another, or begins one under a new generation |
| `ClientRuns.CDPClient.ConnectSettled` | src/cdp/client.ts:1172-1179 | The `finally` clears the pending attempt only if it is still this one |
| `ClientRuns.CDPClient.ForceReconnect` | src/cdp/client.ts:1191-1209 | The code up to the first await is the machine's step: a new generation with an attempt at closing or launching, nothing pending, the browser disconnected and left in the field |
| `ClientRuns.CDPClient.ForceReconnectClosed` | src/cdp/client.ts:1210-1223 | The code after it is the machine's step: the field is cleared, and the attempt launches unless a disconnect was asked for |
| `ClientRuns.CDPClient.HandleDisconnect` | src/cdp/client.ts:622-662 | The code up to the first await is the machine's step: browser disconnected and cleared, a new generation, and an attempt under it that launches no Chrome |
| `ClientRuns.CDPClient.ChromeEnsured` | src/cdp/client.ts:794-798 | Goes on exactly when the attempt is current |
| `ClientRuns.CDPClient.HandshakeCompleted` | src/cdp/client.ts:818-829 | Installs exactly when the attempt is current, else disconnects and changes nothing |
| `ClientRuns.CDPClient.HandshakeFailed` | src/cdp/client.ts:836-877 | A current attempt cleans up the field and may pause; an old one ends |
| `ClientRuns.CDPClient.ChromeNotEnsured` | src/cdp/client.ts:722-748 | A failed launch pauses for the loop of its caller or ends |
| `ClientRuns.CDPClient.Disconnect` | src/cdp/client.ts:1294-1311 | The code of disconnect up to the await disconnects the browser and leaves it in the field |
| `ClientRuns.CDPClient.DisconnectClosed` | src/cdp/client.ts:1312-1318 | After the await the field is cleared, whatever it holds by then |
| `LaunchFailure.FlagsTell` | src/cdp/client.ts:223-231 | The two flags are up exactly when a success or a consumed failure has happened |
| `LaunchFailure.CalledAloneAndInTime` | src/cdp/client.ts:223-255 | The handler is called only while no call runs, before any managed success and before any consumed failure |
| `LaunchFailure.HandlerCalledIff` | src/cdp/client.ts:223-255 | In every run a failure calls the handler exactly when nothing has succeeded, no failure was consumed, and no call is under way or before its `finally`; nothing else calls it |
| `LaunchFailure.CallEnds` | src/cdp/client.ts:238-254 | An answered call ends with its `finally`, which lets the next failure call again |
| `LaunchFailure.NeverTwoCalls` | src/cdp/client.ts:233-254 | At no time do two calls of the handler run |
| `LaunchFailure.FailureNotice.Notify` | src/cdp/client.ts:223-248 | The code up to the await is the machine's step: it starts and records a call exactly when both flags are down and none is pending, and else changes nothing |
| `LaunchFailure.FailureNotice.HandlerAnswered` | src/cdp/client.ts:238-247 | Anything but a retryable or failed answer consumes the failure |
| `LaunchFailure.FailureNotice.Settle` | src/cdp/client.ts:249-254 | The `finally` clears the notification only if it is this one |
| `Scheduler.HandOnToHead` | src/cdp/screenshot-scheduler.ts:74-88 | A freed slot goes to the head of the queue; the branch for settled waiters is never taken |
| `Scheduler.StepKeepsInv` | src/cdp/screenshot-scheduler.ts:60-147 | Arrivals, timeouts and finished or failed captures keep the counter, the queue and the order consistent |
| `Scheduler.NoSlotLost` | src/cdp/screenshot-scheduler.ts:60-147 | In every run at most `concurrency` requests run and `maxPending` wait, and while one waits exactly `concurrency` run |
| `Scheduler.NoBarging` | src/cdp/screenshot-scheduler.ts:60-103 | When a request has started no earlier one still waits, and starts are in order of arrival |
| `Scheduler.StatusMovesForward` | src/cdp/screenshot-scheduler.ts:60-147 | A request has one status and moves only from waiting to running or timed out, and from running to completed or failed |
| `Scheduler.StatusesInRuns` | src/cdp/screenshot-scheduler.ts:60-147 | In every run each step gives exactly these statuses: a new request runs, waits or is refused by the counts of running and waiting ones, a timeout ends one, and a finished capture starts the one that has waited longest |
| `Scheduler.ScreenshotScheduler.Create` | src/cdp/screenshot-scheduler.ts:46-54 | Refused exactly unless concurrency and queue limit are safe integers from 1 on and the timeout is finite and positive; else an idle scheduler with these limits |
| `Scheduler.ScreenshotScheduler.Arrive` | src/cdp/screenshot-scheduler.ts:68-103 | The code up to the first await is the machine's step: the request runs while a slot is free, else waits while there is room, else is refused |
| `Scheduler.ScreenshotScheduler.TimedOut` | src/cdp/screenshot-scheduler.ts:90-97 | The timer is the machine's step: this request is out, and no other changes |
| `Scheduler.ScreenshotScheduler.Finish` | src/cdp/screenshot-scheduler.ts:134-146 | The end of a capture is the machine's step: this request has completed or failed, and the one that has waited longest, if any, runs |
| `Scheduler.ScreenshotScheduler.WakeNext` | src/cdp/screenshot-scheduler.ts:74-88 | The chain of wake-up functions passes the slot past settled waiters to the first that is not |
| `BatchLimiter.EveryTaskStartsOnce` | src/cdp/connection-pool.ts:207-239 | Running and woken tasks fill at most ten places, all ten while one waits; those that wait came last; at rest every task of the batch has started exactly once and ended, whichever failed |
| `BatchLimiter.BatchEnds` | src/cdp/connection-pool.ts:207-239 | A batch of n tasks ends after at most 2n steps, the same number in every order, and until every task is done some step is enabled |
| `BatchLimiter.Limiter.constructor` | src/cdp/connection-pool.ts:207-226 | After all n tasks have entered, min(n, 10) run and the rest wait in order |
| `BatchLimiter.Limiter.Enter` | src/cdp/connection-pool.ts:211-215 | A task starts when a place is free and queues otherwise |
| `BatchLimiter.Limiter.Resumed` | src/cdp/connection-pool.ts:213-217 | A woken task going on is the machine's step |
| `BatchLimiter.Limiter.Ended` | src/cdp/connection-pool.ts:218-221 | The `finally` is the machine's step |
| `PagePool.PagesPartitioned` | src/cdp/connection-pool.ts:126-351 | Under every interleaving of acquire, release, cleanup, expiry and outside closing no page is listed twice or in two places |
| `PagePool.NoPageLeaks` | src/cdp/connection-pool.ts:126-351 | In every run each page ever created is kept, lent or being cleaned, or was asked to close, or was closed outside |
| `PagePool.NeverBack` | src/cdp/connection-pool.ts:126-351 | A page that has left the pool never comes back, whatever is released |
| `PagePool.DestroyedNeverLent` | src/cdp/connection-pool.ts:79-95 | A page closed outside is never kept or lent again, unless its cleanup was under way then and ended well all the same |
| `PagePool.KeptOpenIff` | src/cdp/connection-pool.ts:259-351 | Over whole runs, no page that the pool keeps or lends was asked to close exactly when no release before was of a page that is available or being cleaned |
| `PagePool.PagesKeptOpen` | src/cdp/connection-pool.ts:259-351 | So it holds when each released page is in use or no longer the pool's |
| `PagePool.StepKeepsOpenIff` | src/cdp/connection-pool.ts:126-351 | Any step keeps that exactly when it is no release of a page that is available or being cleaned |
| `PagePool.ReleasedTwice` | src/cdp/connection-pool.ts:259-269 | A run in which a page released twice is lent again after it was asked to close |
| `PagePool.ConnectionPool.TakePage` | src/cdp/connection-pool.ts:137-155 | Acquiring from a nonempty pool takes the last page, as the machine's step |
| `PagePool.ConnectionPool.TakePages` | src/cdp/connection-pool.ts:194-202 | The batch takes the last min(count, available) pages, last first, and keeps the partition |
| `PagePool.ConnectionPool.ReleasePage` | src/cdp/connection-pool.ts:259-288 | Releasing is the machine's step: a page in use is cleaned while the pool has room, and any other page is asked to close |
| `PagePool.ConnectionPool.ReturnToPool` | src/cdp/connection-pool.ts:343-351 | The end of the cleanup is the machine's step: a usable page goes last into a pool with room, and else is asked to close |
| `PagePool.ConnectionPool.TargetDestroyed` | src/cdp/connection-pool.ts:79-95 | The listener is the machine's step: the page leaves the ones in use, or the available ones with the others in their order |
| `NamedContexts.StepKeepsInv` | src/chrome/contexts.ts:141-298 | Each step keeps: a creation is the one in flight for its key, its key is untracked while it waits, tracked contexts are distinct and not closed |
| `NamedContexts.OneCreation` | src/chrome/contexts.ts:155-190 | In every run at most one creation waits for a key, and its context never takes a tracked one's place |
| `NamedContexts.ClosedOnce` | src/chrome/contexts.ts:202-217 | In every run no context is closed twice, and none that is tracked |
| `NamedContexts.ClosesOnlyWhen` | src/chrome/contexts.ts:230-286 | A dropped tab or reference closes exactly when both counters reach zero; a request exactly when no tab is counted or it is forced; nothing else closes |
| `NamedContexts.ReferenceHolds` | src/chrome/contexts.ts:238-254 | In every run an added reference keeps its context tracked and open, with every reference counted, whatever tabs come and go, until one is released or the context is closed on request or found dead |
| `NamedContexts.FailedCreationRetried` | src/chrome/contexts.ts:173-190 | After a creation that failed the next request for the key begins a new one |
| `NamedContexts.StepKeepsCountsIff` | src/chrome/contexts.ts:219-286 | A step keeps every counter equal to the tabs open in its context, and by a dropped tab or reference closes only an empty context, exactly when a tab that closes is charged to its own context, or to none while the one tracked for the key has no tab |
| `NamedContexts.RunKeepsCountsIff` | src/chrome/contexts.ts:219-286 | The same for whole runs: up to a world exactly when every tab closed before it was charged so |
| `NamedContexts.ClosesEmptyContext` | src/chrome/contexts.ts:219-286 | So then a dropped tab or reference closes only a context with no tab open |
| `NamedContexts.ForcedCloseIsRight` | src/chrome/contexts.ts:202-237 | A run with a forced close while a tab is open and that tab's close after it, in which all counts stay right |
| `NamedContexts.LateTabClosesNewContext` | src/chrome/contexts.ts:230-237 | Otherwise a run in which a context is closed with a tab open |
| `NamedContexts.Registry.GetOrCreate` | src/chrome/contexts.ts:155-190 | Returns the tracked live context, or drops a dead one and returns the creation in flight, started if there was none, as the machine's step |
| `NamedContexts.Registry.CreationDone` | src/chrome/contexts.ts:173-183 | Tracks the created context with zero counters |
| `NamedContexts.Registry.CreationFailed` | src/chrome/contexts.ts:173-175 | A creation that failed tracks nothing |
| `NamedContexts.Registry.CreationFinally` | src/chrome/contexts.ts:184-186 | Ends the creation in flight |
| `NamedContexts.Registry.Close` | src/chrome/contexts.ts:202-217 | Refuses exactly when tabs are counted and it is not forced; else drops the entry before closing it |
| `NamedContexts.Registry.IncrementTabCount` | src/chrome/contexts.ts:219-223 | Counts one more tab of the tracked context |
| `NamedContexts.Registry.DecrementTabCount` | src/chrome/contexts.ts:230-236 | The machine's step: one tab less, and the context is dropped and closed exactly when that was the last and no reference is held |
| `NamedContexts.Registry.AddResumeRef` | src/chrome/contexts.ts:238-242 | Counts one more reference of the tracked context |
| `NamedContexts.Registry.ReleaseResumeRef` | src/chrome/contexts.ts:248-254 | The machine's step: one reference less, and the context is dropped and closed exactly when that was the last and no tab is counted |
| `NamedContexts.Registry.MaybeDestroy` | src/chrome/contexts.ts:276-286 | Closes exactly at zero tabs and zero references |
| `Json.DecimalRoundTrip` | cli/playbook/schema-validator.ts:33-36 | A printed array index is an index token of RFC 6901 and reads back as the number |
| `Json.EscapeRoundTrip` | cli/playbook/schema-validator.ts:33-36 | An escaped token has no solidus and unescapes to the token |
| `Json.EscapeStep` | cli/playbook/schema-validator.ts:33-36 | Character by character a tilde becomes ~0, a solidus ~1, and any other character stays |
| `Json.RenderRoundTrip` | cli/playbook/schema-validator.ts:33-36 | Pointers built token by token are read back as those tokens |
| `Json.DeepEqualIff` | cli/playbook/schema-validator.ts:170-188 | The comparison by number of members and lookup of one side's keys decides whether two values are the same data: equal elements in order, equal members under the same keys |
| `Schema.OneOfVerdict` | cli/playbook/schema-validator.ts:97-117 | An error exactly when not exactly one branch is met |
| `Schema.AnyOfVerdict` | cli/playbook/schema-validator.ts:119-139 | An error exactly when no branch is met, although only the first passing branch's warnings are kept |
| `Schema.AllOfVerdict` | cli/playbook/schema-validator.ts:141-151 | An error exactly when some branch is not met |
| `Schema.ValueVerdict` | cli/playbook/schema-validator.ts:170-266 | The searches and comparisons of the code report an error exactly when no choice equals the value, the constant differs, a finite number, length or item count is outside of a limit in the order of the real numbers with infinities (NaN limits nothing), or the text fails a valid pattern |
| `Schema.TypeVerdict` | cli/playbook/schema-validator.ts:153-168 | Filtering the declared names and searching a match fails exactly when names are declared and none names a type of the value, by the dialect's names; `SchemaKeywords.SchemaMeans` says what the names of JSON Schema mean |
| `Schema.ItemsVerdict` | cli/playbook/schema-validator.ts:267-276 | An error exactly when some element violates the item schema |
| `Schema.ObjectVerdict` | cli/playbook/schema-validator.ts:279-338 | An error exactly when a required key is missing, or a declared or an additional property violates its schema |
| `Schema.NodeVerdict` | cli/playbook/schema-validator.ts:78-341 | For every value and schema the validator reports an error exactly when the value violates the quantified meaning of the schema's keywords; warnings never count, nor does the early return on a type mismatch |
| `SchemaKeywords.SchemaMeans` | cli/playbook/schema-validator.ts:78-341 | In the spelling of JSON Schema the meaning that is decided is the demand of the literal keywords, each read by looking its name up: all seven type names and lists of them, the limits as comparisons of numbers, choices, pattern, required keys, and the subschemas wherever they are well formed |
| `SchemaKeywords.TypeAlone` | cli/playbook/schema-validator.ts:62-76 | A schema with one type name is met exactly by the values of that type: integers are the integral finite numbers |
| `SchemaKeywords.MinimumAlone` | cli/playbook/schema-validator.ts:190-199 | A minimum alone is met exactly by the finite numbers from it on and by all that is no finite number |
| `SchemaKeywords.MaximumAlone` | cli/playbook/schema-validator.ts:200-210 | A maximum alone is met exactly by the finite numbers up to it and by all that is no finite number |
| `SchemaKeywords.KeywordSpelled` | cli/playbook/schema-validator.ts:95-338 | The schema path of each kind of diagnostic ends with its keyword |
| `SchemaReports.AllReported` | cli/playbook/schema-validator.ts:78-341 | Nothing is kept back: every violated keyword is reported with its paths, every missing key, every undeclared key as forbidden, checked or noted, all of every item, property and branch of allOf, and the warnings of the branches that hold; behind a wrong type, what is looked at before it |
| `SchemaReports.ValueInOrder` | cli/playbook/schema-validator.ts:170-266 | The keywords that look at the value alone are reported once each when violated, in the order of the source |
| `SchemaReports.MismatchEnds` | cli/playbook/schema-validator.ts:159-168 | A wrong type is the last thing said of a value, behind the results of its branches |
| `SchemaPaths.NodeJustified` | cli/playbook/schema-validator.ts:78-341 | Every diagnostic points, by its two JSON Pointers, to a part of the value and a keyword of a part of the schema of which what it says is true |
| `SchemaPaths.PathsReachRealParts` | cli/playbook/schema-validator.ts:286-338 | So the instance path reaches a value, or names a missing key of an object it reaches; the schema path reaches a part except for open properties; only those are warnings |
| `SchemaValidator.ValidateNode` | cli/playbook/schema-validator.ts:78-341 | The recursive loops produce exactly the specified diagnostics in order |
| `SchemaValidator.ValidateOneOf` | cli/playbook/schema-validator.ts:97-117 | The loop over the branches keeps the passing results |
| `SchemaValidator.ValidateAnyOf` | cli/playbook/schema-validator.ts:119-139 | The loop over the branches keeps the first passing result |
| `SchemaValidator.ValidateAllOf` | cli/playbook/schema-validator.ts:141-151 | The loop appends all results |
| `SchemaValidator.ValidateItems` | cli/playbook/schema-validator.ts:267-276 | The loop over the elements |
| `SchemaValidator.ValidateRequired` | cli/playbook/schema-validator.ts:281-295 | The loop over the required keys |
| `SchemaValidator.ValidateProperties` | cli/playbook/schema-validator.ts:297-306 | The loop over the declared properties |
| `SchemaValidator.ValidateExtra` | cli/playbook/schema-validator.ts:311-337 | What is said of one key that is not declared |
| `SchemaValidator.ValidateAdditional` | cli/playbook/schema-validator.ts:308-338 | The loop over the keys |
| `SchemaValidator.ValidateKeywords` | cli/playbook/schema-validator.ts:95-341 | The keywords one after another, with the return after a type mismatch |
| `SchemaValidator.ValidateType` | cli/playbook/schema-validator.ts:153-168 | The filter and the search over the declared names decide whether the value has a declared type by the dialect's names |
| `SchemaValidator.ValidateValue` | cli/playbook/schema-validator.ts:170-266 | The loops and comparisons for enum, const, bounds, lengths, pattern and item counts report an error exactly for a value that violates one of them |
| `SchemaValidator.ValidateValueAgainstSchema` | cli/playbook/schema-validator.ts:343-345 | Errors exactly for values that do not satisfy the literal keywords of JSON Schema, and every diagnostic is true of the parts it points to |
| `Vars.ParseCliVars` | cli/playbook/vars.ts:91-106 | Succeeds exactly when every entry has an equals sign; the last entry of a key gives its value |
| `Vars.SubstituteFills` | cli/playbook/vars.ts:38-61 | Substitution into any text made of references and of literals in which no reference begins inserts the values once, as they are, and reports the first unknown name |
| `Vars.EveryTextIsTemplate` | cli/playbook/vars.ts:38-61 | Every text is made so, also one with dollar signs and braces that are no reference |
| `Vars.ReferenceIff` | cli/playbook/vars.ts:38-61 | The expression matches at the start of a text exactly the name whose reference stands there |
| `Vars.SubstitutedIff` | cli/playbook/vars.ts:66-85 | The result is exactly the given value with every text in it filled: at each place a text is filled, a list keeps its length, an object its keys in order, and all else is the same |
| `Vars.SubstituteFails` | cli/playbook/vars.ts:66-85 | It fails exactly when some text names an unknown variable, with the first such name in the order of the walk |
| `Playbook.PrepareSteps` | cli/playbook/validate.ts:64-81 | All calls, each with the tool of its verb and the step's arguments filled at each place, and with the made-up tab behind a navigation; or the first unknown name of all texts |
| `Playbook.CallOfMeans` | cli/playbook/run.ts:59-72 | From any tab the call of a step has the tool of its verb and the filled arguments, with a known tab added under its key where the verb takes one and the arguments name none, and wrapped as the contract of an assertion that names neither contract nor evidence |
| `Playbook.RunStep` | cli/playbook/run.ts:117-167 | One executed step: its call, its status, and the tab after it |
| `Playbook.CountStatus` | cli/playbook/run.ts:173-175 | The filters count the results of a status |
| `Playbook.RunPlaybook` | cli/playbook/run.ts:85-188 | A run is decided by the first step that does not pass: results, totals, or the error raised there; each call made has the step's filled arguments and the tab named last before it, and a variable error is the first unknown name reached |
| `Playbook.RunShape` | cli/playbook/run.ts:96-188 | A completed run has one result a step: passes, then at most one failure, then skips, with matching totals, and executed calls made from the tab known then |
| `Playbook.CallsAgreeIff` | cli/playbook/run.ts:59-72 | Two calls of one step agree up to the injected tab id exactly when both states know a tab or neither does, or the step takes none |
| `Playbook.TabsAgree` | cli/playbook/validate.ts:64-81 | If exactly results of navigation name a tab, preparing knows a tab exactly when the run does |
| `Playbook.RunMakesPreparedCalls` | cli/playbook/validate.ts:64-81 | Then every call made, however the run ends, equals the prepared call up to the injected tab id; what both are is `Playbook.CallOfMeans` |
| `Playbook.VariableErrorsAgree` | cli/playbook/vars.ts:38-61 | A run raises a variable error only if preparing raises the same; if preparing raises one, the run raises it or stops earlier |
| `PlaybookValidation.ValidateCall` | cli/playbook/validate.ts:127-145 | Findings with an error exactly when the tool is missing, has no schema, or the arguments violate it |
| `PlaybookValidation.ValidateCalls` | cli/playbook/validate.ts:127-145 | The findings are those of each call in turn, all of its diagnostics under its step |
| `PlaybookValidation.AcceptedMeans` | cli/playbook/validate.ts:111-145 | In the spelling of JSON Schema a call is accepted exactly when the last definition of its tool has a schema that its arguments satisfy |
| `PlaybookValidation.ValidatePlaybook` | cli/playbook/validate.ts:115-159 | Valid exactly when all prepared calls are accepted; the findings are all of every call in order, errors and warnings add up; preparation errors come first |
| `PlaybookValidation.ValidPlaybookRuns` | cli/playbook/validate.ts:115-159 | A run of a valid playbook in which only navigation names a tab raises no variable error and, however it ends, makes up to the tab id only accepted calls |
| `Recovery.FirstObjectEnds` | cli/index.ts:1083-1107 | Scanning any printed JSON object with anything behind it first returns to depth 0 exactly at the object's last character |
| `Recovery.TokensScanned` | cli/index.ts:1083-1107 | In any text, however malformed, scanning counts the braces outside strings, where a backslash escapes inside strings only |
| `Recovery.FirstReturn` | cli/index.ts:1083-1107 | It stops at the first closing brace outside strings that brings the depth back to 0 |
| `Recovery.NoReturn` | cli/index.ts:1083-1107 | And nowhere when there is none, also when the text ends inside a string |
| `Recovery.AttemptJsonRecovery` | cli/index.ts:1072-1124 | The loop over the trimmed text computes the specified recovery, nothing without the pair }{ in it |
| `Recovery.RecoverConfig` | cli/claude-session.ts:154-207 | The loop over the text writes back exactly the specified extract, nothing without the pair }{ in it |
| `Recovery.FirstObjectRecovered` | cli/claude-session.ts:154-207 | An object followed by any text that begins with a brace is recovered, whatever its strings contain |
| `Recovery.FirstObjectRecoveredTrimmed` | cli/index.ts:1072-1124 | The same for the copy that trims, with white space around |
| `Recovery.CopiesAgreeIff` | cli/claude-session.ts:154-207 | Both copies recover the same value from a file exactly when it has no brace pair or no first object, or the white space in front is JSON's where the first object parses (or the rest parses alike), and that behind is JSON's where only the rest parses |
| `Recovery.CopiesAgree` | cli/claude-session.ts:154-207 | So both recover the same value when the white space around the text is JSON's |
| `Recovery.MarkedFileDisagrees` | cli/claude-session.ts:154-207 | Of two objects behind a byte order mark one copy recovers the first and the other the second |
| `Base62.TargetLength` | src/auth/api-key-store.ts:48-48 | The least width whose powers of 62 cover all n-byte numbers |
| `Base62.Alphabet` | src/auth/api-key-store.ts:30-30 | The digits are 0-9, A-Z and a-z in this order |
| `Base62.ToNumber` | src/auth/api-key-store.ts:36-39 | The loop computes the big-endian number of the buffer |
| `Base62.Encode` | src/auth/api-key-store.ts:32-53 | The text has exactly the target width, only base62 digits, and decodes to the buffer's number |
| `Base62.EncodingUnique` | src/auth/api-key-store.ts:32-53 | There is one such text |
| `Base62.EncodingInjective` | src/auth/api-key-store.ts:32-53 | Different buffers of one length have different texts |
| `JsBits.OrShifted` | src/auth/totp-manager.ts:35-35 | On 32-bit words shifting left by five and or-ing a number below 32 is the sum of the wrapped product and that number |
| `JsBits.LowByte` | src/auth/totp-manager.ts:39-39 | Masking any integer's 32-bit word with eight ones is its remainder modulo 256 |
| `Base32.Fed` | src/auth/totp-manager.ts:33-44 | After each character the wrapped accumulator of the bitwise expressions still holds the pending bits, and the byte taken out by either shift is the next byte of the unbounded bit string |
| `Base32.DecodeSigned` | src/auth/totp-manager.ts:23-44 | The loop with the never masked 32-bit accumulator decodes texts of any length as section 6 of RFC 4648, or reports the first foreign character |
| `Base32.DecodeUnsigned` | cli/totp-store.ts:28-48 | The same for the loop with the unsigned shift |
| `Base32.TotpManagerDecode` | src/auth/totp-manager.ts:23-44 | Decodes the text in upper case, by any Unicode mapping, without spaces and padding |
| `Base32.TotpStoreDecode` | cli/totp-store.ts:28-48 | Decodes the text in upper case, by any Unicode mapping, without padding |
| `Base32.Alphabet` | src/auth/totp-manager.ts:7-7 | The digits are A-Z and 2-7 in this order |
| `Base32.ToUpperConcat` | src/auth/totp-manager.ts:24-24 | Upper case is taken character by character |
| `Base32.RemoveSpacesSnoc` | src/auth/totp-manager.ts:24-24 | Each character stays unless it is white space |
| `Base32.DecodersAgreeIff` | cli/totp-store.ts:28-48 | Both decode the same text exactly when it has no white space; otherwise the second rejects it |
| `Base32.DecodeEncode` | src/auth/totp-manager.ts:23-44 | Both invert the encoder of RFC 4648 on all byte strings |
| `Totp.WriteUInt32BE` | src/auth/totp-manager.ts:105-106 | Writes four big-endian bytes in place, or fails outside 32 bits, and touches nothing else |
| `Totp.CounterBuffer` | src/auth/totp-manager.ts:97-106 | The two words together are the counter as eight big-endian bytes, exactly for counters from 0 below 2^64 |
| `Totp.BlocksInjective` | src/auth/totp-manager.ts:97-106 | Different counters have different blocks |
| `Totp.DynamicTruncation` | src/auth/totp-manager.ts:58-68 | The masked, shifted and or-ed bytes are the low 31 bits of the four bytes at the offset in the last nibble |
| `JsBits.AndLow` | src/auth/totp-manager.ts:60-67 | Masking with n ones leaves the part of a number below the n-th power of two |
| `JsBits.OrBelow` | src/auth/totp-manager.ts:62-67 | The bitwise or with a number below the n free low bits is the sum |
| `Totp.CodeDigits` | src/auth/totp-manager.ts:111-116 | The code has exactly the wanted number of digits and is the number modulo that power of ten |
| `Totp.CodeIsTail` | src/auth/totp-manager.ts:111-116 | The code is the last digits of the decimal number, with zeros in front where it has fewer |
| `Totp.Generate` | src/auth/totp-manager.ts:88-117 | The code of RFC 6238 for the step of the time, the last digits of the truncated number, or none exactly for a counter out of range; the generator of cli/totp-store.ts is the case of 30 seconds, six digits and no offset |

## Left out

- KeyStore.ApiKeyStore.Rotate: the method is stated for a store alone; what holds among peers is `KeyRuns.RevokeTakesEffect` and `RotatedInRun`.
- KeyStore.ApiKeyStore.DoSyncFromDisk: the class methods run whole syncs; peers between stat, read and append are in KeyRuns.
- KeyRuns.IndexIsReplay: operations of one process do not overlap, so the relative cursor update of a reader cannot meet the absolute one of a writer of the same process; the reuse of a pending sync by readers is not modelled.
- KeyRuns: lines of other JSON shapes count as lines that do not parse.
- Key ids are what hashing makes of a secret: computing them (`slice(0, 10)`), argon2 and file permissions are not part of this model; `list` and the unused rewriting of the file are left out.
- Base62.TargetLength: the exact least width; the source computes it with floating-point logarithms, whose rounding is not modelled.
- Base32.TotpManagerDecode: the mapping to upper case is any function that is right on ASCII and on white space; texts are sequences of code points, so in an error message a lone surrogate is not told apart.
- Totp.Generate: the key is already decoded and the keyed hash is any function with at least twenty bytes; the clock is in whole milliseconds. The bitwise operators are those on numbers that are not negative, which all operands here are.
- Recovery: `JSON.parse` is any function of which `CopiesAgreeIff` asks that it ignores JSON white space around a text and rejects other white space there; reading and writing files, backups and messages are left out.
- LockRuns.MutualExclusion: decisions are one step each; the races between reading and unlinking are in LockInodes, where exclusion is not claimed.
- LockRuns: the times in new metadata are those of the creating step, not of the start of the call; lock files of older versions without host or heartbeat, unparsable times, environment variables and the kill switch of the heartbeat timer are left out; metadata other than process id, host and times is not modelled.
- LockInodes: a partly written file is unreadable; contenders of other hosts are left out.
- ControllerLock.AcquireWithHealthCheck: each call of the acquire loop is one answer from outside; that loop itself has no bound in the source.
- ClientRuns: `connectionState`, events, heartbeats, cookies, budgets and the fast path of `connect` are left out; a handshake that completes after its timeout is not tracked; `disconnect` does not stop attempts under way, as in the source.
- Scheduler: wait and capture times and the capture itself are left out.
- BatchLimiter: that a failed batch leaves the pages of its other tasks in use is not stated.
- PagePool: pool size bounds, statistics, shutdown and the closing itself are left out.
- NamedContexts: name validation, browser ids and listing are left out.
- Schema.NodeVerdict: message texts are left out; the pattern engine is any function; strings are sequences of code points, so lone surrogates are not modelled; extra keys are reported in the order of the object, not sorted, and integer-like keys keep their place. A key `__proto__` is an ordinary key.
- SchemaPaths.NodeJustified: the schema has unique keys in every object, as parsed JSON has.
- Playbook: parsing playbooks, connecting, durations, step ids and error texts are left out; the result of a step is its success and the tab id it names.
- The standards' own features that the validator ignores (`$ref`, `not`, `patternProperties` and others) are not part of this model.
- Regular expressions, actions, templates, captcha code, scope policies, the CLI and start-up code are not part of this model.

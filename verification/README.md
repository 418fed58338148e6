# Verified model of the debugger CLI's session machinery

The program is a command line that drives one debugger daemon ("bridge") per session. This
project models the parts of it whose correctness spans several functions, processes or
interleavings, and proves what each part promises.

- **Lock protocol** (`LockProtocol`, `LockOwnership`, `LockQuarantine`, `LockRestore`,
  `LockRaces`, `LockName`). Any number of processes claim, reclaim and release one lock path using only
  `create_new`, `read`, `rename` and `unlink`. A process is a program counter, a schedule is a
  sequence of single calls, and every theorem quantifies over all schedules. Liveness and age
  are one nondeterministic verdict bit, and each call may fault.
- **Breakpoint store of the browser bridge** (`BreakSpec` to `BreakRuns`, and `BreakCapture`). One session keeps
  five overlapping views of its breakpoints. `BreakSession.Session` is the class with the
  session's fields; its methods are proved against functions on the value `BreakStore.Store`,
  and the laws are lemmas about those functions. The backend's answers are parameters.
- **Persisted intent** (`IntentFile`, `IntentWriters`, `LiveIntent`). Concurrent writers of
  `stops.json` under a kernel lock, with failures and death between any two steps, and the
  agreement between that file and the bridge's store.
- **Stop machine** (`StopMachine`). Continue, step, reload, wait and capture, cut at their
  `await` points and interleaved with each other, with pauses, navigation and disconnection.
- **Change tracking** (`TextOrder`, `ChangeTrack`), **log ring** (`LogRing`), **identity
  capping** (`IdentityCap`), **referrer walk** (`Referrers`) and **condition scanner**
  (`CondScan`).
- **Wire codecs** (`FrameText`, `DapFrame`, `BridgeFrames`, `JsonText`, `JsonRequest`): the
  Content-Length framing, read three times, and the Java bridge's JSON scanner and quoter
  (sections 4, 5 and 7 of RFC 8259).

Where the code does not do what its comments say, the model follows the code, a lemma gives the
failing run or input, and another gives the exact condition under which the promise holds:

- The comment "exactly one owner" fails for both locks: a reclaimer between its byte check and
  its rename can detach the owner's fresh record (`LockOwnership.TwoOwnersReachable`). A held
  path is stable exactly while nobody is in that window (`LockOwnership.StableIffWindowShut`).
- "No fresh record is ever deleted" fails without any fault: a reclaimer that detached an owner's
  record and finds the path claimed again unlinks its copy (`LockRestore.TakenPathLosesRecord`);
  so does one that cannot read its copy back (`LockQuarantine.UnreadableCopyLosesRecord`). A
  detached record comes back exactly if none of that reclaimer's calls on its copy faults and the
  path is free at both its probe and its restore (`LockRestore.PutBackIff`).
- Removing a breakpoint whose condition contains `|` leaves it in `cfg.breaks`, because a key
  is cut at its last bar (`BreakStore.DropOneCoherentIff`).
- A capture on a line armed with a condition containing `|` is not refused and plants a second
  breakpoint there (`BreakCapture.ConflictsFoundIff`).
- `parseJsonString` reads the escapes `\b` and `\f` as letters (`JsonText.ScanAgreesWithRfc`).
- The persisted and live breakpoints start out different when a breakpoint is asked for in two
  spellings (`LiveIntent.StartAgreesIff`).
- Truncating an identity field twice changes it again (`IdentityCap.TruncTwiceIff`).
- The log ring holds "the latest 2000 lines" exactly under the condition of
  `LogRing.AppendExactIff`. A rewrite that cannot write keeps the old lines in the file and loses
  the new ones, while the counters still add up to all of them; one that cannot read loses the
  old lines without counting them (`LogRing.FailedRewriteCounts`).
- A change list flagged complete misses locals named like an inherited property, such as
  `constructor` (`ChangeTrack.CompleteIsExactIff`).

## Model

| member | source | states |
|---|---|---|
| LockProtocol.MoveEffect | src/session/locks.rs:418-553 | One call of one process changes the path only from absent to a record (a fresh claim, or the bytes it holds in quarantine) or from a record to absent (its rename to a new quarantine file, or a release by the record's holder); it starts holding, judging or being about to rename only in the ways listed |
| LockProtocol.ExecInv | src/session/locks.rs:472-527 | Over every schedule, faults and crashes included, nonces are drawn once, every quarantine file has exactly one responsible process, and what a reclaimer is about to drop or restore is what it says |
| LockProtocol.HolderIsUnique | src/session/paths.rs:232-247 | Two processes never hold the same record |
| LockOwnership.StableIffWindowShut | src/session/locks.rs:442-467 | A holder whose record is at the path and judged stale by nobody keeps the path, and nobody else becomes a holder, under every further schedule, exactly when no process is between its byte check and its rename |
| LockOwnership.AtMostOneOwner | src/session/locks.rs:562-582 | If live holders are never judged stale and ownership is taken only while that window is shut, at most one process owns the path at any time of any run, and the path carries its record |
| LockOwnership.OpenWindowAdmitsTwoOwners | src/session/locks.rs:450-465 | From any state with an owner, a reclaimer in the window and one more starter, some continuation has two owners |
| LockOwnership.TwoOwnersReachable | src/session/locks.rs:201-217 | From one stale record and three starters, without faults or wrong verdicts, a run ends with two owners, for either lock |
| LockQuarantine.PathEmptiesFirst | src/session/locks.rs:596-659 | In every run the path is empty at some moment between two different records: nothing is overwritten in place |
| LockQuarantine.RecordKept | src/session/locks.rs:290-299 | A turn that is neither the holder's release nor a reclaimer's unlink of a copy leaves the record at the path or in a quarantine file |
| LockQuarantine.RecordNeverVanishes | src/session/locks.rs:472-482 | Over every schedule a record stays at the path or in a quarantine file until its holder releases it or a reclaimer unlinks a copy of it |
| LockQuarantine.DiscardJustified | src/session/locks.rs:488-527 | A quarantine copy is about to be unlinked only if an earlier turn of the same process over the same copy found it equal to the stale bytes, found the path or the restore slot taken, restored it, or hit a fault |
| LockQuarantine.NoQuarantineLeft | src/session/locks.rs:533-553 | Once every process has finished no quarantine file is left, whatever faulted |
| LockQuarantine.UnreadableCopyLosesRecord | src/session/locks.rs:484-506 | A run with one read fault in which a holder's record ends up neither at the path nor in quarantine while its guard is held; the exact condition is that of `LockRestore.PutBackIff` |
| LockRestore.PutBackIff | src/session/locks.rs:488-527 | A record that a reclaimer detached although it is not the bytes judged stale, and that is nowhere else, is at the path again at some moment exactly if the reclaimer's reads and calls on its copy succeed and find the path free, over every schedule; otherwise it is nowhere once the reclaimer is through |
| LockRestore.SurvivesIff | src/session/locks.rs:472-527 | While its holder keeps the guard and nobody unlinks another copy, that record is at the path or in quarantine afterwards, later detachments included, exactly under the same condition |
| LockRestore.TakenPathLosesRecord | src/session/locks.rs:484-525 | For either lock a run without a single fault and without a wrong verdict in which an owner's record ends up nowhere while its guard is held |
| LockRaces.ClaimedRecordNeverLost | src/session/locks.rs:418-436 | In every race from one stale record, once a claim has succeeded a claimed record is at the path or in the quarantine of a reclaimer that has not given it up |
| LockRaces.RaceElectsOne | src/session/spawn_lifecycle.rs:402-498 | When all racers have finished no quarantine is left and the path holds one record: the stale one and nobody holds a guard, or that of exactly one racer |
| LockRaces.RaceGateAdmitsOne | src/session/locks.rs:562-582 | After such a race the ownership gate lets through exactly the racer whose record is at the path and turns every other guard away |
| LockRaces.EagerRaceElectsHolder | src/session/locks.rs:128-191 | Without faults and with the stale record always judged stale, every finished race has a sole holder |
| LockName.EscapeHost | src/session/locks.rs:251-264 | The loop computes the escaping of the host byte by byte |
| LockName.EscapeRoundTrip | src/session/locks.rs:251-254 | A decoder gives back every host, for all byte strings |
| LockName.NameRoundTrip | src/session/locks.rs:245-266 | A lock file name gives back its language, host and port, for every language, host and port |
| LockName.NamesDiffer | src/session/locks.rs:251-254 | Two endpoints share a lock file name exactly when they are the same endpoint |
| JsonText.ParseJsonString | bridge/java/src/BridgeProto.java:255-288 | The scanning loop computes the literal's value and the index after its closing quote, or fails |
| JsonText.ScanLiteral | bridge/java/src/BridgeProto.java:255-288 | Every string literal, wherever it stands, is read to exactly its closing quote, chunk by chunk |
| JsonText.ScanAgreesWithRfc | bridge/java/src/BridgeProto.java:266-284 | The value is the one RFC 8259 gives exactly when the literal uses neither the `\b` nor the `\f` escape |
| JsonText.Quote | bridge/java/src/JdiBridge.java:128-145 | The quoting loop prints the literal whose chunks are the units, escaped where required |
| JsonText.QuoteRoundTrip | bridge/java/src/JdiBridge.java:128-145 | Every UTF-16 string survives quote and parseJsonString, which ends at the end of the printed text, wherever it stands, and the printed literal has that value in RFC 8259 too |
| JsonRequest.SkipWs | bridge/java/src/BridgeProto.java:158-161 | The loop stops at the first character that is not white space |
| JsonRequest.SkipValue | bridge/java/src/BridgeProto.java:196-228 | The bracket-counting loops compute the end of the value at the index, or fail |
| JsonRequest.SkipValueExact | bridge/java/src/BridgeProto.java:196-228 | At the start of any value of any printed JSON tree the end found is exactly that value's end, however it nests and whatever its strings contain |
| JsonRequest.ParseCmd | bridge/java/src/BridgeProto.java:168-194 | The member loop computes the top-level search for "cmd", error cases included |
| JsonRequest.ParseCmdFindsTopLevel | bridge/java/src/BridgeProto.java:163-194 | For every printed object and any trailing text the answer is that of the first top-level member whose key reads "cmd" |
| JsonRequest.FirstCmdIsFirst | bridge/java/src/BridgeProto.java:163-167 | That answer is a string v exactly when the first such member exists and its value is the string v |
| DapFrame.DecodeStable | src/dap.rs:48-72 | A decoded frame or a corruption verdict is unchanged by any bytes appended to the buffer |
| DapFrame.DecodeEncoded | src/dap.rs:31-72 | A buffer starting with an encoded frame decodes to its body and consumes exactly the frame |
| DapFrame.PrefixIncomplete | src/dap.rs:10-29 | Every proper prefix of an encoded frame is valid and incomplete |
| DapFrame.Request | src/client.rs:33-66 | The read loop computes the answer of the received events |
| DapFrame.ReceiveIgnoresChunking | src/client.rs:20-66 | However a frame and trailing bytes are split and whatever transient faults intervene, the client answers with exactly the body |
| DapFrame.ReceiveWaits | src/client.rs:33-66 | Short of the whole frame it only ever times out or sees the end of the stream |
| BridgeFrames.ScanLines | bridge/js/framing.js:22-30 | The header loop computes the single well-formed Content-Length, or its absence, or a malformed header |
| BridgeFrames.FrameReader.OnData | bridge/js/framing.js:13-46 | The data handler moves the reader to the state the verdict on the accumulated bytes gives |
| BridgeFrames.JudgeEncoded | bridge/js/framing.js:16-45 | On a prefix of an encoded frame with trailing bytes it waits, and on a whole frame it decides on exactly the body |
| BridgeFrames.FeedIgnoresChunking | bridge/js/framing.js:5-69 | Over every split within the buffer limit the reader is pending until the frame is complete and then settles on exactly its body |
| BridgeFrames.ReadFrame | bridge/java/src/BridgeProto.java:79-120 | The byte-by-byte reader computes the frame at the head of the stream |
| BridgeFrames.JavaReadsEncoded | bridge/java/src/BridgeProto.java:79-120 | It returns the body of an encoded frame, consumes exactly the frame, and accepts no proper prefix |
| BridgeFrames.ReadersAgree | bridge/java/src/BridgeProto.java:71-120 | The three readers take the same body out of an encoded frame, whatever follows it and however it is split |
| BreakSpec.ParseBreak | bridge/browser/src/browserbridge.js:108-135 | A parsed spec has a non-empty fragment without a bar, a line of at least 1 and no empty condition |
| BreakSpec.KeyInjective | bridge/browser/src/browserbridge.js:2747-2749 | A canonical key determines its break |
| BreakSpec.LocInjective | bridge/browser/src/browserbridge.js:2636-2645 | A `frag:line` string determines fragment and line |
| BreakSpec.SplitKeyExactly | bridge/browser/src/browserbridge.js:2846-2852 | Splitting a key back matches its own break exactly when the condition contains no bar |
| BreakSpec.SplitKeyWithBar | bridge/browser/src/browserbridge.js:2846-2852 | With a bar in the condition it matches no break on another line either |
| BreakStore.ArmOneCoherent | bridge/browser/src/browserbridge.js:2686-2705 | Installing a fresh break keeps the five views in agreement |
| BreakStore.ArmAllCoherent | bridge/browser/src/browserbridge.js:2670-2710 | So does installing any batch of breaks fresh for the store and for each other |
| BreakStore.DropOneCoherentIff | bridge/browser/src/browserbridge.js:2823-2857 | A confirmed drop keeps the views in agreement exactly when the condition contains no bar; otherwise the break stays listed |
| BreakStore.DropOneRemoves | bridge/browser/src/browserbridge.js:2842-2857 | A drop takes out the break and its record and nothing else |
| BreakUndo.DropUndoesArm | bridge/browser/src/browserbridge.js:2842-2857 | Dropping a break just installed gives back every map and sequence |
| BreakUndo.DropCommutesArm | bridge/browser/src/browserbridge.js:2823-2857 | Dropping a stored break and installing another one commute |
| BreakUndo.DropUndoesArmAll | bridge/browser/src/browserbridge.js:2823-2857 | Dropping the keys of a fresh batch gives back the store, order included |
| BreakPlan.FreshOfExactly | bridge/browser/src/browserbridge.js:2650-2668 | The planned specs spell breaks from the request that are not stored, none twice |
| BreakPlan.FreshOfCovers | bridge/browser/src/browserbridge.js:2650-2668 | Every requested break is stored or planned |
| BreakPlan.PlannedLinesAreFree | bridge/browser/src/browserbridge.js:2636-2668 | No two planned specs share a line, and none lies on an armed break or logpoint |
| BreakPlan.ReAddPlansNothing | bridge/browser/src/browserbridge.js:2650-2669 | An add plans nothing exactly when every break it names is stored already |
| BreakPlan.MatchIsByKey | bridge/browser/src/browserbridge.js:2751-2761 | The fallback search by spelling never adds a match: a request matches a key exactly when it parses to it |
| BreakInstall.AcceptsAndFailures | bridge/browser/src/browserbridge.js:2670-2711 | Accepted and failed specs together are the planned ones, each once |
| BreakInstall.AddKeepsCoherent | bridge/browser/src/browserbridge.js:2612-2720 | An accepted add with unused backend ids keeps the views in agreement |
| BreakDrops.DropAllCoherent | bridge/browser/src/browserbridge.js:2823-2871 | Dropping any batch of bar-free keys with any refusals keeps the views in agreement and takes exactly the confirmed keys |
| BreakDrops.MatchedKeys | bridge/browser/src/browserbridge.js:2788-2798 | A remove drops exactly the stored keys its requests name, each once |
| BreakDrops.OrderedKeys | bridge/browser/src/browserbridge.js:2808-2818 | Clear goes through exactly the stored keys, each once |
| BreakDrops.ClearEmpties | bridge/browser/src/browserbridge.js:2808-2821 | A fully confirmed clear leaves no break in any view and keeps the logpoints |
| BreakStartup.FoldBreaks | bridge/browser/src/browserbridge.js:399-414 | The break half of the fold fails exactly when two different specs ask for one line, and else keeps first occurrences |
| BreakStartup.FoldLogs | bridge/browser/src/browserbridge.js:415-434 | The logpoint half fails exactly when two different logpoints share a line or one lies on a break, and else keeps first occurrences |
| BreakStartup.DedupeStartupBreaks | bridge/browser/src/browserbridge.js:399-435 | The fold succeeds exactly on consistent requests and leaves no two breaks or logpoints on one line |
| BreakStartup.LogKeyInjective | bridge/browser/src/browserbridge.js:417-419 | A logpoint key determines its logpoint |
| BreakStartup.FirstRawsFollowFirsts | bridge/browser/src/browserbridge.js:180-189 | The startup raws spell the kept breaks, in the same order |
| BreakArming.StartedCoherent | bridge/browser/src/browserbridge.js:931-1022 | The store after startup arming, rejected plants included, has its views in agreement |
| BreakSession.Session.constructor | bridge/browser/src/browserbridge.js:180-189 | Argument parsing stores the specs in order and the first spelling of each key |
| BreakSession.Session.ByLine | bridge/browser/src/browserbridge.js:942-963 | After the fold the grouping by line lists the breaks and then the logpoints, and shadows nothing |
| BreakSession.Session.ArmBreak | bridge/browser/src/browserbridge.js:964-1017 | Planting one break changes the store as specified, with or without an id |
| BreakSession.Session.ArmLogpoint | bridge/browser/src/browserbridge.js:964-1017 | Planting one logpoint changes the store as specified |
| BreakSession.Session.PlantItems | bridge/browser/src/browserbridge.js:964-1018 | The planting loop leaves the store of all armings in order, with the ids given |
| BreakSession.Session.ArmBreakpoints | bridge/browser/src/browserbridge.js:931-1022 | Startup fails exactly on inconsistent specs (or a refused request) and else leaves the started store, coherent when the ids differ |
| BreakSession.Session.ArmedLines | bridge/browser/src/browserbridge.js:2636-2646 | The table of taken lines maps exactly the armed lines, breaks to their conditions |
| BreakSession.Session.PlanAdd | bridge/browser/src/browserbridge.js:2615-2668 | Validation answers the plan: no breaks, a bad spec, a conflict, or the fresh specs |
| BreakSession.Session.Separate | bridge/browser/src/browserbridge.js:2650-2668 | The loop over the batch finds a conflict exactly when some spec clashes with an armed line or with the batch |
| BreakSession.Session.BreaksAdd | bridge/browser/src/browserbridge.js:2612-2720 | A rejected or wholly refused batch changes nothing; an accepted one changes the store by exactly the added specs, splits the plan into added and failed, and keeps the views in agreement |
| BreakSession.Session.Install | bridge/browser/src/browserbridge.js:2670-2711 | The install loop arms the accepted specs in order with new records |
| BreakSession.Session.MatchStoredBreak | bridge/browser/src/browserbridge.js:2751-2761 | Computes the key a request names |
| BreakSession.Session.DropBreakKeys | bridge/browser/src/browserbridge.js:2823-2871 | Each unplanted or acknowledged key is dropped and the logpoint it shadowed planted again, each refused one changes nothing, and an error means no change |
| BreakSession.Session.RearmShadowed | bridge/browser/src/browserbridge.js:2876-2911 | Plants the first logpoint the dropped break had shadowed, which leaves the shadowed ones; an accepted plant lists it again, a failed one leaves a pending record only |
| BreakRearm.RearmKeepsBreaks | bridge/browser/src/browserbridge.js:2823-2871 | Re-arming changes no key, raw, break or record by key, so it decides neither what is confirmed nor what is echoed |
| BreakRearm.NothingToRearm | bridge/browser/src/browserbridge.js:2876-2878 | Without a shadowed logpoint any batch of drops re-arms nothing |
| BreakRearm.RearmConserves | bridge/browser/src/browserbridge.js:2873-2912 | Over any batch shadowed and listed logpoints together never grow, listed ones stay, and none is lost when every plant is accepted |
| BreakSession.Session.BreaksRemove | bridge/browser/src/browserbridge.js:2780-2802 | Remove answers and changes the store as specified, keeping the views in agreement for bar-free keys |
| BreakSession.Session.BreaksClear | bridge/browser/src/browserbridge.js:2808-2821 | Clear drops the stored keys in order, keeping the views in agreement for bar-free conditions |
| BreakRuns.RunKeepsCoherent | bridge/browser/src/browserbridge.js:2612-2871 | After every sequence of add, remove and clear with any refusals, unused ids and bar-free conditions the views agree |
| BreakRuns.AddThenRemoveRestoresIff | bridge/browser/src/browserbridge.js:2751-2871 | Removing what was just added restores the whole store, order included, exactly when the request named nothing stored before and no condition has a bar |
| BreakCapture.PlanCapture | bridge/browser/src/browserbridge.js:2143-2170 | The loops over armed keys and logpoints compute the capture's plan |
| BreakCapture.KeyLocIs | bridge/browser/src/browserbridge.js:2159-2163 | The part of a key before its last bar is a break's location exactly for a break on that line without a bar |
| BreakCapture.ConflictsFoundIff | bridge/browser/src/browserbridge.js:2149-2168 | A capture is a duplicate exactly when its break is armed, and a line taken in another form is refused exactly unless the break that takes it has a bar in its condition |
| IntentFile.AppendInPlace | src/session/breaks.rs:323-327 | The append loop computes the list with the missing raws at the end |
| IntentFile.DropInPlace | src/session/breaks.rs:368-370 | The remove loop computes the list without the named raws |
| IntentFile.AppendMeans | src/session/breaks.rs:320-327 | Appending keeps the list as a prefix and adds exactly the missing raws, each once |
| IntentFile.DropMeans | src/session/breaks.rs:345-370 | Dropping takes every copy of the named raws and no copy of anything else |
| IntentFile.LastWordDecides | src/session/breaks.rs:306-391 | After any history of edits a raw is in the list exactly when the last edit naming it was an append, and all other fields are as they were |
| IntentFile.NoNewDuplicates | src/session/breaks.rs:320-327 | No entry ever has more copies than it started with, or one |
| IntentWriters.ExecInv | src/session/breaks.rs:247-391 | The invariant of every run: lock, temporary files, log and file fit together |
| IntentWriters.FileIsTheRenamedEdits | src/session/breaks.rs:306-391 | At every moment of every run with timeouts, failures and deaths the file is the initial one with the renamed edits applied one at a time in rename order |
| IntentWriters.SuccessIsRename | src/session/breaks.rs:328-342 | A writer that returned is in that order exactly when it reported success |
| IntentWriters.LockIsExclusiveAndNeverWedged | src/session/breaks.rs:207-215 | Two writers are never in the section together, and the lock is held only by a living writer in it |
| IntentWriters.LastRenameWins | src/session/breaks.rs:306-391 | Other fields keep their values, and a raw is in the file exactly when the last renamed edit naming it was an append |
| IntentWriters.AppendsAreKept | src/session/breaks.rs:306-343 | Among concurrent appends every raw of every successful writer is in the file |
| LiveIntent.AgreementIsKept | src/session/breaks.rs:20-139 | After every command of every run, partly confirmed ones included, the persisted line specs are exactly the raws the bridge stores, whatever bars the conditions contain |
| LiveIntent.AgreementFromStart | src/session/breaks.rs:20-139 | A session whose startup specs name no break in two spellings never sees the two sides differ |
| LiveIntent.StartAgreesIff | bridge/browser/src/browserbridge.js:180-189 | At the start they agree exactly when no break was asked for in two spellings |
| TextOrder.SortSorts | bridge/browser/src/browserbridge.js:1569-1571 | Sorting distinct names gives a strictly sorted list |
| TextOrder.SortedUnique | bridge/browser/src/browserbridge.js:1569-1571 | A strictly sorted list is determined by its elements |
| ChangeTrack.Tracker.CompareTrack | bridge/browser/src/browserbridge.js:1450-1500 | The branches compute the comparison with the stored baseline |
| ChangeTrack.Tracker.ScanNames | bridge/browser/src/browserbridge.js:1551-1564 | The loop keeps the first formatted value of each own name |
| ChangeTrack.Tracker.TrackChanges | bridge/browser/src/browserbridge.js:1533-1581 | A stop moves the tracker to the comparison of its cut scan, or to the degraded state |
| ChangeTrack.ScanNamesAreOwn | bridge/browser/src/browserbridge.js:1551-1564 | Scanned names are distinct and none is an inherited property name |
| ChangeTrack.CutOfScan | bridge/browser/src/browserbridge.js:1565-1571 | The cut holds the least names of the scan with their values, and all of a scan of at most 256 |
| ChangeTrack.BaselineIsTrue | bridge/browser/src/browserbridge.js:1450-1500 | After every run the baseline agrees with the last full scan, and is all of it exactly when flagged complete |
| ChangeTrack.CompleteIff | bridge/browser/src/browserbridge.js:1474-1499 | The change list is flagged complete exactly when both scans of one frame were fetched and had at most 256 names |
| ChangeTrack.CompleteIsExact | bridge/browser/src/browserbridge.js:1484-1499 | When complete, changed and removed are exactly the sorted difference of the two full scans |
| ChangeTrack.CompleteIsExactIff | bridge/browser/src/browserbridge.js:1551-1564 | It is exact for the frame's locals, whatever their names, exactly when no local named like an inherited property appeared, changed or went |
| ChangeTrack.PartialIsCertain | bridge/browser/src/browserbridge.js:1474-1483 | When not complete, a reported name has two different values in the two full scans of the same frame |
| StopMachine.ExecInv | bridge/browser/src/browserbridge.js:2914-2954 | The invariant of every interleaving: slot, ephemeral records and each command's requests fit together |
| StopMachine.SlotIsSingleAndAlwaysCleared | bridge/browser/src/browserbridge.js:2914-2954 | At most one continue, step, reload, wait or capture is between acceptance and exit, and the slot is taken exactly while one is |
| StopMachine.RefusedIffHeld | bridge/browser/src/browserbridge.js:850-861 | A command that needs the slot is refused exactly when another holds it, and then nothing else changes |
| StopMachine.PlantedIsRemovedOnce | bridge/browser/src/browserbridge.js:2143-2198 | A finished capture that planted asked for one removal, before any resume, and left no record |
| StopMachine.NoUnownedResume | bridge/browser/src/browserbridge.js:2205-2357 | A capture entered while parked sends nothing; one that saw no stop or failed sends no resume |
| StopMachine.RunningTakesTheStop | bridge/browser/src/browserbridge.js:2376-2421 | Every resume or step request takes the held stop, and `resumed: false` after a wait means the resume failed and a stop is held |
| StopMachine.FailedRequestGivesStopBack | bridge/browser/src/browserbridge.js:2423-2512 | In every interleaving a continue, step or reload whose request fails gives back the stop held when it was accepted, or leaves the newer one, frees the slot, no longer awaits its step and changes nothing else |
| StopMachine.AcceptPark | bridge/browser/src/browserbridge.js:2423-2512 | On acceptance a command lets go of a stop only by taking the free slot |
| IdentityCap.CapIdentity | src/session/identity.rs:151-206 | The loop computes at most 4096 passes over the walked value |
| IdentityCap.WalkBounds | src/session/identity.rs:152-172 | After the walk no string is longer than 548 characters |
| IdentityCap.ShorterProgress | src/session/identity.rs:194-201 | A pass on a string strictly lowers its serialized size, whatever it escapes to, and uses up exactly one of its steps |
| IdentityCap.ShrunkProgress | src/session/identity.rs:181-204 | A pass on a value strictly lowers its size, uses up one step in all, and leaves keys, shape and non-strings alone |
| IdentityCap.PassesConverge | src/session/identity.rs:176-206 | After k passes the value fits, or has no string of more than one character, or was made smaller k times |
| IdentityCap.TotalBound | src/session/identity.rs:194-201 | Each string needs at most 13 passes |
| IdentityCap.CapIdentityBounded | src/session/identity.rs:143-206 | With at most 315 strings to shorten the pass limit never decides how the loop ends |
| IdentityCap.ShortUntouchedIff | src/session/identity.rs:143-206 | A value within the field and array caps is left as it is exactly when it fits the total cap or has nothing to shorten |
| IdentityCap.TruncTwiceIff | src/session/identity.rs:134-141 | Truncating a field again leaves it as it is exactly when it has at most 512 characters, or 530 |
| Referrers.FoundSoFar | bridge/java/src/BridgeEval.java:216-239 | Everything no farther from the target than the head of the queue has been found at no more than its distance |
| Referrers.Expand | bridge/java/src/BridgeEval.java:226-238 | Adding one object's referrers keeps the tree, the distances and the frontier |
| Referrers.Walk | bridge/java/src/BridgeEval.java:200-239 | At most 500 objects, each hanging off the target by real references at its shortest distance; without the node cap exactly the objects within the depth; not capped means no answer was cut |
| Referrers.Chain | bridge/java/src/BridgeEval.java:243-257 | Every reported chain follows real references and ends at the target |
| LogRing.LinesRoundTrip | bridge/browser/src/browserbridge.js:1592-1600 | Newline-free lines, empty ones included, are read back as written |
| LogRing.Log.AppendParts | bridge/browser/src/browserbridge.js:1603-1631 | An append changes the file and both counters as specified, whatever the disk does |
| LogRing.AppendKeepsTheLatest | bridge/browser/src/browserbridge.js:1592-1631 | On a working disk the file is exactly the last 2000 lines ever appended, in order, and the counters add up to all of them |
| LogRing.UnreadableRewriteIff | bridge/browser/src/browserbridge.js:1613-1621 | A rewrite that cannot read the file is right exactly when there were no earlier lines |
| LogRing.AppendExactIff | bridge/browser/src/browserbridge.js:1603-1631 | Over every behaviour of the disk one append leaves the last 2000 lines and exact counters exactly when it adds nothing, or the disk writes and, on overflow, reads or had nothing to read, or the newest 2000 lines are the old ones again |
| LogRing.FailedRewriteCounts | bridge/browser/src/browserbridge.js:1613-1629 | A rewrite that cannot write leaves the file; on a readable disk the counters add up to every line appended, on an unreadable one they miss exactly the lines that were in the file; dropped rises by at most the new lines |
| LogRing.RunRightIff | bridge/browser/src/browserbridge.js:1603-1631 | Over every sequence of appends on any disk the ring is right all along exactly when every append met that condition |
| LogRing.RunBoundedIff | bridge/browser/src/browserbridge.js:1603-1631 | Over every such sequence the file has no more lines than counted, and the counters no more than were appended, all along exactly when no rewrite that could neither read nor write met a file of more lines than it kept |
| LogRing.Log.Logs | bridge/browser/src/browserbridge.js:2554-2577 | Reports the tail of the file and the counters, with the tail clamped |
| LogRing.LogsTellTheTruth | bridge/browser/src/browserbridge.js:2570-2576 | The reported lines are the last ones ever appended, and truncated is said exactly when some line ever appended is not among them |
| CondScan.CheckCond | bridge/java/src/BridgeEval.java:40-76 | The run-time scanner computes the split at the only operator outside literals |
| CondScan.ScanOps | bridge/java/src/BridgeCli.java:214-245 | The arm-time scanner finds the operators, a stray sign and an open literal |
| CondScan.ValidateCond | bridge/java/src/BridgeCli.java:214-280 | Accepts exactly the specified conditions, and then the run-time scanner splits at the same operator into the same sides |
| CondScan.CheckCalls | bridge/java/src/BridgeCli.java:256-279 | The loop over parentheses computes the call check |
| CondScan.CallsAreAllowedIff | bridge/java/src/BridgeCli.java:256-279 | The call check accepts exactly the texts in which every parenthesis opens an allowed call with no argument, or one integer for get |
| CondScan.ArgsAreHarmless | bridge/java/src/BridgeCli.java:337-347 | Allowed arguments hold only space, digits and a sign |

## Left out

- Process spawning, sockets, timers, clocks, the CDP and JDI peers: answers, verdicts, chunks and deadlines are parameters or nondeterministic events.
- Lock files: `create_new` with the record write, and the nonce check with the unlink in release, are one step each; removal of a quarantine file never fails; the write-failure cleanup in src/session/locks.rs:113-126 is inside the create step. The protocol is modelled on values rather than as one object because its properties are about interleavings of processes.
- Lock names: file systems that ignore case, on which names differing in case only would meet.
- LockRaces.RaceElectsOne: assumes no guard is dropped during the race and no call faults from the rename on, because a fault there can leave the path empty (`LockQuarantine.UnreadableCopyLosesRecord`).
- Close: the session directory deletion in src/session/close_status.rs:103-139; the close gate is a reclaimer in the lock model.
- Framing: `String.trim` and `str::trim` strip only the white space that can occur in a header read as ASCII; UTF-8 checking, JSON parsing of bodies and the Java reader's UTF-8 decoding are parameters; read deadlines are "the events ran out".
- JSON: printed text has no white space between tokens, as every printer in the program writes it; `Integer.parseInt` reads ASCII digits only; `parseJsonObject`, `parseStringArray` and the string-search helpers.
- Breakpoints: hit counters, `detail` texts and `breakpointResolved` upgrades of records; the liveness probe before each command; a refused request during startup ends the session and is an error here.
- BreakRuns.RunKeepsCoherent: takes commands one at a time; `SerialChain`, which serializes them, and `ServerState` are not modelled, being one counter and one flag each.
- IntentWriters: symbolic-link and file-type checks on the lock file; one edit per process.
- LiveIntent: commands with a non-main target, transport failures and persistence failures, after which the command reports that the two sides may differ.
- ChangeTrack.CompleteIsExact: speaks of the names the scan can see; a local named like an inherited property is never tracked (`ChangeTrack.CompleteIsExactIff`).
- ChangeTrack: formatting of values and frame identity are opaque strings; the local-variable display cache.
- StopMachine, IntentWriters: modelled on values, section by section, because their properties are about interleavings; the fields are those of the session and of the processes.
- StopMachine.SlotIsSingleAndAlwaysCleared: does not model the published `stopped` flag, response contents, stop diagnostics, logpoint evaluation and the automatic resumes of logpoint and stray pauses; a pause held by the page is the field `paused`; the exit of the process when its session directory changes hands.
- Identity: building and redacting identities; serialized size follows the compact printer for strings, and other scalars are given by their text.
- Referrers.Walk: argument parsing of `refs()` and the wording and order of the reported chains; an object's reported referrers are one fixed list.
- LogRing: console formatting and the flattening of line breaks, which is why appended lines contain none; an append or a rewrite on the disk happens as a whole or not at all.
- CondScan: evaluation of the path and comparison of values; the character classes of Java identifiers are parameters.
- CLI arguments, output rendering, diagnosis texts, installers, the Python and Node bridges and the examples.

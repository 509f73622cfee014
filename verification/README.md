# Models of the ChatGPT desktop launcher for Linux

This project models the parts of the repository whose correctness spans many calls or many
steps, and proves what those parts are for. It is checked with `dafny verify dfyconfig.toml`.

The four large models:

* **State migration** (`launcher/state-migration.py`). A journal, atomic no-replace renames,
  and three clean-up phases on what has been moved. `MigrationTree` holds directory trees and
  how links are followed in them. `MigrationWalk` is the walk that discards volatile entries, as
  a relation over all listing orders and kills; `MigrationSchedules` builds the schedules that
  show its condition on links to be exact; `MigrationDiscard` is the walk step by step.
  `MigrationDmg` and `MigrationCache` are the normalization of cached disk images, and
  `MigrationSteady` says what a kill during it means for the next discard. `MigrationPost` is the
  phases of one operation together with the rewriting of documents, `MigrationJob` one operation
  of the journal, `MigrationJournal` the disk and what it leads to, `MigrationRun` the machine
  that runs the migration. Every change of the disk is one step, and a run is killed when its
  step budget is used up, so a statement about every budget is a statement about every crash.
  `PathRewrite`, `JsonRewrite`, `ConfigRewrite` and `MigrationDocuments` model the rewriting of
  names inside persisted text. `RewriteExact` says exactly when it settles, `MigrationNames` what
  that means for the table of names that the migration itself uses, and `MigrationHomes` for the
  directories it uses when no others are set.
* **App-server process manager** (`computer-use-linux/src/chrome_runtime.rs`). `ProcessTable`
  holds the table and its critical sections as methods, `RuntimeManager` the state machine in
  which ensure, acquire, drop, reaper and shutdown interleave at every release of the mutex.
* **Mutation broker** (`generated-app-mutation-broker/src/lib.rs`). `BrokerWire` and
  `BrokerDecoder` are the binary protocol, `BrokerReplace` the compare-and-swap with other
  writers acting between any two system calls, `BrokerServe` the session.
* **Authorization** (`computer-use-linux/src/authorization.rs`, `server.rs`).
  `AuthorizationLease` refines a rule over the whole response history, `AuthorityWire` is the
  text protocol, `Dispatcher` the interleaving of serialized tool calls.

Around them: `AccessTree` and `AccessCompact` (accessibility snapshot and compaction),
`TerminalSessions` and `TerminalWindows` (matching terminal windows to PTY sessions),
`Screenshot` (shrink-to-fit), `InputEvents` (chords, text and drags under failing calls).
`Basics`, `Text` and `Sorting` hold what several of them share.

## Where the code does less than one would hope

* An interrupted migration can end differently from an uninterrupted one when a symbolic link
  leads, directly or through other links, to something that the clean-up removes: the walk
  judges a link to a directory by the names of temporary directories and a dangling link by the
  names of volatile files. `LinkIntoTempDirectoryWavers` shows two runs of the walk on such a
  tree, `LinkIntoImageIsLost` the same for the clean-up of disk images. `LinkStableIsExact` and
  `CacheSteadyIsExact` give the exact conditions on the links, over all listing orders and all
  schedules of kills, and the theorems about runs assume just these (`Steady`).
* Rewriting is not idempotent for every user. Where the home directory is the place of the
  installed product, as in `/opt/chatgpt`, the path `/opt/codex-app/.config/codex-app` becomes
  `/opt/chatgpt/.config/codex-app`, which is itself a name of the table and is replaced only by
  the next run (`OptHomeIsRewrittenTwice`, `InstalledHomeIsRewrittenTwice`); so a migration
  that is interrupted and rerun can leave other documents than an uninterrupted one
  (`InstalledHomeDoesNotSettle`). In `/opt/codex-app` a text goes through, but a string that is
  a name as a whole does not (`LegacyHomeIsRewrittenTwice`). The exact condition is that no name
  of the table, legacy or canonical, stands in the directory part of a migrated place (`Clear`):
  `OwnNamesAreExact` for values, `OwnNamesSettleExactly` for documents, `FallbackIsClear` in terms
  of the home directory. `UserHomeSettles` and `AccentedHomeSettles` are home directories that
  merely look suspicious. In general, too, a name can straddle a replacement and the text behind
  it (`StraddlingNamesAreRewrittenTwice`), which is why no name may share characters with another
  one in `Apart` and `Compatible`. `SettlesIsExact` shows that rerunning an interrupted migration
  needs precisely this stability of documents.
* A special file (a socket, a pipe, a device) under an image name survives the image clean-up,
  because the code removes only files, links and directories (`SpecialImageSurvives`).
  `NoSourceNameLeft` says that the clean-up is complete exactly when it started without one.
* The guard against a zero shrink in the screenshot loop and the upper bound of its clamp are
  never reached: `ShrinkIsStrong` and `SideShrinks` give a reduction by a tenth in every round.
* The fallback of `active_terminal_process` is never taken for distinct pids
  (`ActiveIsNewestLeaf`).

## Model

| member | source | states |
|---|---|---|
| AuthorizationLease.StepRemembers | computer-use-linux/src/authorization.rs:166-197 | one response keeps the three fields faithful to the history, and its verdict is the one of the history rule, with the right denial |
| AuthorizationLease.AfterRemembers | computer-use-linux/src/authorization.rs:57-62 | after any responses the floor is the largest generation seen, denied says whether a Deny carried it, and the token is that of its first Allow |
| AuthorizationLease.LeaseRefinesHistoryRule | computer-use-linux/src/authorization.rs:166-197 | an Allow is granted exactly when its generation is at least every earlier one, no Deny carried it, and its token is that of the first Allow at it |
| AuthorizationLease.ArrivalOrderIrrelevant | computer-use-linux/src/authorization.rs:166-197 | floor and denial are the same for every arrival order of the same responses |
| AuthorizationLease.RevocationIsPermanent | computer-use-linux/src/authorization.rs:166-197 | a denied generation is refused as stale after any later history |
| AuthorizationLease.Lease.ApplyResponse | computer-use-linux/src/authorization.rs:166-197 | the method on the mutable fields grants exactly what the history rule grants and extends the history |
| AuthorityWire.EncodeHexLoop | computer-use-linux/src/authorization.rs:350-358 | the loop yields lowercase hexadecimal that decodes to the same bytes |
| AuthorityWire.DecodeHexLoop | computer-use-linux/src/authorization.rs:360-379 | the loop accepts exactly lowercase hexadecimal of the expected length |
| AuthorityWire.ParseGeneration | computer-use-linux/src/authorization.rs:337-348 | a generation is accepted exactly when it is the canonical decimal of a number from 1 to 2^64-1 |
| AuthorityWire.ParseAfterPrint | computer-use-linux/src/authorization.rs:303-335 | parsing a printed Allow or Deny returns it, for every generation |
| AuthorityWire.PrintAfterParse | computer-use-linux/src/authorization.rs:303-335 | every accepted text is the canonical print of its value |
| AuthorityWire.AcceptedTextIsUnique | computer-use-linux/src/authorization.rs:303-335 | two accepted texts with the same value are the same text |
| Dispatcher.ActionKeepsSafe | computer-use-linux/src/server.rs:2057-2088 | every single action of any call keeps the invariant of lock, lease and caches |
| Dispatcher.DispatchIsAuthorized | computer-use-linux/src/server.rs:2074-2088 | in every interleaving each dispatch directly follows its own successful revalidation, and with the lock free a cached capability means the last revalidation succeeded and nobody denied its generation |
| Dispatcher.DispatchesDoNotOverlap | computer-use-linux/src/server.rs:2074-2088 | two dispatches never overlap and no revalidation happens during one |
| Dispatcher.Backend.ClearMcpAuthorizedState | computer-use-linux/src/server.rs:2057-2071 | after the five clearing steps nothing is cached |
| Dispatcher.Backend.RunMcpAuthorized | computer-use-linux/src/server.rs:2074-2088 | a call dispatches exactly when the history rule grants its response, and otherwise leaves no capability cached |
| ProcessTable.ProcessMap.AcquireProcessLease | computer-use-linux/src/chrome_runtime.rs:691-729 | which of the five results comes when; a running process gets one lease more and loses its deadline, an exited one leaves the table for the caller, and no other client's process changes |
| ProcessTable.ProcessMap.ReleaseProcessLease | computer-use-linux/src/chrome_runtime.rs:731-753 | only a leased process of this very instance loses a lease, it gets a deadline exactly with its last one, and no other client's process changes |
| ProcessTable.ProcessMap.ReapIdleProcesses | computer-use-linux/src/chrome_runtime.rs:806-837 | exactly the exited and the expired lease-free processes leave the table |
| ProcessTable.ProcessMap.MakeRoom | computer-use-linux/src/chrome_runtime.rs:644-663 | a full table gives up its least recently touched lease-free process, or refuses when all are leased |
| RuntimeManager.ActionIsSafe | computer-use-linux/src/chrome_runtime.rs:579-837 | every critical section of every actor keeps the whole invariant |
| RuntimeManager.ReachableWorldIsConsistent | computer-use-linux/src/chrome_runtime.rs:202-214 | in every reachable state a mapped process's count equals its outstanding leases, it has a deadline exactly when it has none, and the table holds at most 16 entries |
| RuntimeManager.DropTouchesOnlyItsOwn | computer-use-linux/src/chrome_runtime.rs:731-753 | dropping a lease never underflows and never changes a process of another instance |
| RuntimeManager.InsertionNeverDisplaces | computer-use-linux/src/chrome_runtime.rs:665-688 | the final insert finds no entry under its client although the lock was released around the start |
| RuntimeManager.ProcessesMoveForward | computer-use-linux/src/chrome_runtime.rs:579-688 | every process ever started is in one place and only moves from starting to mapped to held to stopped |
| RuntimeManager.RemovalsAreJustified | computer-use-linux/src/chrome_runtime.rs:598-663 | a process leaves the table only by replacement for its own client, because it exited or is idle, or at shutdown |
| RuntimeManager.LeasedProcessStays | computer-use-linux/src/chrome_runtime.rs:714-752 | a running leased process is not reaped or evicted; a reconnect cancels a pending removal |
| RuntimeManager.ShutdownIsFinal | computer-use-linux/src/chrome_runtime.rs:988-1026 | once a shutdown has returned the table stays empty in every later state |
| BrokerWire.BigEndianAfterFrom | generated-app-mutation-broker/src/lib.rs:695-708 | big-endian fields and their values determine each other |
| BrokerWire.DecodeAfterEncode | generated-app-mutation-broker/src/lib.rs:200-235 | every legal request is decoded from its encoding |
| BrokerWire.EncodeAfterDecode | generated-app-mutation-broker/src/lib.rs:733-793 | everything the decoder accepts is legal and is the encoding of what it returns |
| BrokerWire.AcceptsExactlyEncodings | generated-app-mutation-broker/src/lib.rs:200-235 | the decoder accepts exactly the encodings of legal requests |
| BrokerWire.JoinedIsFaithful | generated-app-mutation-broker/src/lib.rs:645-658 | an accepted path joins to at most 4096 bytes without NUL and splits back into its components |
| BrokerWire.JoiningIsInjective | generated-app-mutation-broker/src/lib.rs:645-654 | different accepted paths join to different strings |
| BrokerWire.ResponsesFit | generated-app-mutation-broker/src/lib.rs:237-306 | every list, read and replace response fits in a frame |
| BrokerWire.RequestsFit | generated-app-mutation-broker/src/lib.rs:14-26 | every legal request fits in a frame |
| BrokerWire.FrameRoundTrip | generated-app-mutation-broker/src/lib.rs:165-197 | a written frame is read back and the rest of the stream is untouched |
| BrokerWire.RequestSurvivesTransport | generated-app-mutation-broker/src/lib.rs:165-197 | encode, frame, read and decode return the same legal request |
| BrokerDecoder.Decoder.DecodeComponents | generated-app-mutation-broker/src/lib.rs:733-783 | the counted loop over an advancing position reads what the specification reads |
| BrokerDecoder.DecodeRequest | generated-app-mutation-broker/src/lib.rs:200-235 | the decoder object returns the specified request or error for every frame |
| BrokerDecoder.Input.ReadFrame | generated-app-mutation-broker/src/lib.rs:165-190 | a frame is read correctly however the stream splits it into pieces |
| BrokerReplace.TemporaryIsReserved | generated-app-mutation-broker/src/lib.rs:339-345 | the temporary of every accepted path has a reserved name |
| BrokerReplace.Broker.ReadTarget | generated-app-mutation-broker/src/lib.rs:281-306 | a read hands out the bytes that are in the file, under a fresh token; without interference it fails only for a missing or unreadable file |
| BrokerReplace.Broker.CheckTarget | generated-app-mutation-broker/src/lib.rs:324-337 | the check passes only if the target was read and found unchanged and owned by this user |
| BrokerReplace.Broker.SwapFile | generated-app-mutation-broker/src/lib.rs:347-388 | the steps taken are a prefix of temporary, exchange, removal, or the temporary was withdrawn; the removal of a displaced file means that it passed the check |
| BrokerReplace.Broker.DropDisplaced | generated-app-mutation-broker/src/lib.rs:371-387 | the displaced file is removed only when it is the one that was handed out |
| BrokerReplace.Broker.ReplaceTarget | generated-app-mutation-broker/src/lib.rs:308-393 | success means that exactly the handed-out bytes were swapped out, whatever other writers did; nothing is written before the check, and only the broker's own temporary or a checked displaced file is ever removed; without interference the swap succeeds exactly for the unchanged file and changes only its content |
| BrokerServe.SuccessNeedsFreshRead | generated-app-mutation-broker/src/lib.rs:288-296 | between two successes with one token lies a read that handed it out again |
| BrokerServe.Handle | generated-app-mutation-broker/src/lib.rs:200-235 | a rejected frame changes nothing, a success ties its response to the swap that took place, and a replace that failed got no further than the swap of the bytes handed out with its token could |
| BrokerServe.Serve | generated-app-mutation-broker/src/lib.rs:125-163 | no frame is handled after the first error, every success swapped out the bytes of the latest unspent read with its token, and a replace that failed got no further than its swap of those bytes could |
| MigrationTree.LeadsWhileFound | launcher/state-migration.py:210-217 | following a path through links still ends at a directory, after entries have gone, exactly when it did before and everything found on the way is still there |
| MigrationTree.RemoveTree | launcher/state-migration.py:220-220 | removing a directory, killed at any step, removes one entry a step, only entries below it, and leaves no orphan |
| MigrationWalk.ScanJudgesAlike | launcher/state-migration.py:214-228 | after any kills, a scan judges every child exactly as an uninterrupted descent to its directory would |
| MigrationWalk.StepKeepsCourse | launcher/state-migration.py:206-229 | every step of the walk takes away only what must go, in an order in which scans further up have finished first, and still has ahead of it everything that must go |
| MigrationWalk.OutcomeIsSwept | launcher/state-migration.py:206-229 | for every listing order and every schedule of kills and reruns the discard ends with one and the same tree |
| MigrationWalk.SweptIsSettled | launcher/state-migration.py:206-229 | a discard of what a discard has left finds nothing to do |
| MigrationSchedules.KillsKeepOutcome | launcher/state-migration.py:206-229 | what killed discards leave is stable again and has the same outcome |
| MigrationSchedules.LinkStableIsExact | launcher/state-migration.py:206-229 | all listing orders and schedules of kills end with one tree if and only if no link wavers, that is, nothing a link rests on can be gone when its directory is scanned again, unless a scan strictly above has taken it or the link goes first |
| MigrationSchedules.WaveringSplits | launcher/state-migration.py:206-229 | for each wavering link, two runs of the walk: one judges it by its directory name, the other, after a kill, by its file name |
| MigrationSchedules.LinkIntoTempDirectoryWavers | launcher/state-migration.py:216-228 | a lock file linked to a temporary directory, or to a link with a temporary name, is kept by an uninterrupted run and lost by a killed and repeated one |
| MigrationSchedules.LinkBelowIsStable | launcher/state-migration.py:210-228 | the same lock file one directory further down is removed by every run |
| MigrationDiscard.ScanDirectory | launcher/state-migration.py:211-228 | one directory of the walk loses exactly its temporary directories and then its volatile files, and the walk goes on as its relation allows |
| MigrationDiscard.DiscardVolatileEntries | launcher/state-migration.py:206-229 | the walk refines its relation; without wavering links it leaves exactly the swept tree and, killed anywhere, the same result is still ahead |
| MigrationDmg.DigestIn | launcher/state-migration.py:232-232 | an image name is recognized exactly when it is prefix, digest of 64 lowercase hexadecimal digits and extension |
| MigrationDmg.PartialDiscardKeepsNormal | launcher/state-migration.py:252-257 | taking away part of an image that will not survive changes no outcome |
| MigrationDmg.RenameKeepsNormal | launcher/state-migration.py:271-279 | renaming a valid image to a free target name changes no outcome |
| MigrationDmg.NormalFormIsUnique | launcher/state-migration.py:259-286 | two normalized directories reached from the same start are the same directory |
| MigrationDmg.ResolveClash | launcher/state-migration.py:272-278 | with the target name taken the source goes, and so does a target that does not hash to its name |
| MigrationDmg.NormalizeImage | launcher/state-migration.py:263-279 | one source-prefixed image, killed at any step, keeps the outcome of the directory |
| MigrationCache.NormalizeDirectory | launcher/state-migration.py:259-286 | whatever the listing order, a finished run leaves the normal form and a killed one a directory with the same normal form |
| MigrationCache.NormalizeCache | launcher/state-migration.py:289-297 | root and downloads are normalized in turn; refused exactly when downloads is no directory; killed anywhere the outcome stays |
| MigrationCache.NormalCacheReached | launcher/state-migration.py:289-297 | the normal form of a cache is itself a state that normalization steps lead to |
| MigrationCache.NoSourceNameLeft | launcher/state-migration.py:259-286 | what normalization makes of a directory holds no source-prefixed name, and only targets that hash to their names, exactly when the directory it started from held no special file under an image name |
| MigrationCache.SpecialImageSurvives | launcher/state-migration.py:252-257 | a directory whose one special file keeps its source-prefixed name |
| MigrationSteady.CutKeepsCache | launcher/state-migration.py:654-657 | wherever normalization is cut short, the discard of the next run, on any schedule, takes away only what normalization would drop anyway, and the outcome of the cache stays |
| MigrationSteady.CacheSteadyIsExact | launcher/state-migration.py:654-657 | that holds for every cut and every schedule if and only if no surviving link rests on something that normalization drops |
| MigrationSteady.LinkIntoImageIsLost | launcher/state-migration.py:654-657 | a lock file linked to a directory with an image name is part of the outcome of an uninterrupted run and lost by a run after a cut |
| MigrationPost.SettlesIsExact | launcher/state-migration.py:425-457 | a rewriting pass may be cut short anywhere if and only if a rewritten document is left alone by a second pass |
| MigrationPost.TemporaryIsInert | launcher/state-migration.py:451-451 | a temporary that a crash leaves behind is touched by no later phase |
| MigrationPost.RewriteKnownPaths | launcher/state-migration.py:425-457 | files are rewritten in any order, each in one atomic replacement; refused exactly when some document is refused |
| MigrationPost.ShapeKeepsPrepared | launcher/state-migration.py:654-657 | rewriting gives neither the discard nor the normalization of a later run anything to do |
| MigrationPost.RunPhases | launcher/state-migration.py:654-657 | the three phases of an operation, killed anywhere, keep the outcome; finished they have reached it and running them again changes nothing |
| MigrationJob.CompleteRests | launcher/state-migration.py:622-628 | a complete operation is passed over by every later run |
| MigrationJob.SkippedRests | launcher/state-migration.py:625-628 | rewriting a skipped destination leads to rest |
| MigrationJournal.AtRestIsFixed | launcher/state-migration.py:573-665 | running the same direction again after completion is not refused and changes nothing |
| MigrationJournal.OnwardKeepsOutcome | launcher/state-migration.py:573-665 | a disk reached by any steps of a run still leads to the same final disk, and is refused exactly when the start is |
| MigrationJournal.DiscardRuntimeState | launcher/state-migration.py:460-475 | runtime directories are removed, killed anywhere, or refused exactly when something else stands in their place |
| MigrationRun.Machine.WriteJournal | launcher/state-migration.py:542-556 | the journal on disk is the old one or the new one, never torn |
| MigrationRun.Machine.RevalidateAndMovePath | launcher/state-migration.py:508-539 | the move is one atomic step and happens only onto a free place on the same device |
| MigrationRun.Machine.RunOperation | launcher/state-migration.py:622-660 | one operation's turn changes only its own places and status and only onwards |
| MigrationRun.Machine.FinishRun | launcher/state-migration.py:664-665 | after the last operation the runtime directories and then the journal go; a run that ends here has reached the final disk |
| MigrationRun.Machine.RunOperations | launcher/state-migration.py:622-660 | all operations in order, killed or refused anywhere, keep the outcome |
| MigrationRun.Machine.RunMigration | launcher/state-migration.py:573-665 | however an invocation ends the final disk and the verdict stay the same; success means the final disk is reached and at rest, and a success from rest changes nothing; with enough steps a run succeeds exactly when nothing blocks it; a journal of the other direction means failure without any change; the journal stays in order and in step with the disk |
| MigrationRun.Machine.RunManyTimes | launcher/state-migration.py:573-665 | for every schedule of kills and reruns, a run that succeeds leaves the disk of one uninterrupted run |
| MigrationRun.TurnInLoop | launcher/state-migration.py:622-660 | one operation's turn, however it ends, leaves the whole disk on the way to the same outcome and takes a bounded number of steps |
| MigrationRun.OnwardKeepsConsistent | launcher/state-migration.py:620-660 | in every reachable state the statuses read (complete or skipped)*, at most one moving, (pending or skipped)*, a pending operation has only its source, a complete one only its settled destination, a moving one exactly one of the two |
| PathRewrite.RewritePathReferences | launcher/state-migration.py:343-350 | the loop over the pairs computes the fold that the lemmas are about |
| PathRewrite.FoldIsSimultaneous | launcher/state-migration.py:343-350 | pair after pair or all pairs at once gives the same text |
| PathRewrite.OrderIsIrrelevant | launcher/state-migration.py:328-328 | pairs of equal length may be sorted in any order |
| PathRewrite.RewritingIsIdempotent | launcher/state-migration.py:343-350 | rewriting rewritten text changes nothing |
| PathRewrite.ReverseUndoesForward | launcher/state-migration.py:300-350 | reverse after forward restores every text that holds no replacement name |
| PathRewrite.OnePairIsExact | launcher/state-migration.py:343-350 | for one pair whose name cannot overlap itself: idempotent on every text if and only if the name cannot reach into the replacement |
| PathRewrite.StraddlingNamesAreRewrittenTwice | launcher/state-migration.py:343-350 | two pairs without any name inside another, and a text on which the second pass goes on |
| JsonRewrite.FailsExactlyOnClash | launcher/state-migration.py:353-371 | rewriting fails exactly when two keys of one object would become equal, and otherwise keeps the shape |
| JsonRewrite.RewritingKeepsWellFormed | launcher/state-migration.py:353-371 | rewriting yields only values that reading a document can yield: distinct keys in every object, numbers in the printer's notation |
| JsonRewrite.RewritingMakesNoName | launcher/state-migration.py:366-370 | path rewriting does not turn a string into a name that would be replaced as a whole |
| JsonRewrite.JsonRewritingIsIdempotent | launcher/state-migration.py:353-371 | rewriting a rewritten value succeeds and changes nothing |
| JsonRewrite.JsonReverseUndoesForward | launcher/state-migration.py:353-371 | reverse after forward restores every value that holds no replacement name |
| RewriteExact.SettledIsClean | launcher/state-migration.py:343-350 | when every replacement loses one and the same letter, a pass leaves a text as it is exactly when no replaced name stands in it |
| RewriteExact.PassIsExact | launcher/state-migration.py:343-350 | as long as no replaced name stands in front of a replacement: rewriting is idempotent on every text if and only if no replacement stands in front of a replaced name |
| RewriteExact.PutBackIsRewrittenTwice | launcher/state-migration.py:343-370 | the text on which it fails: a name in which a replacement stands, with that replacement put back, becomes the name in the first pass and is replaced in the second |
| RewriteExact.ValuesAreExact | launcher/state-migration.py:353-371 | rewriting is idempotent on every JSON value if and only if no name, replaced or replacement, stands in front of another |
| ConfigRewrite.RewriteConfigScalar | launcher/state-migration.py:392-405 | the loop over the pairs replaces the first name that the value consists of, after the paths in it |
| ConfigRewrite.FrameIsExact | launcher/state-migration.py:394-405 | a value is a name as a whole exactly when it is white space, an optional quote, the name, the same quote, and white space with an optional comment, in only one way |
| ConfigRewrite.JoinedIsParsed | launcher/state-migration.py:386-389 | an assignment put together from indent, key, separator, value and line end is taken apart into just these |
| ConfigRewrite.RewriteConfigDocument | launcher/state-migration.py:408-422 | the loop over the lines rewrites each line and keeps their order |
| ConfigRewrite.LineSettles | launcher/state-migration.py:408-422 | a rewritten line keeps its line end and stays as it is when rewritten again |
| ConfigRewrite.ConfigSettles | launcher/state-migration.py:408-422 | rewriting a rewritten settings document changes nothing |
| MigrationDocuments.RewriterSettles | launcher/state-migration.py:374-457 | with names that do not interfere, and any JSON reader and printer that agree on values a document can hold, a rewritten document, JSON or settings, is left alone by a second pass |
| MigrationNames.OwnNamesAreTwoWay | launcher/state-migration.py:300-328 | in clear directories the names the migration replaces do not interfere, forward or reverse, so that rewriting with them settles and can be undone |
| MigrationNames.OwnNamesAreExact | launcher/state-migration.py:300-371 | rewriting with the migration's own names is idempotent on every value if and only if no such name, legacy or canonical, stands in the directory of a migrated place |
| MigrationNames.PlainBasesNest | launcher/state-migration.py:35-82 | no migrated place begins inside another one and reaches its end if all parts of the directories end in word characters |
| MigrationHomes.FallbackIsClear | launcher/state-migration.py:35-82 | the default directories are clear if and only if neither a name of the installed product nor the dotted name stands in the home directory |
| MigrationHomes.FallbackNests | launcher/state-migration.py:35-82 | in the default directories no place reaches another one's end if the parts of the home directory end in word characters or none of them is named like a place |
| MigrationHomes.UserHomeSettles | launcher/state-migration.py:35-82 | a home directory named chatgpt outside of the installation meets all conditions |
| MigrationHomes.AccentedHomeSettles | launcher/state-migration.py:35-82 | so does one whose name ends in an accented letter |
| MigrationHomes.InstalledHomeIsRewrittenTwice | launcher/state-migration.py:300-350 | a home directory that is the installed product's place: a path into its configuration becomes a legacy place in the first pass and a canonical one in the second |
| MigrationHomes.OptHomeIsRewrittenTwice | launcher/state-migration.py:300-350 | the instance for `/opt/chatgpt` |
| MigrationHomes.LegacyHomeIsRewrittenTwice | launcher/state-migration.py:366-370 | a home directory that is the installed product's legacy place: a string that is a name as a whole is rewritten twice |
| MigrationDocuments.OwnNamesSettle | launcher/state-migration.py:300-457 | in clear directories documents rewritten by the migration's own table are left alone by a rerun |
| MigrationDocuments.OwnNamesSettleExactly | launcher/state-migration.py:300-457 | they are left alone if and only if the directories are clear, where documents about as long as two names fit within the size limit |
| MigrationDocuments.InstalledHomeDoesNotSettle | launcher/state-migration.py:300-457 | in a home directory that is the installed product's place a rerun rewrites a document once more |
| AccessTree.SnapshotTree | computer-use-linux/src/atspi_tree.rs:121-161 | entries are visited in breadth-first order, all of them unless the node limit is reached, and each that opens is listed; parents come first, one level apart, within both limits |
| AccessTree.LevelsInOrder | computer-use-linux/src/atspi_tree.rs:138-158 | the listing goes level by level |
| AccessCompact.NearestKeptParent | computer-use-linux/src/server.rs:2924-2938 | the walk up ends and finds the nearest kept ancestor |
| AccessCompact.CompactAccessibilityTree | computer-use-linux/src/server.rs:2879-2922 | the result lists the kept nodes with positions as indexes, nearest kept ancestors as parents and true child counts |
| AccessCompact.CompactionHasParentsEarlier | computer-use-linux/src/server.rs:2891-2919 | afterwards every index is the position, every child count is true and parents still come first |
| AccessCompact.AncestryIsKept | computer-use-linux/src/server.rs:2924-2938 | among kept nodes a is an ancestor of b afterwards exactly when it was before |
| AccessCompact.OrderIsKept | computer-use-linux/src/server.rs:2891-2901 | kept nodes stay in their order |
| AccessCompact.RootsAreKept | computer-use-linux/src/server.rs:2940-2953 | in a snapshot the roots are kept and are the only nodes without a parent afterwards |
| AccessCompact.CompactionIsIdempotent | computer-use-linux/src/server.rs:2879-2922 | compacting twice equals compacting once |
| TerminalSessions.DepthIsChainLength | computer-use-linux/src/terminal.rs:201-216 | the depth is finite exactly when a chain of fewer than 129 parents leads to the ancestor, and is its length |
| TerminalSessions.IsDescendantOf | computer-use-linux/src/terminal.rs:184-199 | the walk answers yes exactly when the depth is finite |
| TerminalSessions.ProcessDepth | computer-use-linux/src/terminal.rs:201-216 | the walk returns the depth |
| TerminalSessions.RootIsShallowest | computer-use-linux/src/terminal.rs:134-154 | a session's root is an attached process of least depth, among those the oldest |
| TerminalSessions.ActiveIsNewestLeaf | computer-use-linux/src/terminal.rs:157-173 | for distinct pids a leaf always exists and the active process is the newest one |
| TerminalSessions.TerminalSessionsForPid | computer-use-linux/src/terminal.rs:116-155 | grouping by line yields the sessions in the order of their lines |
| TerminalSessions.SessionsCoverLines | computer-use-linux/src/terminal.rs:116-155 | there is one session for each line that has an attached process |
| TerminalWindows.MatchPid | computer-use-linux/src/terminal.rs:67-105 | the k-th window by id receives the k-th session by start, or all windows of the application are left alone |
| TerminalWindows.EnrichTerminalWindows | computer-use-linux/src/terminal.rs:47-106 | every application is matched on its own and other windows stay as they were |
| TerminalWindows.AllOrNone | computer-use-linux/src/terminal.rs:76-105 | for each application all terminal windows receive a session or none is touched |
| TerminalWindows.MatchingIsOneToOne | computer-use-linux/src/terminal.rs:73-105 | matched windows hold different sessions, and a smaller window id never goes with a later start |
| Screenshot.StartingSizeFits | computer-use-linux/src/screenshot.rs:498-513 | the starting size is between 1 and the original, within the caller's limits, and proportional up to rounding |
| Screenshot.FittingSizeIsKept | computer-use-linux/src/screenshot.rs:498-513 | a screenshot within the limits is not scaled |
| Screenshot.ShrinkIsStrong | computer-use-linux/src/screenshot.rs:588-588 | over the limit the factor lies between 0.1 and 0.9 |
| Screenshot.SideShrinks | computer-use-linux/src/screenshot.rs:589-597 | a side above one pixel strictly shrinks, by a tenth at least unless it reaches one pixel |
| Screenshot.SidesDecay | computer-use-linux/src/screenshot.rs:582-600 | after k rounds a side is one pixel or at most (9/10)^k of its start |
| Screenshot.EncodeToFitBytes | computer-use-linux/src/screenshot.rs:515-560 | the loop ends for every encoder; a success is the first attempt within the limit, with sides between 1 and the start; failure means the encoder failed or one pixel is too large |
| InputEvents.NothingOwedMeansReleased | computer-use-linux/src/remote_desktop.rs:587-605 | with nothing owed in the end every successful press has a release attempt of its own after it |
| InputEvents.Portal.ReleasePressed | computer-use-linux/src/remote_desktop.rs:587-605 | everything still pressed is let go newest first, whether or not the attempts succeed |
| InputEvents.Portal.PressKeycodeChord | computer-use-linux/src/remote_desktop.rs:272-314 | for every pattern of failures nothing is owed in the end; success is exactly all events succeeding, in the order of the chord and back |
| InputEvents.Portal.TypeTextWithKeysyms | computer-use-linux/src/remote_desktop.rs:249-270 | for every pattern of failures nothing is owed in the end; success is exactly the whole text typed |
| InputEvents.Portal.Drag | computer-use-linux/src/remote_desktop.rs:200-247 | the button is let go whatever happens to the motion; success is exactly motion, press, motion, release |

## Left out

- RewriterSettles: treats JSON reading and printing and the size and encoding checks as parameters (`Formats`), assuming that JSON values are read back as printed; a document that is the bare number NaN, unequal to itself, and strings that cannot be encoded when written are not modelled.
- OwnNamesAreExact: assumes that no migrated place begins inside another one and reaches its end (`PlacesNest`), which takes a directory part that ends in no word character with a copy of another place's path behind it.
- PassIsExact: where a replaced name stands in front of a replacement, texts other than whole strings may settle or not, depending on which other places there are; `ValuesAreExact` covers that case for values, which never settle there.
- RunManyTimes: assumes no other writer on the migrated paths, pairwise disjoint operation paths, links that meet the exact conditions (`LinkStable`, `CacheSteady`) and documents that settle; the exact conditions are stated by `LinkStableIsExact`, `CacheSteadyIsExact` and `SettlesIsExact`.
- RunPhases: each condition is exact for its own phase; composed, a link that wavers only inside a directory with an image name is excluded as well, although normalization drops that directory and the link with it on every run.
- RunMigration: the creation of missing parent directories, file modes, `fsync`, the user-facing recovery commands and the environment hooks of the test suite are not modelled; whether two places are on one device is a parameter of the operation.
- RewriteKnownPaths: the temporary of an interrupted replacement is reported beside the tree instead of being an entry of it; `TemporaryIsInert` is why no later phase would touch it.
- DiscardVolatileEntries: what a link finds outside of the tree does not change while the migration runs; a path that climbs above the root of the tree, or leaves the tree through one link and comes back through another, counts as leading nowhere.
- OnePairIsExact: for several pairs of which some replace more than a last word `Apart` is proved sufficient only; for pairs as the migration has them `ValuesAreExact` is exact.
- ReachableWorldIsConsistent: wrap-around of 64-bit counters, poisoned mutexes and clock behaviour other than order are not modelled; taking the next instance number is a step of its own.
- ReplaceTarget: a writer that keeps a descriptor of the displaced file open and writes to it after the check is outside the model, as are reads torn by such a writer; the broker's reserved temporary names are not touched by others, not even by a renamed parent directory, which otherwise is a change of the paths below it; the success without interference assumes that the parent directories exist and that no path exceeds the kernel's limit.
- Handle: the entries of a directory listing and their sorting are not part of the response model; only the size of a listing response is.
- SnapshotTree: element states and the selection of root objects are not modelled.
- EnrichTerminalWindows: reading `/proc` is not modelled; the command name, command line and working directory of a process are one summary.
- SidesDecay: floating-point numbers are reals, and the square root is any function that keeps the unit interval.
- PressKeycodeChord: cancellation of the asynchronous call and the pauses between events are not modelled.
- `PendingHandshakePool`, asset uploads, proxy connections and manifest selection of the Chrome runtime are not part of this model.
- The permission, ownership and symbolic-link policy checks of sockets, directories and executables are not part of this model except where they decide a protocol step.
- The React settings page, the bundle patches, the GNOME extension and the command-line parsers are not part of this model.

# Verified model of Dactyl's SQLite recovery, backup, batches and rows

Dactyl keeps a SQLite database behind an adapter, and offers the same rows and
parameters over remote services. This project models the parts of it where a
mistake loses data, and proves what they keep:

* **File custody in recovery** (`Disks`, `Custody`, `FileSystems`, `Moves`,
  `Staging`, `Preservation`, `UndoLog`, `Rollback`, `Activation`, `Transfer`,
  `Recovery`). Recovery rebuilds a database in a private directory, moves the
  original and its `-wal`, `-shm` and `-journal` files to archive names, renames
  the replacement into place, and on a failure undoes its own moves from a log.
* **The logical rebuild** (`Databases`, `Rebuild`, `Cells`, `SqlText`).
* **The online backup** (`Publication`, `Backup`).
* **Atomic batches** (`Atomic`), **the connection registry** (`Registry`) and
  **foreign-key regrouping** (`ForeignKeys`).
* **Row normalisers and the portable cell profile** (`Rows`, `Cells`).

## How custody is modelled

A `Disk` maps names to inodes and inodes to contents and modes, and remembers
which inodes and names a power loss could still undo. `FileSystem` is the system
as the code calls it: every call may fail, and after every call other writers may
add names for new inodes (unless the directory is `quiet`). Every step, of the
code, of SQLite and of the others, is entered in a ghost trail, so that a claim
about every moment of a trail is a claim about every place the process may stop.

`Custody.Plan.Allowed` is the rule on single steps. The imperative code carries
the proof that it takes no other (`FileSystem.Valid`), and the theorems of
`Custody` hold of every run that keeps the rule. A rename by `move_noreplace` has
three outcomes: refused; made and confirmed; made, but the confirming check failed.
The third leaves a `Strayed` mark in the trail and no entry in the undo log.
Further marks record the disks at the close and at the reopening of the old handle,
and how many calls had failed when the clean-up began; `faults` counts the failing
calls of the file system and `refusals` those of SQLite, so that "no call has failed
since" can be said of a result, and success be stated as an if-and-only-if; `checks`
counts the checks that have passed. An adapter's `undoing` is the two counts at the
time a recovery began to undo. A name
links a regular file, a directory, a link or something else; `Opens` says that
following links from it ends at something that is there.

SQLite's own work is a step that may rewrite the family of files of the database
it has open, within a stated frame. While it works in staging it is taken to
create no file of its own, as docs/sqlite-recovery.md says of the pre-created
journal. Checkpoints, extended attributes, ownership and the identity of the
parent directory are checks that may fail at any time and change nothing.

## What the proofs found

* **Every sidecar of the close is accounted for**, logged or not: until the original is
  reopened it is beside the source or under its archive name, and under the latter
  whenever a confirmed replacement is at the source (`Custody.Plan.RunKeepsHeld`,
  `Recovery.Recover`).
* **A move that was made but not confirmed is not undone.** After a plain error in
  a quiet directory, the directory at the reopening is the one at the close if and
  only if no move strayed (`Transfer.UndoneAfterPreservation`, `Recovery.Recover`);
  otherwise the stray sidecar stays under its archive name. If the activation
  strays, the rollback puts every sidecar back beside the replacement and stops,
  with the original still archived (`Transfer.GiveUpActivating`).
* **When a rollback fails.** An error from before the close is plain exactly unless
  SQLite refused to end the transaction. After the close, with no other writer and
  neither a failing call nor a refusal from the moment the run begins to undo, the error
  is plain, with the original back and open, exactly unless the main file's move or the
  activation went unconfirmed (`Transfer.GiveUpPreserving`, `Transfer.GiveUpActivating`,
  `Recovery.Recover`); a replacement that was active must have been left alone at the
  source, for the quarantine refuses to leave anything beside it
  (`Activation.Quarantine`, `Transfer.GiveUpFinishing`).
* **The rule "the archive if present, else the source"** finds the original at every
  stop if and only if the archive was not named like the staging directory
  (`Custody.Plan.RuleFindsOriginal`).
* **An archived sidecar may be unsynced at activation**: `Path::exists` takes a failed
  call for absence (`Moves.SyncSidecar`). It also takes a link that leads nowhere for
  absence, but every archived sidecar is a plain file (`Preservation.LoggedAreSeen`),
  so a recovery in which no call fails overlooks nothing it has archived.
* **The recorded identity is missing after a reopening** exactly when the call that
  reads it fails (`Adapters.SqliteAdapter.Reopen`). A recovery in which no call fails
  has recorded it.
* **`name NOT LIKE 'sqlite_%'` drops user objects.** In a pattern `_` is any
  character, so a table `sqlite3_users` or a trigger `sqlite3_audit` is left out of
  the rebuild (`Databases.EveryTableKeptIff`, `Databases.EveryObjectKeptIff`,
  `Databases.PatternIsWider`).
* **Two readers of cells disagree** on exactly the integers above the signed 64-bit
  range (`Cells.ReadersAgree`).
* **A batch of reads is atomic only if no read it reaches writes**; the check of the
  first word admits reads that do (`Atomic.StopsCleanlyIff`, `Atomic.ReadsMayWrite`).
* **The registry is exact only if every adapter is dropped under the key it opened
  with** (`Registry.ExactIffStable`); otherwise `Registry.DropEffect` says what it
  counts.
* **A backup may replace what was already there.** Its existence test takes a failed
  call for absence, and a link that leads nowhere too, which takes no failing call;
  its rename replaces (`Backup.EnsureAbsent`, `Backup.PublishTemporary`). With no
  failing call, no refusal by SQLite and no lock that outlasts the timeout, it succeeds
  exactly when neither the destination nor its `-wal` or `-shm` can be opened and a
  temporary name is free (`Backup.BackupDatabase`): a link there that leads nowhere is
  lost. A caller is safe
  if the destination has no entry, by a look that does not follow links. The
  destination's `-journal` is never looked at: a stale one stays beside the copy. Nor
  does the code refuse a destination named as a sidecar of a database SQLite has open
  (`Publication.SidecarIsNoDestination`).
* **A recovery with nothing in its way succeeds.** With no other writer, no failing
  call and no refusal, it does exactly when the conditions its checks ask hold, a
  staging directory can be made whose name is not the archive's, and the source can be
  rebuilt (`Recovery.Recover`). No later step can find a name taken or a sidecar unfit.

## Model

| member | source | states |
|---|---|---|
| Paths.AcceptedIffNamesDistinct | src/adapter/sqlite/recovery.rs:772-788 | the guard accepts two paths exactly when they are of one directory and the eight names recovery may touch are pairwise different, whatever the file names |
| Paths.StagingIsNoSidecar | src/adapter/sqlite/recovery.rs:178-183 | a staging name is never a sidecar name of any database |
| Paths.StagingNamesDiffer | src/adapter/sqlite/recovery.rs:178-183 | two staging names of one process are the same only if their nonces are |
| Staging.CandidatesDiffer | src/adapter/sqlite/recovery.rs:178-183 | the names tried for staging differ, until the nonce reaches the top of its range |
| Backup.CandidatesDiffer | src/adapter/sqlite/mod.rs:694-699 | so do the names tried for the backup's temporary file |
| Disks.ForeignKept | docs/sqlite-recovery.md:66-68 | over any stretch of a careful run, an inode the code did not create keeps a name, its contents and its mode, unless SQLite works on a family holding it or its name was overlooked and replaced |
| Disks.StepKeepsForeign | src/adapter/sqlite/recovery.rs:306-330 | no single step unlinks, overwrites or rewrites another's inode, with the same two exceptions |
| Custody.Plan.RunKeepsInvariant | src/adapter/sqlite/recovery.rs:439-526 | at every moment of every allowed run the original has exactly one name, the source's or the archive's, and the order of the files holds |
| Custody.Plan.StepKeepsInvariant | src/adapter/sqlite/recovery.rs:439-551 | every allowed step, of recovery, SQLite or another writer, keeps that invariant |
| Custody.Plan.RenameKeepsInvariant | src/adapter/sqlite/recovery.rs:447-475 | every rename recovery makes keeps custody and order |
| Custody.Plan.OriginalReturnsLast | src/adapter/sqlite/recovery.rs:537-541 | the main file returns to the source only after every logged sidecar has |
| Custody.Plan.ReplacementComesFirst | src/adapter/sqlite/recovery.rs:469-475 | the replacement is at the source only while every logged file is archived |
| Custody.Plan.LibraryKeepsInvariant | docs/sqlite-recovery.md:49-54 | SQLite's work on the source or in staging cannot disturb the archive, the log or staging |
| Custody.Plan.OriginalKept | src/adapter/sqlite/recovery.rs:286-289 | while the old handle is closed nothing writes the original's bytes or mode |
| Custody.Plan.RuleFindsOriginal | docs/sqlite-recovery.md:82-85 | with no other writer "the archive if present, else the source" is the original wherever a run stops, exactly when the archive is not named like staging |
| Custody.Plan.ModeKept | src/adapter/sqlite/recovery.rs:384-386 | the modes that pass the refusal of 0o7111 are exactly those that lose nothing to the mask 0o666 |
| Custody.Plan.ActivationGated | src/adapter/sqlite/recovery.rs:431-475 | whenever the replacement is renamed to the source it carries the source's database, checked and in DELETE mode, with the original's mode bits, synced; the original is at its archive name, synced; and the source's sidecar names were seen absent |
| Custody.Plan.GateHolds | src/adapter/sqlite/recovery.rs:464-474 | the rule on the activating step implies all of that |
| Custody.Plan.SourceSeenAlone | src/adapter/sqlite/recovery.rs:470-472 | each sidecar name of the source was seen absent after the last rename and before the activation |
| Custody.AbsentWasSeen | src/adapter/sqlite/recovery.rs:87-93 | a noted absence is a moment of the run with nothing renamed, created or opened since |
| Custody.Plan.RunKeepsHeld | src/adapter/sqlite/recovery.rs:449-461 | wherever an allowed run is cut off, each sidecar that was beside the source at the close is still there or under its archive name (once the original has been reopened: it was then); under the latter once the source's name for it was seen absent, and while a confirmed replacement is at the source |
| Custody.Plan.StepKeepsHeld | src/adapter/sqlite/recovery.rs:449-551 | every allowed step keeps that, logged or not |
| Custody.Plan.SidecarsArchivedFirst | src/adapter/sqlite/recovery.rs:469-473 | before each activation every sidecar of the close is under its archive name |
| Custody.Plan.RunStaysUnobstructed | src/adapter/sqlite/recovery.rs:399-447 | with no other writer, archive names that are free and plain sidecars beside the source stay so up to the close, whatever SQLite does meanwhile |
| Custody.Plan.SidecarIsForeign | src/adapter/sqlite/recovery.rs:456-456 | what lies beside the source is neither the original nor recovery's own |
| Custody.Plan.RenameStaysAllowed | src/adapter/sqlite/recovery.rs:112-114 | nothing other writers add between the check and the rename makes the rename wrong |
| UndoLog.UndoInvertsPerform | src/adapter/sqlite/recovery.rs:537-541 | undoing a log last-first gives back exactly the directory it began from |
| UndoLog.UndoMissesStray | src/adapter/sqlite/recovery.rs:139-139 | undoing past a move the log never learned of restores everything but that file |
| UndoLog.UndoCarriesOther | src/adapter/sqlite/recovery.rs:510-517 | undoing a log carries an unrelated move along |
| UndoLog.UndoNeedsFirstFree | src/adapter/sqlite/recovery.rs:535-536 | a log cannot be undone while something holds the name its first entry came from |
| FileSystems.FileSystem.Sound | src/adapter/sqlite/recovery.rs:369-526 | whatever a run has done so far, the plan's invariant holds now |
| FileSystems.FileSystem.Absent | src/adapter/sqlite/recovery.rs:87-93 | success exactly when the call works and the name links nothing, and that is noted |
| FileSystems.FileSystem.Exists | src/adapter/sqlite/mod.rs:620-620 | the answer is that the name can be opened and the call worked; one that is there and not seen, a link that leads nowhere or after a failed call, is noted as overlooked |
| FileSystems.FileSystem.Check | src/adapter/sqlite/recovery.rs:25-32 | success exactly when the call works and the name links that inode |
| FileSystems.FileSystem.RenameNoReplace | src/adapter/sqlite/recovery.rs:114-138 | success exactly when the call works, the file is there and the new name is free; a rename changes nothing else |
| FileSystems.FileSystem.MakeNew | src/adapter/sqlite/recovery.rs:332-340 | exclusive creation gives a new inode exactly when the call works and the name is free |
| FileSystems.Work | docs/sqlite-recovery.md:42-48 | what SQLite is taken to be able to do stays in its database's family |
| FileSystems.FileSystem.SyncFile | src/adapter/sqlite/mod.rs:609-613 | success exactly when the call works and the name can be opened; what is synced is where its links lead |
| Moves.MoveNoReplace | src/adapter/sqlite/recovery.rs:112-140 | its three outcomes: nothing moved; the one file moved and confirmed; the file moved, an error returned, and a stray noted; with no other writer and no failing call, success exactly when the file is there and the new name free |
| Moves.SyncDatabaseFiles | src/adapter/sqlite/mod.rs:615-626 | success means the file, unless it is a link, its names and each sidecar not overlooked survive a power loss; without a failing call it succeeds exactly when the path can be opened, and overlooks only links that lead nowhere |
| Staging.CreateStage | src/adapter/sqlite/recovery.rs:161-254 | success gives a 0700 directory of a staging name, alone in it two 0600 files, all new and its name durable; failure leaves every older name and file as it was; with no other writer and no failing call, success exactly when some candidate before any that cannot be made is free |
| Staging.MakeDirectory | src/adapter/sqlite/recovery.rs:178-201 | the directory has the first of thirty-two names that was free, is 0700, and was inspected; exhaustion means all are taken; with no other writer and no failing call, success exactly when there is room |
| Staging.MakeJournal | src/adapter/sqlite/recovery.rs:239-243 | the journal is created before anything is written |
| Staging.Stage.Check | src/adapter/sqlite/recovery.rs:258-267 | success means the staging name still links this stage's directory; it succeeds whenever no call fails and staging is private |
| Staging.Stage.Drop | src/adapter/sqlite/recovery.rs:306-330 | only this stage's own names can go; with no failing call the directory goes, for good, exactly when it holds nothing of anyone else's; a retained stage is left alone |
| Preservation.ArchiveMain | src/adapter/sqlite/recovery.rs:447-448 | the main file is archived and logged, or archived and strayed, or nothing moved; with no other writer and no failing call, success exactly when the archive name is free |
| Preservation.ArchiveSidecar | src/adapter/sqlite/recovery.rs:449-460 | one round of the loop does nothing, moves and logs one sidecar, or strays it, and leaves every other name; success means that a sidecar that was there is logged; with no other writer and no failing call, success exactly when there is none, or a plain file with one name and its archive name free |
| Preservation.ArchiveSidecars | src/adapter/sqlite/recovery.rs:449-461 | success means every sidecar that was there is logged; everything logged is archived, and the directory is the log performed on the one at the start; with no other writer and no failing call, success exactly when each sidecar may go |
| Preservation.Preserve | src/adapter/sqlite/recovery.rs:441-465 | success means the main file and every sidecar that was there are logged and archived, and durable unless overlooked, which takes a failing call; at every return the directory is the log, and the stray if any, performed on the one at the start; with no other writer and no failing call, success exactly when the archive's four names are free and each sidecar is a plain file with one name |
| Preservation.LoggedAreSeen | src/adapter/sqlite/mod.rs:620-620 | every logged file is a plain one under its archive name, so only a failed call can overlook it |
| Preservation.DurableAfterSync | src/adapter/sqlite/recovery.rs:462-462 | syncing the archive makes every logged file durable, except an overlooked sidecar |
| Rollback.UndoMoves | src/adapter/sqlite/recovery.rs:537-541 | the loop, if it ends, has undone the whole log last-first; with no other writer and no failing call it gets exactly as far as the log can be undone |
| Rollback.RollbackOriginal | src/adapter/sqlite/recovery.rs:528-551 | the given error comes back only with the original at the source, synced and open, and every sidecar that was put back synced unless overlooked; with no other writer, no failing call and no refusal by SQLite it comes back exactly when the log can be undone and brings the original back; if the log cannot be undone, the directory is where undoing gets stuck |
| Activation.Activate | src/adapter/sqlite/recovery.rs:469-475 | success means the replacement is at the source, confirmed; failure leaves the whole log ready to undo; with no other writer and no failing call, success exactly when nothing is at the source's four names |
| Activation.MayActivate | src/adapter/sqlite/recovery.rs:469-475 | what preservation and the rebuild established is all the gate asks |
| Activation.FinishActivation | src/adapter/sqlite/recovery.rs:479-497 | success means the handle is open on the replacement and a power loss would undo neither its name nor the archive, but for an overlooked sidecar; the inode is recorded unless a call failed; failure leaves it at the source with the archive untouched; without a failing call, success exactly when SQLite refuses nothing |
| Activation.Quarantine | src/adapter/sqlite/recovery.rs:282-303 | the stage is retained from the start; quarantined means the replacement is `failed.db` in staging and the log can be undone; success means that is durable; with no other writer and no failing call, success exactly when nothing is beside the source |
| Adapters.SqliteAdapter.Reopen | src/adapter/sqlite/recovery.rs:790-810 | success exactly when SQLite refuses nothing; the handle is then on the inode the source linked, and that is recorded exactly when the call that looks for it works |
| Preservation.MayStillGo | src/adapter/sqlite/recovery.rs:449-460 | archiving one sidecar neither frees nor obstructs another |
| Transfer.UndoneAfterPreservation | src/adapter/sqlite/recovery.rs:466-468 | undoing a preservation gives back its starting directory exactly when nothing strayed |
| Transfer.UndoneAfterQuarantine | src/adapter/sqlite/recovery.rs:510-517 | after activation and quarantine, undoing the log restores every name of the database directory |
| Transfer.StrayActivationBlocksUndo | src/adapter/sqlite/recovery.rs:476-478 | while a stray replacement holds the source's name the log cannot be undone |
| Transfer.TransferAll | src/adapter/sqlite/recovery.rs:440-518 | from the close on: success with everything archived, every sidecar of the close among it; a plain error with the original back and open and the directory as it was exactly when nothing strayed; or a rollback failure; staging is retained only for a confirmed activation that failed; with no other writer and no failing call, success exactly when nothing is in preservation's way and SQLite refuses nothing; an error is plain exactly unless a move from or to the source strayed, if nothing fails after it arose |
| Recovery.CheckAll | src/adapter/sqlite/recovery.rs:373-406 | what every check before staging has established, and that checking changes nothing; with no other writer and no failing call, success exactly when all they ask is so, and otherwise the error of the first that is not |
| Recovery.MakeReplacement | src/adapter/sqlite/recovery.rs:413-430 | the four ways rebuild and rollback may turn out; success carries the source faithfully and leaves no transaction; an error is plain, and no transaction of the run's is left, exactly unless SQLite refuses to end it; if it refuses nothing, success exactly when the source can be rebuilt |
| Recovery.ApplyMode | src/adapter/sqlite/recovery.rs:268-276 | success means the replacement has the masked mode and is synced; it comes unless a call fails |
| Recovery.FinishReplacement | src/adapter/sqlite/recovery.rs:431-439 | the close happens only with a replacement that is checked, of the right mode, and synced; without a failing call, it succeeds exactly when SQLite refuses nothing |
| Recovery.StagedBegins | src/adapter/sqlite/recovery.rs:407-408 | a finished staging is a state the plan may begin in |
| Recovery.Recover | src/adapter/sqlite/recovery.rs:369-526 | the three outcomes, for every pattern of faults and strays: success with every sidecar of the close under its archive name, and durable; no refusal changes anything; exact undo; a plain error after activation leaves the replacement quarantined and private; with no other writer and no failing call since the clean-up began, staging is left exactly when a confirmed activation has failed. With no other writer and no failing call, there is a plan exactly when the checks' conditions hold and there is room for staging, and, if SQLite refuses nothing of a real catalogue, success exactly when staging has not got the archive's name and the source can be rebuilt. Before the close an error is plain exactly unless SQLite refused to end the transaction; after it, with no other writer and neither a failing call nor a refusal since the run began to undo, exactly unless a move from or to the source strayed; and with none at all it is plain |
| Databases.EveryTableKeptIff | src/adapter/sqlite/recovery.rs:665-670 | a rebuild keeps every user table exactly when none has a name only the pattern, not the reserved prefix, matches |
| Databases.PatternIsWider | src/adapter/sqlite/recovery.rs:668-668 | such names exist: those that begin with `sqlite` in any case and have some other character than `_` next |
| Databases.LikeReservedIff | src/adapter/sqlite/recovery.rs:668-668 | the query leaves out exactly the names that `sqlite_%` matches, by the meaning of a LIKE pattern |
| Rebuild.CatalogueComplete | src/adapter/sqlite/recovery.rs:665-680 | the catalogue query returns every listed object exactly as often as it is there |
| Rebuild.CatalogueInOrder | src/adapter/sqlite/recovery.rs:665-668 | it returns tables, then indexes, views and triggers, each kind in order of name |
| Rebuild.VirtualIff | src/adapter/sqlite/recovery.rs:602-602 | a statement looks virtual exactly when the words `virtual table` are in it, in any case |
| Rebuild.RowSurvives | src/adapter/sqlite/recovery.rs:712-719 | a row read, converted and bound again is itself, or has a cell that is refused |
| Rebuild.CopyTableRows | src/adapter/sqlite/recovery.rs:682-723 | success appends exactly the scanned rows in order, each as stored, and means every cell could be read; into a table that is there, if SQLite refuses nothing, success exactly when no name has a NUL in it and every cell can be read |
| Rebuild.Destination.Insert | src/adapter/sqlite/mod.rs:791-821 | one insert appends one row to the table its text names, provided no trigger exists; if SQLite refuses nothing, exactly when that table is there with those columns and takes as many values |
| Rebuild.CopyTables | src/adapter/sqlite/recovery.rs:616-618 | while the schema holds the listed tables and no index, view or trigger, every listed table gets its rows; if SQLite refuses nothing, exactly when each can be copied |
| Rebuild.PassesComplete | src/adapter/sqlite/recovery.rs:601-629 | the two passes over the catalogue pick out its listed tables, indexes, views and triggers, and nothing twice |
| Rebuild.Validate | src/adapter/sqlite/recovery.rs:641-655 | success means the switch to DELETE took and the database is sound as it stands |
| Rebuild.RebuildDatabase | src/adapter/sqlite/recovery.rs:569-663 | success means the destination carries the source: tables, rows, objects and nothing besides but SQLite's own, both versions, DELETE mode, checked; and no listed table was virtual; every table, index, view and trigger whose name does not begin with `sqlite` in any case is there, a table with its rows, and besides only names under `sqlite_`; if SQLite refuses nothing of a real catalogue, success exactly when no listed table looks virtual or shares its name, no statement or name has a NUL in it, and every cell can be read |
| Cells.ProfileIsExact | src/adapter/supabase.rs:331-350 | the service check passes exactly the encodings of parameters with finite reals, and the parameter is unique |
| Cells.EncodingReadBack | src/rows.rs:88-190 | the deserialiser and recovery's reader both return the parameter that was encoded |
| Cells.ReadersAgree | src/adapter/sqlite/recovery.rs:743-770 | the two readers agree on every JSON value but integers above the signed range |
| Cells.CellSurvives | src/adapter/sqlite/mod.rs:960-1020 | a stored cell read, converted and bound is the same cell of the same class; only non-finite reals and invalid text are refused |
| Cells.BoundReadsBack | src/adapter/sqlite/mod.rs:880-905 | a bound parameter is read back as itself, but a boolean as one or zero, and only a non-finite real cannot be read |
| Cells.FiniteIff | src/adapter/supabase.rs:268-283 | the check of parameters passes exactly those that both readers get back; the others would come back as null |
| Cells.VisitSeq | src/rows.rs:175-187 | the byte loop accepts exactly arrays of bytes and returns them |
| SqlText.QuotingReadsBack | src/adapter/sqlite/mod.rs:1302-1304 | a quoted name reads back as the name, whatever it holds, and stops at its end |
| SqlText.QuotedListReadsBack | src/adapter/sqlite/recovery.rs:691-699 | a joined list of quoted names reads back as exactly that list |
| SqlText.PlaceholdersReadBack | src/adapter/sqlite/recovery.rs:700-703 | the placeholder list has as many placeholders as there are columns |
| SqlText.SelectNamesItsTable | src/adapter/sqlite/recovery.rs:695-699 | the generated select names exactly its table and columns |
| SqlText.InsertNamesItsTable | src/adapter/sqlite/recovery.rs:704-709 | the generated insert names exactly its table and columns, with one placeholder for each |
| SqlText.NulComesFromNames | src/adapter/sqlite/recovery.rs:695-709 | a generated statement has a NUL, at which it would be cut off, exactly when a name in it has |
| SqlText.HasMultipleStatements | src/adapter/sqlite/mod.rs:1334-1349 | true exactly when some semicolon has an even number of quotes before it and text after it |
| SqlText.UndoubleInverts | src/adapter/sqlite/mod.rs:1283-1283 | replacing pairs of quotes undoes doubling them |
| SqlText.UndoubleRun | src/adapter/sqlite/mod.rs:1283-1283 | of a run of quotes every pair gives one and an odd one is left; anything else is left as it is |
| SqlText.DefaultReadsLiteral | src/adapter/sqlite/mod.rs:1278-1289 | a quoted literal of any text, in any white space, is read as that text |
| SqlText.DefaultReads | src/adapter/sqlite/mod.rs:1278-1289 | any default, in any white space, is read as null where that word is spelled in any case, as the text between single quotes, as what the parser makes of it, or as its own text |
| SqlText.WhitespaceIs | src/adapter/sqlite/mod.rs:1279-1279 | white space is the twenty-five characters Unicode gives that property |
| Backup.PerformBackup | src/adapter/sqlite/mod.rs:532-580 | the loop ends; a session begun is finished exactly once; the result is what its last answer and its finish make it; a lock ends the loop only at the deadline, and before it the loop sleeps once and tries again; if SQLite refuses nothing, it succeeds or times out |
| Backup.StepThrough | src/adapter/sqlite/mod.rs:551-575 | the loop goes on after every answer but done, failed, and locked past the deadline |
| Backup.PublishTemporary | src/adapter/sqlite/mod.rs:638-650 | success means the copy has moved to the destination, durably, and that what only the destination linked is lost; a plain error means it has not moved; without a failing call only a directory at the destination stops it |
| Backup.MakeTemporary | src/adapter/sqlite/mod.rs:682-722 | a new file under the first temporary name that was free, with nothing else touched; without a failing call, success exactly when one of the thirty-two is free |
| Backup.BackupDatabase | src/adapter/sqlite/mod.rs:473-530 | at every moment the destination is what it was, or free, or a complete, checked, synced copy, and what it was it stays unless it was overlooked; success means a new copy is there, name and file proof against a power loss, over an old entry only if that was overlooked and then the entry is lost, with the destination's three sidecars untouched and no `-wal` or `-shm` seen; without a failing call, an error and nothing changed if the destination, its `-wal` or its `-shm` can be opened; if SQLite refuses nothing either, success only when none of them can, the destination is not the source, and there is room for the temporary file, and then success or the lock timeout, after that time; unless a call fails after the clean-up has begun, every name is an old one, the destination, or a sidecar of the source or of a temporary name |
| Backup.SidecarsSpared | src/adapter/sqlite/mod.rs:488-490 | the destination's sidecar names are none that SQLite's work on the source or on the temporary file may touch |
| Publication.Copy.DestinationIsSound | src/adapter/sqlite/mod.rs:508-512 | the rule a backup keeps to makes the destination sound at every moment of every run |
| Publication.SidecarIsNoDestination | src/adapter/sqlite/mod.rs:478-490 | at a sidecar name of an open database SQLite may put a file that is no copy |
| Atomic.Connection.RunBatch | src/adapter/sqlite/mod.rs:322-367 | success is the whole batch with its own results; a failed batch that was to change anything has changed nothing; a failed batch of reads has committed what the reads before the refused one left; without a fault, success exactly when no operation is refused |
| Atomic.Connection.Execute | src/adapter/sqlite/mod.rs:738-789 | an admitted operation has its engine effect and its kind's result; a refused or failed one leaves what is committed alone |
| Atomic.ResultsBelong | src/adapter/sqlite/mod.rs:341-347 | result i is what operation i gave on what the ones before it left, rows exactly for a read |
| Atomic.StopsCleanlyIff | src/adapter/sqlite/mod.rs:349-351 | a batch outside a transaction leaves the store alone wherever it stops exactly when no operation it reaches changes it |
| Atomic.ReadsMayWrite | src/adapter/sqlite/mod.rs:744-749 | for any two query texts there is an engine for which the batch of the two fails and, run without a fault, has committed the first one's change |
| Atomic.FirstWordIs | src/adapter/sqlite/mod.rs:1321-1325 | whatever the statement, its first word is the one it starts with, without the semicolons that touch it and in lower case |
| Atomic.AdmittedIff | src/adapter/sqlite/mod.rs:738-778 | a read is passed on exactly when its first word, in any case, is one of five, a schema change exactly when it is one of three and nothing is bound to several statements, a write always; and none with a NUL |
| Atomic.BlankAdmittedIff | src/adapter/sqlite/mod.rs:1321-1332 | a statement that is only white space is passed on exactly as a write |
| Atomic.SomeFirstWord | src/adapter/sqlite/mod.rs:1321-1325 | every other statement starts with a word, so the two cover all |
| Registry.NeverSaturates | src/adapter/sqlite/mod.rs:91-103 | with stable keys no drop meets a count of zero |
| Registry.ConnectionRegistry.GuardFires | src/adapter/sqlite/mod.rs:399-405 | recovery is refused exactly when another adapter that opened under the path is alive |
| ForeignKeys.ForeignKeysFor | src/adapter/sqlite/mod.rs:1208-1249 | there is one key for each id that occurs, in order of id; it has the table and action of the id's first row, and its columns are the rows' in order of sequence, and as they came within one sequence |
| ForeignKeys.KeysAreTheRows | src/adapter/sqlite/mod.rs:1226-1249 | the same of the regrouping specification, in terms of the rows alone |
| ForeignKeys.OrderDoesNotMatter | src/adapter/sqlite/mod.rs:1216-1230 | any two listings of the same catalogue rows regroup to the very same keys in the same order |
| ForeignKeys.EveryRowKept | src/adapter/sqlite/mod.rs:1231-1249 | every row is a column beside its own reference, and there are no more columns than rows |
| ForeignKeys.SortKeeps | src/adapter/sqlite/mod.rs:1234-1234 | the sort keeps every row and orders them by sequence |
| Rows.Position | src/rows.rs:291-296 | name lookup finds the first match from the left, or there is none |
| Rows.StrictLosesNothing | src/adapter/supabase.rs:306-361 | the strict normaliser accepts exactly responses with distinct columns whose every row is an object with just those keys and portable cells; each row, zipped or looked up, is its object |
| Rows.StrictRefusal | src/adapter/supabase.rs:306-361 | what it refuses it refuses for repeated columns, or for the first row that does not pass, with the first reason there is |
| Rows.NamesAreKeys | src/adapter/supabase.rs:307-323 | distinct names, all of them keys and as many as there are keys, are all the keys |
| Rows.LenientRows | src/adapter/neon/mod.rs:292-315 | the loop refuses only what is not an object, and gives the strict form's rows wherever that accepts |
| Rows.LenientKeepsIff | src/adapter/neon/mod.rs:298-311 | a lenient row is its object exactly when its columns are the object's keys |
| Rows.PairedInOrder | src/adapter/supabase.rs:250-265 | one result for each operation, rows exactly for reads, or an error |
| Rows.PairingRefused | src/adapter/supabase.rs:250-265 | the strict pairing refuses a wrong number of results, or else the first read whose rows are refused, for their reason |
| Rows.PairLenient | src/adapter/neon/mod.rs:240-265 | the pairing loop gives each read its rows in the lenient form and everything else its count, refuses only a wrong number of results or a row that is no object, and gives the strict pairing's results wherever that accepts |
| Activation.TakeSource | src/adapter/sqlite/recovery.rs:473-473 | the activating rename itself, confirmed, refused or strayed; the archive stays durable through it |
| Activation.ConfirmActivated | src/adapter/sqlite/recovery.rs:480-489 | success means the source's new name and the archive, but for an overlooked sidecar, would survive a power loss; it comes unless a call fails |
| Activation.WorkKeepsDurable | src/adapter/sqlite/recovery.rs:490-496 | SQLite's work on the reopened replacement cannot undo the archive's durability |
| Activation.MakePrivate | src/adapter/sqlite/recovery.rs:283-289 | success means the replacement, still at the source, is 0600; only its own inode is touched; it comes unless a call fails |
| Activation.TakeBack | src/adapter/sqlite/recovery.rs:292-297 | quarantined exactly on success: the replacement is `failed.db` and nothing lies beside the source; with no other writer and no failing call, success exactly when nothing does |
| Activation.SyncQuarantined | src/adapter/sqlite/recovery.rs:299-302 | success means the quarantined file and the names in both directories are durable |
| Adapters.SqliteAdapter.Begin | src/adapter/sqlite/recovery.rs:413-414 | a transaction is open exactly on success, or if one was |
| Adapters.SqliteAdapter.EndTransaction | src/adapter/sqlite/recovery.rs:418-419 | the transaction is gone exactly on success |
| Adapters.SqliteAdapter.Close | src/adapter/sqlite/mod.rs:129-140 | a refused close keeps the handle; a closed one has no transaction |
| Atomic.Connection.ExecuteAll | src/adapter/sqlite/mod.rs:341-347 | inside a transaction nothing is committed; outside, the store is the operations up to where the loop stopped |
| Backup.VerifyCopy | src/adapter/sqlite/mod.rs:509-510 | only a sound image whose handle closed becomes a checked one |
| Backup.FillTemporary | src/adapter/sqlite/mod.rs:494-511 | success means the temporary file holds the database that all of the source's pages make, checked and synced, with the destination as it was; it comes, or the lock timeout, if no call fails and SQLite refuses nothing |
| Backup.MoveCopy | src/adapter/sqlite/mod.rs:639-643 | the copy moves or stays, and no other file is touched; it moves exactly when the call works and no directory is in the way |
| Backup.Report | src/adapter/sqlite/mod.rs:513-521 | a failure here leaves the published copy in place, and takes a failing call or a refusal by SQLite; success means the copy was looked at |
| Backup.Discard | src/adapter/sqlite/mod.rs:524-525 | the start of the clean-up is recorded; unless removing it fails, the temporary file is gone; the destination is as it was |
| Backup.CheckDestination | src/adapter/sqlite/mod.rs:487-490 | success means each of the destination, its `-wal` and its `-shm` is not there or was overlooked; without a failing call, exactly that none of them can be opened |
| FileSystems.FileSystem.Stat | src/adapter/sqlite/recovery.rs:46-53 | what is found is the inode the name linked, its kind and mode, and whether that is its only name; only a failed call gives no answer |
| FileSystems.FileSystem.RemoveFile | src/adapter/sqlite/recovery.rs:319-319 | only an own inode is unlinked, exactly when the file is there and the call works |
| FileSystems.FileSystem.RemoveEmptyDirectory | src/adapter/sqlite/recovery.rs:327-327 | a directory is removed exactly when nothing is in it and the call works |
| FileSystems.FileSystem.RenameOver | src/adapter/sqlite/mod.rs:639-643 | the replacing rename, allowed only where what it replaces is its own or was overlooked; success exactly when the call works, the file is there and no directory is in the way |
| FileSystems.FileSystem.Take | src/adapter/sqlite/recovery.rs:112-140 | every step taken is possible, allowed by the rule the run is held to, and entered in the trail |
| Moves.CheckedRename | src/adapter/sqlite/recovery.rs:112-138 | the rename happens only if the name linked the expected inode |
| Moves.SyncSidecars | src/adapter/sqlite/mod.rs:617-624 | success means every sidecar that is a file and was not overlooked is synced; without a failing call it succeeds, and overlooks only links that lead nowhere |
| Preservation.MoveSidecar | src/adapter/sqlite/recovery.rs:457-459 | one sidecar is moved and logged, strayed, or left |
| Preservation.SidecarsAbsent | src/adapter/sqlite/recovery.rs:444-446 | success means all three names were seen absent; with no other writer and no failing call, success exactly when they are free |
| Preservation.SyncArchive | src/adapter/sqlite/recovery.rs:462-464 | success means everything logged is durable but a sidecar that was overlooked; without a failing call it succeeds and overlooks nothing logged |
| Rebuild.Destination.Exec | src/adapter/sqlite/recovery.rs:612-614 | a CREATE statement makes just the object its text names, in a free name, and files it; if SQLite refuses nothing, exactly when it is such a statement and the table's name is free |
| Rebuild.Destination.VerifyIntegrity | src/adapter/sqlite/mod.rs:417-442 | success marks the database as it stands as checked and reports its journal mode |
| Rebuild.CopyRows | src/adapter/sqlite/recovery.rs:710-721 | the loop appends the scanned rows in order; if SQLite refuses nothing, success exactly when every cell can be read |
| Rebuild.CopyRow | src/adapter/sqlite/recovery.rs:712-720 | one row is inserted as stored, or refused for a cell that cannot be read |
| Rebuild.CreateTables | src/adapter/sqlite/recovery.rs:601-615 | every listed table exists, empty, under its own name, with nothing else of the source's filed yet; virtual tables are refused; if SQLite refuses nothing, success exactly when none is virtual, no statement has a NUL and no two share a name |
| Rebuild.CopySequence | src/adapter/sqlite/recovery.rs:619-621 | copying the counters leaves every other table as it was; if SQLite refuses nothing, exactly when there are none or they can be read |
| Rebuild.CreateDependents | src/adapter/sqlite/recovery.rs:622-629 | indexes, views and triggers are added over finished tables; if SQLite refuses nothing, exactly when no statement has a NUL |
| Rebuild.OneMoreFilled | src/adapter/sqlite/recovery.rs:616-618 | filling one table leaves the others as they were |
| Recovery.CheckSource | src/adapter/sqlite/recovery.rs:383-397 | success means the source is the plain file this adapter opened, with one name and a mode that can be kept; with no other writer and no failing call, exactly that |
| Recovery.CheckNames | src/adapter/sqlite/recovery.rs:399-406 | success means the archive's four names were free; with no other writer and no failing call, exactly that they are and that each sidecar beside the source is a plain file with one name |
| Recovery.CheckSidecar | src/adapter/sqlite/recovery.rs:401-405 | success means the archive's name was free; with no other writer and no failing call, exactly that it is and that what lies beside the source is a plain file with one name |
| Moves.PlainFile | src/adapter/sqlite/recovery.rs:46-53 | success exactly when the call works and the name links a plain file that has no other name |
| Recovery.FillReplacement | src/adapter/sqlite/recovery.rs:415-417 | success means the staged file holds the source's database, checked; if SQLite refuses nothing, success exactly when the source can be rebuilt |
| Recovery.SettleReplacement | src/adapter/sqlite/recovery.rs:434-435 | success means the replacement has the source's mode, and it and its name are synced; it comes unless a call fails |
| Recovery.RunTransfer | src/adapter/sqlite/recovery.rs:440-518 | the outcome after the close, with the moment of the close; with no other writer and no failing call, success exactly when nothing is in the way and SQLite refuses nothing |
| Recovery.RunRecovery | src/adapter/sqlite/recovery.rs:413-526 | the three outcomes before the clean-up, and what is left in staging; when it succeeds, from what was in the way when staging was made |
| Recovery.Conclude | src/adapter/sqlite/recovery.rs:306-330 | the clean-up changes no outcome; its start is recorded, and unless a call fails after that staging is left exactly when a confirmed activation has failed |
| Recovery.Adopt | src/adapter/sqlite/recovery.rs:407-408 | a finished stage is held to the plan; a failed one leaves every older name and file; with no other writer and no failing call, there is one exactly when there is room for it |
| Registry.ConnectionRegistry.Register | src/adapter/sqlite/mod.rs:77-89 | the map is what the events so far and this open make it |
| Registry.ConnectionRegistry.Unregister | src/adapter/sqlite/mod.rs:91-103 | the map is what the events so far and this drop make it |
| Rollback.UndoOne | src/adapter/sqlite/recovery.rs:537-541 | one entry goes back, and what is left of the log can still be undone; without a failing call it is stopped only by a file at its old name |
| Rollback.ReopenOriginal | src/adapter/sqlite/recovery.rs:545-550 | both the sync and the reopening are tried; the given error comes back only when both worked, and does when no call fails and SQLite refuses nothing |
| SqlText.HasText | src/adapter/sqlite/mod.rs:1344-1344 | true exactly when some later character is not white space |
| Staging.Stage.Sync | src/adapter/sqlite/recovery.rs:277-281 | success means the names in staging and in its parent are durable; a private stage is synced unless a call fails |
| Staging.Stage.ClearRebuilt | src/adapter/sqlite/recovery.rs:314-320 | a stranger under the replacement's name stops the clean-up; otherwise the replacement goes |
| Staging.Stage.ClearJournal | src/adapter/sqlite/recovery.rs:321-326 | the journal goes exactly if it is still this stage's |
| Staging.PrivateFile | src/adapter/sqlite/recovery.rs:332-340 | a new 0600 file, or nothing |
| Staging.FinishOrDrop | src/adapter/sqlite/recovery.rs:208-247 | what fails once the stage exists is cleaned up: with no other writer and no failing call but the one that stopped it, the directory goes unless its journal's identity could not be read; older names and files are as they were; with no failing call nothing fails |
| Staging.ConfirmStage | src/adapter/sqlite/recovery.rs:244-246 | success means the staging directory's name is durable; a private stage is confirmed unless a call fails |
| Transfer.Withdraw | src/adapter/sqlite/recovery.rs:507-510 | the quarantine takes out just the replacement; with no other writer and no failing call it does, if SQLite has left nothing beside it |
| Transfer.GiveUpFinishing | src/adapter/sqlite/recovery.rs:498-517 | a plain error means the replacement was quarantined and the original is back; with no other writer, no failing call, no refusal, and nothing left beside the replacement, the error that comes back is the one that arose |
| Transfer.GiveUpPreserving | src/adapter/sqlite/recovery.rs:466-468 | a plain error means the original is back; with no other writer, no failing call and no refusal, the error that arose comes back exactly unless the main file strayed |
| Transfer.RestorableIff | src/adapter/sqlite/recovery.rs:528-544 | undoing a preservation brings the original back exactly unless it is the main file that strayed |
| Transfer.UndoneAfterWithdrawal | src/adapter/sqlite/recovery.rs:510-517 | whatever SQLite did meanwhile, undoing the log restores the database directory |
| Transfer.TransferReplacement | src/adapter/sqlite/recovery.rs:469-518 | the replacement takes the source's place, durably, or everything is undone; with no other writer and no failing call, it does exactly when the source's four names are free and SQLite refuses nothing |
| Custody.Plan.ActiveStays | src/adapter/sqlite/recovery.rs:282-303 | once it has been at the source, the replacement is at every later moment there or in staging as `failed.db` |
| Moves.SyncSidecar | src/adapter/sqlite/mod.rs:618-623 | a sidecar that can be opened is synced, or the call for it failed and then nothing was; only a failed existence test or a link that leads nowhere lets it pass |
| Staging.TryDirectory | src/adapter/sqlite/recovery.rs:184-201 | one name is taken, or becomes a fresh 0700 directory |
| Rollback.UndoAndCheck | src/adapter/sqlite/recovery.rs:537-544 | with no other writer and no failing call, success exactly when the log can be undone and brings the original back |
| UndoLog.UnwindAgrees | src/adapter/sqlite/recovery.rs:537-541 | the undo loop gets to the end of the log exactly when it can be undone, and has then undone it |
| UndoLog.UndoFarSplits | src/adapter/sqlite/recovery.rs:537-541 | where the first entry's old name is taken, undoing brings every other file back and stops |
| Transfer.GiveUpActivating | src/adapter/sqlite/recovery.rs:476-478 | after an activation that strayed, with no other writer and no failing call, the rollback is refused with every sidecar back beside the replacement and the original still archived; with no refusal either, the error is plain exactly unless it strayed |
| Transfer.StrayActivationSplits | src/adapter/sqlite/recovery.rs:535-541 | that is where undoing the log gets stuck |
| Recovery.StageAtTheEnd | src/adapter/sqlite/recovery.rs:282-310 | the stage is retained exactly for a confirmed activation that failed; otherwise staging holds nothing but its own |
| Recovery.ActiveIsQuarantined | src/adapter/sqlite/recovery.rs:510-517 | a replacement that has ever been active is at the source, or in staging under modes 0600 and 0700 |
| Databases.EveryObjectKeptIff | src/adapter/sqlite/recovery.rs:665-670 | the same for every user table, index, view and trigger |
| Databases.StoredRowsCopiedIff | src/adapter/sqlite/recovery.rs:710-721 | a table filled through its own affinity is copied cell for cell, whatever it holds, exactly when affinity is idempotent |
| Rebuild.CreateTable | src/adapter/sqlite/recovery.rs:601-615 | one listed table is created, or refused as virtual |
| Backup.TryTemporary | src/adapter/sqlite/mod.rs:698-716 | one name is taken, or becomes a new file; without a failing call, by whether it is there |
| Backup.EnsureAbsent | src/adapter/sqlite/mod.rs:663-672 | success exactly when the call fails or the name cannot be opened; one that is there all the same is noted as overlooked |
| Publication.SidecarIsNoSource | src/adapter/sqlite/mod.rs:492-495 | of a source that is a sidecar name of the temporary file SQLite's work there may leave nothing |
| Atomic.RefusalStops | src/adapter/sqlite/mod.rs:341-347 | an operation that is refused stops the batch there, however it goes on |
| Registry.ExactIffStable | src/adapter/sqlite/mod.rs:77-116 | over every history of opens, failed opens and drops, the registry counts exactly the live adapters throughout exactly when every adapter is dropped under the key it opened with |
| Registry.DropEffect | src/adapter/sqlite/mod.rs:91-103 | what any drop does at each path: under another key the adapter stays counted where it opened, and one alive under the other key is not |
| Registry.DropKeepsExactIff | src/adapter/sqlite/mod.rs:91-103 | a drop keeps the count exact exactly when its key is the one at the open |
| Registry.SwappedKeys | src/adapter/sqlite/mod.rs:62-75 | two adapters that swap keys leave the registry empty, having been counted wrongly on the way |
| Registry.GuardIsExact | src/adapter/sqlite/mod.rs:105-116 | the guard trips exactly when another adapter that opened under the path is alive |

## Left out

- SQLite itself: pager, locking, SQL execution and `src/adapter/sqlite/ffi.rs`; the library is a store with a fault oracle.
- HTTP, worker threads, timeouts, tokens and URLs of the remote adapters: only what they make of a response is modelled.
- Writers that remove or replace names between a check and a rename: the documentation puts them out of scope; other writers only add.
- A backup into a directory someone else is changing: its rename replaces whatever is there, so the directory is taken to be quiet; and a destination that is a sidecar name of the source, or a source that is a sidecar name of a temporary file.
- Extended attributes, ACLs, ownership, device numbers, symlink walks and the parent's identity: checks that pass or fail and change nothing.
- Whether the directory of a name is there itself: it is taken to be; and a directory under whose name other names already lie is taken not to be made.
- The process's file-creation mask: a file or directory is created with the mode asked for.
- The order of an object's keys where a service sends no columns: a lenient row has them in some order.
- Which services report an affected-row count and which leave it out: a missing count is taken as zero.
- The contents of `sqlite_sequence` after a rebuild: inserts change them too.
- Conflict clauses in table definitions, generated columns and rowids that no column shows: an insert appends one row or fails.
- Catalogues SQLite itself would not have written, and virtual tables whose statement escapes the textual check: a listed statement is taken to make just the object it is filed under, and rows to fit their table's columns.
- The read-only, journal-mode and open-connection refusals in front of `recover`: one branch each; the connection guard's condition is in `Registry`.
- A refused close of a failed replacement's handle: the handle is replaced at the reopening and taken to do nothing more.
- Removal of the backup temporary's own `-wal` and `-shm` files: they are SQLite's, and gone after its close.
- Generated keys of inserts, and transaction-control statements inside a batch: an operation's text is taken to have an effect on the store alone.
- Lock poisoning and overflow of the registry's counts.
- Decoding of catalogue rows, error tables and message text, `from_env_values`, feature gates, getters other than lookup, `is_retryable`: one branch each.
- Clocks: the wall clock is a counter that does not run backwards; the nonce's clock is a parameter.
- Floating-point rounding and text below the character level: finite reals are reals, text is a sequence of characters.

# Verified models of the AIO MOD core

This project models the parts of the homebrew updater in which a mistake loses data, and proves what
they promise. Each model has the form of the code: files on a card, services and buffers are fields
that methods change step by step, and pure helpers are functions.

- **Application update** (`AppUpdater`, `Journal`, `LostJournal`, `CfwCommit`): replacing one NRO under a
  journal that survives power loss, and the commit of a firmware update. A power cut sets `alive` to false;
  from then on nothing has an effect until the next boot, so every prefix of a run is covered, also inside a
  journal write. Every disk state ever written is kept in a ghost history, and what a whole run makes of any
  disk is a function, `RunResult`. The two fault models, power loss over many runs and failing operations in
  one run, are never mixed. In the second, `left` is how many operations may still fail, so a contract can say
  what holds when none, or one, does.
- **Transactional NSP installer** (`NcmStore`, `NspInstall`, `StreamInstaller`, `BuiltPackage`,
  `TwinPackage`, `InstallSessions`): content storage, placeholders, meta database and journal as maps; every service call
  may fail and power may go before every step. `Faults` says which of them do. `BuiltPackage` takes a package
  from its contents to the installed title.
- **Packages** (`NspManifest`, `PackageReader`, `InstallStream`, `Pfs0Builder`, `NcaBuilder`, `BufHelper`):
  the split-file reader, the bounded ring between USB and installer, two manifest parsers against one
  reference definition, the PFS0 writer and the NCA layout with its hash trees. SHA-256 is any function
  with 32-byte results.
- **MTP codec** (`MtpCodec`, `MtpLists`): strings and object property lists, encoder against decoder, and
  both byte by byte.
- **File explorer jobs** (`FileTree`, `Explorer`, `ExplorerPaths`, `CopyJob`, `CopyRun`, `ZipExtract`,
  `DeleteJob`): a file system as a map from paths to nodes, with temporaries, staging and rollback. Every operation of a
  `Worker` may fail and every check may find the job cancelled, unless it is `calm`.

## What holds only under a condition

- The application updater never loses the application, unless power is lost twice in the wrong places. A
  journal write that is cut keeps the journal readable only if STATE itself is readable; with the entry in
  STATE_TMP alone it is lost, because the temporary file is removed first (`Journal.WriteKeepsJournalIff`,
  `Journal.CutKeepsJournalIff`). A disk is unsafe exactly when that has happened over a damaged target
  (`AppUpdater.Console.PowerCycles`, `LostJournal.TwoCutsOrphan`). The next run still ends well if it is not
  cut: with the new application if TARGET is not empty, with the one in the backup if it is
  (`LostJournal.OrphanOutcome`); in general exactly when NEW is not an empty file
  (`LostJournal.OrphanSurvivesIff`). A third cut, while the target is overwritten, makes the loss final, since
  the backup is then the damaged file (`LostJournal.ThirdCutLoses`).
- A run of the updater that is not cut leaves nothing pending, except when it has to roll back and there is no
  backup. A cut inside the very first journal write and another one in the cleanup that follows lead there;
  the update then stays pending for ever, with the old application in place (`AppUpdater.Console.Run`,
  `LostJournal.TornSticks`, `LostJournal.StuckForever`).
- A run in which one operation fails ends with the new application if COMMIT_IN_PROGRESS was written, and
  otherwise with the old one, payload.bin restored and nothing of the update left
  (`AppUpdater.Console.FaultyRun`). A cut between the removal of the last marker and that of the saved boot
  payload leaves this file, since a boot with nothing pending touches nothing (`AppUpdater.Console.Boot`).
- The commit of a firmware update keeps its journal or has nothing left to clean, exactly unless the rename
  of the new journal fails after the old one was deleted, and the temporary file is deleted too
  (`CfwCommit.FaultyFinalize`, `CfwCommit.LostBackup`).
- A rollback ignores whether its removal of the title and its commit worked, and goes on to delete the
  contents. Every title stays complete exactly unless one of the two fails while the title is there and
  refers to a content the rollback deletes (`NcmStore.RollbackKeepsCompleteIff`, `NcmStore.StrandedTitle`).
- A failed installation restores the store exactly, except for packages in which the stream reaches an NCA
  whose id is not in storage and was met before: its registration is refused, and its journal entry already
  says "registered", so its placeholder is not removed (`StreamInstaller.Installer.InstallNspStream`,
  `TwinPackage.TwinTraps`). (A package whose new contents add up to 2^64 bytes or more is refused before.)
- When nothing fails, a package is installed exactly when the parser accepts it, its entries follow one
  another, the tickets are small enough, no NCA is met whose id is new and was met before, its metadata refer
  to its own NCAs with their sizes, and the title is new (`StreamInstaller.Installable`); every package built
  from contents with distinct ids is such a one (`BuiltPackage.BuiltInstalls`).
- After a power loss the recovery restores the store but for at most one placeholder, created just before the
  journal that names it, or one content, registered just before the journal that says so
  (`InstallSessions.CutAndRecover`, `NcmStore.CutAfterCreate`, `NcmStore.CutAfterRegister`).
- A failed extraction leaves what existed unchanged, and restores the tree exactly unless a path it had added
  could not be removed (`ZipExtract.ExtractZip`).
- When nothing fails, a copy job that passes the preflight succeeds if nothing selected is a link or has the
  name of the first temporary (`CopyRun.RunCopy`), an extraction if besides no member is a file another one has
  to pass through (`ZipExtract.ExtractZip`), and a delete job exactly if every source is there, is neither the
  root nor a link, and does not lie inside an earlier one (`DeleteJob.RunDelete`); all while sizes and counts
  stay below 2^64.
- A delete job reports `completed == total` exactly when no selected item lies inside another
  (`DeleteJob.RunDelete`): with `/a/b` and then `/a` selected, the items in `/a/b` are counted twice
  (`DeleteJob.NestedSelection`).
- A copy job reports `completed == total` exactly when every file whose size could not be read beforehand is
  empty (`CopyRun.RunCopy`): the measuring pass skips such files without an error.

## Model

| member | source | states |
|---|---|---|
| `AppUpdater.Console.PowerCycles` | TegraExplorer/source/aio_app_updater.c:796-977 | any number of boots, each of which may lose power before any disk step, those of a journal write included: a disk state ever written is unsafe exactly when the target is damaged, STATE is gone and STATE_TMP is gone or empty; every other one keeps the application (TARGET is bit for bit the old or the new NRO, or BACKUP is and the journal makes the next run restore it) and, on a patched console, the saved boot payload exists while anything is pending and payload.bin equals it once it is gone; unless a cut falls on such a state, a boot that is not cut leaves a good application and nothing pending, or an update that is stuck |
| `AppUpdater.Console.Boot` | TegraExplorer/source/aio_app_updater.c:788-793 | a boot that is not cut ends with the NRO that the journal it found decides: the backup for COPY_IN_PROGRESS, and for ROLLBACK_IN_PROGRESS or a half-written entry if there is a backup; the target for COPY_COMPLETE, ROLLBACK_COMPLETE and COMMIT_IN_PROGRESS; the staged file otherwise, if there is one; unless stuck it then leaves no journal, marker, backup or saved payload; with nothing pending the disk is left as it is |
| `AppUpdater.Console.Run` | TegraExplorer/source/aio_app_updater.c:796-874 | one run from whatever interrupted runs left: every state written is allowed; a run in which nothing is cut and nothing fails ends with the disk `RunResult` says, with a good target, the one the journal decides, and with something pending exactly if it had to roll back without a backup; otherwise journal, backup, update directory and saved payload are gone, and payload.bin is as it was |
| `AppUpdater.Console.StartAfresh` | TegraExplorer/source/aio_app_updater.c:803-811 | a staged update without a journal: STAGED is written before anything else, and a failure of that write aborts |
| `AppUpdater.Console.Resume` | TegraExplorer/source/aio_app_updater.c:825-874 | each journal entry leads to the end it decides: cleanup, rollback, commit or installation |
| `AppUpdater.Console.FaultyRun` | TegraExplorer/source/aio_app_updater.c:796-977 | one run from a freshly staged disk in which up to `left` operations fail and a failed copy leaves anything in its destination: if none fails the new NRO is installed and nothing is left; if at most one does, the target is the old or the new NRO: the new one if COMMIT_IN_PROGRESS was written, and then a journal that is still there says so; otherwise the old one, with nothing pending, the backup gone and payload.bin restored; however many fail, at every moment TARGET is old or new, or BACKUP is bit for bit old |
| `AppUpdater.Console.Install` | TegraExplorer/source/aio_app_updater.c:876-977 | from STAGED, BACKUP_IN_PROGRESS, BACKUP_COMPLETE or a half-written entry: a run without cuts and failures ends with the new NRO, or, from a half-written entry or without a staged file, with the backup or the unchanged target; a single failure ends with the old NRO and nothing left, or after COMMIT_IN_PROGRESS with the new one |
| `AppUpdater.Console.InstallValidated` | TegraExplorer/source/aio_app_updater.c:902-976 | the branches behind the two checks: a fresh start writes BACKUP_IN_PROGRESS or aborts; an unknown entry rolls back or aborts by the backup; with the outcomes of `Install` |
| `AppUpdater.Console.InstallFromBackup` | TegraExplorer/source/aio_app_updater.c:911-925 | from BACKUP_IN_PROGRESS or BACKUP_COMPLETE, without failures: the new NRO and nothing left; a failure of the backup or of its journal entry aborts with the target unchanged and nothing left |
| `AppUpdater.Console.BackUp` | TegraExplorer/source/aio_app_updater.c:911-925 | success leaves a backup equal to the target under BACKUP_COMPLETE, and it fails only when an operation does; target, staged file and payloads are not touched |
| `AppUpdater.Console.BackupFits` | TegraExplorer/source/aio_app_updater.c:930-931 | passes only a backup of the target's size, and every good one unless a query fails |
| `AppUpdater.Console.InstallFromBackupComplete` | TegraExplorer/source/aio_app_updater.c:927-969 | overwrite, verify, commit; whichever single operation fails before COMMIT_IN_PROGRESS is written, the backup check, either journal entry, the copy or the size check, the run ends with the old NRO as TARGET, nothing pending and payload.bin restored |
| `AppUpdater.Console.RollBackOrAbort` | TegraExplorer/source/aio_app_updater.c:889-898 | with a backup the target becomes the backup, without one it stays; without failures nothing is left of the update |
| `AppUpdater.Console.OverwriteTarget` | TegraExplorer/source/aio_app_updater.c:937-951 | TARGET is overwritten only while the journal says COPY_IN_PROGRESS and the backup is good, whatever the copy leaves behind |
| `AppUpdater.Console.ReplaceTarget` | TegraExplorer/source/aio_app_updater.c:953-965 | COPY_COMPLETE is written only over a TARGET that equals the new NRO |
| `AppUpdater.Console.PrepareBackup` | TegraExplorer/source/aio_app_updater.c:683-695 | success leaves BACKUP equal to TARGET, and it fails only when an operation does; nothing but the backup changes |
| `AppUpdater.Console.RestoreTarget` | TegraExplorer/source/aio_app_updater.c:697-721 | TARGET is restored from the good backup under ROLLBACK_IN_PROGRESS; without a backup it is not touched |
| `AppUpdater.Console.RollbackTransaction` | TegraExplorer/source/aio_app_updater.c:697-746 | a rollback without cuts and failures ends with the NRO of the backup, payload.bin restored and nothing left, or, without a backup, with the target as it was and the journal still pending |
| `AppUpdater.Console.EndRollback` | TegraExplorer/source/aio_app_updater.c:723-743 | the end of a rollback, with the target restored and not touched any more; when nothing but the ROLLBACK_COMPLETE entry fails, payload.bin is restored all the same |
| `AppUpdater.Console.AbortBeforeChanges` | TegraExplorer/source/aio_app_updater.c:748-762 | reached after a failed operation, or with a half-written journal and nothing to restore; keeps the target, and without further failures restores payload.bin and leaves nothing of the update |
| `AppUpdater.Console.CommitTransaction` | TegraExplorer/source/aio_app_updater.c:764-786 | a commit without cuts and failures ends with the new NRO and nothing left; if the journal write is the one operation that fails, the run ends with the old NRO and nothing left |
| `AppUpdater.Console.Finish` | TegraExplorer/source/aio_app_updater.c:825-856 | payload.bin is restored before anything is removed; the target is not touched; without failures journal, markers, backup and saved payload are gone at the end; a journal entry still there is the one that was |
| `AppUpdater.Console.RestoreBootPayloadIfNeeded` | TegraExplorer/source/aio_app_updater.c:589-639 | on success payload.bin equals the saved payload, which stays; nothing but payload.bin changes |
| `AppUpdater.Console.CleanupFiles` | TegraExplorer/source/aio_app_updater.c:641-661 | the staged files, the backup and READY go before the journal, in any partial order a cut can leave |
| `AppUpdater.Console.CleanupTransaction` | TegraExplorer/source/aio_app_updater.c:641-681 | the journal goes only once no other marker is left, the saved payload only after the journal; without failures all of them are gone |
| `AppUpdater.Console.CopyVerified` | TegraExplorer/source/aio_app_updater.c:575-587 | success means the destination equals the source; failure leaves anything in the destination and touches nothing else |
| `AppUpdater.Console.FilesMatch` | TegraExplorer/source/aio_app_updater.c:544-584 | says yes only for a file that is not empty and equals the other one, and then always unless an operation fails |
| `AppUpdater.Console.FileContentsMatch` | TegraExplorer/source/aio_app_updater.c:544-573 | true only for equal files, block by block; without faults true for all equal files |
| `AppUpdater.Console.RemovePathIfExists` | TegraExplorer/source/aio_app_updater.c:438-456 | a deletion may stop after removing any part of the tree, and nothing outside it changes |
| `AppUpdater.Console.WriteState` | TegraExplorer/source/aio_app_updater.c:493-537 | one file operation after another, with power loss or a failure between any two: every state on the way is allowed; on success the journal holds the new entry, STATE_TMP is gone and nothing else has changed |
| `AppUpdater.Console.WriteTemporary` | TegraExplorer/source/aio_app_updater.c:504-530 | STATE_TMP is created empty, then holds a part of the entry, then all of it |
| `AppUpdater.Console.ReplaceState` | TegraExplorer/source/aio_app_updater.c:532-537 | STATE goes only when STATE_TMP holds the whole entry, which then takes its place |
| `AppUpdater.JournalMayChange` | TegraExplorer/source/aio_app_updater.c:493-537 | where a write is allowed, every disk with no entry, the old one, a part of the new one or the new one in the journal files is safe, or one with a damaged target and no journal |
| `AppUpdater.SettledRemovable` | TegraExplorer/source/aio_app_updater.c:646-656 | with the application settled and payload.bin restored, every partial deletion of staged files, backup or READY is an allowed state |
| `AppUpdater.JournalRemovable` | TegraExplorer/source/aio_app_updater.c:658-666 | STATE_TMP and then STATE may go once no other marker is left |
| `AppUpdater.AllAllowedMeansEach` | TegraExplorer/source/aio_app_updater.c:641-977 | an allowed history has only allowed states |
| `Journal.WriteKeepsJournal` | TegraExplorer/source/aio_app_updater.c:493-537 | if STATE holds a readable state s, then after a cut or failure at any point of `write_state(t)` the state read is s or t, and it is t once the write has succeeded |
| `Journal.WriteKeepsJournalIff` | TegraExplorer/source/aio_app_updater.c:485-537 | for any readable journal, wherever it is read from, that holds at every cut and failure point exactly when it is STATE itself that is readable: a journal left in STATE_TMP alone is removed by the first step |
| `Journal.CutsAreReachable` | TegraExplorer/source/aio_app_updater.c:493-537 | the six places where a write can stop account for every pair of files it can leave |
| `Journal.CutKeepsJournalIff` | TegraExplorer/source/aio_app_updater.c:493-537 | for each of them, exactly when the journal is still read as the old or the new state: always if STATE is readable; otherwise unless the temporary file has just been removed, or holds neither the old state nor the whole of the new one |
| `Journal.JournalDisk.WriteState` | TegraExplorer/source/aio_app_updater.c:493-537 | every pair of files the steps of `write_state` can leave, at character level; success leaves only STATE with the new text |
| `Journal.ReadStateFrom` | TegraExplorer/source/aio_app_updater.c:458-483 | the loop returns the text up to the first terminator of at most 63 characters, or nothing when that is empty |
| `Journal.EntryReadBack` | TegraExplorer/source/aio_app_updater.c:458-537 | each of the eight journal entries is read back as itself |
| `Journal.PartIsUnknown` | TegraExplorer/source/aio_app_updater.c:796-975 | no entry is the beginning of another, so that a half-written one is never taken for a known state |
| `Journal.ReadIsJournalOf` | TegraExplorer/source/aio_app_updater.c:458-491 | the phase on the disk of `AppUpdater` is what reading the two files gives |
| `Journal.StepsAreCuts` | TegraExplorer/source/aio_app_updater.c:493-537 | the steps of a write on that disk are the cuts of `Journal` |
| `LostJournal.TwoCutsOrphan` | TegraExplorer/source/aio_app_updater.c:697-721 | from every disk under ROLLBACK_IN_PROGRESS with a damaged target: cuts between the removal of STATE and the rename, and then after the first step of the next write, leave a disk that is no longer safe |
| `LostJournal.OrphanOutcome` | TegraExplorer/source/aio_app_updater.c:801-977 | on every such disk a run can leave, the next run ends with the new application if TARGET is not empty and with that of the backup if it is, and with nothing pending, unless it is cut again |
| `LostJournal.OrphanGoesOn` | TegraExplorer/source/aio_app_updater.c:801-977 | staged file and target not empty: the run backs up the damaged target and ends with the staged file as TARGET |
| `LostJournal.OrphanRollsBack` | TegraExplorer/source/aio_app_updater.c:889-899 | staged file not empty, target empty or missing: the backup is restored |
| `LostJournal.OrphanGivesUp` | TegraExplorer/source/aio_app_updater.c:878-887 | no staged file: the run aborts and its cleanup deletes the backup, while the target stays damaged |
| `LostJournal.OrphanSurvivesIff` | TegraExplorer/source/aio_app_updater.c:801-977 | whatever the staged file is, the application survives that run exactly when it is not empty |
| `LostJournal.ThirdCutLoses` | TegraExplorer/source/aio_app_updater.c:937-951 | a third cut, while that run overwrites the target: the next one restores the damaged file and deletes the staged one |
| `LostJournal.StartsAfresh` | TegraExplorer/source/aio_app_updater.c:764-772 | the journal lost in the same way with COPY_COMPLETE in STATE_TMP: the disk stays safe, and the next run takes the new application as its backup |
| `LostJournal.TornAborts` | TegraExplorer/source/aio_app_updater.c:970-976 | a freshly staged disk whose first journal entry is half written: the next run aborts and cleans up |
| `LostJournal.TornSticks` | TegraExplorer/source/aio_app_updater.c:876-887 | power lost in that cleanup once the staged file is gone: the update is stuck, with the old application in place |
| `LostJournal.StuckForever` | TegraExplorer/source/aio_app_updater.c:697-711 | a stuck update stays stuck after every run, and the target is not touched |
| `CfwCommit.Console.Runs` | source/utils.cpp:600-636 | any number of finalizations, each of which may lose power anywhere: in every disk state an unreadable journal implies that backup, new, recovery.bin and ready are gone, and an uninterrupted run leaves no pending transaction |
| `CfwCommit.Console.Finalize` | source/utils.cpp:600-636 | an uninterrupted run that finds PENDING_BOOT, FINALIZE_BOOT_PAYLOAD or COMMIT_IN_PROGRESS ends with journal, trees, files and the update directory gone, and the saved payload too but on an unpatched console; any other journal leaves the disk as it is |
| `CfwCommit.Console.CommitCleanup` | source/utils.cpp:125-178 | the journal is deleted only after backup, new, recovery.bin and ready; an uninterrupted cleanup leaves none of them, no journal and no directory, and the saved payload as it was |
| `CfwCommit.Console.WriteCommitState` | source/utils.cpp:223-258 | with working operations the journal stays readable through every step of the replacement, and ends as COMMIT_IN_PROGRESS |
| `CfwCommit.Console.DeleteTree` | source/utils.cpp:107-121 | a directory is emptied item by item and then deleted, with the journal readable throughout |
| `CfwCommit.RecoverableIsSafe` | source/utils.cpp:576-636 | every state a run can leave has a readable journal or nothing left to clean |
| `CfwCommit.CommitTextIsRead` | source/utils.cpp:558-574 | the text the commit writes is read back as COMMIT_IN_PROGRESS |
| `CfwCommit.WriteKeepsSafeIff` | source/utils.cpp:223-258 | however the replacement ends, the journal is readable or nothing is left to clean, exactly unless the rename fails after the old journal was deleted and the temporary file is deleted too, with something to clean |
| `CfwCommit.LostBackup` | source/utils.cpp:249-254 | a disk with a backup and a pending boot for which that loses the journal |
| `CfwCommit.FaultyFinalize` | source/utils.cpp:600-636 | a whole finalization in which any operation may fail: safe exactly unless the journal was not yet COMMIT_IN_PROGRESS and that happened |
| `CfwCommit.FaultyCleanup` | source/utils.cpp:125-178 | the cleanup in which any deletion may fail is always safe |
| `InstallSessions.Lifetime` | source/nsp_transaction_installer.cpp:452-488 | over every sequence of installations, failed steps, power losses (also inside a recovery) and recoveries, for every sequence of results of the database calls of its rollbacks: the history of stores leads from the first to the last, each rollback starts from one of them and has the results given; a title in the meta database, in memory or committed, that lacks a content was stranded by one of these rollbacks, whose removal of the title or whose commit failed; with working calls every title is complete; every title installed at first is still there with the same contents, byte for byte |
| `InstallSessions.Sessions` | source/nsp_transaction_installer.cpp:996-1272 | every such sequence keeps the invariant behind that: all titles complete but the stranded ones, and a journal whose rollback deletes no content another title uses |
| `InstallSessions.CutAndRecover` | source/nsp_transaction_installer.cpp:996-1272 | an installation cut at any step, then any number of restarts whose recoveries may be cut as well: once one gets to its end, everything is as it was at first but for at most one placeholder or one content; or the application record was reached, and the package and its title are there, byte for byte, and nothing else is new |
| `InstallSessions.InstallOnce` | source/nsp_transaction_installer.cpp:996-1272 | wherever an installation stops, the store is still close to the first one, or the package is in it and nothing will undo it |
| `NcmStore.CutAfterCreate` | source/nsp_transaction_installer.cpp:1134-1139 | power lost between the creation of a placeholder and the journal that names it: the recovery restores the start and that placeholder |
| `NcmStore.CutAfterRegister` | source/nsp_transaction_installer.cpp:1150-1156 | power lost between a registration and the journal that says so: the recovery restores the start and that content |
| `InstallSessions.InstallAndCompare` | source/nsp_transaction_installer.cpp:602-619 | when a streaming installation succeeds, the random-access manifest accepts the same package and seek and read give, for every new content, exactly the bytes the stream wrote |
| `InstallSessions.ReadContent` | source/nsp_transaction_installer.cpp:611-613 | the random-access copy of a content: seek, then buffers, give the package's slice, whenever it is in range |
| `InstallSessions.SameAsRandomAccess` | source/nsp_transaction_installer.cpp:602-619 | true exactly when every new content holds the package's bytes |
| `StreamInstaller.Installer.InstallNspStream` | source/nsp_transaction_installer.cpp:996-1272 | success: the stream has been consumed to exactly the package size, every content that is new holds package[offset..offset+size], old contents are untouched, nothing else is new, and the title is entered and committed with exactly the ids of its CNMT and of the contents its metadata list; when nothing fails, success exactly for the packages of `Installable`; failure, with working rollback calls: contents, placeholders and databases are exactly what they were, for every package but those in which the stream reaches an NCA whose id is new and was met before; for each of those the run in which nothing fails leaves a placeholder behind |
| `StreamInstaller.Installer.InstallFresh` | source/nsp_transaction_installer.cpp:1019-1073 | the same with no journal left over |
| `StreamInstaller.Installer.InstallManifest` | source/nsp_transaction_installer.cpp:1030-1264 | the same from the manifest on |
| `StreamInstaller.Installer.Abandon` | source/nsp_transaction_installer.cpp:1068-1073 | the rollback restores the start when the journal allows it, and leaves a placeholder when it no longer leads to it |
| `StreamInstaller.Installer.Transact` | source/nsp_transaction_installer.cpp:1066-1264 | whatever step fails, the journal then describes a rollback that restores the start, unless such an NCA is reached |
| `StreamInstaller.Installer.StreamPackage` | source/nsp_transaction_installer.cpp:1081-1183 | stable order by offset, then all contents: they are all in storage and nothing else is |
| `StreamInstaller.Installer.StreamContents` | source/nsp_transaction_installer.cpp:1116-1183 | `streamOffset` always equals the bytes taken, ends at the package size, and every entry is loaded; a failure can be undone unless an NCA with an id that is new and was met before is reached, and then, if nothing else fails, it cannot |
| `StreamInstaller.Installer.StreamNext` | source/nsp_transaction_installer.cpp:1116-1177 | one entry of the loop, with both directions of that |
| `StreamInstaller.Installer.StreamEntry` | source/nsp_transaction_installer.cpp:1116-1177 | one entry: an entry behind the stream position is refused, a gap is skipped, and the stream ends at the end of the entry |
| `StreamInstaller.Installer.StreamNca` | source/nsp_transaction_installer.cpp:1124-1156 | a content that was there is skipped, a new one is loaded; when nothing fails it succeeds exactly if its id was there at first or is not yet in storage |
| `StreamInstaller.Installer.LoadContent` | source/nsp_transaction_installer.cpp:1134-1156 | placeholder, bytes, registration: the content holds the next bytes of the stream; a failure at any of them is restorable from the journal if the content was not registered before |
| `StreamInstaller.Installer.HalfDoneLeaks` | source/nsp_transaction_installer.cpp:1134-1156 | with a content half written that was registered before in this installation, a rollback leaves the new placeholder |
| `StreamInstaller.Installer.WriteContent` | source/nsp_transaction_installer.cpp:1094-1114 | buffer by buffer, the placeholder ends up holding exactly the bytes taken from the stream |
| `StreamInstaller.Installer.Skip` | source/nsp_transaction_installer.cpp:1094-1114 | takes exactly that many bytes |
| `StreamInstaller.Installer.BufferAux` | source/nsp_transaction_installer.cpp:1157-1172 | a ticket or certificate is kept byte for byte; limits of 16 and 32 MiB |
| `StreamInstaller.Installer.PlanContents` | source/nsp_transaction_installer.cpp:1034-1052 | every NCA is planned, marked pre-existing exactly when its content is in storage |
| `StreamInstaller.Installer.Prepare` | source/nsp_transaction_installer.cpp:1030-1067 | after the first journal nothing is half done and a rollback would change nothing |
| `StreamInstaller.Installer.InstallTitle` | source/nsp_transaction_installer.cpp:1185-1264 | the title is entered only with all its references in the package and in storage, and not over an existing one, and then always when nothing fails; any failure is restorable |
| `StreamInstaller.TitleIdsAre` | source/nsp_transaction_installer.cpp:341-358 | the ids a title is entered with are that of the CNMT and those of the contents its metadata list, and no others |
| `StreamInstaller.Installer.AnnounceTitle` | source/nsp_transaction_installer.cpp:1195-1199 | the journal names the title before the database is touched |
| `StreamInstaller.Installer.EnterTitle` | source/nsp_transaction_installer.cpp:1197-1205 | the title is set and committed, with every partial state restorable |
| `StreamInstaller.Installer.PushRecord` | source/nsp_transaction_installer.cpp:1230-1264 | until the application record is pushed everything can be rolled back, afterwards nothing is |
| `StreamInstaller.ValidateReferences` | source/nsp_transaction_installer.cpp:880-897 | accepts exactly when every reference names an NCA of the package with the stated size |
| `StreamInstaller.AcceptedFits` | source/nsp_transaction_installer.cpp:742-855 | an accepted manifest keeps every entry between the tables and the end of the package |
| `StreamInstaller.OnceMeansNoTrap` | source/nsp_transaction_installer.cpp:1034-1052 | if two NCAs share an id only when that id is in storage, no failure can leave a placeholder |
| `StreamInstaller.FlowsUntrapped` | source/nsp_transaction_installer.cpp:1116-1156 | entries that follow one another go through exactly when no NCA is met whose id is new and was met before |
| `StreamInstaller.ByOffsetOnce` | source/nsp_transaction_installer.cpp:1081-1086 | sorting by offset keeps that property |
| `StreamInstaller.AcceptedHasCnmt` | source/nsp_transaction_installer.cpp:1023-1024 | an accepted manifest has a CNMT with a content id |
| `TwinPackage.TwinTraps` | source/nsp_transaction_installer.cpp:1124-1156 | a package built from a CNMT and another NCA under one content id, in any spelling of its digits, is accepted, and its installation can leave a placeholder exactly when the content is not in storage |
| `TwinPackage.TwinRun` | source/nsp_transaction_installer.cpp:1124-1156 | installed on an empty console on which nothing fails, it does |
| `NspInstall.ByOffsetSorts` | source/nsp_transaction_installer.cpp:1081-1086 | the entries are visited in order of offset |
| `NspInstall.SortedStays` | source/nsp_transaction_installer.cpp:1084-1086 | entries already in order keep it, those at the same offset included |
| `NspInstall.Console.Recover` | source/nsp_transaction_installer.cpp:362-493 | no journal: nothing happens; past the application record nothing is undone; with working calls the result is exactly the store with the installation undone; with failing ones, what is left in the databases, and every title stays complete exactly unless the removal fails with the title in the database or the commit fails with it committed, referring to a content the rollback deletes |
| `NspInstall.Console.Restart` | source/nsp_transaction_installer.cpp:1008-1012 | a start after power loss recovers first; what is past the application record is kept |
| `NspInstall.Console.RollBack` | source/nsp_transaction_installer.cpp:455-483 | database calls, then every entry, in the order of the code; the results of the database calls are ignored |
| `NspInstall.Console.RemoveTitle` | source/nsp_transaction_installer.cpp:455-464 | the title leaves the database only if the removal works, and the committed form only if the commit does |
| `NspInstall.Console.UndoContents` | source/nsp_transaction_installer.cpp:465-483 | last entry first; removes exactly the contents registered by this installation and the placeholders still open |
| `NspInstall.Console.UndoEntry` | source/nsp_transaction_installer.cpp:471-483 | deletes only what no title uses that is not stranded; a pre-existing content is never deleted |
| `NcmStore.DeleteKeepsCompleteIff` | source/nsp_transaction_installer.cpp:471-475 | deleting contents keeps every title complete exactly when no title uses them |
| `NcmStore.RollbackKeepsCompleteIff` | source/nsp_transaction_installer.cpp:452-488 | exactly when a rollback keeps every title complete, in terms of the journal and the databases before it and of the results of its two database calls |
| `NcmStore.StrandedTitle` | source/nsp_transaction_installer.cpp:452-488 | a store in which a failed removal, and one in which a failed commit, leaves a title without its content |
| `NcmStore.MayDelete` | source/nsp_transaction_installer.cpp:465-483 | after the database calls whatever still uses a content about to be deleted is stranded |
| `NcmStore.UndoKeepsInv` | source/nsp_transaction_installer.cpp:442-488 | rolling back a safe journal with working calls keeps every remaining title complete |
| `NcmStore.EnterIsSafe` | source/nsp_transaction_installer.cpp:1199-1203 | entering the announced title keeps the invariant once its contents are there |
| `NcmStore.DeleteIsSafe` | source/nsp_transaction_installer.cpp:471-475 | deleting a content no title uses keeps all titles and their bytes |
| `NspManifest.InspectNspManifest` | source/nsp_ncm_probe.cpp:185-291 | accepts exactly the packages the reference definition accepts (in any number of parts); of every entry name, offset and size are those in the tables, the kind is what the letters at the end of the name say, the content id is the 16 bytes whose hexadecimal digits, high one first, stand before the first dot; the counts are the numbers of entries of each kind, the NCA bytes their sum |
| `NspManifest.ParseStreamManifest` | source/nsp_transaction_installer.cpp:742-855 | the same for the streaming parser, with a size of 0 meaning unknown; it has consumed exactly the tables |
| `NspManifest.ParsersAgree` | source/nsp_transaction_installer.cpp:802-812 | on a stream of exactly the package size the streaming parser accepts exactly when the other does and there is one CNMT, with the same manifest, despite the different overflow checks |
| `NspManifest.ParseBothWays` | source/nsp_ncm_probe.cpp:238-242 | both parsers called on the same bytes agree |
| `NspManifest.ReadTables` | source/nsp_ncm_probe.cpp:195-222 | header and tables pass exactly when the reference header test does |
| `NspManifest.InspectEntry` | source/nsp_ncm_probe.cpp:225-247 | an entry passes exactly when its name ends inside the table and its data inside the package |
| `NspManifest.StreamEntry` | source/nsp_transaction_installer.cpp:789-818 | the same with absolute offsets |
| `NspManifest.FindName` | source/nsp_ncm_probe.cpp:231-236 | a terminator is found exactly when there is one, and the name is the text before it |
| `NspManifest.CheckNames` | source/nsp_ncm_probe.cpp:279-284 | exactly when every NCA is named after its content id |
| `NspManifest.EntryReadRight` | source/nsp_ncm_probe.cpp:244-253 | whatever the name, the entry made of it has the kind and content id its letters show |
| `NspManifest.ContentIdIs` | source/nsp_ncm_probe.cpp:72-90 | a name gives a content id exactly when its first dot follows 32 digits, and then the bytes they show |
| `NspManifest.HexIs` | source/nsp_ncm_probe.cpp:80-86 | digits are parsed as the bytes they show, upper and lower case alike, and nothing else is parsed |
| `NspManifest.ManifestIsRight` | source/nsp_ncm_probe.cpp:224-263 | the reference manifest of an accepted header says of each entry what the tables say |
| `NspManifest.TallyCounts` | source/nsp_ncm_probe.cpp:255-261 | the counters are the sizes of the sets of entries of each kind, and the NCA bytes their sum in 64 bits |
| `InstallStream.Interleaving` | source/mtp_install_stream.cpp:13-109 | under every schedule of producer and consumer chunks, cancellation and early finish: what was delivered is a prefix of what was accepted, which is a prefix of what was pushed, in order and once; every completed read has its size; without a cancellation a read fails only after the producer has closed and too few bytes remained |
| `InstallStream.FairSchedule` | source/mtp_install_stream.cpp:13-109 | under every schedule in which both threads keep getting turns, both come to their end: without a cancellation every read has been served, or the first one for which too few bytes were pushed has failed with all of them delivered; with one, what was served is still a prefix of what was pushed |
| `InstallStream.TakeRound` | source/mtp_install_stream.cpp:13-76 | a round in which both get a turn strictly reduces what is left to do |
| `InstallStream.Threads.OneEnabled` | source/mtp_install_stream.cpp:20-58 | until both threads are done, one of them can go on |
| `InstallStream.Stream.Counters` | source/mtp_install_stream.cpp:13-76 | until the consumer finishes used == pushed - consumed <= capacity; always writePos == (readPos + used) % capacity |
| `InstallStream.Stream.NeverBothBlocked` | source/mtp_install_stream.cpp:20-58 | producer and consumer are never both blocked |
| `InstallStream.Stream.PushChunk` | source/mtp_install_stream.cpp:18-46 | one turn of push: as many bytes as fit before the end of the buffer are appended in order, or the rest is drained and counted, or it is refused as cancelled |
| `InstallStream.Stream.ReadChunk` | source/mtp_install_stream.cpp:54-75 | one turn of readExact: as many bytes as there are before the end of the buffer are delivered in order, or it fails, exactly when cancelled or at the end |
| `InstallStream.Stream.ReadExactClosed` | source/mtp_install_stream.cpp:49-76 | after `closeProducer` a read succeeds exactly when enough bytes remain |
| `InstallStream.Stream.FinishConsumer` | source/mtp_install_stream.cpp:98-109 | the buffer is dropped, the ring stays consistent and the producer is not blocked any more |
| `InstallStream.HoldsPush` | source/mtp_install_stream.cpp:35-42 | writing at the write position appends to what the ring holds, across the wrap-around |
| `InstallStream.HoldsRead` | source/mtp_install_stream.cpp:65-71 | reading at the read position takes the oldest bytes, across the wrap-around |
| `PackageReader.Reader.Read` | source/package_reader.cpp:168-194 | for any parts, empty ones included: a non-empty read succeeds exactly when it ends inside the whole, returns that slice of the concatenation and moves the position by its length; otherwise the position stays |
| `PackageReader.Reader.Seek` | source/package_reader.cpp:156-166 | succeeds exactly up to the total size |
| `PackageReader.Reader.LocatePart` | source/package_reader.cpp:123-137 | the part and local offset of a position, never an empty part except at the end |
| `PackageReader.Reader.Open` | source/package_reader.cpp:87-111 | part starts are the sums of the sizes before |
| `PackageReader.Reader.UpperBound` | source/package_reader.cpp:131-132 | the first part that starts after the offset |
| `Pfs0Builder.BuildPfs0` | source/forwarder_installer.cpp:617-646 | the builder's tables and writes produce exactly the specified image: magic, count, reserved zeros; record i with the sums of the sizes and names before it; a string table of a multiple of 32 bytes, as large as the header says, with the names one after another and zeros behind them; the data in order |
| `Pfs0Builder.RecordsStand` | source/forwarder_installer.cpp:625-641 | every field of header and records stands where the format puts it |
| `Pfs0Builder.StringTableIs` | source/forwarder_installer.cpp:630-642 | the string table: its multiple of 32, its size in the header, its zeros |
| `Pfs0Builder.RoundTrip` | source/forwarder_installer.cpp:617-646 | for every list of 1 to 0x10000 entries with NUL-free names within the format's fields and the readers' limits, every bounds check passes and each entry is read back with its name, in order, and its exact data |
| `Pfs0Builder.BuildAndRead` | source/forwarder_installer.cpp:617-646 | an image that is built and then read through the split-file reader and as a stream: the table and entry loops of both parsers succeed, agree, and name every file in order with its exact bytes; the whole parsers also refuse an image without an NCA |
| `Pfs0Builder.RecordRead` | source/forwarder_installer.cpp:625-634 | record i is read back as its offsets and size |
| `Pfs0Builder.NameRead` | source/forwarder_installer.cpp:630-636 | name i is read back from the string table |
| `Pfs0Builder.DataRead` | source/forwarder_installer.cpp:643-644 | the data of entry i lies at its offset |
| `BuiltPackage.BuildAndInstall` | source/nsp_transaction_installer.cpp:996-1272 | from contents with distinct ids, named after them in any spelling, to the title: built, streamed into a store in which the title is new, every content new to it ends up under its id with its bytes, the title is entered with the ids it lists, nothing else changes and no journal is left |
| `BuiltPackage.BuildAndParse` | source/nsp_ncm_probe.cpp:92-100 | a built image given to both parsers: for every 16-byte id, the file named by its 32 digits, in lower or upper case, and `.nca` or `.cnmt.nca` is found under that id, with its kind and its data |
| `BuiltPackage.BuiltIsAccepted` | source/forwarder_installer.cpp:617-646 | both parsers accept such an image and agree |
| `BuiltPackage.EntryIs` | source/nsp_ncm_probe.cpp:72-90 | the entry made of such a name has the id and kind that were put into it |
| `BuiltPackage.BuiltInstalls` | source/nsp_transaction_installer.cpp:1019-1264 | such a package can be installed in every store in which its title is new |
| `BufHelper.Buffer.Write` | source/forwarder_installer.cpp:52-58 | appending, overwriting, overlapping the end and writing past the end with zeros in between |
| `NcaBuilder.CreateProgramNca` | source/forwarder_installer.cpp:786-794 | for every ExeFS and every RomFS image: sections tile the file from 0xC00 in 0x200 units up to its end without gap or overlap; the ExeFS section holds its hash table and image where the header says; every IVFC level lies at its logical offset, 0x4000-aligned; level 5, read at the size in the header, is the image, and the file holds it there with its padding; the master hash is that of level 0, levels 0 to 3 hold at byte 32*j the hash of block j of the next, and level 4 those of the padded image |
| `NcaBuilder.IvfcCreateLevel` | source/forwarder_installer.cpp:733-744 | byte 32*j of the level holds the hash of block j of the source, the last block cut short; padded to 0x4000 |
| `NcaBuilder.IvfcLevels` | source/forwarder_installer.cpp:751-757 | six levels, each hashing the next, the last one the padded image |
| `NcaBuilder.RomfsBuild` | source/forwarder_installer.cpp:488-495 | the padded image ends on a block boundary, at least one byte after the image, and the size handed back is that of the image alone |
| `NcaBuilder.ImageBlockHashed` | source/forwarder_installer.cpp:733-757 | each hash of level 4 is that of a whole 0x4000-byte block of the file, zeros of the padding included |
| `NcaBuilder.LevelOffsets` | source/forwarder_installer.cpp:758-762 | each logical offset is where the level really starts, and 0x4000-aligned |
| `NcaBuilder.HashBlocks` | source/forwarder_installer.cpp:648-658 | one hash for each block, in order |
| `NcaBuilder.WriteNcaPfs0` | source/forwarder_installer.cpp:716-731 | what is appended, which section is recorded and what the header says of it |
| `NcaBuilder.CloseSection` | source/forwarder_installer.cpp:728-729 | when the sections before it end where this one begins and the file is below 2 TiB, the table entry runs from there to the end of the file |
| `NcaBuilder.WriteNcaRomfs` | source/forwarder_installer.cpp:746-772 | the levels over the padded image, the section, and a header with the size of the image before padding |
| `NcaBuilder.WritePadding` | source/forwarder_installer.cpp:303-310 | pads to the block size, by a whole block when already aligned |
| `NcaBuilder.ProgramLayout` | source/forwarder_installer.cpp:786-794 | the assembled pieces are where the header says |
| `MtpCodec.StringRoundTrip` | source/mtp_native_server.cpp:149-186 | `utf16Name(addString(s))` is s for every well-formed NUL-free BMP string of at most 253 characters, whatever follows it |
| `MtpCodec.AddString` | source/mtp_native_server.cpp:149-186 | appends exactly the specified encoding of any byte string, malformed UTF-8 included |
| `MtpCodec.Utf16Name` | source/mtp_native_server.cpp:207-239 | decodes any bytes as specified, truncated strings refused |
| `MtpCodec.PropListRoundTrip` | source/mtp_native_server.cpp:1249-1292 | for any non-empty such name and any 64-bit size, parsing the full property list consumes every byte and recovers name and size |
| `MtpCodec.MakeObjectPropList` | source/mtp_native_server.cpp:1249-1292 | every case: no object, wrong handle, one property, unknown property, all six; byte by byte: the number of items, and for each the handle, the code, the type and the value, storage id 0x00010001, format 0x3000, the size, the name, parent 0 and the handle as persistent id, in this order |
| `MtpCodec.ItemIsWire` | source/mtp_native_server.cpp:1278-1289 | each item as its literal bytes |
| `MtpCodec.FullListIs` | source/mtp_native_server.cpp:1262-1268 | the full list is a count of six and the six items in order |
| `MtpCodec.WireReads` | source/mtp_native_server.cpp:1278-1287 | read as little-endian numbers the bytes of an item are handle, code, type and value, of the width of the type |
| `MtpCodec.ParsePropList` | source/mtp_native_server.cpp:1579-1619 | accepts and returns exactly what the specification of the list does |
| `MtpCodec.ParseItem` | source/mtp_native_server.cpp:1588-1615 | one step of the parser is one step of the specification |
| `MtpCodec.ValueSize` | source/mtp_native_server.cpp:285-329 | the size of a value never exceeds what is left, for scalars, strings and arrays |
| `MtpLists.SizeOfValue` | source/mtp_native_server.cpp:285-329 | type by type: scalars of 1 to 16 bytes, a string by its count, arrays by theirs, each refused when it is not all there; every other type refused |
| `MtpLists.AcceptedIff` | source/mtp_native_server.cpp:1579-1619 | a list is accepted exactly when it is a count of at most 256, that many whole items, nothing behind them, and one of them gives a name that is not empty |
| `MtpLists.AcceptedSays` | source/mtp_native_server.cpp:1605-1613 | the name is that of the last item that gives one, the size that of the last 64-bit size, or none |
| `MtpLists.WholeValue` | source/mtp_native_server.cpp:296-326 | what follows a value does not change its size |
| `MtpLists.DecodedChar` | source/mtp_native_server.cpp:160-179 | one step of the UTF-8 decoder by its bytes: one, two or three of them, and a question mark for whatever is malformed, too long, cut short or a surrogate |
| `MtpLists.UnitsInPlace` | source/mtp_native_server.cpp:182-185 | count, units and the closing NUL stand where they should, 253 units at most |
| `MtpCodec.CharsOfUtf8` | source/mtp_native_server.cpp:159-180 | decoding UTF-8 (section 3 of RFC 3629) recovers the code points |
| `MtpCodec.TextOfUnits` | source/mtp_native_server.cpp:222-236 | encoding the units again gives the same UTF-8 |
| `CopyRun.RunCopy` | source/file_explorer_ops.cpp:371-451 | whatever fails and whenever the job is cancelled, the file system is the old one plus complete copies of the first `copied` sources, each mirroring its source as it was before the job, and nothing else: no temporary and no staging path; on success all of them, `completed` counts all their bytes, and it equals `total` exactly when every file whose size query failed in the measuring pass is empty; when nothing fails and nobody cancels, every job without links and temporary names succeeds |
| `CopyRun.CopiesMirror` | source/file_explorer_ops.cpp:412-444 | path by path: what existed is the same, below each target stands what stands below its source, and every new path lies in a target |
| `CopyRun.CopiesAreNew` | source/file_explorer_ops.cpp:384-387 | no path that existed changes, and every new path lies in a target |
| `CopyRun.NextSmooth` | source/file_explorer_ops.cpp:424-443 | the copies made so far stand in the way of no later one |
| `CopyRun.TargetIsImage` | source/file_explorer_ops.cpp:424-444 | each target is the exact image of its source |
| `CopyRun.TargetApart` | source/file_explorer_ops.cpp:383-384 | no target lies inside any source, so the copy never visits its own output |
| `CopyRun.Preflight` | source/file_explorer_ops.cpp:375-405 | accepts only existing sources with new, distinct targets outside themselves |
| `CopyRun.DirectorySize` | source/file_explorer_ops.cpp:352-369 | adds up every file below the directory except those whose size query fails; a cancellation ends it early without an error |
| `CopyRun.MeasuredIsAllIff` | source/file_explorer_ops.cpp:352-369 | the measured total is never too large, and is the whole exactly when every file passed over is empty |
| `CopyRun.OneFileUnmeasured` | source/file_explorer_ops.cpp:362-363 | a folder with one file of three bytes whose size query fails: none announced, three copied |
| `CopyJob.CopyDirectory` | source/file_explorer_ops.cpp:425-440 | the target is the image of the source, or the file system is exactly what it was |
| `CopyJob.CopyTree` | source/file_explorer_ops.cpp:99-123 | success: the destination is the exact image of the source, whose bytes are all counted; failure: nothing outside the destination has changed |
| `CopyJob.CopyEntries` | source/file_explorer_ops.cpp:112-118 | every entry once, in whatever order the directory lists them |
| `CopyJob.EntrySimple` | source/file_explorer_ops.cpp:112-116 | nor do the entries copied so far in a directory |
| `CopyJob.RenamedTree` | source/file_explorer_ops.cpp:433-436 | building at the staging path and renaming is as if copied to the target |
| `Explorer.Worker.CopyFile` | source/file_explorer_ops.cpp:56-97 | the target appears complete or not at all, and no temporary remains; it does appear when nothing fails, its place can be created and a temporary name is free |
| `Explorer.Worker.Store` | source/file_explorer_ops.cpp:64-96 | the same for any new file: written to a temporary beside it, renamed, or removed |
| `Explorer.Worker.TempFor` | source/file_explorer_ops.cpp:44-54 | the first unused name of `.aio-copy-0.tmp` to `.aio-copy-999.tmp` beside the target, and not the target's; when no query fails it is found if there is one |
| `Explorer.DecimalReads` | source/file_explorer_ops.cpp:46-46 | the number in such a name is the attempt, in decimal digits |
| `ZipExtract.ExtractZip` | source/file_explorer_ops.cpp:174-295 | all or nothing: on any failure or cancellation whatever existed is unchanged, and the file system is exactly what it was unless a path the extraction added could not be removed, what is left being such paths and the directories above them; on success every file of the archive is in place with its bytes and every directory, empty ones included, is one; every new path is a member's or lies between the destination and one; nothing that existed has changed, no name is unsafe, a link, taken, or repeated without regard to case among files or among directories, and `completed == total`; when nothing fails and nobody cancels, it succeeds if the preflight passes and no member stands in the way of another |
| `ZipExtract.ExtractMembers` | source/file_explorer_ops.cpp:236-294 | the loop and its rollback, in which removals may fail |
| `ZipExtract.ExtractMember` | source/file_explorer_ops.cpp:240-288 | everything a member creates is noted before or as it is created |
| `ZipExtract.CreateDirectories` | source/file_explorer_ops.cpp:252-253 | the directories down to the folder, or a part of them from the top |
| `ZipExtract.NoteMissing` | source/file_explorer_ops.cpp:245-251 | the directories that do not exist yet |
| `ZipExtract.Rollback` | source/file_explorer_ops.cpp:289-294 | removing noted files, then noted directories from the inside out, restores the file system exactly when no noted path that is there refuses to go; otherwise what is left is held by such a path |
| `ZipExtract.RemoveDirs` | source/file_explorer_ops.cpp:292 | a directory is removed only after everything it may hold, so it stays only if its removal fails or something below it could not be removed |
| `ZipExtract.NothingLeftIff` | source/file_explorer_ops.cpp:289-294 | after a rollback the file system is as before exactly when no path that could not be removed is a new one |
| `ZipExtract.Preflight` | source/file_explorer_ops.cpp:188-233 | accepts only safe relative names, unique without regard to case, that collide with nothing, and adds up their sizes |
| `ZipExtract.MembersOkIff` | source/file_explorer_ops.cpp:192-228 | the preflight passes exactly the archives whose members are admitted one by one and have names that, among files and among directories, differ in more than case |
| `ZipExtract.PathsFold` | source/file_explorer_ops.cpp:212-215 | lower-casing identifies exactly the paths that differ in case alone |
| `ZipExtract.MemberInPlace` | source/file_explorer_ops.cpp:254-280 | every file of the archive is there with its own bytes |
| `ZipExtract.ExtractedBelow` | source/file_explorer_ops.cpp:206-210 | whatever is added lies below the destination |
| `ZipExtract.LeadsToMember` | source/file_explorer_ops.cpp:245-253 | every new path is the destination followed by a beginning of a member's name |
| `ZipExtract.NextIsFree` | source/file_explorer_ops.cpp:252-281 | if no member is a file another has to pass through, the members extracted so far stand in the way of no later one |
| `DeleteJob.RunDelete` | source/file_explorer_ops.cpp:395-416 | nothing happens to a selection with the root, a link or a missing path in it; success: exactly what the sources name is gone; otherwise some of it may be and nothing else has changed; when nothing fails and nobody cancels, it succeeds exactly if no source lies inside an earlier one; `completed == total` exactly when no source lies inside another |
| `DeleteJob.InOrderIff` | source/file_explorer_ops.cpp:412-416 | every source is still there when its turn comes exactly when none lies inside an earlier one |
| `DeleteJob.CountTree` | source/file_explorer_ops.cpp:125-144 | counts the item and everything inside it, once |
| `DeleteJob.RemoveTree` | source/file_explorer_ops.cpp:146-172 | success: exactly the subtree is gone and every item of it counted; failure: only things inside it are |
| `DeleteJob.CountIsExactIff` | source/file_explorer_ops.cpp:395-405 | adding the counts source by source counts nothing twice exactly when no source lies inside another |
| `DeleteJob.NestedSelection` | source/file_explorer_ops.cpp:395-405 | with `/a/b` and then `/a` selected three items are announced where there are two |
| `ExplorerPaths.InsideIsBelow` | source/file_explorer_ops.cpp:29-33 | the text comparison holds exactly when the path lies below the other, for normalised paths |

## Left out

- Pages, dialogs, drawing, progress text, speeds and remaining-time estimates.
- Downloads, link parsing, JSON catalogues, USB endpoints, decompression and the console's services: calls
  that may fail, or parameters.
- SHA-256, AES-XTS and key derivation; the encrypted NCA header is any 0xC00 bytes.
- The RomFS directory and file tables: the image under the hash tree is any byte sequence.
- Tickets and application records: only whether the call fails; an imported ticket may outlive a rollback.
- Parsing the CNMT inside an installed NCA and the firmware and base-title checks: what they yield is a
  parameter, except that an installed title is never replaced.
- The legacy journal kinds and a foreign owner's journal in recovery.
- The random-access installer's own transaction; its reading of contents is the reference for the
  streaming one.
- Moving files, which is one rename each, and listing directories for display.
- AppUpdater.Console.PowerCycles: stops at the first cut that leaves no journal over a damaged target; what
  the run after it does is in `LostJournal`. BACKUP may be the new NRO (`LostJournal.StartsAfresh`).
- AppUpdater.Console.Boot: not from such a disk either.
- AppUpdater.Console.FaultyRun: one run only; a failed partial backup followed by a power cut inside the
  cleanup is not covered.
- CfwCommit.Console.WriteCommitState: its renames and deletions succeed; `CfwCommit.FaultyFinalize` is about
  those that fail.
- CfwCommit.Console.Finalize: the states TegraExplorer writes before a commit are given, since its CFW
  updater is not part of this model.
- NspInstall.Console.Recover: writing and removing the journal are atomic.
- StreamInstaller.Installer.InstallNspStream: exact restoration is about failed steps; power loss is in
  `InstallSessions.CutAndRecover`.
- NcaBuilder.CreateProgramNca: media offsets are 32 bits wide, so the section bounds hold for files below
  2 TiB.
- InstallStream.Interleaving: the byte counters are unbounded, where the code's wrap at 64 bits.
- PackageReader.Reader.Read: parts can be opened and read.
- PackageReader.Reader.Open: the sizes of the parts can be read; their discovery on disk is not modelled.
- CopyRun.RunCopy: nobody else changes the files meanwhile, names are compared exactly, and temporary files
  and staging directories can be removed; the same for `ZipExtract.ExtractZip`, but for its rollback, and for
  `DeleteJob.RunDelete`.
- ZipExtract.RemoveDirs: any order in which a directory comes after what it may hold, of which the
  descending path order of the code is one.
- ZipExtract.ExtractZip: a member holds as many bytes as its header says; otherwise it counts as unreadable.
- ZipExtract.Preflight: a member's name is given as its components; splitting the text is not modelled.

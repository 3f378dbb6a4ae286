# Verification of Navidrome's stateful core

A Dafny model of the parts of Navidrome in which several operations share state and depend on each other, with
proofs of what they keep. `dafny verify dfyconfig.toml` checks everything.

| Files | What they model |
|---|---|
| `TaskQueue*.dfy`, `Backoff.dfy` | the persistent task queue of a plugin: rows, workers, retries, backoff, recovery, shutdown, cleanup |
| `Playlist*.dfy` | the position table of playlists under its unique index, statement by statement and row by row |
| `Plugin*.dfy` | the plugin lifecycle over its two stores, the table and the loaded plugins |
| `MissingTracks*.dfy` | the scanner's detection of moved files: grouping, greedy pairing, identity transplant |
| `KVStore*.dfy` | a plugin's key/value store with lazy expiry and a quota |
| `Ordering.dfy`, `Pagination.dfy`, `QueryAnswers.dfy` | queries as values, and the two rewrites that replace OFFSET and wide full-text queries |
| `Lyrics*.dfy` | the lyrics parser, from the stamp pattern to the loop over lines |
| `Album*.dfy` | summing up the tracks of an album |
| `ArtworkId.dfy` | artwork ids and disc ids as text |
| `MapSums.dfy`, `Wrappers.dfy` | sums over maps; optional values and results |

Code that updates objects or arrays is modelled by classes and methods (`Service`, `Repository`, `Manager`, `Phase`,
`ToAlbum`). Each method is proved to be a function of its old state, and the properties of runs are proved about those
functions: a run is a sequence of steps chosen freely, so every interleaving of the modelled steps is covered. SQL tables are
maps and each statement is its effect, except that the position updates of playlists are carried out row by row in an
arbitrary order. Clock readings, callback outcomes, failures, file contents and the order in which maps are walked are
parameters or arbitrary choices.

## What the proofs found

* The backoff is the capped exponential its comment describes only while the 64-bit shift does not wrap to a small number;
  this is certain up to 2^43 ms, and fails for the next delay (`Backoff.RetryBackoffExact`, `Backoff.LargeDelayWraps`).
* `Reorder` does not check its positions, and neither does the API that calls it. Out of range the move itself keeps the
  unique index of a dense playlist but can leave a gap (`PlaylistReorder.ReorderDenseExact`). A move to a position
  from -2 down to -n puts a track at the opposite of a position that is held; a deletion that keeps both then fails
  when `renumber` negates the positions (`PlaylistRenumber.NegateExact`,
  `PlaylistLimits.DeleteAfterMoveExact`, `PlaylistLimits.NegativeMoveStopsDelete`).
* A sync drops the row, and so the settings, of a file that is present but cannot be hashed; a watcher event for the same
  file changes nothing (`PluginSafety.SyncKeepsExactly`).
* Permission gates are checked against the package on disk, but deletions are cleaned up against the manifest in the table.
  The gates of all loaded plugins hold throughout a run if and only if no deletion takes the last needed user or library
  from a plugin whose running package needs it and whose row's manifest does not (`PluginSafety.GatesHoldExact`,
  `PluginSafety.RunKeepsGatesExact`). If nothing is loaded between a change on disk and the next sync, the two manifests
  are the same (`PluginSafety.RunGated`); otherwise they need not be (`PluginSafety.EnablingUnknownPackageEscapes`).
* A start loads enabled rows without checking their gates (`PluginSafety.StartEstablishes`).
* `Set` reads the clock separately for the old size and for the sum. A value that expires in between is subtracted twice
  (`KVStore.QuotaExact`). The count `DeleteByPrefix` returns includes expired rows that no clean-up has removed yet
  (`KVStore.DeletedCountExact`).
* The separator of a fraction in a time stamp can be any character, even the closing bracket, so text after a stamp can
  change the stamp (`LyricsRoundTrip.StampReadExact`). The fraction is cut by bytes, so a separator outside ASCII in a
  leading stamp makes the whole parse fail, and nothing else does (`LyricsErrors.ParseTimeFailsExact`,
  `LyricsErrors.ParsingFailsExact`, `LyricsErrors.IdeographicStopFails`).
* A negative first year, a negative first disc number and an unknown birth time each derail one fold of `ToAlbum`
  (`AlbumSummary.MinYearExact`, `AlbumSummary.CoverExact`, `AlbumSummary.EarliestExact`).

## Model

| member | source | states |
|---|---|---|
| TaskQueueRuns.HeldRowsAreRunningAndExclusive | navidrome/plugins/host_taskqueue.go:394-498 | in every run from the empty service, until the database is closed, a row held by a worker is running, unchanged since that worker took it, and held by no other worker |
| TaskQueueRuns.HeldRowIsUntouched | navidrome/plugins/host_taskqueue.go:307-366 | no step of anybody else (create, enqueue, cancel, clear, other workers, cleanup, cancelled context) touches a held row or its claim |
| TaskQueueRuns.RowChangesAreLegal | navidrome/plugins/host_taskqueue.go:394-498 | each step changes a row only along the arrows the statuses allow, with exactly the columns each arrow may change; a row disappears only by cleanup, terminal and past its retention |
| TaskQueueRuns.TerminalRowsAreFinal | navidrome/plugins/host_taskqueue.go:446-498 | over any run, a completed, failed or cancelled row never changes for as long as it exists, although the completing and failing updates have no status guard |
| TaskQueueRuns.AttemptsAreAccounted | navidrome/plugins/host_taskqueue.go:401-409 | in every run, attempt = dequeues - reverts, attempt <= max(maxRetries, 0) + 1 + recovery resets, and failed rows have used up their retries |
| TaskQueueRuns.DequeuesAreBounded | navidrome/plugins/host_taskqueue.go:388-488 | for every interleaving: dequeues plus remaining potential never exceed the potential at the start plus what inserts, reverts and resets add |
| TaskQueueRuns.DrainIsBounded | navidrome/plugins/host_taskqueue.go:388-488 | without inserts, recovery and shutdown, each dequeue costs the potential at least one, so callbacks are bounded by the sum of the remaining attempts |
| TaskQueueRuns.ProcessedOnce | navidrome/plugins/host_taskqueue.go:394-488 | a dequeue and the write after it strictly lower the potential, whether the callback succeeds or fails; a revert gives it back |
| TaskQueueRuns.ConcurrencyIsBounded | navidrome/plugins/host_taskqueue.go:179-256 | in every run, queue concurrencies sum to at most the budget the service was made with, each is at least 1, and busy workers stay within their queue and the budget |
| TaskQueueRuns.ExecInv | navidrome/plugins/host_taskqueue.go:198-591 | the invariant of budget, claims, exclusivity, rows and ledger holds after every run |
| TaskQueueSafety.InvStep | navidrome/plugins/host_taskqueue.go:198-591 | every single step keeps that invariant |
| TaskQueueEffects.ResultIsKept | navidrome/plugins/host_taskqueue.go:446-452 | a completed task has its status, message and time as given, and keeps them over every later run for as long as its row exists |
| TaskQueueEffects.RetriesWait | navidrome/plugins/host_taskqueue.go:454-488 | a failed task with retries left is not taken again, whatever runs meanwhile, before a dequeue reads a clock past the backoff: the delay times 2^(attempt - 1), an hour at most, or the bits the shift leaves |
| TaskQueueEffects.PendingRowsWait | navidrome/plugins/host_taskqueue.go:394-411 | over every run, a pending row can only be cancelled until a dequeue reads a clock past its next_run_at |
| TaskQueueEffects.PayloadIsDelivered | navidrome/plugins/host_taskqueue.go:264-428 | over every run, a worker that holds a task was given the payload and retries of its Enqueue, on its queue |
| TaskQueueEffects.TasksStayTheSame | navidrome/plugins/host_taskqueue.go:264-498 | no step changes the queue, payload, retries or creation time of a row |
| TaskQueueEffects.EnqueueWrites | navidrome/plugins/host_taskqueue.go:264-290 | every column of the new row; a closed database, unknown queue, payload over a mebibyte or used id changes nothing |
| TaskQueueEffects.CancelWrites | navidrome/plugins/host_taskqueue.go:307-336 | the pending row becomes cancelled at that time; no other row changes |
| TaskQueueEffects.ClearQueueWrites | navidrome/plugins/host_taskqueue.go:340-366 | so do exactly the pending rows of the queue |
| TaskQueueEffects.CreateQueueWrites | navidrome/plugins/host_taskqueue.go:198-241 | exactly the running rows of the queue are pending again, with their attempts; refused calls change nothing |
| TaskQueueEffects.CreateQueueStarts | navidrome/plugins/host_taskqueue.go:207-252 | the stored configuration, cut to what is left of the budget, and that many idle workers |
| TaskQueueEffects.DequeueWrites | navidrome/plugins/host_taskqueue.go:401-411 | the row taken is running with one attempt more, and the worker is told its id, payload, attempt and retries |
| TaskQueueEffects.DequeueTakesTheFirstDue | navidrome/plugins/host_taskqueue.go:401-411 | a dequeue has an effect only on a due row of the queue that no due row precedes |
| TaskQueueEffects.CompleteWrites | navidrome/plugins/host_taskqueue.go:446-452 | exactly status, message and time of the held row change, and the worker is idle |
| TaskQueueEffects.FailWrites | navidrome/plugins/host_taskqueue.go:454-482 | the held row is failed with the message after the last retry, otherwise pending with its next_run_at after the backoff |
| TaskQueueEffects.LostWriteKeepsRows | navidrome/plugins/host_taskqueue.go:446-487 | a final write that fails leaves the row running and the worker idle |
| TaskQueueEffects.RevertWrites | navidrome/plugins/host_taskqueue.go:492-498 | the held row is pending with one attempt less |
| TaskQueueEffects.CleanupRemoves | navidrome/plugins/host_taskqueue.go:540-561 | exactly the terminal rows of the queue past its retention go |
| TaskQueueEffects.CloseWrites | navidrome/plugins/host_taskqueue.go:582-587 | exactly the running rows are pending again, attempts kept |
| TaskQueueEffects.RestartKeepsTheTable | navidrome/plugins/host_taskqueue.go:84-121 | a new service over the same file knows the rows and no queue |
| TaskQueue.WithDefaults | navidrome/plugins/host_taskqueue.go:153-174 | a setting that is not positive gets its default (one worker, a second of backoff, an hour of retention), the retention is clamped between a minute and a week, everything else is kept |
| TaskQueueService.Service.constructor | navidrome/plugins/host_taskqueue.go:84-121 | a new service: empty, open, invariant established |
| TaskQueueService.Service.SumAllocated | navidrome/plugins/host_taskqueue.go:179-196 | the loop adds up the concurrency in use, in any map order |
| TaskQueueService.Service.ClampConcurrency | navidrome/plugins/host_taskqueue.go:179-196 | refused exactly when nothing is left; otherwise the smaller of what is asked for and what is left |
| TaskQueueService.Service.CreateQueue | navidrome/plugins/host_taskqueue.go:198-256 | is the step CreateQueue: rejected cases change nothing, otherwise stale running rows go back to pending and workers start |
| TaskQueueService.Service.CheckQueue | navidrome/plugins/host_taskqueue.go:199-228 | the checks before anything is written: refused exactly when the step is, with the clamped configuration otherwise |
| TaskQueueService.Service.InstallQueue | navidrome/plugins/host_taskqueue.go:228-256 | stale running rows back to pending, the queue stored, its workers started, all idle |
| TaskQueueService.Service.Enqueue | navidrome/plugins/host_taskqueue.go:264-290 | is the step Enqueue; fails exactly for a closed database, unknown queue, oversized payload or used id |
| TaskQueueService.Service.Cancel | navidrome/plugins/host_taskqueue.go:307-336 | is the step Cancel, with the reply that tells missing rows from rows that are not pending |
| TaskQueueService.Service.ClearQueue | navidrome/plugins/host_taskqueue.go:340-366 | is the step ClearQueue; counts the rows it cancelled |
| TaskQueueService.Service.SelectNext | navidrome/plugins/host_taskqueue.go:394-411 | finds a due row of the queue that no due row precedes in (next_run_at, created_at), or tells that none is due |
| TaskQueueService.Service.Dequeue | navidrome/plugins/host_taskqueue.go:394-424 | takes the next due row for the worker, or changes nothing, or takes the row and loses it when the counter overflows 32 bits |
| TaskQueueService.Service.CompleteTask | navidrome/plugins/host_taskqueue.go:446-452 | is the step Complete: status, message and time of the held row, or the lost write when the context is cancelled or the database closed |
| TaskQueueService.Service.HandleTaskFailure | navidrome/plugins/host_taskqueue.go:454-488 | is the step Fail for the row held: final after the retries, else pending again after the backoff |
| TaskQueueService.Service.FailOrRetry | navidrome/plugins/host_taskqueue.go:463-482 | the row written: failed for good once the attempt exceeds the retries, else due after the backoff |
| TaskQueueService.Service.RevertTaskToPending | navidrome/plugins/host_taskqueue.go:492-498 | is the step Revert: only a running row is given back, with its attempt |
| TaskQueueService.Service.ProcessTask | navidrome/plugins/host_taskqueue.go:394-444 | one pass of a worker lowers the potential if it processed a task; if not, none was due, unless it was shut down or an attempt counter overflowed |
| TaskQueueService.Service.RunCallback | navidrome/plugins/host_taskqueue.go:426-443 | whatever the callback does, exactly one of revert, complete and fail follows |
| TaskQueueService.Service.DrainQueue | navidrome/plugins/host_taskqueue.go:388-391 | the drain loop ends, after at most as many tasks as the potential of the table |
| TaskQueueService.Service.RunCleanup | navidrome/plugins/host_taskqueue.go:540-561 | removes exactly the terminal rows past the retention of their queue, whatever the order of the queues; nothing once the context is cancelled or the database closed |
| TaskQueueService.Service.CleanupQueue | navidrome/plugins/host_taskqueue.go:548-552 | is the step Cleanup for one queue |
| TaskQueueService.Service.Close | navidrome/plugins/host_taskqueue.go:564-591 | cancels, returns all running rows to pending and closes; a second call changes no row |
| Backoff.RetryBackoff | navidrome/plugins/host_taskqueue.go:470-477 | for every delay and attempt the wrapped 64-bit shift yields a delay between 1 ms and an hour |
| Backoff.RetryBackoffExact | navidrome/plugins/host_taskqueue.go:470-477 | equals the capped exponential if and only if the shift does not wrap to a small number, a test on the delay and the attempt |
| Backoff.WrappedBackoff | navidrome/plugins/host_taskqueue.go:470-477 | what the delay is when the shift wraps: the low bits that are left |
| Backoff.SmallDelaysAreExact | navidrome/plugins/host_taskqueue.go:470-477 | equals the capped exponential for every delay up to 2^43 ms |
| Backoff.LargeDelayWraps | navidrome/plugins/host_taskqueue.go:470-477 | 2^43 + 1 ms is the first delay that fails: its 22nd wait is shorter than its first |
| Backoff.BackoffMonotone | navidrome/plugins/host_taskqueue.go:470-477 | up to that bound, later attempts never wait less |
| PlaylistReorder.ReorderMovesTrack | navidrome/persistence/playlist_track_repository.go:210-248 | for a dense playlist of fewer than 999999 tracks and both positions in range, the four updates take the track out and put it back at the new position |
| PlaylistReorder.ReorderKeepsUnique | navidrome/persistence/playlist_track_repository.go:210-248 | no single row update of the four statements collides in (playlist_id, id), in any visiting order, sentinel included, even out of range |
| PlaylistReorder.ReorderDenseExact | navidrome/persistence/playlist_track_repository.go:210-248 | Reorder does not check its range: positions stay dense if and only if both positions are in range, equal, both below 1, both past the end, or the playlist is empty |
| PlaylistReorder.MoveTrackAtTarget | navidrome/persistence/playlist_track_repository.go:210-248 | which place each track has after the move, and that the opposite move restores it |
| PlaylistTable.CollisionFreeExact | navidrome/persistence/playlist_track_repository.go:210-248 | a position update keeps the unique index at every row in every order if and only if no new position is another row's old or new one |
| PlaylistTable.RepresentsOne | navidrome/persistence/playlist_track_repository.go:191-248 | a table holds at most one list for a playlist |
| PlaylistRenumber.DeletedIsSparse | navidrome/persistence/playlist_track_repository.go:191-198 | after the DELETE the rows left hold exactly the kept tracks, at increasing positions |
| PlaylistRenumber.NegateExact | navidrome/persistence/playlist_repository.go:519-524 | negating the positive positions keeps the unique index, row by row and at the end, if and only if no positive position is held together with its opposite |
| PlaylistRenumber.AssignNeverCollides | navidrome/persistence/playlist_repository.go:525-538 | in every such table, assigning row numbers to the negated positions never meets a row still to be renumbered |
| PlaylistRenumber.RenumberedRepresents | navidrome/persistence/playlist_repository.go:519-541 | renumber gives positions 1..n in the order of the distances from 0, which for positive positions is their order |
| PlaylistRenumber.AnyTableRenumbers | navidrome/persistence/playlist_repository.go:515-541 | every table without opposites becomes dense, whatever numbers its positions were |
| PlaylistLimits.DeleteAfterMoveExact | navidrome/persistence/playlist_track_repository.go:191-248 | after any move in a dense playlist, a deletion can be renumbered if and only if not: the move went to -2..-n and neither that position nor its opposite is deleted |
| PlaylistLimits.NegativeMoveStopsDelete | navidrome/server/nativeapi/playlists.go:179-194 | for one: moving the first of three tracks to -3, which no caller refuses, stops the deletion of the second |
| PlaylistRenumber.KeptTracksIsFilter | navidrome/persistence/playlist_repository.go:483-514 | deleting positions by what they hold is filtering the list |
| PlaylistTracks.Repository.UpdateRow | navidrome/persistence/playlist_track_repository.go:210-248 | one row of an UPDATE fails exactly when its new position is held by another row of the playlist |
| PlaylistTracks.Repository.ExecUpdate | navidrome/persistence/playlist_track_repository.go:210-248 | an UPDATE run row by row, in any order, under the unique index: done whole or without effect, and never refused when collision-free |
| PlaylistTracks.Repository.ExecDelete | navidrome/persistence/playlist_track_repository.go:191-198 | a DELETE removes exactly the rows not kept, and keeps the index |
| PlaylistTracks.Repository.RowNumbers | navidrome/persistence/playlist_repository.go:526-538 | numbers the negated positions from the largest down |
| PlaylistTracks.Repository.Reorder | navidrome/persistence/playlist_track_repository.go:210-248 | on any table and for any positions: if it succeeds the table is the one the four updates make; it succeeds whenever none of them can meet the index; other playlists are as they were |
| PlaylistTracks.Repository.Renumber | navidrome/persistence/playlist_repository.go:519-541 | on any table: succeeds if and only if no position is held with its opposite; then the rows are numbered anew, otherwise they are as they were |
| PlaylistTracks.Repository.Delete | navidrome/persistence/playlist_track_repository.go:191-198 | on any table: drops the rows at the given positions and renumbers, if and only if no opposites are left |
| PlaylistTracks.Repository.DeleteAll | navidrome/persistence/playlist_track_repository.go:200-207 | empties the playlist, whatever it was, and leaves the others alone |
| PlaylistTracks.Repository.MaxPosition | navidrome/persistence/playlist_track_repository.go:150-158 | the greatest position of any table, or 0 |
| PlaylistTracks.Repository.AddTracks | navidrome/persistence/playlist_repository.go:359-376 | inserting in chunks of 200 with a running position inserts the tracks at consecutive positions from the first |
| PlaylistTracks.Repository.InsertChunk | navidrome/persistence/playlist_repository.go:361-373 | one chunk inserted, each row under a fresh key |
| PlaylistTracks.Repository.Add | navidrome/persistence/playlist_track_repository.go:143-159 | on any table, inserts the tracks after the greatest position and returns their number |
| PlaylistTracks.Repository.UpdatePlaylist | navidrome/persistence/playlist_repository.go:348-357 | on any table, removes the rows and inserts the tracks from position 1 |
| PlaylistTracks.Repository.RemoveOrphans | navidrome/persistence/playlist_repository.go:483-514 | on any table, in any order of the playlists: drops the rows without a media file and renumbers what it touched; fails if and only if some affected playlist keeps opposites |
| PlaylistTracks.Repository.RemoveOrphansFrom | navidrome/persistence/playlist_repository.go:496-511 | deleting by media file is deleting by position, then renumbering |
| PlaylistRuns.AppendedRepresents | navidrome/persistence/playlist_repository.go:359-376 | inserting after the last position of a dense playlist appends to its list |
| PlaylistRuns.DeletedRepresents | navidrome/persistence/playlist_track_repository.go:191-198 | deleting from a dense playlist never fails, drops the tracks from its list and leaves the other playlists alone |
| PlaylistRuns.MovedRepresents | navidrome/persistence/playlist_track_repository.go:210-248 | a move in range meets the index nowhere and moves the track in the list |
| PlaylistRuns.DroppedRepresents | navidrome/persistence/playlist_repository.go:483-514 | removing orphans filters the list by the existing media files |
| PlaylistRuns.Perform | navidrome/core/playlists/playlists.go:273-290 | one edit with its rollback: the index holds, and on a dense table an applicable edit succeeds and does to every list what it says |
| PlaylistRuns.Replay | navidrome/persistence/playlist_track_repository.go:143-248 | any run of any edits keeps the unique index; from a dense table, a run of applicable edits never fails and every playlist equals the list operations |
| PluginSafety.RunAgrees | navidrome/plugins/manager.go:325-548 | over any run of enable, disable, settings, sync, file event and deletions, with files changing in between, a plugin is in memory if and only if its row is enabled, and every row's manifest is that of its hash |
| PluginSafety.GatesHoldExact | navidrome/plugins/manager.go:325-626 | one operation keeps the permission gates of all loaded plugins if and only if it does not delete the last needed user or library of a plugin whose running package needs it and whose row's manifest does not |
| PluginSafety.RunKeepsGatesExact | navidrome/plugins/manager.go:325-684 | over any run whatsoever, the gates hold throughout if and only if no such deletion happens |
| PluginSafety.DeleteUserExact | navidrome/core/user.go:63-76 | which deletions of a user escape the gates, for the whole table |
| PluginSafety.DeleteLibraryExact | navidrome/core/library.go:242-284 | the same for a library |
| PluginSafety.RunGated | navidrome/plugins/manager.go:630-684 | over any run that loads only packages whose hash is in the table, every loaded plugin also runs its row's manifest |
| PluginSafety.AgreeStep | navidrome/plugins/manager.go:325-626 | every operation keeps memory and table in agreement |
| PluginSafety.GatedStep | navidrome/plugins/manager.go:325-684 | every such operation keeps that |
| PluginSafety.StartEstablishes | navidrome/plugins/manager_loader.go:175-241 | after the sync and loads of a start memory and table agree, whatever the folder and the table contain, and the gates hold if and only if every row that gets loaded meets them: a start does not check |
| PluginSafety.LoadedAtStart | navidrome/plugins/manager_loader.go:175-241 | which rows a start loads |
| PluginSafety.UserCleanupExact | navidrome/persistence/plugin_cleanup.go:10-47 | for one row: deleting a user leaves a needy plugin without users running exactly when the stored manifest does not say that it needs them |
| PluginSafety.LibraryCleanupExact | navidrome/persistence/plugin_cleanup.go:52-86 | the same for libraries |
| PluginSafety.EnablingUnknownPackageEscapes | navidrome/plugins/manager.go:325-369 | the condition on loading is needed: a package replaced on disk and enabled before the next sync ends up past its gate |
| PluginSafety.SyncKeepsExactly | navidrome/plugins/manager_sync.go:120-231 | a name has a row after a sync exactly when its file can be hashed and the name is known or the manifest extracts; a known file that cannot be hashed loses its row |
| PluginSafety.SyncTouchesOnlyChanged | navidrome/plugins/manager_sync.go:161-221 | unchanged hashes keep row and loaded state, all others end disabled and unloaded, and settings survive |
| PluginSafety.SyncIsIdempotent | navidrome/plugins/manager_sync.go:120-231 | a second sync changes nothing |
| PluginSafety.FileEventIsSyncOfOne | navidrome/plugins/manager_watcher.go:138-217 | an event for a readable file does to its name what a sync does, and nothing to others |
| PluginEffects.EnableExact | navidrome/plugins/manager.go:342-368 | a disabled plugin that is granted what its readable package asks for ends enabled and running that package if it can be loaded, and with an error otherwise |
| PluginEffects.EnableNeedsGrants | navidrome/plugins/manager.go:338-345 | without the grants, or if it is enabled already, nothing changes |
| PluginEffects.EnableNeedsPackage | navidrome/plugins/manager.go:325-345 | without a row or a readable package nothing changes |
| PluginEffects.EnableTouchesOne | navidrome/plugins/manager.go:325-369 | and no other plugin is touched |
| PluginEffects.DisableExact | navidrome/plugins/manager.go:373-405 | only the enabled flag changes, and an enabled plugin goes from memory |
| PluginEffects.SettingsExact | navidrome/plugins/manager.go:434-461 | which columns each of the three settings replaces |
| PluginEffects.UpdateExact | navidrome/plugins/manager.go:478-548 | new settings are always stored; a running plugin goes on with its package if it is granted and can be loaded, and is disabled and unloaded otherwise |
| PluginEffects.UpdateNeedsPackage | navidrome/plugins/manager.go:478-548 | an enabled plugin whose package cannot be read is disabled with an error |
| PluginEffects.UpdateNeedsRow | navidrome/plugins/manager.go:485-489 | without a row nothing changes |
| PluginEffects.UpdateTouchesOne | navidrome/plugins/manager.go:478-548 | and no other plugin is touched |
| PluginEffects.DiscoveredRow | navidrome/plugins/manager_sync.go:56-74 | every column of a discovered plugin: its package, disabled, granted nothing |
| PluginEffects.ChangedRow | navidrome/plugins/manager_sync.go:77-97 | a changed package: path, manifest and hash are new, every setting is kept, disabled and unloaded |
| PluginEffects.BrokenRow | navidrome/plugins/manager_sync.go:186-206 | a changed package that cannot be read: only the error and the disabling |
| PluginEffects.FileGone | navidrome/plugins/manager_watcher.go:156-217 | an event for a file that is gone removes its row; for one that cannot be hashed, nothing changes |
| PluginEffects.SyncUnloadsExact | navidrome/plugins/manager_sync.go:100-228 | what a sync leaves in memory: all but enabled plugins whose file changed, cannot be hashed or is gone |
| PluginEffects.FileEventUnloadsExact | navidrome/plugins/manager_watcher.go:138-217 | and an event: all but the plugin of its name, if it is enabled and its file changed or is gone |
| PluginEffects.RemoveKeepsOthers | navidrome/persistence/plugin_cleanup.go:14-26 | dropping somebody from a list keeps everybody else, as often as they were there and in their order |
| PluginEffects.UserDeletion | navidrome/persistence/plugin_cleanup.go:10-47 | exactly that user goes from every list, and exactly the enabled plugins whose row needs users and lists nobody else are disabled and unloaded |
| PluginEffects.LibraryDeletion | navidrome/persistence/plugin_cleanup.go:52-86 | the same for libraries |
| PluginEffects.UsersGoOn | navidrome/persistence/plugin_cleanup.go:10-47 | a running plugin that lists another user goes on running with that user |
| PluginEffects.LibrariesGoOn | navidrome/persistence/plugin_cleanup.go:52-86 | the same for libraries |
| PluginEffects.DeletionNeedsLists | navidrome/persistence/plugin_cleanup.go:14-31 | if some list is not JSON no row changes |
| PluginEffects.LoadExact | navidrome/plugins/manager_loader.go:190-222 | at a start an enabled plugin that can be loaded runs its package without an error, any other enabled one is disabled |
| PluginEffects.ErrorsAreCleared | navidrome/plugins/manager.go:106-177 | a start forgets the errors and nothing else |
| PluginManager.Manager.CheckPermissionGates | navidrome/plugins/manager.go:630-684 | allows exactly the rows whose package can be read and whose users and libraries satisfy it |
| PluginManager.Manager.EnablePlugin | navidrome/plugins/manager.go:325-369 | is the operation Enable |
| PluginManager.Manager.DisablePlugin | navidrome/plugins/manager.go:373-405 | is the operation Disable |
| PluginManager.Manager.UpdatePluginSettings | navidrome/plugins/manager.go:478-548 | is the operation Update: stores, then disables or loads again |
| PluginManager.Manager.Reload | navidrome/plugins/manager.go:519-545 | the enabled plugin runs the package just read, or is disabled with the error |
| PluginManager.Manager.UnloadPlugin | navidrome/plugins/manager.go:552-582 | the plugin is out of memory; tells whether it was in |
| PluginManager.Manager.UnloadDisabledPlugins | navidrome/plugins/manager.go:588-626 | unloads exactly the loaded plugins whose rows are disabled |
| PluginManager.Manager.LoadPluginWithConfig | navidrome/plugins/manager_loader.go:245-394 | registers the package read from the file, or nothing on any error |
| PluginManager.Manager.LoadEnabledPlugins | navidrome/plugins/manager_loader.go:175-241 | loads every enabled plugin or disables it with its error, in any order, panics apart |
| PluginManager.Manager.SyncPlugins | navidrome/plugins/manager_sync.go:120-231 | is the operation Sync, whatever order the maps are walked in |
| PluginManager.Manager.SyncFile | navidrome/plugins/manager_sync.go:161-221 | one name: row and loaded state as the sync says, or nothing if its file cannot be hashed |
| PluginManager.Manager.AddPluginToDB | navidrome/plugins/manager_sync.go:56-74 | a new row is disabled and has no settings |
| PluginManager.Manager.UpdatePluginInDB | navidrome/plugins/manager_sync.go:77-97 | a changed row is disabled, and unloaded if it was enabled |
| PluginManager.Manager.RemovePluginFromDB | navidrome/plugins/manager_sync.go:100-116 | a removed row is unloaded if it was enabled |
| PluginManager.Manager.SyncFolder | navidrome/plugins/manager_sync.go:161-221 | settles every name that can be hashed, leaves all others, returns the rows not met |
| PluginManager.Manager.RemoveMissing | navidrome/plugins/manager_sync.go:223-228 | removes and unloads the rows not met |
| PluginManager.Manager.ProcessPluginEvent | navidrome/plugins/manager_watcher.go:138-217 | is the operation FileEvent |
| PluginManager.Manager.CleanupPluginUserReferences | navidrome/persistence/plugin_cleanup.go:10-47 | the two updates together: the user is dropped everywhere, then rows left without a needed user are disabled; nothing if some row is not JSON |
| PluginManager.Manager.CleanupPluginLibraryReferences | navidrome/persistence/plugin_cleanup.go:52-86 | the same for libraries |
| PluginManager.Manager.DeleteUser | navidrome/core/user.go:63-76 | cleanup followed by the unload is the operation DeleteUser; every running plugin that lists another user goes on running, with that user |
| PluginManager.Manager.DeleteLibrary | navidrome/core/library.go:242-284 | cleanup followed by the unload is the operation DeleteLibrary; every running plugin that lists another library goes on running, with it |
| PluginManager.Manager.Start | navidrome/plugins/manager.go:106-177 | is the sync followed by the loads, with errors cleared; establishes agreement, and the gates exactly when the rows it loads meet them |
| MissingTracksSafety.PairsAreOneToOne | navidrome/scanner/phase_2_missing_tracks.go:115-181 | each missing and each matched track is in at most one pair, and only tracks of the group are paired |
| MissingTracksSafety.ExactMatchesComeFirst | navidrome/scanner/phase_2_missing_tracks.go:126-180 | a pair is exact whenever its missing track still had an unused exact match; otherwise it is equivalent or the only pair |
| MissingTracksSafety.NothingLeftToPair | navidrome/scanner/phase_2_missing_tracks.go:115-181 | no leftover missing and leftover matched track would have matched |
| MissingTracksSafety.BaseNameExact | navidrome/utils/files.go:19-22 | the base name of a file, in any folder or none, is what stands before the last dot of its name |
| MissingTracksSafety.BaseNameWithoutDot | navidrome/utils/files.go:19-22 | or the whole name if it has no dot |
| MissingTracksSafety.TrailingSlash | navidrome/utils/files.go:19-22 | a slash at the end of a path makes no difference |
| MissingTracksSafety.SameNameIsEquivalent | navidrome/model/mediafile.go:173-176 | tracks that differ in folder and extension only are equivalent |
| MissingTracksSafety.MoveExact | navidrome/scanner/phase_2_missing_tracks.go:275-297 | what a move writes into any table, fresh or stale: the columns of the target under the missing id, with the times of the row there, or with those that were read if it has gone |
| MissingTracksSafety.MoveConserves | navidrome/scanner/phase_2_missing_tracks.go:275-297 | one move: the missing id survives at the target's place with its own created_at and birth time, the target's row is gone, live places are the same |
| MissingTracksSafety.MovesConserve | navidrome/scanner/phase_2_missing_tracks.go:275-297 | however many moves: live places are the same and unique, rows drop by one for each |
| MissingTracksSafety.MovesTransplant | navidrome/scanner/phase_2_missing_tracks.go:275-297 | every pair ends transplanted, not just the last |
| MissingTracksSafety.MovingAgainIsHarmless | navidrome/scanner/phase_2_missing_tracks.go:115-191 | processing a stale copy of a group again leaves the table as it is |
| MissingTracksSafety.GroupsCover | navidrome/scanner/phase_2_missing_tracks.go:61-97 | every missing row with a persistent id is in the group of that id |
| MissingTracksSafety.GroupByGroup | navidrome/scanner/phase_2_missing_tracks.go:108-191 | groups processed one after the other make all their pairs' moves in order |
| MissingTracksSafety.PhaseConserves | navidrome/scanner/phase_2_missing_tracks.go:57-191 | over all groups of one read, stopped at any failing move: places kept, each move effective, rows outside untouched, one row less for each |
| MissingTracks.Phase.MoveMatched | navidrome/scanner/phase_2_missing_tracks.go:275-297 | one transaction: fails whole or writes the target under the missing id and deletes the target |
| MissingTracks.Phase.FindTarget | navidrome/scanner/phase_2_missing_tracks.go:122-180 | one scan finds the first unused equal track, else the only pair, else the last unused equivalent |
| MissingTracksSafety.ChooseExact | navidrome/scanner/phase_2_missing_tracks.go:126-180 | the target is at the first place of an unused equal track, else the only pair, else at the last place of an unused equivalent one; none if there is no such place |
| MissingTracks.Phase.ProcessMissingTracks | navidrome/scanner/phase_2_missing_tracks.go:115-191 | makes the pairing's moves up to the first failure, counts them, and passes the group on exactly when there is no pair |
| MissingTracks.Phase.Produce | navidrome/scanner/phase_2_missing_tracks.go:61-97 | cutting the sorted cursor gives exactly the selections of each persistent id that has missing rows |
| KVStore.CleanupIsUnobservable | navidrome/plugins/host_kvstore.go:351-360 | over any run with a clock that does not go back, removing all clean-ups changes no reply of any other operation, deleted counts apart |
| KVStore.DeletedCountExact | navidrome/plugins/host_kvstore.go:272-291 | the exception: a clean-up leaves the count of DeleteByPrefix alone if and only if no matching row has expired |
| KVStore.DeletedCountIsObservable | navidrome/plugins/host_kvstore.go:272-291 | a row for which it does not |
| KVStore.QuotaHolds | navidrome/plugins/host_kvstore.go:103-174 | over any run in which no replaced value expires inside a Set, the live size stays within the quota then and at every later time |
| KVStore.QuotaHoldsFromEmpty | navidrome/plugins/host_kvstore.go:103-174 | in particular from an empty store with one clock reading per Set |
| KVStore.SetKeepsQuota | navidrome/plugins/host_kvstore.go:131-174 | an accepted Set keeps the quota: growing, shrinking past the check, over live or expired values |
| KVStore.QuotaExact | navidrome/plugins/host_kvstore.go:139-174 | with separate clock readings, all accepted Sets keep the quota if and only if the value replaced does not expire between the first two |
| KVStore.OvershootIsBounded | navidrome/plugins/host_kvstore.go:139-174 | and then the overshoot is at most the size of that value |
| KVStoreReads.LastWriteIsRead | navidrome/plugins/host_kvstore.go:131-202 | after any later operations that leave the key alone, clean-ups included, its last accepted write is read back until it expires |
| KVStoreReads.DeletionIsRead | navidrome/plugins/host_kvstore.go:205-291 | and after its deletion, by key or by prefix, nothing |
| KVStoreReads.WriteThenRead | navidrome/plugins/host_kvstore.go:156-202 | one write: the key reads as the value while the ttl lasts, every other key as before |
| KVStoreReads.ReadersAgree | navidrome/plugins/host_kvstore.go:190-333 | Has, List and GetMany tell of each key what Get tells |
| KVStoreReads.RefusedExact | navidrome/plugins/host_kvstore.go:131-187 | why a write is refused: ttl, key, or growth beyond what is left |
| KVStoreReads.PrefixDeletionCounts | navidrome/plugins/host_kvstore.go:272-291 | needs a prefix, and returns how many rows went |
| KVStoreReads.RunsStaySized | navidrome/plugins/host_kvstore.go:156-167 | over every run the recorded sizes are the lengths of the values |
| KVStoreReads.UsedByKey | navidrome/plugins/host_kvstore.go:103-110 | so the live size adds up the bytes that can be read, key by key |
| KVStoreReads.ObservedExact | navidrome/plugins/host_kvstore.go:351-360 | what is observed of a run: every reply, in order |
| KVStoreService.Service.StorageUsed | navidrome/plugins/host_kvstore.go:103-110 | adds up the sizes of the live rows |
| KVStoreService.Service.CheckStorageLimit | navidrome/plugins/host_kvstore.go:113-127 | accepts exactly changes that shrink or fit |
| KVStoreService.Service.SetValue | navidrome/plugins/host_kvstore.go:131-174 | refuses bad keys and oversized growth, else upserts: the key reads as the value, for good or until its ttl has passed, and every other key as before |
| KVStoreService.Service.Set | navidrome/plugins/host_kvstore.go:177-179 | never expires |
| KVStoreService.Service.SetWithTTL | navidrome/plugins/host_kvstore.go:182-187 | refuses a ttl below 1 |
| KVStoreService.Service.Get | navidrome/plugins/host_kvstore.go:190-202 | the live value, if any |
| KVStoreService.Service.Has | navidrome/plugins/host_kvstore.go:216-224 | whether Get finds it |
| KVStoreService.Service.List | navidrome/plugins/host_kvstore.go:227-259 | the live keys the prefix matches, each once, in ascending order |
| KVStoreService.OneListing | navidrome/plugins/host_kvstore.go:227-259 | which is one list only |
| KVStoreService.Service.Delete | navidrome/plugins/host_kvstore.go:205-213 | removes the row |
| KVStoreService.Service.DeleteByPrefix | navidrome/plugins/host_kvstore.go:272-291 | deletes and counts the matching rows, live or expired |
| KVStoreService.Service.GetMany | navidrome/plugins/host_kvstore.go:294-333 | batches of 200, each with its own clock reading: a key is in the result exactly when an occurrence is live when its batch is read |
| KVStoreService.Service.BatchesAreInvisible | navidrome/plugins/host_kvstore.go:294-333 | with one clock reading the result is pointwise Get |
| KVStoreService.Service.CleanupExpired | navidrome/plugins/host_kvstore.go:351-360 | removes exactly the expired rows |
| KVStoreService.Service.Close | navidrome/plugins/host_kvstore.go:364-373 | ends with a clean-up |
| Pagination.OptimizedPageIsTheSame | navidrome/persistence/sql_base_repository.go:331-376 | rowid NOT IN (first offset rowids) returns the page of LIMIT/OFFSET for every threshold, limit and offset, under a total order |
| Pagination.RepositoryPageIsTheSame | navidrome/persistence/sql_base_repository.go:95-117 | also for the queries repositories build from options with filters and natural order |
| Pagination.UniqueColumnIsTotal | navidrome/persistence/sql_base_repository.go:331-376 | the order is total as soon as one sort column never ties |
| Pagination.TwoPhasesExact | navidrome/persistence/sql_search_fts.go:275-322 | phase 2 returns every page of the single filtered and ranked query if and only if it refuses no row ranked before one it accepts |
| Pagination.HydrationFilters | navidrome/persistence/sql_search_fts.go:311-322 | in general phase 2 returns the page without the rows its conditions refuse, in the page's order |
| Pagination.HydrationSelects | navidrome/persistence/sql_search_fts.go:311-322 | with an order of its own, phase 2 still returns those rows |
| Pagination.SearchReturnsTheSinglePage | navidrome/persistence/sql_search_fts.go:275-322 | since both phases carry the same filters, a search returns exactly the ranked page |
| QueryAnswers.SearchAnswers | navidrome/persistence/sql_search_fts.go:275-322 | a search returns the rows that match, are present, in the library and pass the filter, sorted by the ranking column by column, cut to max rows from the offset |
| QueryAnswers.RepositoryAnswers | navidrome/persistence/sql_base_repository.go:95-117 | a repository query returns the rows that pass the filter, sorted as asked and then naturally, cut to the page, whichever way it skips |
| Ordering.SortWithoutFirst | navidrome/persistence/sql_base_repository.go:367-376 | sorting what the first page leaves is the rest of the sorting |
| Ordering.FilterCommutes | navidrome/persistence/sql_search_fts.go:275-322 | filtering and sorting commute |
| LyricsParser.ToLyrics | navidrome/model/lyrics.go:42-181 | plain text gives its trimmed lines; synchronised text the blocks of its stamped lines, in order, or a sorted permutation if some line has several stamps; an unreadable stamp is an error; tags as the last of their name |
| LyricsParser.ParseSynced | navidrome/model/lyrics.go:52-163 | the loop over lines, with its pending stamps and text, emits exactly the blocks: each leading stamp once, with its line's text and the unstamped lines after it |
| LyricsParser.ParsePlain | navidrome/model/lyrics.go:146-152 | each non-blank line trimmed, without a start |
| LyricsLines.PlainLine | navidrome/model/lyrics.go:146-152 | what one line of a plain text gives: itself, trimmed, or nothing if it is blank |
| LyricsLines.PlainAdds | navidrome/model/lyrics.go:57-153 | and the lines give one after the other |
| LyricsParser.ReadLine | navidrome/model/lyrics.go:59-137 | what one line is: blank, tag, unstamped, stamped or unreadable |
| LyricsParser.Flush | navidrome/model/lyrics.go:107-115 | the pending line once for each of its stamps |
| LyricsParser.ReadStamps | navidrome/model/lyrics.go:117-137 | the stamps accepted are those with only white space before and between them |
| LyricsParser.OneLinePerStamp | navidrome/model/lyrics.go:107-162 | as many lines as accepted stamps, with their starts in order |
| LyricsLines.RepeatedExact | navidrome/model/lyrics.go:93-96 | the lines get sorted exactly when one of them, not a tag, has two stamps or more |
| LyricsParser.EveryStartIsSet | navidrome/model/lyrics.go:166-170 | whenever the sort runs every line has a start |
| LyricsParser.LastTagsCount | navidrome/model/lyrics.go:70-91 | the header holds the last tag of each name, and the last offset that is a number |
| LyricsText.FindSyncedExact | navidrome/model/lyrics.go:29-36 | a text is synchronised exactly when some line starts with a stamp after white space |
| LyricsRoundTrip.StampReadExact | navidrome/model/lyrics.go:29-34 | a printed stamp is read back if and only if it has a fraction or no digits and bracket follow it, because any character can separate a fraction |
| LyricsRoundTrip.ShortStampReadExact | navidrome/model/lyrics.go:29-34 | the same without hours |
| LyricsRoundTrip.TimeRoundTrip | navidrome/model/lyrics.go:183-227 | parsing inverts printing for one, two or three fraction digits |
| LyricsRoundTrip.ParserInvertsPrinter | navidrome/model/lyrics.go:42-181 | printed lyrics, with texts of one line or several, are synchronised and parse to the very lyrics, in order |
| LyricsRoundTrip.TextOfLines | navidrome/model/lyrics.go:45 | cutting a text at its line feeds loses nothing |
| LyricsPatterns.MatchTimeExact | navidrome/model/lyrics.go:29 | the stamp found at a position is one the pattern matches there, the one a greedy matcher prefers, and found whenever there is any |
| LyricsPatterns.AllTimesExact | navidrome/model/lyrics.go:95 | the stamps of a line are the leftmost that do not overlap |
| LyricsPatterns.LeadingExact | navidrome/model/lyrics.go:117-137 | the leading stamps are those with only white space before them, up to the first that is not one |
| LyricsPatterns.FoundTagIsFirst | navidrome/model/lyrics.go:35 | the tag found is one the pattern matches, and no tag starts before it |
| LyricsPatterns.NoTagFound | navidrome/model/lyrics.go:35 | and if none is found there is none |
| LyricsPatterns.ParseTimeExact | navidrome/model/lyrics.go:183-227 | the value of every stamp, with or without hours and fraction |
| LyricsPatterns.ParseIntExact | navidrome/model/lyrics.go:79 | an optional sign and digits, if 64 bits hold it |
| LyricsPatterns.ParseIntNeedsDigits | navidrome/model/lyrics.go:79 | nothing else is a number |
| LyricsPatterns.ParseAllExact | navidrome/model/lyrics.go:129-135 | the times of the leading stamps, if every one can be read |
| LyricsPatterns.DigitsAtExact | navidrome/model/lyrics.go:29 | what a run of digits is |
| LyricsPatterns.TrimExact | navidrome/model/lyrics.go:59 | trimming cuts off the white space at both ends and nothing else |
| LyricsErrors.ParsingFailsExact | navidrome/model/lyrics.go:42-181 | parsing fails if and only if the text is synchronised and one of its lines, not a tag, has an accepted leading stamp whose separator is not ASCII |
| LyricsErrors.ParseTimeFailsExact | navidrome/model/lyrics.go:183-227 | a stamp the pattern matched cannot be read if and only if its separator takes more than one byte: the fraction is cut by bytes |
| LyricsErrors.LineFailsExact | navidrome/model/lyrics.go:59-137 | the same for one line |
| LyricsErrors.WideStampFails | navidrome/model/lyrics.go:183-227 | every text that is one stamp with such a separator fails |
| LyricsErrors.IdeographicStopFails | navidrome/model/lyrics.go:183-227 | for one: an ideographic full stop before the fraction |
| AlbumSummary.AlbumIgnoresOrder | navidrome/model/mediafile.go:243-327 | for distinct paths the album is the same for every order of the tracks |
| AlbumSummary.MinYearExact | navidrome/model/mediafile.go:340-351 | the least positive year, or 0, if and only if the first known year is not negative; otherwise that year |
| AlbumSummary.CoverExact | navidrome/model/mediafile.go:390-408 | the smallest path on the lowest disc with art, or the last path without numbered discs, if and only if the fold is not stuck on a negative disc |
| AlbumSummary.EarliestExact | navidrome/model/mediafile.go:360-368 | the birth time is the earliest known one, if and only if none is known or a track after the last unknown one has it |
| AlbumSummary.OldestSinceGap | navidrome/model/mediafile.go:360-368 | what it is otherwise: the oldest since the last track without one, as an unknown time makes the fold forget |
| AlbumSummary.NoGap | navidrome/model/mediafile.go:360-368 | all tracks count when every birth time is known |
| AlbumSummary.NewestExact | navidrome/model/mediafile.go:353-358 | the latest update time of any track |
| AlbumSummary.StatusExact | navidrome/model/mediafile.go:302-306 | explicit if any track is, unset only if all are |
| AlbumSummary.DiscsExact | navidrome/model/mediafile.go:293-295 | every positive disc number with the subtitle of its last track, and disc 1 |
| AlbumSummary.AllOrNothingExact | navidrome/model/mediafile.go:329-338 | the value all tracks share, or nothing |
| AlbumColumns.TotalsExact | navidrome/model/mediafile.go:243-327 | which total each column holds |
| AlbumColumns.SizeAdds | navidrome/model/mediafile.go:284 | the size adds up the sizes of the tracks |
| AlbumColumns.FlagsExact | navidrome/model/mediafile.go:262-310 | a compilation if some track is of one, missing if all are |
| AlbumColumns.MaxYearsExact | navidrome/model/mediafile.go:319-320 | the latest year and the latest original year of a track |
| AlbumColumns.MinYearsExact | navidrome/model/mediafile.go:319-320 | the least known year of each column, unless the first known one is negative: then that |
| AlbumColumns.SharedExact | navidrome/model/mediafile.go:316-321 | the three dates and the comment are what all tracks share in that column |
| AlbumColumns.FoldersExact | navidrome/model/mediafile.go:315 | the folders of the tracks, each once |
| AlbumColumns.FoldersKeepOrder | navidrome/model/mediafile.go:315 | in the order of their first tracks |
| AlbumColumns.EmptyAlbum | navidrome/model/mediafile.go:244-246 | no tracks make an album of nothing |
| AlbumBuilder.UniqueStrings | navidrome/utils/slice/slice.go:93-103 | the loop keeps each string at its first place |
| AlbumSummary.MinMax | navidrome/model/mediafile.go:340-351 | the loop computes the minimum fold and the maximum |
| AlbumSummary.MaxYear | navidrome/model/mediafile.go:340-351 | the greatest year |
| AlbumBuilder.SortInPlace | navidrome/model/mediafile.go:250 | sorts the array by path, in place |
| AlbumBuilder.ToAlbum | navidrome/model/mediafile.go:243-327 | sorts the tracks in place and sums them up in one pass |
| ArtworkId.RoundTripExact | navidrome/model/artwork_id.go:44-88 | an artwork id parses back to kind, id and time if and only if the id is not empty and has no underscore; otherwise parsing fails |
| ArtworkId.DiscRoundTripExact | navidrome/model/artwork_id.go:98-112 | a disc id parses back if and only if the album id has no colon; otherwise parsing fails |
| ArtworkId.NestedRoundTripExact | navidrome/model/artwork_id.go:44-112 | through both layers, if and only if the album id has neither |
| ArtworkId.FormsExact | navidrome/model/artwork_id.go:44-88 | the forms of an id without underscore: bare, with 0, or with its time in hexadecimal |
| ArtworkId.PrintedForm | navidrome/model/artwork_id.go:44-53 | how an id is printed, kind by kind |
| ArtworkId.ParseNeedsPrefix | navidrome/model/artwork_id.go:65-75 | whatever parses starts with the text of its kind and a dash |
| ArtworkId.DiscFormExact | navidrome/model/artwork_id.go:98-112 | an album id without colon, a colon, and a decimal number |
| ArtworkId.ParseIntExact | navidrome/model/artwork_id.go:78-106 | an optional sign and digits, if 64 bits hold it |
| ArtworkId.HexWitness | navidrome/model/artwork_id.go:78-81 | digits count by their places, and letters alike in both cases |
| ArtworkId.IntRoundTrip | navidrome/model/artwork_id.go:49-81 | printing and parsing of 64-bit numbers in any base up to 16 |

## Left out

Deliberately weaker than a reader might expect:

- TaskQueueService.Service.DrainQueue: assumes that only a shutdown comes between the statements of one worker; what holds under every interleaving is stated by TaskQueueRuns.DequeuesAreBounded.
- TaskQueueService.Service.ProcessTask: likewise for one pass of one worker.
- PlaylistRuns.Replay: gives list semantics to moves that are in range, in playlists of fewer than 999999 tracks, because positions further on reach the sentinel; any other run keeps the unique index, and PlaylistReorder.ReorderDenseExact and PlaylistLimits.DeleteAfterMoveExact say what a move out of range does.
- PlaylistTracks.Repository.MaxPosition: positions are unbounded integers; the source reads the maximum into 32 bits and adds 1 there, which matters only after a move to a position that large.
- PluginSafety.RunGated: takes only runs in which enabling and settings updates load packages whose hash is in the table; for all other runs PluginSafety.RunKeepsGatesExact says when the gates hold.
- PluginManager.Manager.LoadEnabledPlugins: a load that panics is recovered, and leaves its row enabled and the plugin out of memory, which is not modelled: the agreement established at a start depends on no load panicking.
- KVStore.QuotaHolds: takes only runs in which no replaced value expires between two clock readings of one Set; KVStore.QuotaExact shows why.
- QueryAnswers.SearchAnswers: takes rankings in which no two of the rows searched for tie in every column; SQLite orders ties as it likes. So does QueryAnswers.RepositoryAnswers.
- AlbumSummary.CoverExact: takes distinct, non-empty paths.
- MissingTracksSafety.PhaseConserves: takes the rows of one read of the table, as the cursor of one library delivers them; rows that another library's groups change meanwhile are covered only by MissingTracksSafety.MovingAgainIsHarmless.
- MissingTracks.Phase.MoveMatched: the copying of album annotations and of an album's created_at that goes with a move is not modelled.
- LyricsRoundTrip.ParserInvertsPrinter: prints times below 100 hours and trimmed texts without opening brackets, which could start a stamp or a tag.
- LyricsParser.ParseSynced: runs over lines already classified by ReadLines, where the source classifies each line in the same loop.

Not modelled:

- Task queue: the rate limiter, real time, wake-up signals, the queues table, the notification of workers, the callback's input and output. Lost writes, crashes and workers that outlive Close are steps of the model.
- Playlists: counters, duration and size, smart playlists, permissions; of transactions, only the rollback of a deletion or move that fails.
- Plugins: compilation and instances of WASM modules (a load succeeds or fails), parsing of the configuration, panics during a load, Stop, concurrent operations, failing table writes, timestamps. A package's contents are known by its SHA-256. A plugin that stays loaded keeps the user list it was loaded with.
- Scanner: processCrossLibraryMoves, whose matching is not injective; album annotations and their bookkeeping; purging. What MediaFile.Hash digests is one field.
- Key/value store: which keys LIKE matches (a parameter), dates beyond SQLite's range, a nil value, 64-bit overflow of sums, failing statements, concurrent calls.
- Queries: SQL text, joins that multiply rows, ties in the order. An offset without a limit is read as unlimited.
- Lyrics: SanitizeText (the text is taken as sanitised, and the same function is a parameter for tag values); invalid UTF-8.
- Albums: durations, tags, participants, MusicBrainz ids and the columns assumed equal for all tracks.
- FTS query rewriting, annotations, schedules, the library cache, HTTP, the user interface and StrmDrome.

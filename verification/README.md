# webui-hub: a verified model of the hub's state machines

The hub manages a fleet of *spokes*. It queues commands for them, hands these out by inbox polls and by
WebSocket pushes, keeps every spoke's configuration version in step with what the tenant wants, edits
simulation overrides in `.conf` texts, watches monitored items and client counts, and drives re-seed and
update jobs. This project models that logic in Dafny and proves what each part keeps, over every input and
every run. Methods with loops and classes with fields stand where the Python code loops and assigns; each is
proved equal to a function on values, and the theorems are about those functions.

`dafny verify dfyconfig.toml` checks everything.

| file | models |
|---|---|
| `Prelude.dfy` | option values, maximum |
| `CommandQueue.dfy`, `QueueRuns.dfy`, `Handouts.dfy`, `FailedSends.dfy` | the command queue of one spoke, every interleaving of its functions with split WebSocket pushes, and how often a command is handed out |
| `Relay.dfy` | the hub's side of one WebSocket: register, unregister, send, push |
| `ConfigSync.dfy`, `ConfigRuns.dfy`, `Convergence.dfy`, `EmptyPayload.dfy` | the configuration protocol: its steps, safety over all runs, convergence, stalls, recovery, tenants without a payload |
| `HubStore.dfy` | the store calls and handlers as methods of a class, proved to be those steps |
| `IniText.dfy`, `IniEditor.dfy`, `EditPlaces.dfy`, `SimOverrides.dfy`, `OverrideLeaks.dfy`, `RewriteTwice.dfy` | the `.conf` editor on lines, line by line, and on texts, the override map that must agree with it, and what names that cannot be written do to it |
| `MonitoredItems.dfy` | miss streaks and throttled alerts |
| `Reseed.dfy`, `UpdateJob.dfy` | re-seed retries, the update-all job |
| `ClientCount.dfy` | the client-count window and its alarm |
| `SpokeFiles.dfy` | configuration rows, per-spoke state files, backup and migration |
| `ClientDedup.dfy` | merging client rows of several spokes |

## How to read the model

- A *run* is a sequence of events; each event is one store call (or one stretch of code between two points
  where an asynchronous function gives up control). Runs are arbitrary sequences, so every interleaving is
  covered. Times are integers supplied with the events; where a clock must not run backwards a lemma says so.
- In `ConfigRuns` an acknowledgement is three events (look up, record, apply), an edit of a spoke's row two
  (read, save), and a direct push three (read, save, enqueue), so anything may happen in between, and a row may
  be held for as long as a connection lasts. A *clean* save writes a row whose applied version is still the
  stored one and does not set the version back; `SaveExactly` shows that the bounds need just that, and
  `UndisturbedSaveKeeps` that an edit's save is so if nothing wrote the row since it was read.
- A *quiet* state (`ConfigRuns.Quiet`) has unique command ids, versions in bounds, and every executed push
  applied. Every clean run with fresh ids and without failed acknowledgements leads to quiet states, so the
  convergence theorem starts from all of them. `RoundExactly` says for every other state when a round ends in sync.
- The digest of the hub-owned configuration is the slice itself, that is, hashing is taken to be injective.
- `IniText` uses Python's own character classes for line ends and white space. The line grammar is exactly
  that of the editor's two regular expressions.

## Where the code does not do what its comments or users expect

- `app/routers/aggregate.py:860` calls `store.get_spokes`, which `app/store.py` does not define. The call
  fails after the tenant has been saved, so an override change reaches spokes only through drift detection,
  and not at all unless the hub manages the spoke's configuration (`Convergence.UnownedChangeNotPushed`).
- `app/store.py:1220` says that a push in flight "will self-correct". It does not after a failed
  acknowledgement: the executed command blocks every new push of that version until it expires
  (`FailingAckStalls`, `ExpiryEndsStall`; after a reset also `LeftoverStallsRecovery`).
- When a tenant's payload becomes empty, the heartbeat that tells the spoke to clear its configuration also
  queues a push of the empty payload right behind (`EmptiedPayload`).
- An edit of a spoke writes back the whole row it has read. An acknowledgement in between is forgotten
  (`StaleSaveForgetsAck`), and the applied version falls below one that was applied.
- Two `config_update` commands can carry the same version: when a direct push saves a version that is already
  in use (`StaleDirectPushExactly`), as after a heartbeat that finds drift between its read and its save
  (`HeartbeatInGapDuplicates`), when an ensure falls between its save and its enqueue
  (`EnsureInGapDuplicates`), or when the pushed configuration has a `config_version` key of its own
  (`CarriedKeyDuplicates`), each with the exact condition. `VersionsPushedOnce` covers all clean runs without these.
- A version reset is overtaken by late acknowledgements unless nothing with a version is under way
  (`RestartSafeExactly`); an administrator's update may then queue nothing (`AdminUpdateMeaning`).
- A tenant without a payload, as by default, never gets a spoke in sync while a command that reads version 1 is
  left over and the pushed hash is stale (`EmptyNeverInSync`). With a current hash one late or repeated
  acknowledgement of a push leaves the applied version above version 0 (`RepeatedAckLeavesAhead`), and until the
  payload changes no round mends that (`AheadForGood`). `EmptyRoundExactly` gives the condition for every round.
- The two delivery paths together are not exactly-once (`HandedOutTwice`, with the exact condition in
  `HandedOutTwiceExactly` and `FailedSends.HandedOutExactly`).
- An override for a host name with a bracket, or a simulation with an invalid key, is shown as active but
  never takes effect in the text (`AgreementNeedsValidNames`). Its lines are written all the same and can take
  effect for another host or another key that is not shown (`BracketHostLeaks`, `InvalidEnableExactly`).
- Editing a text again can change it by blank lines (`RewriteTwiceExactly`, `BlankLinesShrink`).
- Every row of a host name counts as active once an override exists, so a stale row can hide the running one
  (`OverrideHidesRunning`).
- A spoke requested twice for re-seeding gets the same command twice (`DispatchedOnceExactly`); a first send
  recorded after an overtaking report can leave the job status wrong (`OvertakenStartExactly`); the record of a
  send that ends after an error report loses that report's retry (`RetryDispatchesExactly`).
- An update job waits only for spokes that are still listed (`PollDoneExactly`).
- A site that leaves the mapping keeps its window, and keeps being reported, until the hub restarts
  (`ClientCount.ClientCounts.Payload` covers mapped and unmapped sites).
- The start-up backup holds the old rows until the second start (`LossAfterFirstStart`), and an emptied
  `spokes.json` is taken for a lost one (`DeletedComesBack`). One malformed row keeps a tenant unmigrated, and
  then saving any spoke loses the state of the others that is only in their rows (`SaveKeepsAll`).

## Model

| member | source | states |
|---|---|---|
| QueueRuns.Lifecycle | app/store.py:1444-1578 | Over every interleaving of enqueue, inbox poll, split push, acknowledgement, purge and clear: a command's rank (queued, delivered, executed, gone) never drops, ids stay unique, and commands keep their order |
| QueueRuns.NoLiveCommandLost | app/store.py:1493-1578 | A command in the queue now is still there after any run, unless the run cleared the queue or read a time at or past its expiry |
| QueueRuns.InboxOnceInOrder | app/store.py:1493-1504 | All inbox results of a run together contain each command id at most once, in the order of enqueueing |
| QueueRuns.DeliveredWasHandedOut | app/ws.py:220-243 | A delivered command was in an inbox result or in a send that returned true; an executed one was acknowledged |
| QueueRuns.AtLeastOnce | app/ws.py:238-243 | Whatever pushes failed or never ended, after an inbox poll every command neither expired, cleared nor acknowledged has been handed out by one of the two paths |
| QueueRuns.TimesRecorded | app/store.py:1478-1530 | In every run a queued command has no stamps, a delivered one the time of a poll or mark, an executed one the time of an acknowledgement |
| Handouts.HandedOutTwiceExactly | app/ws.py:227-243 | In a run whose sends succeed and have ended a command is handed out more than once over both paths exactly when a poll, or another push's peek, fell between the peek and the mark of a push that held it |
| Handouts.HandedOutTwice | app/ws.py:227-243 | Such a run: any live command is handed out twice when a poll comes between the start and the end of the send that carries it |
| FailedSends.HandedOutExactly | app/ws.py:227-243 | Over every run, whichever sends fail or have not ended: a command is handed out more than once exactly when that overlap occurs in the run that is left when each push without a successful send is reduced to its purge and the removal of its socket |
| FailedSends.SuccessesFollow | app/ws.py:201-243 | The run so reduced goes through the same queues, handouts and sockets, and all its sends succeed |
| Handouts.AtMostOnce | app/ws.py:227-243 | Without such an overlap a command is handed out at most once, whichever sends fail |
| QueueRuns.RunKeeps | app/store.py:1444-1546 | The invariant behind these results holds after every run from every state that has it, and ranks and history only grow |
| QueueRuns.MarkStep | app/store.py:1478-1490 | A mark that comes after an acknowledgement demotes nothing |
| QueueRuns.EnqueueStep | app/store.py:1444-1461 | Enqueueing a fresh command keeps the invariant: order, uniqueness, and nothing live lost to the purge that comes with it |
| QueueRuns.ClearStep | app/store.py:1533-1540 | A clear is on record for every command it removes, so a command missing before its expiry has been cleared |
| QueueRuns.DeliverStep | app/store.py:1493-1504 | An inbox poll appends to the inbox history only commands issued after everything returned before |
| Relay.SpokeChannel.RegisterSpoke | app/ws.py:107-111 | Registering makes the socket the current one and touches nothing else |
| Relay.SpokeChannel.UnregisterSpoke | app/ws.py:114-119 | Only the current socket is removed; the late close of a replaced one leaves its successor |
| Relay.SpokeChannel.SendToSpoke | app/ws.py:201-213 | A send uses the socket registered when it starts, returns true exactly when that send succeeds, and on failure removes that socket only; whatever other tasks do meanwhile is kept |
| Relay.SpokeChannel.PushSpokeCommands | app/ws.py:220-243 | The method is exactly the run peek, send, others' events, end of send, mark-if-sent of the state machine; it returns true exactly when there was a socket and nothing waited or the send succeeded |
| Relay.FailedPushMarksNothing | app/ws.py:238-240 | A failed push leaves the queue other tasks left: nothing is marked or recorded as sent |
| Relay.ForeignLeavesPush | app/ws.py:201-243 | No run of other tasks' events changes what a running push has peeked or which socket it uses |
| CommandQueue.AckMeaning | app/store.py:1520-1530 | With unique ids an acknowledgement executes exactly the command it names, and keeps the old result if it brings none |
| CommandQueue.ActiveMembers | app/store.py:1447-1459 | Dropping expired commands keeps exactly the live ones |
| CommandQueue.ActiveKeepsOrder | app/store.py:1447-1459 | Two commands that are kept stand in the order in which they stood before |
| HubStore.HubStore.PeekQueuedCommands | app/store.py:1468-1475 | Returns the live waiting commands in order and drops the expired ones, changing no status |
| HubStore.HubStore.MarkCommandsDelivered | app/store.py:1478-1490 | The marking loop delivers exactly the still-waiting live commands among the ids; an empty list changes nothing |
| HubStore.HubStore.GetQueuedCommands | app/store.py:1493-1504 | Returns and delivers exactly the live waiting commands; executed and delivered ones stay as they are |
| HubStore.HubStore.GetCommand | app/store.py:757-762 | Finds the first command with the id, expired or not |
| HubStore.HubStore.AckCommand | app/store.py:1520-1530 | Only the first command with the id becomes executed; a missing result keeps the old one; an unknown id changes nothing |
| HubStore.HubStore.PurgeQueue | app/store.py:1559-1577 | One file's turn: the expired commands go, the count says how many |
| HubStore.HubStore.PurgeRows | app/store.py:1560-1577 | The same on stored rows: those with an unreadable expiry go and are counted, too |
| HubStore.HubStore.PurgeExpiredCommands | app/store.py:1549-1578 | Every listed queue loses exactly its expired commands, no other queue changes, and the total is the number removed |
| HubStore.HubStore.GetSpoke | app/store.py:600-605 | Returns the first row with the id |
| HubStore.HubStore.SaveSpoke | app/store.py:733-740 | Afterwards the row with that id is the saved one and all other ids read as before |
| HubStore.HubStore.MarkSpokeConfigApplied | app/store.py:746-754 | The applied version becomes the larger of the two, never smaller; other spokes stay |
| HubStore.HubStore.EnsureConfigUpdateCommand | app/store.py:1154-1186 | The scan-and-append method equals the one-step function the protocol theorems are about; other spokes stay |
| HubStore.HubStore.CheckAndFixConfigDrift | app/store.py:1207-1241 | Returns true exactly on drift, and then sets the version to applied + 1; other spokes stay |
| HubStore.HubStore.EnsureConfigClearCommand | app/store.py:1319-1337 | Appends a clear command unless one is still queued or delivered |
| HubStore.HubStore.GetSpokeInbox | app/routers/spokes.py:389-391 | Ensure then deliver: what is handed out includes a push the same call queued |
| HubStore.HubStore.HandleSpokeAck | app/routers/spokes.py:394-402 | Look-up, acknowledgement and version bookkeeping together, for present and missing commands, success and failure |
| HubStore.HubStore.ApplySpokeTelemetry | app/routers/spokes.py:354-385 | First-configuration restart, reset with clear command, a save of the row the connection holds (stale or not, also for a new name alone), then drift repair of the stored row; the connection goes on holding its changed row without the repair; with the stored row in hand this is the protocol's telemetry step |
| HubStore.HubStore.QueueSpokeConfigPush | app/routers/spokes.py:904-925 | The direct push: stored configuration merged with the body and stripped of credentials, saved with bumped version, then enqueued; false exactly for an unknown spoke |
| HubStore.PushedConfigMeaning | app/routers/spokes.py:909-912 | A pushed configuration holds no credential, else the body's value if it has the key, else the stored one |
| HubStore.HubStore.UpdateSpoke | app/routers/superadmin.py:561-576 | One listed row's turn in the administrator's update, whatever is stored under its id by then |
| HubStore.UpdatedFromMeaning | app/routers/superadmin.py:561-576 | An unapproved row, and an unmanaged one that never had a version, changes nothing; any other is written with its next version, or with none |
| HubStore.HubStore.UpdateSpokes | app/routers/superadmin.py:561-576 | The loop over any listed rows, stale or not: each approved one is bumped and pushed or reset and cleared once, spokes that are not listed stay |
| HubStore.HubStore.UpdateTenantHubConfig | app/routers/superadmin.py:545-578 | With nothing in between, every approved spoke has been bumped and pushed if the configuration is enabled and not empty, else reset and cleared, exactly once, and others not at all |
| ConfigSync.EnsureLeavesPush | app/store.py:1154-1186 | After ensure an approved spoke with a pending version has a queued push of exactly that version; at most one is added; a second ensure adds none |
| ConfigSync.ClearLeavesCommand | app/store.py:1319-1337 | For an approved spoke a clear command is left outstanding, never a second one; spoke and pushes stay; a second call adds nothing |
| ConfigSync.AdminUpdateMeaning | app/routers/superadmin.py:561-576 | A managed approved spoke gets its next version, pending and queued exactly when the applied version was not ahead of the old one; an unmanaged one versions 0 and an outstanding clear command, or nothing if it never had a version; others nothing |
| ConfigSync.EmptiedPayload | app/routers/spokes.py:373-385 | When the payload has become empty the heartbeat resets and clears the spoke, and exactly when the last pushed hash is stale it also starts version 1 with a push of the empty payload |
| ConfigSync.PayloadTelemetry | app/routers/spokes.py:369-385 | With a payload and no first configuration to take over, a telemetry report is its drift check alone |
| ConfigSync.ReportResetsExactly | app/routers/spokes.py:373-379 | With a current hash and no first configuration a report of an approved spoke with a version starts its versions over and leaves a clear command exactly when the tenant exists and gives no key a value, and changes nothing otherwise |
| ConfigSync.HeldRowSaved | app/routers/spokes.py:354-385 | A report writes the row its connection holds over the stored one exactly when it renames the spoke, brings a first configuration or finds the payload empty; configuration and applied version are then the held ones, or restarted |
| ConfigSync.DirectPushSends | app/routers/spokes.py:909-925 | A direct push stores the new configuration under the next version and queues exactly that configuration under that version |
| ConfigSync.AckAppliesExactly | app/routers/spokes.py:394-402 | An acknowledgement of a version above the applied one applies it, with the time, exactly when it has no result, no success key or a true one, and leaves the spoke alone otherwise |
| ConfigSync.QueuedForADay | app/store.py:1173-1181 | A push, a clear and a direct push queued at a time are found by every purge before the same time of the next day and by none after |
| ConfigRuns.NewSpokeStarts | app/data_models.py:119-122 | A spoke without versions and pushes satisfies all invariants the runs start from |
| ConfigRuns.SaveExactly | app/routers/sites.py:125-131 | A save of a held row keeps the bounds and the stored version from falling exactly when nothing was applied since the read and the stored version has not passed the one written; a restart keeps the bounds exactly when nothing queued, in a handler or about to be enqueued carries a higher version |
| ConfigRuns.SaveStores | app/store.py:733-740 | An edit or direct push stores the new configuration under the next version, a first configuration version 1, a reset version 0 with nothing applied, any other save the held row; the holder goes on with what it stored |
| ConfigRuns.BoundedStep | app/store.py:746-754 | Every clean step keeps applied within config_version, applied the largest version applied since the last restart, queued versions within config_version, and, unless it restarts, lets no version fall |
| ConfigRuns.VersionSafety | app/store.py:746-754 | The same over every clean run: rows are read and saved in two steps, acknowledgements handled in three, late, repeated, failed and out of order |
| ConfigRuns.UndisturbedSaveKeeps | app/routers/settings.py:264-275 | When no write of the row falls between its read and its save, the save is clean exactly if it carries no foreign version key and, where it restarts the versions, nothing above the restart is under way |
| ConfigRuns.UndisturbedRunsAreSafe | app/routers/settings.py:256-275 | Over every run in which each save writes a row that is still the stored one, with no ensure in a push's gap, the bounds hold and no version is queued twice |
| ConfigRuns.StaleSaveForgetsAck | app/routers/sites.py:125-131 | An acknowledgement applied between the read and the save of an edit is forgotten: the bounds hold afterwards exactly when its version was no news |
| ConfigRuns.RestartSafeExactly | app/routers/superadmin.py:571-576 | After a reset or first configuration, applied stays within config_version in every clean continuation exactly when nothing queued, in a handler or about to be enqueued carries a higher version; otherwise a late acknowledgement overtakes it |
| ConfigRuns.VersionsPushedOnce | app/store.py:1161-1165 | Over every clean run in which direct pushes save unused versions and no ensure falls between their save and enqueue, no two config_update commands carry the same version |
| ConfigRuns.StaleDirectPushExactly | app/routers/spokes.py:905-924 | A direct push from a held row queues its version a second time exactly when a live command has it already |
| ConfigRuns.HeartbeatInGapDuplicates | app/routers/spokes.py:905-924 | A drift check and ensure between the read and the save of a direct push make it a duplicate exactly when there was drift |
| ConfigRuns.EnsureInGapDuplicates | app/routers/spokes.py:914-924 | With an ensure between save and enqueue of a direct push the version is queued twice exactly when the spoke is approved |
| ConfigRuns.CarriedKeyDuplicates | app/store.py:1162 | A pushed configuration that carries its own config_version key is queued again by the next ensure exactly when the spoke is approved and that key is neither 0 nor the new version |
| ConfigRuns.SuccessfulRunsAreQuiet | app/routers/spokes.py:394-402 | Every clean run with fresh ids, no failed acknowledgements, and no restart while anything with a version is under way leads, between handlers, to states from which convergence is proved |
| Convergence.RoundCatchesUp | app/routers/spokes.py:354-402 | One round (telemetry, inbox poll, successful acknowledgements of everything, in any order, with repeats) of a spoke whose tenant has a payload leaves nothing pending and everything executed |
| Convergence.DriftRoundDelivers | app/store.py:1207-1241 | A round that starts with drift bumps the version once, queues one push with the tenant's current payload, and ends in sync |
| Convergence.ManagedDriftExactly | app/store.py:1189-1235 | From an in-sync spoke, hub-managed before and after a change of its tenant, the check finds drift exactly when the spoke is approved, the tenant exists and some key has got, lost or changed a non-null value |
| Convergence.UsbDriftExactly | app/store.py:1196-1235 | Not hub-managed before and after: exactly when the USB list differs as looked up, absent counting as null |
| Convergence.SwitchDriftExactly | app/store.py:1189-1235 | Management switched on or off: always, unless the USB list is the only value of the managed payload and stays the same |
| Convergence.OwnedChangeDelivered | app/store.py:1154-1241 | One round after such a change, with all acknowledgements successful, the spoke has applied the next version, pushed with the whole new payload |
| Convergence.Converges | app/store.py:1154-1241 | From every quiet state of a spoke whose tenant has a payload two rounds end with config_version = applied_config_version and the pushed hash equal to the current one |
| Convergence.RoundStaysInSync | app/store.py:1221-1230 | One later round with any acknowledgements, late or failing, gives back all hypotheses: quiet, in sync, everything executed, same versions, and exactly the commands that had not expired |
| Convergence.StaysInSync | app/store.py:1221-1230 | Hence over any number of later rounds no version, hash or payload changes and nothing is queued |
| Convergence.AcksApply | app/routers/spokes.py:394-402 | Acknowledgements in any number, order and mixture raise the applied version to the largest version that one of them marks on the queue as polled, and change nothing else of spoke and commands |
| Convergence.RoundExactly | app/routers/spokes.py:354-402 | Whatever is queued and acknowledged, late, again or with failures, a round of an approved spoke with a payload ends in sync exactly if: a version is pending, its acknowledgements bring the applied version just to it, and with a stale hash it was not queued yet; or none is pending, the hash is stale, no left-over command reads the next version, and just that one is applied; or the hash is current, both versions are equal, and nothing higher is applied |
| Convergence.FirstRoundExactly | app/routers/spokes.py:369-372 | A round that brings a first configuration ends in sync exactly when version 1 is what its acknowledgements apply and, for a stale hash, no left-over command reads version 1 |
| Convergence.UnownedChangeNotPushed | app/store.py:1199-1202 | Without hub-managed configuration a payload change outside the USB list is not pushed in any number of rounds |
| EmptyPayload.EmptyRoundExactly | app/routers/spokes.py:373-385 | With an empty payload, whatever is queued and acknowledged, a round ends in sync exactly when, with a current hash, the versions start from 0 and nothing is applied or, with a stale one, no left-over command reads the version to be pushed and the acknowledgements apply just that version |
| EmptyPayload.EmptySettles | app/routers/spokes.py:373-385 | With an empty payload and a current hash any number of rounds leaves version 0 and queues no push, and after them the spoke is in sync exactly when the first started over from applied version 0 and no acknowledgement in any of them marked a version |
| EmptyPayload.AheadForGood | app/routers/spokes.py:373-385 | From version 0 with a larger applied version and a current hash no number of rounds, whatever they acknowledge, ends in sync |
| EmptyPayload.RepeatedAckLeavesAhead | app/routers/spokes.py:394-402 | One successful acknowledgement of a live push, executed before or not, brings any spoke with a version and a current hash into that state |
| EmptyPayload.PromptRoundExactly | app/routers/spokes.py:373-402 | If all earlier pushes are executed and every acknowledgement is prompt and successful, a round ends in sync exactly when the last pushed hash is current or nothing left over reads version 1 |
| EmptyPayload.EmptyNeverInSync | app/routers/spokes.py:373-385 | With a stale hash and a left-over command that reads version 1, no number of rounds before that command expires ends in sync, whatever the acknowledgements |
| Convergence.PollHandsOutPending | app/routers/spokes.py:389-391 | An inbox poll hands out the pending version exactly when it was never queued or still waits unexpired |
| Convergence.FailedAckStalls | app/store.py:1220-1222 | Once the pending version's command is executed without having been applied, no run of checks, polls, pushes and failing acknowledgements before its expiry changes the spoke or queues anything |
| Convergence.FailingAckStalls | app/routers/spokes.py:394-402 | A failing acknowledgement of the pending version's command leads into that state, so nothing on the hub's side moves before its expiry |
| Convergence.ExpiryEndsStall | app/store.py:1161-1179 | The first poll at or after the expiry drops the dead command; the second hands out a fresh push with the current payload |
| Convergence.DriftRecovers | app/store.py:1221-1235 | From any versions of an approved spoke without pending push, a stale hash makes the drift check set applied + 1 and the ensure leave a command of that version, adding one exactly when no left-over command reads that version |
| Convergence.LeftoverStallsRecovery | app/store.py:1164-1165 | If a left-over command of that very version is already executed, the recovering push does not go out before it expires |
| IniText.SplitJoin | app/routers/aggregate.py:1105-1144 | Splitting joined lines gives them back except for an empty last line |
| IniText.SplitJoinEnded | app/routers/aggregate.py:1105-1147 | Splitting lines that were each ended gives exactly those lines |
| IniText.CharacterClasses | app/routers/aggregate.py:1105-1124 | The characters that end lines and that count as white space, by code point |
| IniText.HeaderReads | app/routers/aggregate.py:1112 | A header the editor writes is read back as that section |
| IniText.HeaderValid | app/routers/aggregate.py:1112 | Headers only ever name sections without bracket, line break or emptiness |
| IniText.HeaderForm | app/routers/aggregate.py:1112 | White space, a bracketed name without closing bracket, white space is a header of that name |
| IniText.HeaderOnly | app/routers/aggregate.py:1112 | No other line is a header |
| IniText.EntryReads | app/routers/aggregate.py:1123-1127 | An entry the editor writes, with its indentation, is read back as that key with value on |
| IniText.EntryValid | app/routers/aggregate.py:1123-1124 | Entries only ever have trimmed non-empty keys that do not start like comments |
| IniText.EntryForm | app/routers/aggregate.py:1123 | White space, a key, white space, an equals sign and anything is an entry of that key with that indentation |
| IniText.EntryOnly | app/routers/aggregate.py:1123 | No other line is an entry |
| IniEditor.EditSets | app/routers/aggregate.py:1098-1142 | With any duplicate sections and entries: enabling leaves at least one value and makes all of them "on", disabling leaves none |
| IniEditor.EditKeepsOthers | app/routers/aggregate.py:1111-1142 | Every other (section, key) pair keeps exactly its values |
| IniEditor.EditTouchesOnlyKey | app/routers/aggregate.py:1111-1142 | Erasing the key's entries from input and output gives the same lines, except one header and separating blank for a created section |
| EditPlaces.EnableInPlace | app/routers/aggregate.py:1111-1142 | Enabling, line by line: every entry of the pair is rewritten in its place with its own indentation, every other line stays; one unindented entry is added where the first section of the name ends, exactly if that section has none, or a new section at the end if there is no such section |
| EditPlaces.DisableInPlace | app/routers/aggregate.py:1124-1131 | Disabling, line by line: exactly the entries of the pair go, the rest stays in order |
| EditPlaces.ValuesInPlace | app/routers/aggregate.py:1111-1131 | The values of a pair are those of its entries, that is, the entries of the key whose last header before them names the section, in order |
| IniEditor.EditMissing | app/routers/aggregate.py:1138-1142 | In a text without the section, enabling adds exactly one value at the end |
| IniEditor.EditIdempotent | app/routers/aggregate.py:1111-1142 | Repeating an edit changes no line |
| IniEditor.DisableUndoesEnable | app/routers/aggregate.py:1111-1142 | Disabling after enabling reads like disabling alone, for every pair |
| IniEditor.EditsCommute | app/routers/aggregate.py:1111-1142 | Edits of different pairs commute on first and last value of every pair |
| SimOverrides.EditTurn | app/routers/aggregate.py:1111-1131 | One line's turn of the loop with its flags equals what the line becomes in the edit |
| SimOverrides.EditPass | app/routers/aggregate.py:1105-1135 | The loop with four state variables computes the edit of the parsed lines |
| SimOverrides.EditAll | app/routers/aggregate.py:1105-1142 | Loop plus end-of-file cases compute the whole edit |
| SimOverrides.ModifyIniContent | app/routers/aggregate.py:1098-1147 | The method returns the printed edit, line ends included |
| RewriteTwice.RewriteText | app/routers/aggregate.py:1103-1147 | The returned text splits into the edited lines, an empty last one dropped; it ends in a line end of the text's kind exactly if the text was empty or ended in one, or such a line was dropped |
| SimOverrides.RewriteMeaning | app/routers/aggregate.py:1098-1147 | Through printing and reading back: enabled pairs read "on", disabled ones read nothing, all others as before |
| SimOverrides.EnableWorksExactly | app/routers/aggregate.py:1112-1124 | Enabling takes effect in the text exactly for section names without bracket, line break and emptiness and for trimmed keys without =, line break and comment sign |
| SimOverrides.TenantOverrides.SetClientSimOverride | app/routers/aggregate.py:1169-1219 | The endpoint changes the map, and the text unless the push to GitHub succeeded, and returns the host's active simulations |
| SimOverrides.ListAfterCall | app/routers/aggregate.py:1169-1176 | A newly enabled simulation goes to the end of its host's list, a disabled one goes, all others keep their places, and other hosts their lists |
| SimOverrides.ListsNoRepeats | app/routers/aggregate.py:1169-1176 | So no run lists a simulation of a host twice |
| SimOverrides.GitHubOutcome | app/routers/aggregate.py:1184-1219 | A failed push to GitHub does what a call without GitHub does; a successful one the same to the map and nothing to the text |
| SimOverrides.NeverBlank | app/routers/aggregate.py:1209-1219 | Over any run a stored text always has something in it |
| SimOverrides.MapAgreesWithText | app/routers/aggregate.py:1169-1219 | Over any run of calls that enable valid names only and disable any, without GitHub or with failing pushes: a simulation is in client_sim_overrides of a host exactly when the text reads "on" for (host, simulation), blank-to-None included |
| SimOverrides.PushAgreesExactly | app/routers/aggregate.py:1209-1214 | A call that is pushed to GitHub leaves map and stored text in agreement exactly when it changes nothing |
| SimOverrides.EmptyAgrees | app/routers/aggregate.py:1169-1170 | The empty map and absent text agree |
| SimOverrides.AgreementNeedsValidNames | app/routers/aggregate.py:1173-1217 | After enabling, map and text agree on the pair itself exactly when its names are valid |
| SimOverrides.InvalidDisableHarmless | app/routers/aggregate.py:1124-1131 | Disabling a pair that cannot be written changes the values of no pair |
| OverrideLeaks.InvalidEnable | app/routers/aggregate.py:1115-1147 | Enabling a pair that cannot be written, with any characters in its names, line breaks included: every pair keeps its values and gains, in one place, exactly what the written lines read as in the section open there; at the end if the section is missing |
| OverrideLeaks.InvalidEnableExactly | app/routers/aggregate.py:1133-1142 | For names without line breaks: an empty section or one with a bracket makes no header, so its entry, and its header line if that has an equals sign, go to the section open at the end of the text; an invalid key goes to whatever stands before its first equals sign, in the section named; nothing else changes |
| OverrideLeaks.KeyLeakOf | app/routers/aggregate.py:1123-1124 | A key that is a valid key, an equals sign and more is read back as that valid key |
| OverrideLeaks.InvalidEnableAgrees | app/routers/aggregate.py:1169-1217 | Such a call keeps another pair's map and text in agreement exactly when the written lines give that pair nothing, or only what the map lists |
| OverrideLeaks.BracketHostLeaks | app/routers/aggregate.py:1133-1142 | A host name with a bracket turns the simulation on, in the text alone, for the host whose section is the last one |
| RewriteTwice.RewriteTwiceExactly | app/routers/aggregate.py:1144-1147 | Repeating an edit on its own result leaves the text exactly when the text passed in is not, for enabling, one with the section that ends in two empty lines (unless the section is open there for the first time without the key), nor, for disabling, one that does so once the key's entries are erased, nor one without final line feed of which a single empty line is left |
| RewriteTwice.DisablingErases | app/routers/aggregate.py:1122-1131 | Disabling is erasing the key's entries |
| RewriteTwice.HandledEndMeaning | app/routers/aggregate.py:1112-1125 | Enabling has dealt with the key before the end of the file exactly if it has an entry or a section of that name ends |
| RewriteTwice.EnabledTwoBlanks | app/routers/aggregate.py:1133-1142 | Enabling leaves two empty lines at the end exactly where they were, unless something is written after them |
| RewriteTwice.BlankLinesShrink | app/routers/aggregate.py:1144-1146 | Of two or more empty lines each edit drops exactly one, so such a text changes again as long as more than two are left |
| RewriteTwice.NewlineStays | app/routers/aggregate.py:1104 | The kind of line end is recognised again in the edited text |
| RewriteTwice.BlankEndStays | app/routers/aggregate.py:1111-1142 | What an edit leaves alone it leaves alone without an empty last line, too |
| MonitoredItems.CheckItem | app/tasks.py:1038-1093 | One item's turn: the updated item, whether it was checked, whether an alert goes out |
| MonitoredItems.CheckMonitoredItems | app/tasks.py:1035-1107 | The in-place loop updates every item by its own turn and sends the alerts in list order |
| MonitoredItems.StreakAccuracy | app/tasks.py:1059-1087 | After any run: missing_since is the first poll of the current miss streak, consecutive_failures its length, status ok below an age of 900 seconds, warning below 1800, missing from then on |
| MonitoredItems.AlertExactly | app/tasks.py:1090-1093 | An alert goes out exactly at a miss 30 minutes or more into the streak that is the first of the streak's alerts or more than 30 minutes after the last |
| MonitoredItems.FirstAlertNotSuppressed | app/tasks.py:1090-1093 | The first poll that finds a streak 30 minutes old always alerts, whatever earlier streaks did |
| MonitoredItems.AlertBound | app/tasks.py:1090-1093 | k alerts within a streak of age D satisfy 1800 k <= D |
| MonitoredItems.FirstAlertExactly | app/tasks.py:1090-1093 | With a clock that may stand still the first poll at 30 minutes or more alerts, unless the streak is exactly 30 minutes old and began at the very time of the last alert |
| MonitoredItems.FirstStampKept | app/tasks.py:1065-1071 | The first time stamp given for an item is never overwritten |
| MonitoredItems.StampsExactly | app/tasks.py:1062-1071 | The stored stamps are the first and the last ones given while the item was there |
| MonitoredItems.OldStampMoves | app/tasks.py:1066-1071 | An item stored with a last stamp alone gets its first one from the first poll that finds it, or else from that stamp |
| MonitoredItems.LastSeenExactly | app/tasks.py:1058-1060 | The time last seen is that of the last poll that found the item |
| MonitoredItems.ZeroIsUnset | app/tasks.py:1075-1076 | A stored missing_since of 0 counts as none |
| MonitoredItems.ReportPolls | app/tasks.py:1038-1056 | A report finds an item exactly when it names it among those of the item's own kind, and takes the stamp from there; an item of no known kind is left alone |
| MonitoredItems.AlertedExactly | app/tasks.py:1090-1107 | The alerts of a poll are those of the items that raise one, each once and in order |
| Reseed.ReseedJob.RefreshStatus | app/routers/backups.py:185-196 | The status is "completed" exactly when every state is "done" or "completed", "failed" exactly when all are one of these or "error" or "failed" and one is an error, and "running" exactly when some state is none of the four |
| Reseed.ReseedJob.UpdateProgress | app/routers/backups.py:474-508 | A report updates only its spoke, starts a timer exactly for its first three errors, and refreshes the job; an unknown spoke changes nothing |
| Reseed.ReseedJob.FinishRetry | app/routers/backups.py:224-231 | The end of a retry's send overwrites the spoke's state and refreshes the job |
| Reseed.DispatchedOnce | app/routers/backups.py:158-232 | For any interleaving of sends, reports and timers of a job with distinct spokes no command id is dispatched twice and no spoke gets more than three retries |
| Reseed.DispatchedOnceExactly | app/routers/backups.py:461-462 | No run of a job dispatches a command id twice exactly when no spoke was requested twice |
| Reseed.SupersededNeverDispatches | app/routers/backups.py:213-215 | A timer superseded by a later error report never dispatches |
| Reseed.FailureNeedsFourErrors | app/routers/backups.py:185-196 | retry_count is the number of error reports of the run, and a failed job had some spoke report four |
| Reseed.ReportOutcome | app/routers/backups.py:474-508 | In every run the first three error reports of a spoke show it retrying and set a timer with their number; later ones, and all other reports, show what was reported and set none |
| Reseed.RecordShows | app/routers/backups.py:224-231 | The record of a first send or a retry shows its spoke running, or queued if the send failed, and changes nothing else of the spokes |
| Reseed.StatusFollowsSpokes | app/routers/backups.py:185-196 | In every run whose reports come after the record of their spoke's first send, the job status is that same classification, in literal states, of the spokes' states |
| Reseed.OvertakenStartExactly | app/routers/backups.py:463-468 | The record of a first send, which no refresh follows, keeps the status true exactly when the job was running |
| Reseed.RetryDispatchesExactly | app/routers/backups.py:203-231 | After an error report that starts a timer, with no other report of that spoke, the retry goes out exactly when no record of one of its sends, first or retry, falls between report and firing; otherwise it never goes out |
| UpdateJob.Job.RowTurn | app/routers/spokes.py:1013-1050 | One spoke's turn in a poll: its row, whether it is commanded, whether it is done |
| UpdateJob.Job.Poll | app/routers/spokes.py:1005-1054 | A poll over the listed spokes: rows, commands in order, and all_done |
| UpdateJob.Job.Watch | app/routers/spokes.py:998-1058 | The loop polls at most 40 times, only before 600 seconds have passed, and ends early exactly at the first finished poll and otherwise not before |
| UpdateJob.Job.Run | app/routers/spokes.py:992-1068 | Unless the loop ended early, everything pending is timed out |
| UpdateJob.CommandsMatchAgents | app/routers/spokes.py:1018-1045 | After any polls and after the timeout a spoke has been commanded exactly once if its agent is updated or current and never otherwise |
| UpdateJob.CommandsInOrder | app/routers/spokes.py:1005-1045 | A poll commands spokes in the order in which it lists them |
| UpdateJob.RowsIndependent | app/routers/spokes.py:1005-1054 | A spoke's row depends only on what was read about that spoke |
| UpdateJob.AgentOutcome | app/routers/spokes.py:1019-1045 | The agent is updated exactly when one of the first five readings gives a version other than the one before, current exactly when five or more came and none of the first five does, and waiting otherwise |
| UpdateJob.AgentRecorded | app/routers/spokes.py:1019-1023 | The version recorded for an updated agent is the first new one |
| UpdateJob.SpokeOutcome | app/routers/spokes.py:1048-1054 | The spoke is updated exactly when some reading gives a version other than the one before; the first is recorded |
| UpdateJob.SettledAfterFive | app/routers/spokes.py:1031-1045 | Five readings settle a spoke's agent |
| UpdateJob.DoneMeansResolved | app/routers/spokes.py:1055-1058 | Early completion means that every listed spoke of the job is resolved |
| UpdateJob.PollDoneExactly | app/routers/spokes.py:1005-1058 | A poll ends the job exactly when every spoke of the job that it lists is resolved; unlisted ones are not waited for |
| ClientCount.WindowIsLastHour | app/tasks.py:707-716 | With a clock that does not run backwards the window, filtered at every poll, is exactly the last hour of the whole history |
| ClientCount.WindowExactly | app/tasks.py:707-716 | Sample by sample: the window is, in order, those samples of the history that are no older than 3600 seconds, and only those |
| ClientCount.SumParts | app/tasks.py:446 | Sums of counts add up however the samples are split |
| ClientCount.WindowEnds | app/tasks.py:714-716 | Whatever the clock does the window ends in the newest sample and holds none older than an hour |
| ClientCount.WindowInLastHour | app/tasks.py:707-716 | The window is sorted and inside the last 3600 seconds |
| ClientCount.AlarmExactly | app/tasks.py:508-510 | With at least three samples DEGRADED holds exactly when sum >= n and 4 n current <= 3 sum |
| ClientCount.AlarmFromBaseline | app/tasks.py:481-506 | With fewer samples DEGRADED holds exactly when there is a baseline of at least one and 4 current <= 3 baseline |
| ClientCount.AverageReported | app/tasks.py:478-519 | Current count and time are the newest sample's; average, staleness and NO_DATA follow from window size and baseline |
| ClientCount.DropReported | app/tasks.py:509 | The drop times the average is 100 times the difference, and 0 below an average of one or without a drop |
| ClientCount.DropRange | app/tasks.py:509 | The drop is never negative, and at most 100 exactly when the count is not negative or no drop is computed |
| ClientCount.LargestIsOk | app/tasks.py:508-510 | A site whose count is the largest of its window is OK without drop |
| ClientCount.SteadyHourIsOk | app/tasks.py:508-510 | Three or more equal samples that make up the last hour give OK at that average, whatever came before |
| ClientCount.BaselineIsLastFullWindow | app/tasks.py:438-447 | The baseline is the average and time of the last window with three samples, or the loaded one |
| ClientCount.ClientCounts.AddSamples | app/tasks.py:711-716 | The loop over the mapped sites gives each the window of its longer history and leaves the others |
| ClientCount.ClientCounts.RefreshBaseline | app/tasks.py:438-447 | Exactly the sites with enough samples get a new baseline |
| ClientCount.ClientCounts.Payload | app/tasks.py:471-520 | One report per site with samples, mapped or not |
| ClientCount.ClientCounts.Poll | app/tasks.py:707-718 | After any polls every report is that of the site's own history |
| SpokeFiles.SpokeDir.LoadSpokes | app/store.py:573-586 | The loop skips malformed rows and merges each state file |
| SpokeFiles.LoadMeaning | app/store.py:573-586 | Exactly the well-formed rows are loaded, in order, with the telemetry of the state file if there is one, and its time last seen if it has one, else with the row's own |
| SpokeFiles.SpokeDir.SaveSpoke | app/store.py:733-743 | Rows without state for all spokes, a state file for the saved one if it has any state |
| SpokeFiles.SpokeDir.DeleteSpoke | app/store.py:1357-1360 | The row goes, the state file stays |
| SpokeFiles.SpokeDir.MigrateRows | app/store.py:1702-1725 | The migration loops, with nothing written when a row is malformed |
| SpokeFiles.SpokeDir.InitStore | app/store.py:1676-1725 | Backup or restore, then migration |
| SpokeFiles.MigrateKeepsLoad | app/store.py:1702-1719 | For distinct ids the migration leaves what is loaded unchanged exactly when a row is malformed or no state file contradicts a row; in particular without state files |
| SpokeFiles.MigrateTwice | app/store.py:1713 | A second migration is a no-op |
| SpokeFiles.UpdateChangesState | app/store.py:1421-1424 | A telemetry update changes state of exactly the spokes with that id and no configuration field |
| SpokeFiles.SaveRoundTrip | app/store.py:733-743 | A saved spoke is read back as saved exactly when it has state or no older state is on file |
| SpokeFiles.SaveKeepsAll | app/store.py:733-740 | After a save every other spoke there was is loaded again, in the same order and as often, and behind them the saved one; each keeps its configuration, and its state exactly when that is on file |
| SpokeFiles.DeleteKeepsAll | app/store.py:1357-1360 | A deletion does the same without a saved one |
| SpokeFiles.RunKeepsSplit | app/store.py:589-597 | Over any run of saves, deletions, updates, losses and restarts split rows and backup stay split |
| SpokeFiles.SavesKeepOthers | app/store.py:733-740 | Hence after any such run a save and a deletion load every other spoke again, whole, in the same order and as often, and no other but the saved one |
| SpokeFiles.TwoStartsSplit | app/store.py:1676-1719 | Two starts in a row also put a split backup beside well-formed rows |
| SpokeFiles.RestoreKeepsLoad | app/store.py:1688-1719 | Restoring a backup changes what is loaded from it exactly when its rows are well formed and a newer state file contradicts one of them; the backup stays |
| SpokeFiles.LossAfterFirstStart | app/store.py:1685-1719 | After one start on old rows and any telemetry updates, losing spokes.json and starting again loads the same exactly when no update contradicts an old row |
| SpokeFiles.DeletedComesBack | app/store.py:1688-1690 | Whatever the rows and the backup, old, split or malformed, a deleted spoke is restored at the next start exactly when no other spoke is left and the backup lists it |
| ClientDedup.Turn | app/routers/aggregate.py:1434-1446 | One row's turn keeps the loop invariant |
| ClientDedup.Merge | app/routers/aggregate.py:1431-1446 | A row is listed exactly when it has no key or is the chosen one of its key; rows are in order of first appearance of their keys, none twice |
| ClientDedup.MergeClients | app/routers/aggregate.py:1397-1450 | The same on clients, with keys from MAC or host name and overrides counted as activity, sorted by spoke and host name with ties in order of first appearance |
| ClientDedup.ListedExactly | app/routers/aggregate.py:1407-1446 | In terms of the client rows: one is listed exactly when it has no key, or is the first of its key that reports simulations or has some set for its host name, or the first of its key if none does |
| ClientDedup.ListedOrder | app/routers/aggregate.py:1447-1449 | The list is in order of lower-case spoke names, then host names, then of where the keys first appear |
| ClientDedup.KeyMeaning | app/routers/aggregate.py:1434 | The key is the lower-case MAC, or else host name, from its first to its last character that is no white space |
| ClientDedup.StringLeMeaning | app/routers/aggregate.py:1447-1449 | Names are compared at their first difference, and a beginning comes first |
| ClientDedup.SortTidy | app/routers/aggregate.py:1447-1449 | The stable sort puts every row before all later ones by names, and by first appearance between equal names |
| ClientDedup.TidyDistinct | app/routers/aggregate.py:1447-1450 | So no row is listed twice |
| ClientDedup.ChosenMeaning | app/routers/aggregate.py:1441-1446 | The chosen row is the first active one of its key, or the first one if none is active |
| ClientDedup.OnePerKey | app/routers/aggregate.py:1438-1446 | Exactly one row per non-empty key |
| ClientDedup.OverrideHidesRunning | app/routers/aggregate.py:1407-1414 | The first running row of a key is listed exactly when no earlier row of that key has a host name with simulations set |

## Left out

- ConfigRuns.VersionsPushedOnce: assumes unused versions and no ensure in the gap of a direct push, because two commands then do carry one version; `StaleDirectPushExactly`, `HeartbeatInGapDuplicates` and `EnsureInGapDuplicates` give the exact conditions.
- ConfigRuns.VersionSafety: assumes clean saves and restarts, because it fails otherwise; `SaveExactly` and `RestartSafeExactly` give the exact conditions. Configuration updates posted directly through `app/routers/commands.py`, which choose their version freely, are not among the runs.
- Convergence.Converges: assumes that no command expires between the two rounds, as the protocol itself does, and a payload; `RoundExactly` says what any one round does, and `EmptyRoundExactly` without a payload.
- HubStore.HubStore.ApplySpokeTelemetry: runs its calls without interruption; `ConfigRuns` interleaves its read and its save with everything else.
- HubStore.HubStore.UpdateTenantHubConfig: runs its loop without interruption; `UpdateSpokes` covers rows that were changed since they were listed.
- HubStore.HubStore.PurgeExpiredCommands: works on queue files whose rows all load; `PurgeRows` is the turn of one file with unreadable rows, which every other queue function refuses to load.
- HubStore.HubStore.QueueSpokeConfigPush: what `int()` makes of the configuration's own version key is a parameter.
- IniEditor.EditIdempotent: is about lines, because on texts idempotence is false; `RewriteTwiceExactly` gives the exact condition there.
- SimOverrides.MapAgreesWithText: leaves out calls that are pushed to GitHub and calls that enable a pair which cannot be written, because these break the agreement; `PushAgreesExactly`, `AgreementNeedsValidNames` and `InvalidEnableAgrees` give the exact conditions. What is written to GitHub is not part of this model.
- ClientDedup.MergeClients: lowers ASCII letters only.
- UpdateJob.Job.Run: a job stays in the table, from which no code removes any.
- ClientCount.ClientCounts.Poll: averages are exact; rounding of floating point numbers and persisting the baseline are left out.
- MonitoredItems.CheckMonitoredItems: identifiers are already normalised and notifications always return.
- Reseed.DispatchedOnce: lets timers fire at any time after they are set, which includes the delays of 300, 900 and 1800 seconds; steps, messages and time stamps of a spoke's state are left out.
- SpokeFiles.MigrateKeepsLoad: rows carry their id and creation time; defaults drawn afresh at every load, and the legacy single-site field, are left out.
- Relay.SpokeChannel.PushSpokeCommands: one spoke's channel; the per-socket send lock only orders frames and is left out.
- File locks, several worker processes, partial writes and file-system behaviour: every store call is one atomic step of one process.
- Building the configuration payload, USB lists (`_effective_usb_vidpids_from`) and settings normalisers: a tenant's payload is an arbitrary map here.
- Hashing, encryption, tokens, passwords, LDAP, RADIUS, TACACS: unseen libraries.
- HTTP routes, role checks, Aruba Central, GitHub, Azure, SMTP, Teams, ACME and DNS: network plumbing.
- Registration, approval, re-keying and deletion of spokes in the configuration protocol: they start or end a protocol run (`SetStatus` changes of approval are included).
- Browser pages, consoles, shells, VNC relays and the QA runner: not state machines of the hub.
- Audit entries and broadcasts: they never feed back into the modelled state.

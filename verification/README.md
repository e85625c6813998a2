# A verified model of Free Claude Code's stateful core

Free Claude Code is a gateway between coding agents and language-model providers. Around
its network traffic stand small protocols that have to be right in every interleaving:
credential switching, the server's lifecycle, route affinity, response cleanup, helper
races, the Computer Use queue, fallback and evidence rules, and the stream and receipt
formats of its smoke tools. This project models them in Dafny and proves what they promise.

`dafny verify dfyconfig.toml` checks everything.

## How it is organised

| file | models |
|---|---|
| `Common.dfy`, `Sorting.dfy` | options and results, decimal numbers, trimming; stable sorting by key |
| `AccountNames.dfy`, `CodexAccounts.dfy` | profile names; the account store with its live file, profiles, marker and stashes |
| `Supervisor.dfy`, `SupervisorHistory.dfy`, `Desktop.dfy` | the server supervisor, its state read off its history, and the desktop shell that drives it |
| `LruTable.dfy`, `ParentRoutes.dfy`, `ModelRouter.dfy` | bounded tables in order of use; the parent-route registry; resolution of model names |
| `McpQueue.dfy`, `McpAnswers.dfy`, `McpHistory.dfy` | reader, worker and closers of the Computer Use server; what its answers say; what its histories record |
| `PrefetchedStreams.dfy`, `ResponseLifetime.dfy` | first-chunk responses; response cleanup and request leases |
| `Capabilities.dfy`, `Helpers.dfy` | helper planning; registry, session policy and the execution race |
| `Fallback.dfy`, `Evidence.dfy` | controller fallback; resolution of capability evidence |
| `ChunkedCoding.dfy`, `ContentAssembly.dfy` | HTTP chunked coding; reassembly of content blocks |
| `Compaction.dfy`, `CompactionReceipts.dfy`, `Economics.dfy` | compaction boundaries, their receipts, token accounting |

A locked section is one atomic step. Where threads or processes race, the component is a
state machine whose steps are those sections, runs are arbitrary sequences of enabled
steps, and the class with the source's methods is proved to take exactly such steps. The
theorems are about all runs. Where the source loops or updates in place, so does the model,
and each method is tied to a function or relation whose properties are lemmas.

## Where the code keeps less than one might expect

- A restart accepted between a run's last re-read and its end returns true and has no
  effect (`Supervisor.AcceptedRestartWithoutEffect`); `Supervisor.QuietEndServesAll` says
  exactly when every accepted restart is served.
- A failed login puts back the marker that was read before the lock was taken. It names the
  profile of the restored live account, unless that is forgotten meanwhile, exactly if it is the
  one the first locked section left (`CodexAccounts.FailedLoginFitsAsRead`);
  `CodexAccounts.StaleMarkerIsPutBack` gives runs in which it is not. The next import corrects
  it (`CodexAccounts.SyncMakesFit`).
- A desktop restart is dropped when the server's run is over while its thread is still alive
  (`Desktop.RestartDroppedExactly`, `Desktop.RestartIsDropped`).
- In diagnostic mode the helper executor goes on where the guard would refuse
  (`Helpers.ExecutePlanned`).
- If the cleanup task is cancelled before it begins, or closing the response body is itself
  cancelled, the lease is not released (`ResponseLifetime.CleanupIsExactlyOnce` has this as
  its exact condition). Binding a response that is already bound or cleaned up raises without
  releasing the lease (`ResponseLifetime.BindLifetime`).
- The order of listed evidence conflicts, and of the details of a refusal, can depend on the
  order of the layers (`Evidence.OrderInvisibleExactly` says exactly when).
- The gate of a compaction boundary composes exactly as far as the retries allow
  (`Compaction.GateComposesExactly`, `Compaction.RetriesAddUp`).
- The economics invariant on input buckets compares a sum with itself and always holds
  (`Economics.ReceiptPassesExactly` does without it).

## Model

| member | source | states |
|---|---|---|
| `AccountNames.AvailableName` | src/free_claude_code/cli/codex_accounts.py:501-510 | The search over numbered names ends although the counter has no bound, and returns the requested name if free and otherwise the first free candidate; the measure is the set of existing profiles not yet tried, so this is the pigeonhole argument. |
| `AccountNames.CandidateInjective` | src/free_claude_code/cli/codex_accounts.py:506-509 | Two different counters never propose the same name, whatever the requested name and suffix are. |
| `AccountNames.CandidateValid` | src/free_claude_code/cli/codex_accounts.py:588-592 | Every candidate for a valid requested name passes the profile-name check. |
| `AccountNames.SuffixExactly` | src/free_claude_code/cli/codex_accounts.py:504-504 | The suffix is the end of the account id, at most eight letters or digits with the other characters left out, or the random token if it has none. |
| `AccountNames.StemIs` | src/free_claude_code/cli/codex_accounts.py:513-516 | The proposed name is the local part of the address, with runs replaced and padding trimmed, or `account` without an address or when nothing is left. |
| `AccountNames.RunsBecomeHyphens` | src/free_claude_code/cli/codex_accounts.py:515-515 | In it, profile characters stay as they are and each longest run of other characters becomes one hyphen; the three clauses determine the text. |
| `CodexAccounts.LedgerExists` | src/free_claude_code/cli/codex_accounts.py:488-498 | Any store in which no account is held twice is described by exactly one ledger (account id to saved bytes), so the theorems below start from any such store. |
| `CodexAccounts.SyncRepresents` | src/free_claude_code/cli/codex_accounts.py:455-469 | Importing the live file changes exactly one ledger line, leaves the live file alone, and afterwards some profile owns the live account. |
| `CodexAccounts.ForgetRepresents` | src/free_claude_code/cli/codex_accounts.py:283-301 | Forgetting a profile removes the line of its account and no other. |
| `CodexAccounts.StepRepresents` | src/free_claude_code/cli/codex_accounts.py:113-301 | Every locked section of every operation, successful or not, and every outside write of the live file, keeps the profiles equal to the ledger and no account in two profiles. |
| `CodexAccounts.RunRepresents` | src/free_claude_code/cli/codex_accounts.py:113-301 | The same over any interleaving of any number of processes, an addition being two locked sections with anything in between. |
| `CodexAccounts.LastImportKept` | src/free_claude_code/cli/codex_accounts.py:455-469 | The bytes of the last import of an account survive every later step except a forget of that account. |
| `CodexAccounts.NeverLost` | src/free_claude_code/cli/codex_accounts.py:455-469 | An account that was live at some locked import and was not forgotten afterwards is still held by a profile at the end of the run. |
| `CodexAccounts.NothingInvented` | src/free_claude_code/cli/codex_accounts.py:472-485 | Conversely every account held at the end was held at the start or was imported during the run. |
| `CodexAccounts.SelectKeepsOwner` | src/free_claude_code/cli/codex_accounts.py:191-210 | Selecting a profile never moves an account to another profile. |
| `CodexAccounts.SelectOwner` | src/free_claude_code/cli/codex_accounts.py:191-210 | Selecting the owner of an account makes the bytes in its ledger line live. |
| `CodexAccounts.SwitchAwayFilesRefresh` | src/free_claude_code/cli/codex_accounts.py:191-210 | Selecting another profile while the live tokens are refreshed files the refreshed bytes under their account. |
| `CodexAccounts.SwitchBackRestoresRefresh` | src/free_claude_code/cli/codex_accounts.py:191-210 | Select A, refresh, select B, select A: the live file is the refreshed one, for every store and whichever profile B is. |
| `CodexAccounts.RunKeepsStash` | src/free_claude_code/cli/codex_accounts.py:571-578 | The file set aside by an addition stays in its stash through every interleaving of other additions and operations. |
| `CodexAccounts.FailedLoginRestores` | src/free_claude_code/cli/codex_accounts.py:213-280 | In any run that ends with a failed login, the live file is the one the first locked section found, whatever other processes and the login wrote in between; the profiles are left alone, and the marker is the one read, without the lock, at the earlier step of that addition. |
| `CodexAccounts.FailedLoginFitsExactly` | src/free_claude_code/cli/codex_accounts.py:226-280 | After it the marker names the profile of the live account if and only if what was read names a profile that still holds that account. |
| `CodexAccounts.FailedLoginFitsAsRead` | src/free_claude_code/cli/codex_accounts.py:226-280 | While nobody forgets that account meanwhile, this is so if and only if the marker read is the one that the first locked section itself left. |
| `CodexAccounts.StaleMarkerIsPutBack` | src/free_claude_code/cli/codex_accounts.py:226-280 | The runs in which it is not so: from any store whose marker fits and which holds another account, read the marker, let another process select that account, take the lock and fail the login, and the other account is live under the old marker. |
| `CodexAccounts.TwoIsSuchAStore` | src/free_claude_code/cli/codex_accounts.py:226-280 | A concrete store of that kind, with two profiles. |
| `CodexAccounts.SyncMakesFit` | src/free_claude_code/cli/codex_accounts.py:455-469 | Every import of a readable live file leaves a marker that names the owner of the live account, so a stale marker lasts until the next operation at most. |
| `CodexAccounts.StepKeepsOwner` | src/free_claude_code/cli/codex_accounts.py:113-301 | No step but a forget of it takes an account from the profile that holds it. |
| `CodexAccounts.RunKeepsOwner` | src/free_claude_code/cli/codex_accounts.py:113-301 | The same over any interleaving. |
| `CodexAccounts.ImportLeaves` | src/free_claude_code/cli/codex_accounts.py:455-469 | An import writes and marks exactly one profile: the owner of the account, or else a new one named by a marker whose profile is gone, or by the address. |
| `CodexAccounts.SelectLeaves` | src/free_claude_code/cli/codex_accounts.py:191-210 | A successful selection makes the saved file of the chosen profile live and marks that profile; stashes stay. |
| `CodexAccounts.ForgetLeaves` | src/free_claude_code/cli/codex_accounts.py:283-301 | A successful forget takes one profile away: every other owner keeps its account, the live file stays, and the marker goes exactly if it named that profile. |
| `CodexAccounts.BeginLeaves` | src/free_claude_code/cli/codex_accounts.py:213-237 | The first section of an addition leaves no live file, files its account under an owner, and holds its bytes in the stash. |
| `CodexAccounts.CompleteLeaves` | src/free_claude_code/cli/codex_accounts.py:238-280 | A completed addition leaves the new login live, saved and marked under one owner, and its own stash gone. |
| `CodexAccounts.RefusalLeaves` | src/free_claude_code/cli/codex_accounts.py:191-301 | A refused operation leaves the live file and the stashes alone; all it can change is what the import before it changes. |
| `CodexAccounts.RefusedExactly` | src/free_claude_code/cli/codex_accounts.py:191-301 | Exactly when each operation is refused: an invalid name, an unreadable live file, a profile that is missing, taken, unreadable or current. |
| `CodexAccounts.AccountStore.ProfileForAccount` | src/free_claude_code/cli/codex_accounts.py:488-498 | Finds a profile that owns the account exactly when one exists, whatever order the directory lists its entries in. |
| `CodexAccounts.AccountStore.SaveProfile` | src/free_claude_code/cli/codex_accounts.py:466-485 | Writes the credential and, as each caller does next, the marker; nothing else changes. |
| `CodexAccounts.AccountStore.SyncLive` | src/free_claude_code/cli/codex_accounts.py:455-469 | The method takes exactly an import step of the model: nothing without a live file, a failure for one that names no account, and otherwise a save to the owner of the account or to an unused name. |
| `CodexAccounts.AccountStore.ListAccounts` | src/free_claude_code/cli/codex_accounts.py:124-157 | Listing first imports the live file, then returns every profile that holds a readable account, once each, marked active exactly if it holds the live account, the active ones first and by name without regard to case. |
| `CodexAccounts.AccountStore.SelectAccount` | src/free_claude_code/cli/codex_accounts.py:191-210 | Takes exactly a select step: a refused name touches nothing, a missing profile still imports. |
| `CodexAccounts.AccountStore.ForgetAccount` | src/free_claude_code/cli/codex_accounts.py:283-301 | Takes exactly a forget step; the current profile is refused. |
| `CodexAccounts.AccountStore.BeginAdd` | src/free_claude_code/cli/codex_accounts.py:213-237 | The first locked section: import, refuse a taken name, set the live file aside. |
| `CodexAccounts.AccountStore.CompleteAdd` | src/free_claude_code/cli/codex_accounts.py:238-280 | The second locked section: adopt the login under the owner of the account or a free name, or undo the first section. |
| `CodexAccounts.AccountStore.RestoreStash` | src/free_claude_code/cli/codex_accounts.py:571-578 | Puts the stashed live file and the marker back, removing what the login wrote. |
| `CodexAccounts.AccountStore.AddAccount` | src/free_claude_code/cli/codex_accounts.py:213-280 | A whole addition with nothing else running adopts the login, or leaves live file and current profile as they were (start error, nonzero exit, unreadable identity). |
| `Supervisor.StepKeepsInv` | src/free_claude_code/cli/commands.py:86-197 | Each locked section and each flag change keeps the lifecycle invariant. |
| `Supervisor.Safety` | src/free_claude_code/cli/commands.py:86-197 | In every interleaving: scheduled and running exclude each other, a server is registered only while running, a stale or stopped server is told to exit, and a run builds at most one server more than the restarts accepted since it began. |
| `Supervisor.RestartIsServed` | src/free_claude_code/cli/commands.py:132-146 | A restart accepted before the loop is left is served by a server built for its generation, unless the run ends by stop, failure, interruption or an unclosed runtime. |
| `Supervisor.ScheduledRestartIsServed` | src/free_claude_code/cli/commands.py:132-146 | The same for a restart accepted while a run is only scheduled. |
| `Supervisor.LeavingBuildsNothing` | src/free_claude_code/cli/commands.py:120-130 | Once the loop is left the run builds nothing more, so the guard of the two rows above is needed. |
| `Supervisor.QuietEndServesAll` | src/free_claude_code/cli/commands.py:186-194 | A run that ends quietly has served every accepted restart if and only if none was accepted after its last re-read. |
| `Supervisor.AcceptedRestartWithoutEffect` | src/free_claude_code/cli/commands.py:120-146 | A concrete interleaving in which a restart is accepted after the last re-read, returns true and has no effect. |
| `Supervisor.StopIsFinal` | src/free_claude_code/cli/commands.py:148-155 | After a stop at most the server already being built is still registered, and running is never reported again. |
| `Supervisor.StatusExactly` | src/free_claude_code/cli/commands.py:72-84 | In every reachable state: stopped exactly with no run and none scheduled, stopping exactly with a server told to exit, running exactly with a server that is up and not told to, starting otherwise. |
| `Supervisor.ReasonsAreTrue` | src/free_claude_code/cli/commands.py:161-194 | A run is left for the reason given: a stop was asked for, no restart is unserved at the re-read, or an error is recorded. |
| `Supervisor.AnotherServerExactly` | src/free_claude_code/cli/commands.py:186-194 | After a server returned another is built exactly if a restart came since its generation was taken, no stop was asked for, and its runtime was closed. |
| `SupervisorHistory.HistoryTells` | src/free_claude_code/cli/commands.py:86-197 | Every field of the supervisor is what its history says: the generation counts the accepted restarts, the server is up from its registration to its re-read, ready since it said so, and told to exit exactly when stale, stopped or restarted since. |
| `SupervisorHistory.StepsInOrder` | src/free_claude_code/cli/commands.py:120-194 | The steps of a run come in one order: which one is possible depends exactly on the last one and on whether the loop is over. |
| `SupervisorHistory.RestartExactly` | src/free_claude_code/cli/commands.py:132-146 | A restart counts exactly if no stop came and the status is not stopped; it then raises the generation by one, and otherwise changes nothing. |
| `Supervisor.ServerSupervisor.GetStatus` | src/free_claude_code/cli/commands.py:72-84 | The method reports the status of the model state. |
| `Supervisor.ServerSupervisor.ScheduleRun` | src/free_claude_code/cli/commands.py:86-93 | Accepts exactly when idle and not stopped; otherwise nothing changes. |
| `Supervisor.ServerSupervisor.RequestRestart` | src/free_claude_code/cli/commands.py:132-146 | Accepts exactly while scheduled or running and not stopped; moves the generation and tells the registered server to exit. |
| `Supervisor.ServerSupervisor.RequestStop` | src/free_claude_code/cli/commands.py:148-155 | Sets the stop flag and tells the registered server to exit. |
| `Supervisor.ServerSupervisor.RunOnce` | src/free_claude_code/cli/commands.py:161-194 | One server from construction to re-read is a path of the state machine; it asks for another exactly by the re-read verdict. |
| `Supervisor.ServerSupervisor.Run` | src/free_claude_code/cli/commands.py:95-130 | The whole loop against any schedule of other threads (a second caller of `run` included), of the served server becoming ready or exiting, and of failures and interruptions, is an interleaving of the model, terminates, and builds at most one server more than the accepted restarts. |
| `Supervisor.ServerSupervisor.EnterRun` | src/free_claude_code/cli/commands.py:98-103 | A second run is refused with an error and a run after a stop ends at once; both clear the schedule. |
| `Desktop.OneRunAtATime` | src/free_claude_code/cli/desktop.py:102-116 | The shell enters a run only while none is under way, and a scheduled run always has a thread that will make it. |
| `Desktop.ShellDrivesTheSupervisor` | src/free_claude_code/cli/desktop.py:86-116 | The shell is an interleaving of the supervisor, of exactly the calls its moves make, so all that is proved of the supervisor holds of it. |
| `Desktop.ThreadInOrder` | src/free_claude_code/cli/desktop.py:102-116 | A thread is reserved exactly if there is none or it has finished and no stop came, and is then made, runs and finishes in this order. |
| `Desktop.RelaunchAfterExit` | src/free_claude_code/cli/desktop.py:86-94 | After a server exited on its own the shell can always start another. |
| `Desktop.RestartDroppedExactly` | src/free_claude_code/cli/desktop.py:86-94 | In every reachable state a restart request changes nothing exactly after a stop or when there is no run to restart; with a living thread and no stop, exactly when the run of that thread is already over. |
| `Desktop.RestartIsDropped` | src/free_claude_code/cli/desktop.py:86-94 | A concrete run into that moment: the server failed, its run is over, and its thread is still alive. |
| `Desktop.DesktopController.StartServer` | src/free_claude_code/cli/desktop.py:102-112 | Starting follows the shell model: a live thread or a refused schedule changes nothing, otherwise exactly one thread is started. |
| `Desktop.DesktopController.RestartServer` | src/free_claude_code/cli/desktop.py:86-94 | With a live thread it is a restart request, without one a fresh start. |
| `Desktop.DesktopController.QuitServer` | src/free_claude_code/cli/desktop.py:96-100 | Quitting is a stop request in the shell model, whatever the thread is doing. |
| `LruTable.ApplyKeepsValid` | src/free_claude_code/application/routing.py:184-206 | Every operation keeps keys and table in step and within the bound, and a fresh insert is never the one trimmed. |
| `LruTable.ApplyKeepsOrder` | src/free_claude_code/application/routing.py:184-206 | Key order stays order of last touch, measured against a log of touches. |
| `LruTable.EvictionIsLate` | src/free_claude_code/application/routing.py:204-206 | A key that nobody dropped disappears only when a new key is stored, is then the one touched longest ago, and at least the bound of distinct other keys was touched since. |
| `LruTable.ApplyRetains` | src/free_claude_code/application/routing.py:204-206 | A key keeps its value while fewer other keys than the bound are used. |
| `ParentRoutes.RunKeepsInv` | src/free_claude_code/application/routing.py:77-213 | Over all runs both namespaces stay within the bound, and a session held in both is held under different generations. |
| `ParentRoutes.RunInOrder` | src/free_claude_code/application/routing.py:77-213 | Over all runs both namespaces are in order of last touch. |
| `ParentRoutes.RouteEvictedLate` | src/free_claude_code/application/routing.py:204-206 | Over all runs, an accepted route removed by another session was the one touched longest ago, after at least the bound of other sessions. |
| `ParentRoutes.HintEvictedLate` | src/free_claude_code/application/routing.py:204-206 | The same for hints. |
| `ParentRoutes.FirstRouteWins` | src/free_claude_code/application/routing.py:120-151 | The first route accepted for a session under a generation is what every later lookup returns, until the bound of other sessions is used or the registry is cleared. |
| `ParentRoutes.FirstHintWins` | src/free_claude_code/application/routing.py:95-118 | The first hint of a session without an accepted route is what probes return and lookups do not, until a route is accepted, the bound of other sessions is used, or the registry is cleared. |
| `ParentRoutes.AnswersExactly` | src/free_claude_code/application/routing.py:77-118 | A lookup is answered with the accepted route that serves the generation and with nothing else, a probe with that or else with the hint. |
| `ParentRoutes.NamelessIsUnanswered` | src/free_claude_code/application/routing.py:216-223 | Without a usable session id nothing is answered and nothing remembered. |
| `ParentRoutes.SessionKeyExactly` | src/free_claude_code/application/routing.py:216-223 | The key of a session is its id without white space around it, of one to 512 characters; any other id has none. |
| `ParentRoutes.HintsCarryNoAuthority` | src/free_claude_code/application/routing.py:153-182 | Removing every hint from a run changes no accepted route and no answer of `lookup`. |
| `ParentRoutes.EntriesWereRemembered` | src/free_claude_code/application/routing.py:120-151 | Each accepted route in the registry was put there by a call of the run for its session since the last clear. |
| `ParentRoutes.HintsWereRemembered` | src/free_claude_code/application/routing.py:153-182 | Each hint in the registry was put there by such a call for hints. |
| `ParentRoutes.LookupStaysInGeneration` | src/free_claude_code/application/routing.py:184-202 | What a lookup returns was remembered for the same session, under the same generation or under none. |
| `ParentRoutes.ParentRouteRegistry.LookupEntry` | src/free_claude_code/application/routing.py:184-202 | Drops a stale entry, refreshes a usable one; the dictionary changes exactly as the table model says. |
| `ParentRoutes.ParentRouteRegistry.LookupRoute` | src/free_claude_code/application/routing.py:77-93 | Answers and changes the registry as the model does. |
| `ParentRoutes.ParentRouteRegistry.LookupProbeRoute` | src/free_claude_code/application/routing.py:95-118 | Prefers an accepted route to a hint. |
| `ParentRoutes.ParentRouteRegistry.RememberRoute` | src/free_claude_code/application/routing.py:120-151 | Keeps a settled route, otherwise stores, trims and removes the hint. |
| `ParentRoutes.ParentRouteRegistry.RememberProbeRoute` | src/free_claude_code/application/routing.py:153-182 | Never touches the accepted routes. |
| `ParentRoutes.ParentRouteRegistry.ClearAll` | src/free_claude_code/application/routing.py:208-213 | Empties both namespaces. |
| `ModelRouter.ParentMattersExactlyToLogicalNames` | src/free_claude_code/application/routing.py:253-328 | Under inheritance a logical name goes where its parent went; every other name resolves as if there were no parent. |
| `ModelRouter.ConfiguredExactly` | src/free_claude_code/application/routing.py:330-364 | A name that is not direct and does not inherit resolves if and only if the configured reference names a registered provider and a model; the failure names the provider that is not registered, or the reference that has no slash. |
| `ModelRouter.ConfiguredRouteIs` | src/free_claude_code/application/routing.py:330-364 | Every field of such a route from the settings: provider, model, reference, source setting, first window present in order, and alias flag. |
| `ModelRouter.ConfiguredReasoningIs` | src/free_claude_code/application/routing.py:436-450 | Its reasoning is the preference of the first tier in the name, for aliased names or without inheritance, and the general policy otherwise. |
| `ModelRouter.ConfiguredRefExactly` | src/free_claude_code/application/routing.py:426-434 | The configured reference is that of the first tier in the name that has its own model, and otherwise the default, with the setting it comes from. |
| `ModelRouter.MatchedTierExactly` | src/free_claude_code/application/routing.py:452-457 | The tier of a name is the first of the list that the lower-case name contains. |
| `ModelRouter.DirectExactly` | src/free_claude_code/application/routing.py:397-418 | A reference is direct exactly if it decodes to a registered provider, or does not decode and has a registered provider and a model around its first slash. |
| `ModelRouter.DirectRouteIs` | src/free_claude_code/application/routing.py:272-328 | Every field of the route of a direct name, whatever the parent: it names provider and model itself and forces its reasoning. |
| `ModelRouter.InheritedRouteIs` | src/free_claude_code/application/routing.py:366-386 | Every field of an inherited route: the lane of the parent under the own name, and the own window if one is asked for. |
| `ModelRouter.ProviderIsRegistered` | src/free_claude_code/application/routing.py:393-395 | No name resolves to a provider that is not registered. |
| `ModelRouter.DescendantsStayInLane` | src/free_claude_code/application/routing.py:366-386 | A chain of inherited children of any depth keeps the provider, model and reasoning preference of its root. |
| `ModelRouter.ServeAllIsARun` | src/free_claude_code/api/handlers/messages.py:134-194 | Serving a session is a run of the registry: look up, resolve with the parent, and remember the route only if every local check admitted the request. |
| `ModelRouter.SessionStaysInLane` | src/free_claude_code/api/handlers/messages.py:134-194 | Once the first request of a session was admitted, every later logical request goes to the same provider and model with the same reasoning, whatever direct, aliased or refused requests come between, until the bound of other sessions is used or the registry is cleared. |
| `McpQueue.StepConserves` | src/free_claude_code/cli/codex_computer_use_mcp.py:302-418 | Every step keeps the accepted calls equal to those answered, the one being worked on and those waiting, in this order. |
| `McpQueue.StepKeepsPendingExact` | src/free_claude_code/cli/codex_computer_use_mcp.py:302-418 | Every step keeps the pending table equal to the calls being enqueued, queued, executing or not yet dropped, each under its own id. |
| `McpQueue.StepHonours` | src/free_claude_code/cli/codex_computer_use_mcp.py:329-418 | Every step keeps the cancellation invariant: helpers get calls in order, once, and never after an early flag. |
| `McpQueue.QueueSafety` | src/free_claude_code/cli/codex_computer_use_mcp.py:302-418 | In every interleaving answers are a prefix of the accepted calls; a call cancelled before its check never reaches the helper; a mutating call flagged when its result was checked is not answered as success. |
| `McpAnswers.EveryAnswerIsExact` | src/free_claude_code/cli/codex_computer_use_mcp.py:349-418 | In every interleaving each answer is the one that the outcome of the helper, the kind of call, and a cancellation in time demand, both ways for each kind of answer. |
| `McpAnswers.StepKeepsExact` | src/free_claude_code/cli/codex_computer_use_mcp.py:302-418 | Every step keeps this, against a history of outcomes and of cancellations that came in time. |
| `McpHistory.FlagsAreTrue` | src/free_claude_code/cli/codex_computer_use_mcp.py:329-418 | The histories used in these theorems are what they are called: an early flag is one that came when fewer calls had been tested, a flag in time one that came when fewer had been answered. |
| `McpHistory.OutcomesAreTrue` | src/free_claude_code/cli/codex_computer_use_mcp.py:349-418 | The recorded outcome of a call is what its helper came to after the test of that call. |
| `McpHistory.StepsInOrder` | src/free_claude_code/cli/codex_computer_use_mcp.py:302-418 | Worker and reader each take their steps in one order, whatever the other threads do in between; the worker leaves at its test exactly if the server was closed. |
| `McpQueue.RefusedExactlyWhileHeld` | src/free_claude_code/cli/codex_computer_use_mcp.py:302-327 | A request id is refused as duplicate exactly while a call with it is held, also between its answer and its removal. |
| `McpQueue.OpenServerAnswersAll` | src/free_claude_code/cli/codex_computer_use_mcp.py:338-347 | While the server is open the worker answers every accepted call whatever becomes of each, and then holds no id. |
| `McpQueue.McpServer.EnqueueToolCall` | src/free_claude_code/cli/codex_computer_use_mcp.py:302-327 | Accepts a call exactly when its id is free and appends it behind the waiting ones. |
| `McpQueue.McpServer.CancelCall` | src/free_claude_code/cli/codex_computer_use_mcp.py:329-336 | Flags the pending call with that id, or does nothing. |
| `McpQueue.McpServer.CloseServer` | src/free_claude_code/cli/codex_computer_use_mcp.py:242-252 | Flags everything pending and puts one end marker; closing again does nothing. |
| `McpQueue.McpServer.ExecuteCall` | src/free_claude_code/cli/codex_computer_use_mcp.py:349-418 | Writes exactly one answer, stated case by case: cancelled before start if the flag was up; for a helper that returned, its result without a flag, cancelled with one, or a demand to inspect again for a mutating call; for one that failed, uncertain exactly for a flagged mutating call. |
| `McpQueue.McpServer.TakeItem` | src/free_claude_code/cli/codex_computer_use_mcp.py:338-347 | Executes the first queued call and frees its id, or ends at an end marker. |
| `McpQueue.McpServer.CallWorker` | src/free_claude_code/cli/codex_computer_use_mcp.py:338-347 | The worker loop against any finite script ends closed, or waiting with every accepted call answered. |
| `PrefetchedStreams.FindExecutionFailure` | src/free_claude_code/core/failures.py:41-50 | The search with an explicit stack finds the first execution failure in nested listing order, or none exactly if there is none. |
| `PrefetchedStreams.FirstFailureExactly` | src/free_claude_code/core/failures.py:41-50 | The failure found is the one on the first path of member positions in listing order, and none is found exactly if no path leads to one. |
| `PrefetchedStreams.UnwrappedExactly` | src/free_claude_code/api/response_streams.py:318-325 | A group with such a failure in it is reported as its first one; every other exception as itself. |
| `PrefetchedStreams.PrefetchedStream.Next` | src/free_claude_code/api/response_streams.py:292-307 | Reads the prefetched chunk, then the body, then at most one terminal frame; a closed or ended stream only ends. |
| `PrefetchedStreams.PrefetchedStream.Aclose` | src/free_claude_code/api/response_streams.py:309-316 | The first close closes the body and raises what that raised; every later close does nothing, and every further read ends. |
| `PrefetchedStreams.PrefetchedStream.Drain` | src/free_claude_code/api/response_streams.py:271-325 | Reading to the end yields exactly the chunks of the body, then exactly one terminal frame if it failed and an emitter is given. |
| `PrefetchedStreams.FirstChunkResponse` | src/free_claude_code/api/response_streams.py:215-251 | Without a first chunk the body is closed and the answer is no stream, an empty body counting as an error. |
| `PrefetchedStreams.Deliver` | src/free_claude_code/api/response_streams.py:328-345 | For any body an Anthropic client sees its chunks, its chunks and one terminal frame, or a non-stream error. |
| `ResponseLifetime.CleanupIsExactlyOnce` | src/free_claude_code/api/response_streams.py:70-139 | For any number of closers and cancellations, at any moment: body closed and lease released at most once, nobody continues before the cleanup task has ended; by then the body was closed exactly unless the task was cancelled before it began, and a bound lease released exactly unless that or a cancelled close of the body happened. |
| `ResponseLifetime.CancellationIsRestored` | src/free_claude_code/api/response_streams.py:119-139 | A caller sees a cancellation exactly when it was cancelled while suspended, also between the end of the task and its own waking, or when the cleanup ended cancelled. |
| `ResponseLifetime.StepsExactly` | src/free_claude_code/api/response_streams.py:62-139 | What may happen at each point, from the history alone: one bind before the first caller counts, one task begins or is killed, one attempt on the body, one on a lease bound in time unless closing the body was cancelled; callers wake exactly when the cleanup is over. |
| `ResponseLifetime.CallersGetBack` | src/free_claude_code/api/response_streams.py:119-139 | From every reachable state each waiting caller can get control back without anyone being cancelled. |
| `ResponseLifetime.ClosureIsARun` | src/free_claude_code/api/response_streams.py:99-139 | What one close does, in terms of how it is treated, is a run of the protocol. |
| `ResponseLifetime.ManagedResponse.BindRelease` | src/free_claude_code/api/response_streams.py:62-68 | Binds one lease before cleanup starts and refuses a second. |
| `ResponseLifetime.ManagedResponse.Cleanup` | src/free_claude_code/api/response_streams.py:99-116 | Closes the body, then releases once, unless the task was cancelled before it began or closing was cancelled. |
| `ResponseLifetime.ManagedResponse.WaitForCleanup` | src/free_claude_code/api/response_streams.py:119-139 | The waiting loop ends only with the cleanup done, however many cancellations arrive, and reports them. |
| `ResponseLifetime.ManagedResponse.Close` | src/free_claude_code/api/response_streams.py:70-82 | Any number of closes act as one. |
| `ResponseLifetime.BindLifetime` | src/free_claude_code/api/response_streams.py:152-173 | A managed response carries the lease if it can be bound and otherwise raises with the lease unreleased; a plain response or unmanaged stream releases it at once. |
| `ResponseLifetime.CreateResponse` | src/free_claude_code/api/routes.py:45-121 | For every outcome of acquire and handler the lease is released exactly once before the function ends, except that a managed stream carries it on, or binding it raises with the lease unreleased. |
| `ResponseLifetime.ServeStream` | src/free_claude_code/api/routes.py:45-121 | From acquisition through any number of closes the lease is released exactly once, and not at all exactly when the cleanup was cancelled before it began or while closing the body. |
| `Capabilities.SelectHelpers` | src/free_claude_code/application/capabilities.py:171-188 | The greedy loop leaves uncovered exactly what no allowed helper covers, and selects, in list order, exactly the allowed helpers that have something missing which no allowed helper before them has. |
| `Capabilities.TakenExactly` | src/free_claude_code/application/capabilities.py:171-188 | A helper is in such a selection exactly if it adds something at some place of the list. |
| `Capabilities.CoverageGrows` | src/free_claude_code/application/capabilities.py:171-188 | More helpers never cover less, so adding helpers never turns success into failure. |
| `Capabilities.SelectionIsSmall` | src/free_claude_code/application/capabilities.py:171-188 | An irredundant selection has no more helpers than there are missing capabilities. |
| `Capabilities.MakePlan` | src/free_claude_code/application/capabilities.py:120-169 | Planning fails if and only if what is required and not known to be supported exceeds what the allowed helpers cover. |
| `Capabilities.CoveredExactly` | src/free_claude_code/application/capabilities.py:190-199 | A capability is covered exactly if an allowlisted helper that the mode admits has it; the admission is stated mode by mode. |
| `Capabilities.LackingExactly` | src/free_claude_code/application/capabilities.py:120-169 | What is missing: every capability asked for, beyond text in and out, that is not known to be supported. |
| `Capabilities.StrictCoversNothing` | src/free_claude_code/application/capabilities.py:190-199 | Strict routing allows no helper to cover anything. |
| `Helpers.Registry.Register` | src/free_claude_code/application/helpers.py:153-158 | Refuses a duplicate id or a frozen registry, and otherwise only grows. |
| `Helpers.Registry.RouterHelpers` | src/free_claude_code/application/helpers.py:169-175 | Returns the metadata of every registered helper once, in ascending order of helper ids. |
| `Helpers.CollectFamilies` | src/free_claude_code/application/session_policy.py:90-117 | The loop over allowed helpers collects local and consented remote families, or finds the first helper, by id, that may bill without consent. |
| `Helpers.FindUnregistered` | src/free_claude_code/application/session_policy.py:214-224 | Finds the first allowed helper, by id, that is not registered, or none exactly if all are. |
| `Helpers.BuildSessionPolicy` | src/free_claude_code/application/session_policy.py:68-136 | A policy is built if and only if the controller names a provider and a model, every allowed helper is registered, none may bill without consent, remote ones come with the allow-listed mode, strict provider mode comes without paid fallback and strict routing without helpers; its families are then exactly those of the allowed helpers; otherwise the error is the first condition that fails, with the first helper that fails it. |
| `Helpers.AllowedExactly` | src/free_claude_code/application/session_policy.py:68-136 | The allowed helper ids are the requested ones, trimmed, without blank ones. |
| `Helpers.LanesExactly` | src/free_claude_code/application/session_policy.py:68-136 | The paid families are the requested ones, trimmed and in lower case, without blank ones. |
| `Helpers.AllowedHelperIsGrantedExactly` | src/free_claude_code/core/provider_policy.py:53-86 | In a built session the egress guard grants an allowed helper if and only if its family is not a forbidden one, is the family of the controller, or was bought with paid fallback. |
| `Common.SplitExactly` | src/free_claude_code/application/session_policy.py:80-81 | A controller reference is provider and model around its first slash. |
| `Helpers.EveryRaceIsHonest` | src/free_claude_code/application/helpers.py:268-385 | Every state of the race between worker and controller satisfies the honesty invariant. |
| `Helpers.VerdictExactly` | src/free_claude_code/application/helpers.py:268-385 | Each verdict as an equivalence over the run: in time, success exactly for delivered output within the bound, failure exactly for a raised error, rejection exactly for the rest; after the timeout, timed out exactly for a read-only helper whose thread had ended, and indeterminate otherwise; the cancel event is set exactly by the timeout. |
| `Helpers.MovesExactly` | src/free_claude_code/application/helpers.py:268-385 | What worker and controller may do at each point follows exactly from what they have done. |
| `Helpers.RaceGoesOn` | src/free_claude_code/application/helpers.py:268-385 | No race gets stuck: until there is a verdict, some move other than those of the helper is possible. |
| `Helpers.PlannedHelperIsApproved` | src/free_claude_code/application/helpers.py:219-240 | A helper that a plan uses is allowlisted and registered, and unchanged whatever was registered in between. |
| `Helpers.PlannedExactly` | src/free_claude_code/application/capabilities.py:171-188 | A plan of a session uses a helper exactly if it is allowed and has something missing that no allowed helper with a smaller id has. |
| `Helpers.ExecutePlanned` | src/free_claude_code/application/helpers.py:219-266 | Admits an execution exactly when the plan selected the helper, it is registered, the guard does not refuse it and the timeout, if given, is positive; a guard that only reports does not stop it; a refusal gives the first of these that fails. |
| `Helpers.PlanThenExecute` | src/free_claude_code/application/session_policy.py:42-136 | From the launch request through policy, plan and arbitrary registrations to execution: a helper runs if and only if the session is admissible, allowed helpers have all that is missing, this one is useful, the guard does not refuse it and the timeout is positive; it is the one registered when the plan was made, and otherwise the error says which condition failed. |
| `Fallback.Evaluate` | src/free_claude_code/application/fallback_policy.py:165-311 | The chain of checks accepts a target if and only if all conditions hold together. |
| `Fallback.ReasonExactly` | src/free_claude_code/application/fallback_policy.py:165-311 | A refusal gives the first obstacle in the order of the checks, and a target is accepted exactly if there is none. |
| `Fallback.SelectFallback` | src/free_claude_code/application/fallback_policy.py:314-356 | Selects the last target given for the first allowlisted reference whose last target may replace the source, and nothing exactly if no reference has one; records one decision per reference considered, with the first obstacle as its reason. |
| `Fallback.ByRefExactly` | src/free_claude_code/application/fallback_policy.py:324-324 | The lookup table holds exactly the references of the given targets, each with the last target that has it. |
| `Fallback.SelectExactly` | src/free_claude_code/application/fallback_policy.py:314-356 | The function the method is tied to, described without it: the last target of the first reference that can serve, or none exactly if none can. |
| `Fallback.ChainHops` | src/free_claude_code/application/fallback_policy.py:314-356 | Along any chain of failures each hop changes controller, meets its own request, keeps lane where the policy asks and grows the window strictly on a context overflow. |
| `Fallback.ChainKeepsLane` | src/free_claude_code/application/fallback_policy.py:225-251 | Along a whole chain subscription scope and protocol family stay those of the first controller where the policy asks for it. |
| `Fallback.ChainEnds` | src/free_claude_code/application/fallback_policy.py:206-214 | A chain never repeats a reference nor one tried before it, and is no longer than the untried part of the allowlist. |
| `Fallback.ChainWithinAllowlist` | src/free_claude_code/application/fallback_policy.py:314-356 | However many failures follow, at most as many replacements happen as the allowlist is long. |
| `Sorting.SortIsStable` | src/free_claude_code/application/capability_snapshots.py:208-231 | The sort that the resolution relies on keeps the order of elements with equal keys. |
| `Sorting.SortSorts` | src/free_claude_code/application/capability_snapshots.py:208-231 | Its result is ascending by key. |
| `Sorting.SortPermutes` | src/free_claude_code/application/capability_snapshots.py:208-231 | Its result is a permutation. |
| `Sorting.SortedViewPermuted` | src/free_claude_code/application/capability_snapshots.py:208-231 | Anything that the key determines comes out the same for every order of the input. |
| `Evidence.VerdictExact` | src/free_claude_code/application/capability_snapshots.py:174-207 | Resolution is refused exactly for a blank capability and for two top-tier non-unknown layers that disagree; otherwise every top layer carries the selected status and tier. |
| `Evidence.LevelsFollowPrecedence` | src/free_claude_code/application/capability_snapshots.py:14-22 | The numbers used for comparison follow the declared order of the tiers. |
| `Evidence.HigherTierDecides` | src/free_claude_code/application/capability_snapshots.py:174-244 | Of two claims the higher tier is the result, and the lower one its only conflict, exactly if it says something else. |
| `Evidence.ProvenanceExactly` | src/free_claude_code/application/capability_snapshots.py:209-244 | Sources, date, version and protocol of a result are those of the top layers, shared ones exactly if all that are given agree. |
| `Evidence.ConflictsExact` | src/free_claude_code/application/capability_snapshots.py:210-223 | A conflict is listed if and only if it records a weaker, claiming layer that disagrees with the selection. |
| `Evidence.ConflictsInOrder` | src/free_claude_code/application/capability_snapshots.py:210-223 | Conflicts are listed as often as given, the stronger tier first and by source within a tier. |
| `Evidence.OrderDoesNotDecide` | src/free_claude_code/application/capability_snapshots.py:174-244 | For any permutation of the layers: same status, tier, sorted sources and shared provenance, and the same conflicts and refusal details as multisets. |
| `Evidence.SourcesPermuted` | src/free_claude_code/application/capability_snapshots.py:209-244 | The sorted sources of the winners do not depend on the order of the layers. |
| `Evidence.OrderInvisibleExactly` | src/free_claude_code/application/capability_snapshots.py:174-244 | Some order of the same layers gives a different result or refusal if and only if two layers of one tier and source claim different things and either both are at the top, or both are outvoted by an agreed top. |
| `Evidence.ClashShows` | src/free_claude_code/application/capability_snapshots.py:210-223 | With two such outvoted layers, two permutations list the conflicts differently. |
| `Evidence.RefusalShows` | src/free_claude_code/application/capability_snapshots.py:197-206 | With two such top layers, two permutations tell the details of the refusal differently. |
| `Evidence.SilenceChangesNothing` | src/free_claude_code/application/capability_snapshots.py:182-186 | A layer that claims nothing about the capability changes nothing, wherever it stands. |
| `ChunkedCoding.PartsAreTheWhole` | smoke/lib/opencode_go_transport.py:199-200 | Parts concatenate back to the whole, none is empty, only the last may be short, and their number is the rounded-up quotient. |
| `ChunkedCoding.TextParts` | smoke/lib/opencode_go_transport.py:199-200 | The slicing loop returns these parts for a positive size, nothing for a negative one, and fails for zero. |
| `ChunkedCoding.WriteBody` | smoke/lib/opencode_go_transport.py:114-120 | The writer loop emits lower-case hexadecimal size, CRLF, data, CRLF for each part, then the zero chunk. |
| `ChunkedCoding.HexRoundTrip` | smoke/lib/opencode_go_transport.py:116-116 | The printed size reads back as the size. |
| `ChunkedCoding.ChunksReadBack` | smoke/lib/opencode_go_transport.py:114-120 | A decoder after section 7.1 of RFC 9112 (either case of digits, extensions, trailers) reads any non-empty chunks back as their concatenation and leaves what follows alone. |
| `ChunkedCoding.SizeExactly` | smoke/lib/opencode_go_transport.py:114-120 | The size lines which that decoder reads are exactly those of the grammar: digits of either case, then nothing or blanks, a semicolon and an extension. |
| `ChunkedCoding.TrailersAreSkipped` | smoke/lib/opencode_go_transport.py:114-120 | Trailer fields are skipped up to the byte after their empty line. |
| `ChunkedCoding.BodyReadsBack` | smoke/lib/opencode_go_transport.py:114-120 | Every body comes back from the wire, CRLF and digits in it included, with the bytes behind it untouched. |
| `ChunkedCoding.DecodeExtends` | smoke/lib/opencode_go_transport.py:114-120 | A complete message stays what it is when more bytes arrive. |
| `ChunkedCoding.TruncationIsNoticed` | smoke/lib/opencode_go_transport.py:114-120 | No proper prefix of an encoded body decodes to anything. |
| `ChunkedCoding.PrefixFree` | smoke/lib/opencode_go_transport.py:114-120 | Different bodies differ on the wire and none is the beginning of another. |
| `ContentAssembly.AssembleContent` | smoke/lib/e2e.py:671-711 | The loop over blocks and their order fails exactly on an index that is no integer, and otherwise returns what the recursive meaning of the stream says, aliasing of twice-started blocks included. |
| `ContentAssembly.FinishAll` | smoke/lib/e2e.py:700-711 | Finishing the collected blocks in order, some of them twice because they were started twice, gives the finished contents. |
| `ContentAssembly.BlockIsConcatenation` | smoke/lib/e2e.py:682-698 | A block is what it was last started with followed by the concatenation of its deltas since, for text, thinking and partial JSON. |
| `ContentAssembly.InterleavingIsIrrelevant` | smoke/lib/e2e.py:671-711 | Streams that start the same blocks in the same order and tell the same about each have the same contents, however their events are interleaved. |
| `ContentAssembly.SwapIsIrrelevant` | smoke/lib/e2e.py:671-711 | Neighbouring events of different blocks may change places unless both start one. |
| `ContentAssembly.SplitIsIrrelevant` | smoke/lib/e2e.py:682-698 | A delta may be split into any pieces, empty ones included. |
| `ContentAssembly.BuilderAssembles` | smoke/lib/synthetic_gateway.py:274-380 | The stream of each block builder reassembles to the block it stands for; signatures and unknown deltas leave no trace. |
| `ContentAssembly.BuiltMessageReassembles` | smoke/lib/synthetic_gateway.py:217-402 | A message of any number of built blocks reassembles to them in order, also after any re-interleaving. |
| `Compaction.NoDuplicatesExactly` | smoke/lib/compaction_continuity.py:363-366 | The size comparison used for duplicates means that no element stands twice. |
| `Compaction.BatchesPartition` | smoke/lib/compaction_continuity.py:367-374 | In every valid state with batches, these list the calls in order and partition them, and the per-batch duplicate test is implied. |
| `Compaction.ToolShapeExactly` | smoke/lib/compaction_continuity.py:363-384 | The tests on tool identities mean exactly: calls distinct, batches absent or listing the calls in order, bindings absent or pairing calls and results one to one, all by position. |
| `Compaction.ListedExactly` | smoke/lib/compaction_continuity.py:367-372 | Batches list exactly one sequence of calls in order, which is what the flattening loop computes. |
| `Compaction.BindingsAreOneToOne` | smoke/lib/compaction_continuity.py:375-384 | Valid bindings are a bijection between the calls and the set of results: each call has exactly one result, each result exactly one call, and nothing else is bound. |
| `Compaction.PassedExactly` | smoke/lib/compaction_continuity.py:187-268 | A boundary passes if and only if nothing changed but memories and skills, which keep all they had without repetition, and retries, which grew by at most one, with the tool identities shaped as the row on `Compaction.ToolShapeExactly` says. |
| `Compaction.BoundariesCompose` | smoke/lib/compaction_continuity.py:187-268 | Along any chain of passed boundaries the ends satisfy every invariant but the one on retries, which grow by at most the number of boundaries. |
| `Compaction.GateComposesExactly` | smoke/lib/compaction_continuity.py:187-268 | The ends of a chain of passed boundaries pass the gate if and only if the retries between them grew by at most one. |
| `Compaction.RetriesAddUp` | smoke/lib/compaction_continuity.py:257-258 | The bound on retries is reached for every length, and from two boundaries on the ends then fail the gate that every boundary passed. |
| `CompactionReceipts.StringTupleGroups` | smoke/lib/compaction_continuity.py:320-331 | The parsing loop returns all batches or the index of the first bad one. |
| `CompactionReceipts.BindingTuple` | smoke/lib/compaction_continuity.py:334-360 | The parsing loop returns all bindings or the index of the first bad one. |
| `CompactionReceipts.ReceiptReadsBackExactly` | smoke/lib/compaction_continuity.py:85-184 | A printed receipt parses back to its state if and only if the state is canonical: trimmed names, no empty identifier or batch, counts in range, known disposition. |
| `CompactionReceipts.ParsedStatesAreCanonical` | smoke/lib/compaction_continuity.py:101-184 | Every parsed state is canonical, so printing and parsing it again gives it back. |
| `CompactionReceipts.ParseExactly` | smoke/lib/compaction_continuity.py:101-184 | A mapping is read as a state if and only if it has no other keys and says that state field by field, with the defaults of absent fields and the trimming of names spelled out. |
| `CompactionReceipts.KeysExactly` | smoke/lib/compaction_continuity.py:101-135 | Keys that carry content are refused before anything else, all of them named; other unknown keys next. |
| `Economics.SummarizePhases` | smoke/lib/opencode_go_economics.py:674-684 | The grouping loop returns one summary for each phase present, of exactly the rows of that phase, whose totals add up to those of all rows with a phase; it fails exactly without phases or on a phased row without a price. |
| `Economics.SummaryExactly` | smoke/lib/opencode_go_economics.py:570-604 | Every figure of a summary: column sums, attempts per request, the share of input read from the cache, protocols, phases, rows with a prefix, and the distinct prefixes and boundaries that are named. |
| `Economics.OneMoreToken` | smoke/lib/opencode_go_economics.py:462-472 | Each token of each bucket adds a millionth of the price of its own bucket, and no tokens cost nothing. |
| `Economics.PhasesConserve` | smoke/lib/opencode_go_economics.py:570-604 | The totals of any set of phases add up to the totals of their rows: requests, attempts, each token bucket and cost, for any prices. |
| `Economics.SummariesConserve` | smoke/lib/opencode_go_economics.py:674-684 | The summaries in a grouped map add up to the totals of all rows with a phase. |
| `Economics.ScriptExactly` | smoke/lib/opencode_go_economics.py:698-706 | The phase test accepts exactly pre, compact, post, one or more mature turns, resume. |
| `Economics.AttemptsExactly` | smoke/lib/opencode_go_economics.py:748-748 | With positive attempts, total attempts equal the row count if and only if every row has one. |
| `Economics.ReceiptPassesExactly` | smoke/lib/opencode_go_economics.py:687-761 | A report is made exactly for a receipt with rows that all have a price, and passes if and only if the rows follow the script, agree where they must, are distinct where they must, and were answered at the first attempt. |

## Left out

- I/O failures in the middle of an operation, lock time-outs and file permissions: each file
  is replaced atomically, and a locked section happens as a whole.
- Usage fetching, its normalisation, and the display of accounts.
- Profile directories named `.` and `..`, which the name pattern admits and the file system
  resolves elsewhere: a profile name stands for one directory entry.
- JSON and JWT parsing, regular expressions and hashing: parsers are function parameters and
  hashes are the strings themselves.
- White space and letter case beyond ASCII in `Common.Strip` and `Common.Lower`.
- The reason texts of fallback decisions and error messages: they are named alternatives.
- Signal handling and sockets of uvicorn: a server becomes ready, exits or fails when the
  environment says so.
- Supervisor.ServerSupervisor.Run: interruptions arrive while a server is built or served; those
  between two other statements of the loop are steps of the state machine only.
- Desktop.DesktopController.RestartServer: tests the thread and asks for the restart without
  anything in between; `Desktop.RestartDroppedExactly` covers requests at any later moment.
- CodexAccounts.AccountStore.ListAccounts: leaves out plan and usage, which are read from another
  file for display.
- Economics.SummarizePhases: returns a map, without the order of its phases; protocol and phase
  names are sets rather than joined text.
- Reloading of cached settings between two servers of one run.
- The tray and the opening of the admin page in the desktop shell.
- `normalize_model_ref`, the alias table and the decoding of gateway model ids: they are
  functions the router is given.
- The finer interleaving inside one reader message of the Computer Use server appears in the
  state machine, not in `McpQueue.McpServer.Receive`, which handles messages whole. Failures
  of writing to standard output are not modelled.
- What closing an unmanaged stream's own body does; response start and background tasks.
- The counts and traces of the provider egress guard, and its check of destination addresses.
- Derivation of required capabilities from messages, and command-line parsing of helper ids.
- The classification of same-controller retries, which is a two-way branch.
- Import of upstream model catalogues, which precedes evidence resolution.
- The request side of the synthetic upstream and its counters; serialisation of events to
  text and parsing them back, as the events are given parsed.
- Dates and sources in economics summaries; the price tables and context
  thresholds are a function from rows to prices, and money is exact rather than floating
  point. Comparison of two receipts is left out.
- Reading economics rows field by field: `Economics.AttemptsExactly` and
  `Economics.ReceiptPassesExactly` take the parser's guarantee of positive attempts.
- Admin routes, terminal interface, attachments, request detection, model lists and catalogues.

# What the manager promises, proved

The manager operates one sing-box proxy. It generates configurations, deploys them through a
privileged helper with backup and rollback, and hands client configurations to users under limits.
This project models that behaviour in Dafny and proves what holds of it over every input, every run
and every interleaving. `dafny verify dfyconfig.toml` checks all of it.

| file | models |
|---|---|
| `BackupNames`, `Helper` | the helper: config file, backup directory, names with one-second resolution, and the service's last restart |
| `Deployer` | the deploy pipeline, as segments between sleeps and as the program that runs them |
| `DeployWorld`, `SerialDeploys`, `ActiveState`, `Activation` | activations and all other requests in one event loop, the database, and what the active flags mean |
| `LoginLimiter` | the in-memory login limiter |
| `Routing`, `Generator`, `ClientGenerator` | configurations as programs of first-match rules, for the host and for clients |
| `PosixPaths`, `AppBypass`, `BypassForms` | the list of programs that bypass the tunnel, from the form to the rules |
| `NodeRows`, `NodeStore`, `NodeEdits` | stored nodes, export and import, and edits that overlap |
| `Distribution`, `ClientConfigs`, `Groups`, `UserCommands`, `Deliverable` | assignments, documents, group versions, the delivery limit, and all of these together |
| `LogInsights`, `BotPolling` | the log summary and the Telegram polling loop |
| `Prelude`, `Text`, `Sequences`, `Sorting` | results, Python strings, comprehensions, stable sorting |

Code that changes state step by step is written as classes and loops whose methods are proved equal
to specification functions; the lemmas are about those functions. External answers (validator,
restart, polls, file system, send failures, clocks) are arbitrary parameters.

## Where the code falls short of its purpose

Each of these is a lemma that gives the failing case, next to the exact condition for success.

- A rollback that runs in the same second as the install restores nothing: the pre-restore backup
  overwrites the backup being restored. The call still reports a rollback
  (`Deployer.SameSecondRollbackFails`, condition in `Deployer.RollbackContract` and
  `Helper.RestoreContract`). Only a failed restart can roll back that fast; the health poll sleeps
  six times first.
- Two deploys in one second lose a configuration (`Helper.SameSecondLosesConfig`, condition in
  `Helper.StepLosesNothing`).
- Requests while a deploy is in flight can leave an active flag that does not describe the disk: a
  restore that changes the config (`ActiveState.RestoreInFlightBreaksAgreement`), a restore that fails
  after its own backup while the deploy is in its first sleep, in the second of its install
  (`ActiveState.FailedRestoreInFlightBreaksAgreement`), a delete of the node or of the profile being
  activated (`ActiveState.DeleteInFlightBreaksAgreement`), and a row added under the key of a deleted one.
  `ActiveState.InFlightExactly` says for every request but activations, made during any of the sleeps, exactly when the
  deploy's end finds things in disagreement; requests that are harmless whatever the end are covered by
  `ActiveState.OtherKeepsSound`.
- A node deleted while a profile is activated on it, and another one added under its key: a profile ends
  up active beside a node it does not name (`ActiveState.ReusedKeyBreaksPair`, condition in
  `ActiveState.KeyReuseExactly`).
- Edits of nodes wait for a geo lookup before they commit. Two that overlap can leave a row with the URL of
  one and the protocol of the other (`NodeEdits.OverlapMixesProtocols`, condition in
  `NodeEdits.WrittenFromUrlExactly`), and an edit of a deleted row whose key has been handed out again writes
  its URL into the new row (`NodeEdits.ReusedKeyTakesForeignUrl`, condition in
  `NodeEdits.WrittenReadsBackExactly`).
- A path such as `/a /.` is accepted, stored as `/a ` and read back as another path
  (`AppBypass.BlankPathIsAccepted`, condition in `AppBypass.SaveLoadRoundTrip`).
- The delivery window is measured on recorded times, which are cut to whole seconds, so by the times
  commands are handled it is up to a second short of an hour (`UserCommands.RecordedTimesWidenWindow`,
  just outside the window of `UserCommands.PermittedWithinShortHour`).
- An import element refused for its role has already rewritten its row
  (`NodeStore.RefusedItemStillWrites`, condition in `NodeStore.RefusedItemExactly`).

## Model

| member | source | states |
|---|---|---|
| BackupNames.NameOrder | scripts/singbox-manager-helper:56-57 | string order of backup names is chronological order, and distinct seconds give distinct names |
| BackupNames.ExtractionRecoversName | app/singbox/deployer.py:67-69 | from the helper's output the deployer recovers exactly the backup name it printed, whatever noise follows; with no backup line only the noise can supply a name |
| BackupNames.FindNameExactly | app/singbox/deployer.py:67-69 | a name is found exactly if the output has one anywhere, and it is the first |
| BackupNames.PatternParts | scripts/singbox-manager-helper:38 | what matches the pattern is the prefix, eight digits, an underscore, six digits and the suffix, and perhaps a newline; `PartsMatch` is the converse |
| Helper.Host.MakeBackup | scripts/singbox-manager-helper:52-59 | no backup without a config; otherwise the config under the current second, or an error that changes nothing |
| Helper.Host.DeployAction | scripts/singbox-manager-helper:62-80 | the whole new disk and the printed output of a deploy action |
| Helper.Host.RestoreAction | scripts/singbox-manager-helper:108-127 | the whole new disk of a restore action, with the pre-restore backup taken before the copy |
| Helper.Host.RestartAction | scripts/singbox-manager-helper:83-94 | the service loads the config, or stays down |
| Helper.DeployContract | scripts/singbox-manager-helper:62-80 | a failed deploy leaves the config alone; a successful one installs the source, keeps the old config under its second, and touches no other backup |
| Helper.RestoreContract | scripts/singbox-manager-helper:108-127 | a successful restore brings back the named backup exactly when the pre-restore backup does not land on it, or it equals the current config |
| Helper.RestoreExactly | scripts/singbox-manager-helper:108-127 | a restore succeeds exactly for a well-named, well-formed backup that the file system lets it install; at most the slot of its own second changes, and the service never |
| Helper.FailedRestoreKeepsConfig | scripts/singbox-manager-helper:108-127 | a failed restore leaves the config alone |
| Helper.RestoreUndoesDeploy | scripts/singbox-manager-helper:62-127 | restoring a deploy's own backup undoes the deploy exactly in another second, or when the deploy changed nothing |
| Helper.StepLosesNothing | scripts/singbox-manager-helper:52-127 | one action keeps every content that is current or backed up exactly when the backup it overwrites, if any, survives elsewhere |
| Helper.NothingIsEverLost | scripts/singbox-manager-helper:52-127 | over any run of deploys and restores whose backups are taken in distinct seconds, every content ever on disk or backed up stays so |
| Helper.SameSecondLosesConfig | scripts/singbox-manager-helper:56-58 | two deploys in one second lose a configuration |
| Helper.ListingIsNewestFirst | scripts/singbox-manager-helper:97-105 | the listing holds exactly the well-named files, each once, newest first |
| Helper.ListingIgnoresDirectoryOrder | scripts/singbox-manager-helper:101-104 | the listing does not depend on the order the directory is read in |
| Deployer.Pipeline.WaitServiceActive | app/singbox/deployer.py:76-81 | true exactly when one of the six looks finds the service active |
| Deployer.Pipeline.DoRollback | app/singbox/deployer.py:84-94 | restores the named backup, restarts the service after that, and reports whether the restore worked |
| Deployer.Pipeline.RunDeploy | app/singbox/deployer.py:112-184 | the pipeline leaves config, backups and service as, and returns the result that its segments, run without interference, lead to |
| Deployer.Pipeline.DeployWithRollback | app/singbox/deployer.py:97-109 | a held lock turns the call away without touching config, backups or service; otherwise the pipeline runs and the lock is free again |
| Deployer.PollOutcome | app/singbox/deployer.py:76-81 | the first wake-up that finds the service active ends the call well; otherwise the one after the sixth sleep rolls back |
| Deployer.RollbackContract | app/singbox/deployer.py:84-94 | a rollback succeeds exactly onto a well-formed older config that the file system lets it install, brings it back exactly in another second or when nothing had changed, and restarts the service on what it put back |
| Deployer.BeginContract | app/singbox/deployer.py:112-163 | up to the first sleep a call either ends honouring the contract or has the new config installed and the old one backed up |
| Deployer.ResumeContract | app/singbox/deployer.py:76-81 | a wake-up ends the call honouring the contract, or moves nothing |
| Deployer.DeployContract | app/singbox/deployer.py:112-184 | the full contract by stage of what is on disk, under the backup name, in the result, and loaded by the service, and exactly when a failure is rolled back; six wake-ups always end a call |
| Deployer.StageTellsWhatFailed | app/singbox/deployer.py:117-184 | each stage is returned exactly when its own external answer failed and the earlier ones did not |
| Deployer.SameSecondRollbackFails | app/singbox/deployer.py:146-160 | a restart failure rolled back within the same second reports a rollback and leaves the rejected config, the old one lost |
| DeployWorld.ExclusiveStep | app/singbox/deployer.py:102-109 | every step keeps mutual exclusion, and a call that meets the lock changes neither config, backups, service, lock nor rows |
| DeployWorld.OneDeployAtATime | app/singbox/deployer.py:97-109 | in every run at most one call is in the pipeline, the lock is held exactly then, and no call ever queues for it |
| DeployWorld.GeneratedFollowsSettings | app/services/deploy.py:28-48 | a configuration is generated exactly for a supported node with known presets; it dials that node, decides every connection by the route preset of the profile, or else the stored one, and the stored process list, and has the DNS preset and log level that are stored for it |
| DeployWorld.CommittedExactly | app/services/deploy.py:51-71 | log, flags and settings after a deploy: a row and nothing else after a failure, nothing when a row to be flagged is gone, otherwise the row, one flagged node, the one flagged profile if there is one, and its presets |
| DeployWorld.RestoredExactly | app/routes/system.py:108-118 | a restore that succeeds restarts the service on the config it installed; one that fails leaves both alone |
| SerialDeploys.InterleavingIsSerial | app/singbox/deployer.py:76-184 | config, backups, service and answers of every interleaving are those of the accepted deploys, restores and service buttons run one after another, restores and buttons that act during a deploy excepted; all other calls were turned away |
| SerialDeploys.ButtonsOnlyTouchTheService | app/routes/dashboard.py:49-60 | with service buttons pressed at any time, config, backups, tables and answers are still those of the accepted deploys and restores one after another, unless a backup is restored during a deploy |
| ActiveState.FlagsAlwaysConsistent | app/services/deploy.py:65-70 | in every run at most one node and one profile are active, an active profile's presets are the stored ones, and it names the active node, as long as a key that a deploy in flight is to flag is given only to a matching row |
| ActiveState.CommitPairsExactly | app/services/deploy.py:65-70 | the commit keeps "an active profile names the active node" exactly when the rows it flags match |
| ActiveState.KeyReuseExactly | app/services/deploy.py:65-70 | when the deploy in flight ends, at whichever wake-up after a request, the pair is kept exactly if it fails or the request reused no key badly |
| ActiveState.ReusedKeyBreaksPair | app/models.py:10 | a node deleted in flight and another added under its key ends up active beside a profile that names the old one |
| ActiveState.SuccessAgreesExactly | app/services/deploy.py:51-71 | after a success, flags, log and disk agree exactly when the flagged rows fit the configuration and it is on disk |
| ActiveState.FailureAgreesExactly | app/services/deploy.py:51-63 | after a failure they agree exactly when it is on record as left behind, nothing is active, the log already warned, or the disk is as before |
| ActiveState.CommitAgrees | app/services/deploy.py:50-71 | the end of an accepted call keeps flags, log and disk in agreement |
| ActiveState.AcceptKeepsSound | app/services/deploy.py:23-71 | accepting an activation keeps the invariant behind the agreement |
| ActiveState.WakeKeepsSound | app/singbox/deployer.py:76-184 | every wake-up keeps it |
| ActiveState.OtherKeepsSound | app/routes/system.py:108-118 | every other request keeps it, if it is harmless to the deploy in flight |
| ActiveState.InFlightExactly | app/singbox/deployer.py:76-81 | for every request but activations, during any sleep of a deploy, and all wake-ups the deploy then still has: flags, log and disk agree at its end exactly under the stated condition on request and end |
| ActiveState.ActiveMeansDeployed | app/services/deploy.py:50-71 | in every state reached by harmless requests an active node is the one last deployed, with the presets of the active profile, and its config is on disk unless a later row reports a deploy left behind; during a deploy this holds of the backup |
| ActiveState.OriginOf | app/services/deploy.py:28-50 | every configuration in the log or in flight was generated for an activation of the run, from what was stored when it was accepted |
| ActiveState.DiskRoutesThroughActive | app/services/deploy.py:28-50 | in such a state without a deploy left behind, the config on disk is closed and is that of an accepted activation of the run: it dials the active node and decides every connection by the presets and the process list stored when that activation was accepted; the presets of the active profile are its presets |
| ActiveState.RestoreInFlightBreaksAgreement | app/routes/system.py:108-118 | any in-flight restore that changes the config, followed by a successful deploy, breaks the agreement |
| ActiveState.FailedRestoreInFlightBreaksAgreement | scripts/singbox-manager-helper:121-125 | a restore that fails after its own backup, in the first sleep of a deploy and the second of its install, makes the rollback put the rejected config back |
| ActiveState.DeleteInFlightBreaksAgreement | app/services/nodes.py:149-160 | deleting the node or profile being deployed leaves another state flagged while the new config is on disk |
| ActiveState.SameSecondRollbackBreaksAgreement | app/singbox/deployer.py:146-160 | a same-second rollback breaks the agreement although the log looks clean |
| Activation.Manager.RecordDeploy | app/services/deploy.py:51-71 | the log row and flags written after a deploy; nothing at all when a row to be flagged is gone |
| Activation.Manager.Generate | app/services/deploy.py:28-48 | the configuration a target is generated; where there is one, it follows the stored settings, presets and process list as stated for `DeployWorld.GeneratedFollowsSettings` |
| Activation.Manager.DeployGenerated | app/services/deploy.py:50-71 | deploy, row, flags and settings of a generated configuration |
| Activation.Manager.Activate | app/services/deploy.py:23-71 | a whole activation, for a node or a profile: configuration, pipeline, rows and settings |
| Activation.Manager.RestoreBackupRoute | app/routes/system.py:108-118 | a restore restarts the service and clears all node flags exactly when it succeeds |
| Activation.Manager.SaveSettings | app/routes/settings.py:40-58 | all three settings are saved, and profile flags cleared, exactly when all three values are known |
| Activation.AloneInTheWorld | app/services/profiles.py:72-90 | what the program promises of an activation is what the state machine does with one that is left alone, from acceptance or rejection to its end |
| Activation.AloneSucceedsExactly | app/services/deploy.py:50 | an accepted activation left alone is done exactly if the configuration is valid and can be installed, the service restarts, and one of six looks finds it active |
| LoginLimiter.Limiter.RateLimitOk | app/auth.py:100-117 | answer and new dictionary of one call, with stale keys swept in place |
| LoginLimiter.SweepingIsInvisible | app/auth.py:106-111 | sweeping removes nothing that still counts |
| LoginLimiter.StepRefines | app/auth.py:100-117 | one call answers as the limiter that remembers everything, and goes on doing so at every later time |
| LoginLimiter.LimiterRefinesNaive | app/auth.py:94-117 | over every run with a clock that does not go back, the answers equal those of keeping all accepted attempts forever |
| LoginLimiter.AcceptedExactly | app/auth.py:94-117 | over every run an attempt is accepted exactly when fewer than five of its address were accepted less than sixty seconds before |
| LoginLimiter.AtMostFivePerMinute | app/auth.py:94-117 | at most five attempts of an address are accepted in any half-open window of sixty seconds |
| LoginLimiter.RunBounded | app/auth.py:94-117 | after every call lists have at most five entries, and there are at most 501 keys or one more than fresh addresses |
| Routing.BypassRulesMeaning | app/singbox/routes.py:100-111 | the process rules send exactly the listed processes direct |
| Routing.BypassOnlyAffectsListed | app/singbox/routes.py:114-131 | a process list sends listed processes direct and changes nothing for any other connection |
| Routing.RouteMeaning | app/singbox/routes.py:13-131 | the whole decision of a generated route: process list, DNS, blocked names, Russian names, preset, final |
| Routing.GuardsIgnorePreset | app/singbox/routes.py:13-43 | connections hit by the DNS hijack or a guard are decided alike under every preset and final outbound |
| Routing.RouteReferences | app/singbox/routes.py:46-97 | rules and rule-set downloads name only the built-in outbounds, and every rule set used is declared |
| Routing.PresetIsRecoverable | app/singbox/routes.py:46-131 | routes built for different presets differ, whatever the process lists |
| PosixPaths.NormalIsStable | app/services/app_bypass.py:143-147 | the normal form of a path has its components and is its own normal form |
| PosixPaths.NormalIsNoLonger | app/services/app_bypass.py:144-147 | normalising never lengthens an absolute path |
| PosixPaths.RootExactly | app/services/app_bypass.py:147 | exactly two leading slashes of a path are kept, any other number becomes one |
| AppBypass.ParseExactly | app/services/app_bypass.py:139-188 | a match is accepted exactly if, trimmed, it is a name of at most 120 characters without slash, blank or control characters, or an absolute path of at most 240 that ends in a component and goes nowhere up |
| AppBypass.ParseIsCanonical | app/services/app_bypass.py:139-151 | what parsing returns is a clean name, or a normal path with its last component |
| AppBypass.ParseIsIdempotent | app/services/app_bypass.py:139-151 | parsing its own output changes nothing exactly for paths that do not end in a blank |
| AppBypass.BlankPathIsAccepted | app/services/app_bypass.py:143-147 | a concrete accepted path that ends in a blank |
| AppBypass.BuildEntriesFromForm | app/services/app_bypass.py:85-136 | the loops over selections and custom lines compute the specified entries or error |
| BypassForms.SelectAllExactly | app/services/app_bypass.py:94-112 | selections are accepted exactly if every application is valid, reported and has a match that parses; they yield one entry for each different one, in order, matched by what the user typed, else by its path, else by its name |
| BypassForms.CustomAllExactly | app/services/app_bypass.py:114-132 | custom lines are accepted exactly if every one that is not blank parses and at most forty are new; they add one entry for each new match, in order |
| BypassForms.FormAcceptedExactly | app/services/app_bypass.py:85-136 | a form is accepted exactly if its selections and lines are and yield at most two hundred entries |
| BypassForms.FormEntriesExactly | app/services/app_bypass.py:85-136 | the entries of an accepted form are those of its applications, then those of its lines |
| AppBypass.FormEntriesSound | app/services/app_bypass.py:85-136 | entries of an accepted form are canonical, at most two hundred, with distinct identifiers |
| AppBypass.LoadBypassEntries | app/services/app_bypass.py:28-41 | loading keeps the acceptable elements in order, and yields nothing for malformed settings |
| AppBypass.LoadedExactly | app/services/app_bypass.py:154-177 | an element is loaded exactly if its trimmed path is empty or absolute, its path or else its name parses, and it is custom or has a valid identifier; match, flag, identifier and cut name of what is loaded |
| AppBypass.AppIdExactly | app/services/desktop_apps.py:11 | an identifier made of one of the three places and a file name is valid exactly if the name is plain and not empty |
| AppBypass.ValidAppIdParts | app/services/desktop_apps.py:11 | every valid identifier is of that form |
| AppBypass.SaveLoadRoundTrip | app/services/app_bypass.py:28-57 | saving then loading gives back the same matches in order exactly when no path ends in a blank |
| AppBypass.ProcessBypassForConfig | app/services/app_bypass.py:68-82 | the loop computes paths and names in order of first appearance |
| AppBypass.BypassListsEntries | app/services/app_bypass.py:68-82 | a process is listed exactly when some entry has its path, or no path and its name; nothing is listed twice |
| AppBypass.FormDecidesRouting | app/services/app_bypass.py:68-136 | a connection goes direct for the list exactly when an entry of the form covers its process, and is otherwise routed as without one |
| Generator.TransportContract | app/singbox/generator.py:55-94 | a VLESS transport is built exactly for the five supported kinds, without an HTTP header on TCP |
| Generator.TlsContract | app/singbox/generator.py:31-50 | TLS is set up exactly for `tls` and `reality`, with a public key exactly for the latter, which needs one |
| Generator.BuildContract | app/singbox/generator.py:134-139 | an outbound is built exactly for supported nodes, and keeps tag, server and port |
| Generator.OutboundDialsAsWanted | app/singbox/generator.py:15-139 | what an outbound dials, read off the outbound alone, is what the link of its node asks for: server, credential, flow, handshake, carrier, obfuscation and bandwidths, with the stated defaults |
| Generator.GenerateExactly | app/singbox/generator.py:142-172 | a host configuration exists exactly for a supported node with known presets and level |
| Generator.HostConfigClosed | app/singbox/generator.py:142-172 | a host configuration names only outbounds it has; tags are distinct exactly if the node did not take a built-in one |
| Generator.HostConfigRoutes | app/singbox/generator.py:142-172 | a host configuration decides every connection as its preset, its process list and its node say |
| ClientGenerator.ValidateNodeTags | app/singbox/client_generator.py:62-75 | the loop finds exactly the duplicated, then the reserved tags |
| ClientGenerator.ValidTagsMeaning | app/singbox/client_generator.py:62-75 | tags pass exactly when pairwise distinct and not reserved |
| ClientGenerator.ClientConfigCanonical | app/singbox/client_generator.py:16-59 | permuting any nodes changes neither the configuration nor the error |
| ClientGenerator.SortedFailsOnlyInBuild | app/singbox/client_generator.py:31-59 | with valid tags, generation fails exactly when some outbound cannot be built |
| ClientGenerator.ClientConfigClosed | app/singbox/client_generator.py:31-59 | client outbound tags are distinct, and rules, final, selector and downloads name only outbounds that exist |
| ClientGenerator.DefaultExitIsLeastTag | app/singbox/client_generator.py:36-44 | unmatched traffic leaves through the node with the least tag |
| ClientGenerator.ClientConfigRoutes | app/singbox/client_generator.py:16-59 | a client configuration decides every connection by its route preset without a process list, through the selector of several nodes or the only node; DNS and level are those asked for |
| ClientGenerator.ClientConfigOutbounds | app/singbox/client_generator.py:31-59 | its outbounds are those built from the nodes, each once and in order of tags, then the selector of several, then the two built-in ones |
| ClientGenerator.ClientConfigExists | app/singbox/client_generator.py:16-75 | it exists exactly for a non-empty list of supported nodes with distinct, unreserved tags, and known presets and level |
| ClientGenerator.OneNodeClientIsHost | app/singbox/client_generator.py:16-59 | for one node, the client configuration is the host's without process rules, or an error exactly for a reserved tag or where the host has one |
| NodeStore.Store.AddOrUpdate | app/services/nodes.py:118-146 | the new table after adding a URL: one row appended or the row of that tag rewritten |
| NodeStore.Store.Delete | app/services/nodes.py:149-160 | the row is gone, the others stay in order |
| NodeStore.Store.UpdateMetadata | app/services/nodes.py:163-178 | the row with the metadata of the form, or no change for an unknown role |
| NodeStore.Store.RefreshGeo | app/services/nodes.py:181-188 | the row with the geo columns found |
| NodeStore.Store.ImportNodes | app/services/nodes.py:196-232 | the new table and counts of an import, or nothing when the commit fails |
| NodeStore.AddedExactly | app/services/nodes.py:118-146 | adding a URL rewrites the row of its tag, which keeps place, flag and the metadata no lookup finds out, or appends an inactive row; no other row changes |
| NodeStore.EditedExactly | app/services/nodes.py:163-178 | the metadata form is refused exactly for an unknown role; otherwise each field ends up trimmed in its own column, the country code in capitals and cut to eight, and nothing else changes |
| NodeStore.ImportUpdatesExactly | app/services/nodes.py:251-262 | what an import element writes into the row of its tag, column by column: its text where it has some, its role where it has one |
| NodeStore.NewRowExactly | app/services/nodes.py:265-279 | what row an element with a new tag becomes, column by column, and that its country is looked up only when it names none |
| NodeStore.ImportContract | app/services/nodes.py:196-232 | imported, errors and blanks add up to the payload; the commit fails exactly when two new rows share a tag; the table stays sound |
| NodeStore.StoreAlwaysSound | app/services/nodes.py:118-232 | over any requests one after another, metadata edits and geo refreshes included, tags are unique, and every row is as its URL parses, under a known role |
| NodeStore.RefusedItemExactly | app/services/nodes.py:251-262 | an element counted as an error adds no row, and changes none exactly unless it names a stored tag, carries an unknown role and brings something new for the row |
| NodeStore.RefusedImportLeavesNothing | app/services/nodes.py:196-232 | an import of refused elements only, none of that kind, leaves the table as it was |
| NodeStore.RefusedItemStillWrites | app/services/nodes.py:251-262 | a concrete element refused for its role whose notes are stored |
| NodeStore.ExportImportSameStore | app/services/nodes.py:191-262 | export then import counts every row, and is the identity exactly when no metadata has blanks around it |
| NodeStore.ExportImportEmptyStore | app/services/nodes.py:191-279 | import into an empty table rebuilds the rows in order, inactive, identical exactly when metadata is absent or has no blanks around it |
| NodeStore.ReachableRoundTrips | app/services/nodes.py:191-279 | both round trips hold of every table that requests lead to |
| NodeEdits.WrittenReadsBackExactly | app/services/nodes.py:118-146 | a commit leaves a row whose URL parses to its node and tag exactly when the edit left the URL alone, or the row under the key still has the tag it was loaded with |
| NodeEdits.WrittenExactly | app/services/nodes.py:118-146 | of each column a commit writes what the edit made of it, if that is anything new, and leaves the others as they are by then |
| NodeEdits.UndisturbedEdit | app/services/nodes.py:118-146 | an edit of a row nobody else has changed leaves it just as it made it |
| NodeEdits.WrittenFromUrlExactly | app/services/nodes.py:118-146 | it leaves protocol and schema fitting, too, exactly when they are written or agree anyway |
| NodeEdits.RowsAlwaysReadBack | app/services/nodes.py:118-232 | however adds, imports, refreshes and deletes overlap, tags are unique and every row's URL parses to its node and tag, as long as no key passes to another tag under an open edit |
| NodeEdits.OverlapMixesProtocols | app/services/nodes.py:118-146 | two overlapping edits of a row that leave the URL of one with the protocol of the other |
| NodeEdits.ReusedKeyTakesForeignUrl | app/models.py:10 | an edit of a deleted row that writes its URL into the row that got the key |
| NodeRows.DeserializeKeepsTag | app/services/nodes.py:42-92 | a row whose URL parses to its node and tag reads back with its own tag, whatever its protocol column says |
| NodeRows.DeserializeExactly | app/services/nodes.py:42-92 | reading a row fails only on an unknown protocol; the URL decides where it still parses to the stored protocol, the stored fields everywhere else |
| Distribution.ParseNodeTagList | app/services/node_tags.py:7-19 | the loop computes the trimmed tags in order of first appearance |
| Distribution.ParsedTagsClean | app/services/node_tags.py:7-19 | parsed tags are trimmed, not blank, without repetition, and exactly those mentioned |
| Distribution.CleanTagsAreStable | app/services/node_tags.py:7-33 | such tags survive storing and parsing unchanged |
| Distribution.EffectiveLimit | app/services/distribution.py:105-113 | the limit in force is always positive |
| Distribution.LimitPrecedence | app/services/distribution.py:105-113 | the positive limit of the user, else the positive one of the group, else ten |
| Distribution.AccessExactly | app/services/distribution.py:35-51 | who is refused and why: each of the five errors exactly under its own condition on the first user of that id and the group; all others are assigned what the group says |
| Distribution.GroupAssignmentExactly | app/services/distribution.py:63-90 | each error of a group exactly under its own condition on tags, stored nodes and preset; otherwise preset, version, fingerprint and limit that go with the nodes |
| Distribution.AssignedExactly | app/services/distribution.py:35-90 | somebody is assigned nodes exactly when the first user of that id is enabled and names an existing, enabled group with a usable preset and at least one tag, all of them stored |
| Distribution.AssignmentIsExact | app/services/distribution.py:63-90 | an assignment without error has one node for every tag of its group, no other, in order of tags |
| Distribution.FingerprintCanonical | app/services/distribution.py:93-102 | with distinct tags the order of nodes does not enter the fingerprint |
| Distribution.FingerprintIdentifies | app/services/distribution.py:93-102 | equal payloads mean the same preset, and nodes with the same tags, protocols and URLs |
| ClientConfigs.SbclientProfiles | app/services/client_configs.py:72-91 | the loop computes the specified profiles or the first error |
| ClientConfigs.ProfilesContract | app/services/client_configs.py:72-91 | with clean tags, profiles are named by tag in order, and fail only on an unbuildable node or a long tag |
| ClientConfigs.ProfilesTell | app/services/client_configs.py:72-91 | each profile has the trimmed tag and the URL of its row, and the preset of the assignment |
| ClientConfigs.RowErrorExactly | app/services/client_configs.py:72-91 | what is wrong with a row on its own, each reason exactly where it applies first |
| ClientConfigs.BundleExists | app/services/client_configs.py:45-91 | a bundle exists exactly for an error-free assignment with rows that each pass, under distinct names |
| ClientConfigs.ConfigExists | app/services/client_configs.py:24-42 | a client configuration exists exactly for an error-free assignment of readable, supported nodes with distinct, unreserved tags and a known preset |
| ClientConfigs.ConfigDocumentRoutes | app/services/client_configs.py:24-42 | the client configuration of an assignment decides every connection by the preset of the assignment, through its nodes, without a process list, with the default DNS and level |
| ClientConfigs.DocumentsFailOnlyInBuild | app/services/client_configs.py:24-91 | for an error-free assignment, the configuration fails exactly on an unbuildable node, the bundle exactly there or on a tag over eighty characters |
| ClientConfigs.DocumentsAgree | app/services/client_configs.py:53-58 | the bundle lists profiles with tag, URL and preset in the order of the configuration's outbounds, and its default is the configuration's default exit |
| ClientConfigs.ProfilesCanonical | app/services/client_configs.py:72-91 | permuting nodes with distinct tags changes neither profiles nor error |
| Groups.GroupService.CreateGroup | app/services/users.py:81-108 | the group that is added, or the error and no change |
| Groups.GroupService.UpdateGroup | app/services/users.py:111-147 | the updated group; notices exactly when the change is effective and the group enabled |
| Groups.GroupService.NotifyGroupConfigChanged | app/services/users.py:228-266 | exactly one row for each enabled member, in order, with version and fingerprint, sent or not |
| Groups.GroupService.DeleteGroup | app/services/users.py:150-160 | the group is gone and no user refers to it |
| Groups.CheckedTagsSound | app/services/users.py:283-314 | accepted tags are clean, known and not reserved, the preset known, the name free, the limit positive |
| Groups.FormAcceptedExactly | app/services/users.py:81-147 | a form is accepted exactly if its name is there and free, every tag it mentions is stored and not reserved, its preset known or open, its limit positive or open |
| Groups.NewGroupAsAsked | app/services/users.py:97-108 | a new group has name, flag, tags, preset and limit of the form, and version one |
| Groups.UpdatedGroupAsAsked | app/services/users.py:132-143 | an updated group has them too, keeps its key, and gets a higher version exactly when the set of tags or the preset changed |
| Groups.MembersExactly | app/services/users.py:232 | those notified are the enabled users of the group |
| Groups.ClearedExactly | app/services/users.py:150-160 | a deleted group is taken from just its users, and nothing else about anybody changes |
| Groups.NoticeTellsAssignment | app/services/users.py:236-237 | a notice carries the fingerprint its reader is assigned |
| Groups.NoticeFingerprintExactly | app/services/users.py:236-237 | it carries one exactly if some node of the group is stored, and that covers every node that is |
| Groups.GroupsAlwaysSound | app/services/users.py:81-160 | over any requests, with nodes changing meanwhile, all groups stay sound and names unique |
| Groups.VersionCountsChanges | app/services/users.py:132-143 | the version is one plus the number of updates that changed the set of tags or the preset |
| Groups.EqualVersionsEqualMeaning | app/services/users.py:132-143 | over any updates, equal versions mean the same set of tags and the same preset |
| Groups.EqualVersionsEqualAssignment | app/services/distribution.py:63-90 | one version of a group assigns the same nodes under the same fingerprint, or fails alike, while the nodes stay |
| UserCommands.Handler.RecordDelivery | app/services/distribution.py:134-156 | one row is appended |
| UserCommands.Handler.Handle | app/telegram/handlers.py:124-219 | the answer of every branch, and the log it leaves |
| UserCommands.OneRowPerCommand | app/telegram/handlers.py:124-219 | over every run the log is what it was and one row for each command, in order, with caller, user, group, name, version, fingerprint and time, marked a success exactly when what was asked for was delivered |
| UserCommands.AnswersExactly | app/telegram/handlers.py:124-219 | every answer exactly under its own condition on command, caller, assignment, recent attempts and documents |
| UserCommands.PermittedToTheEnabled | app/telegram/handlers.py:124-219 | over every run, whoever a delivery is permitted to is an enabled user of an existing, enabled group, and the limit in force is the positive one of the user, else of the group, else ten |
| UserCommands.AttemptsConsumeWindow | app/telegram/handlers.py:153-156 | over every run, such a command is refused exactly when the caller's delivery commands recorded in the hour before, permitted, failed and refused alike, have reached the limit then in force |
| UserCommands.PermittedWithinLimit | app/services/distribution.py:116-131 | over every run, the deliveries permitted to a caller and recorded less than an hour before a permitted one, it included, number at most the limit then in force |
| UserCommands.PermittedWithinShortHour | app/services/distribution.py:116-131 | over every run, the deliveries permitted to a caller and handled at most an hour less a second before a permitted one, it included, number at most the limit then in force |
| UserCommands.RecordedTimesWidenWindow | app/models.py:124 | with a limit of one, two deliveries a microsecond further apart than that can both pass |
| Deliverable.AssignmentsAreDeliverable | app/services/client_configs.py:24-91 | after any requests to nodes and groups, an error-free assignment has exactly its group's tags and its documents fail only in building an outbound or on a long tag |
| Deliverable.OverlappingEditsAreDeliverable | app/services/client_configs.py:24-91 | the same when edits of nodes overlap, as long as no key passes to another tag under an open edit |
| LogInsights.SummarizeProblemLogs | app/services/log_insights.py:33-53 | the loop over lines computes the specified summary |
| LogInsights.KeysDistinct | app/services/log_insights.py:39-46 | no two buckets have the same key |
| LogInsights.CountsSumToLines | app/services/log_insights.py:35-51 | the counts of all buckets sum to the number of recognised lines |
| LogInsights.LastSeenIsMaximum | app/services/log_insights.py:47-49 | the timestamp of a bucket is the greatest of its lines |
| LogInsights.BucketsAreTrue | app/services/log_insights.py:33-51 | each bucket has the number of its lines and the greatest of their timestamps |
| LogInsights.SummaryIsTop | app/services/log_insights.py:53 | the summary has as many buckets as allowed, from the most frequent down, among equally frequent ones the latest first, and no bucket it omits is more frequent, or as frequent and later, than one it shows |
| LogInsights.BucketsIgnoreOrder | app/services/log_insights.py:33-51 | permuting the lines does not change the buckets |
| BotPolling.Runner.PollOnce | app/telegram/bot.py:80-90 | offset and updates taken in one round, up to and including the update whose handling fails |
| BotPolling.PollConsumes | app/telegram/bot.py:80-90 | one round extends what has been consumed without gap or repetition: by nothing after a failed request, by the whole batch when nothing raises, and otherwise up to and including the update that raised |
| BotPolling.PollingIsExactlyOnce | app/telegram/bot.py:80-110 | over every run, an update lies below the offset exactly when it has been taken, once, and has been dispatched, once, exactly when besides it is of a chat; dispatched ids strictly increase |

## Left out

- Deployer.DeployContract: assumes that a failing copy, or the permission change after it, leaves the config as it was, and that no helper call is cut off by its timeout. Without a previous config the helper prints no backup line; then the rest of its output, a fixed message, is assumed to hold no backup name.
- Deployer.DeployContract: error texts, notifications, log lines and the best-effort restart after a rollback are not modelled; the digest of a configuration stands for the configuration.
- BackupNames.NameOrder: the clock reads local time; a clock set back is outside the order of seconds, and years are those printed with four digits. Digits in names are ASCII only.
- DeployWorld.OneDeployAtATime: requests that fail before they change anything, such as an activation whose configuration cannot be generated, are no steps of the state machine; `Activation.Manager.Activate` has them. A crash of the process is not modelled.
- DeployWorld.ExclusiveStep: that flushing a deleted row fails and rolls the whole transaction back is taken from the database library, not proved.
- Activation.Manager.Activate: rows are values in maps, so aliasing of loaded row objects is not captured. The node an activation deploys is a parameter with the tag of its row, as deserializing yields it.
- NodeEdits.RowsAlwaysReadBack: rows loaded but not changed may be loaded anew by a session; the flags that activations set are not part of these steps.
- LoginLimiter.LimiterRefinesNaive: clock readings are exact numbers; rounding of floating point is not modelled.
- Routing.RouteMeaning: case folding of domain names, and the match rules of sing-box beyond the criteria generated here.
- AppBypass.SaveLoadRoundTrip: the display name is left out, since loading trims it and cuts it to eighty characters.
- AppBypass.BuildEntriesFromForm: splitting the custom text into lines, and scanning for installed applications.
- ClientGenerator.ValidateNodeTags: the error carries all duplicated tags; the message shows the first five.
- NodeRows.DeserializeKeepsTag: URL parsing is an arbitrary function; percent-decoding of stored Hysteria2 secrets when the URL no longer parses.
- NodeStore.Store.ImportNodes: the geo lookup is an arbitrary function, and the JSON text of a payload is given as its elements.
- UserCommands.PermittedWithinLimit: timestamps are numbers; that the database compares them as text, so that a row recorded exactly on the cutoff is not counted, is built into the comparison.
- Groups.GroupService.UpdateGroup: descriptions and notes, and edits by others between the messages to the members.
- LogInsights.SummarizeProblemLogs: the regular expressions that recognise and normalise a line; each line is given as what it parses to. Limits are not negative.
- BotPolling.PollingIsExactlyOnce: after a restart of the process the offset is forgotten, and the server may repeat unconfirmed updates.
- Session tokens, CSRF checks, password checks: decisions one reading settles.
- HTML pages, presenters, metrics, health probes, settings files, installation and migrations.
- Admin commands of the Telegram bot, and creating, updating and deleting users: field assignments.
- JSON text, SHA-256 and HMAC: configurations and payloads are data before encoding.

# Xylona: verified models

Xylona runs game servers on nodes. This project models the parts of it that are hardest to get
right and proves what they promise. Each module follows one part of the program; classes have the
fields that the program updates, methods follow its functions, and lemmas state what holds of every
run.

- `PackageNames`, `DependencyPlanner`: which versions of a Valheim mod and its dependencies are
  installed, and in which order. The provider is any function, which may answer the same request
  differently each time.
- `ModPaths`, `FileMoves`, `ModTransactions`: replacing a mod's files on a remote server so that any
  failure can be undone, and enabling, disabling and removing mods by moving files. Every remote or
  database call may fail.
- `ModOwnership`, `ModContents`, `ValheimArchive`, `ModSupply`, `ModAdoption`, `ModInstaller`: what these
  operations do to every file and record, and which mod owns which file over whole runs of them, with any
  provider of packages and with the program's.
- `NodeEvents`, `NodeDelivery`, `NodeEmitter`, `EventBus`, `BusInterleavings`, `Streams`: the two event buses, one
  with replay and disconnection of slow subscribers, one lossy, whose publishers may overlap.
- `AlertPipeline`, `AlertOutcomes`, `AlertProgress`: listeners, a bounded channel and workers as a transition system whose
  steps are single selects and calls; cancellation, drain and stop, and what became of each job.
- `MetricsRollup`, `MetricsRows`: normalising sample counters and rolling samples up into hours.
- `SystemdQuoting`: the arguments of `ExecStart=` against a reader after systemd.syntax(7), section
  QUOTING, systemd.unit(5), section SPECIFIERS, and systemd.service(5), section COMMAND LINES.
- `Text`, `EnvLines`, `EnvReading`, `EnvFile`, `FirstRunSecrets`: generating first-run secrets and rewriting the `.env` file.
- `LaunchEnv`, `LaunchStart`: merging and validating launch environments, saved and at the start.
- `OfficialSync`, `OfficialRows`: synchronising shipped game definitions with a table that users edit.

`dafny verify dfyconfig.toml` checks everything.

## Findings

- An error from a package change does not mean that nothing was changed: if the read after the commit
  fails, the new files and records stay (`internal/modmanager/valheim-mods.go:341-345`).
  `ModTransactions.InstalledInSpiteOfError` is such a run. `ModTransactions.ModManager.ChangePackage` says
  exactly when it happens: the package is acceptable and that read is the first call to fail.
- An environment that could be saved cannot always be started: saving checks the variables of the game and
  of the server separately, each against a limit of 64
  (`internal/controller/api/rpc/game-server-environment.go:62-80`), starting checks them together
  (`internal/controller/actions/launch-environment.go:150`). `LaunchStart.SavedButNotStarted` is an example,
  `LaunchStart.SavedCanStart` the exact condition.
- A row whose content cannot be hashed makes a synchronisation of official games return an error at once
  (`internal/gamedefinitions/definitions.go:310-313`), so later definitions are not synchronised, and the
  program does not start until the row is repaired (`cmd/xylona/main.go:377-381`):
  `OfficialSync.UnreadableRowStopsSync` is such a table, `OfficialSync.ProgramFollowsExactly` and
  `OfficialSync.UneditedFollows` give the exact condition. The handlers validate what they save
  (`internal/controller/api/rpc/game.go:92-134`), so such a row has to come from elsewhere: another version
  of the program, or a change of the database by hand.
- A rollup replaces the hourly row of an hour that was rolled up before, so a sample that arrives late
  makes that hour's totals fall (`internal/db/metrics-history.go:522-673`):
  `MetricsRollup.LateSampleIsLost` is such a run, `MetricsRollup.ConservedExactly` the exact condition.
  Samples are stamped with the current time and cutoffs are whole hours in the past
  (`internal/controller/actions/metrics-recorder.go:444`), so this takes a clock that was set back.
- A job that a listener puts on the channel after the workers have exited is never processed
  (`internal/alerts/delivery.go:113-158`): `AlertOutcomes.LateJobIsLost` is such a run,
  `AlertOutcomes.ProcessedExactlyIfInTime` the exact condition.

Three functions rely on what surrounds them, and in the program that is as they need:

- `changeValheimPackage` lets the loader record an existing file with the same content even if another
  record has it already (`internal/modmanager/valheim-mods.go:218-236`). `ModOwnership.OwnershipOverRuns`
  proves that nothing else can break the ownership of files; `ModAdoption.SharedAdoption` and
  `ModAdoption.RespelledAdoption` show what this would do. The provider keeps every other package in
  directories of its own (`pkg/modproviders/thunderstore/valheim-archive.go:126-150`) and the loader's
  archive is pinned by its hash, so it does not happen: `ModSupply.OwnedAtEveryMoment`. What remains for
  those who change the pinned archive is `ModSupply.LoaderFiles`: no file in a directory of another
  package, and no file spelled differently than in an earlier version.
- `EnsureSecrets` returns a generated key even where the file has another value for a name that
  `Current` leaves blank (`internal/firstsetup/secrets.go:57-90`, `170-175`):
  `FirstRunSecrets.ReturnedIsStored` gives the condition. The program's start loads `Current` from the
  same file, and then every key in use is the stored one: `FirstRunSecrets.UsedIsStored`.
- I/O and connection counts that are not set can exceed the samples of a row
  (`internal/db/metrics-history.go:204-217`): `MetricsRollup.SampleCounts`. Both places where the program
  stores samples set them (`internal/controller/actions/metrics-recorder.go:272-273`, `319-320`), and
  then all counters are nested: `MetricsRollup.Normalize`, `MetricsRollup.RollupFullyNested`.

## Model

| member | source | states |
|---|---|---|
| DependencyPlanner.PlanPackages | internal/modmanager/valheim-dependencies.go:19-159 | a plan holds the package asked for at exactly the version named, at the supported one for the loader without a version, and else at the first version listed; each of the four refusals at the door is given if and only if its condition holds, `NoVersions` when nothing is listed; a plan holds loader and root, its packages are distinct, each after everything it declares, which is there at the declared minimum or above, each needed by something, fetched as it stands with at most 128 dependencies and keeping every promise about versions; it is exactly what the final versions reach; any other refusal names a true reason |
| DependencyPlanner.Solve | internal/modmanager/valheim-dependencies.go:54-158 | phase one settles or is refused for a true reason; once it settles, a plan exists if and only if the kept versions run in no circle; at most 512 requests and 128 packages whatever the provider answers |
| DependencyPlanner.Resolver.Resolve | internal/modmanager/valheim-dependencies.go:58-118 | a success serves the reference at its minimum or above, leaves every kept version no lower, leaves packages under visit alone and restores `visiting`; a failure is justified; the recursion ends for every provider because requests are bounded |
| DependencyPlanner.Resolver.Visit | internal/modmanager/valheim-dependencies.go:93-117 | the same for fetching a version, resolving what it declares and keeping it |
| DependencyPlanner.Resolver.ResolveDependencies | internal/modmanager/valheim-dependencies.go:105-114 | after the loop every dependency of the fetched package is served by the kept versions, though later ones may replace what earlier ones chose |
| DependencyPlanner.Resolver.Examine | internal/modmanager/valheim-dependencies.go:59-92 | what is to be fetched satisfies the minimum, keeps the promises and is newer than what is kept; a refusal is justified, a circle by a chain of fetched packages |
| DependencyPlanner.Resolver.Request | internal/modmanager/valheim-dependencies.go:93-104 | the two limits and the check of the answer: only an exact match is accepted, at most 512 requests and 128 packages held |
| DependencyPlanner.ChooseKeepsPromises | internal/modmanager/valheim-dependencies.go:68-88 | the chosen version is the requested one for the root, the supported one for the loader, never below an enabled installed one and exactly a pinned one; otherwise no version could serve the reference |
| DependencyPlanner.Keeping | internal/modmanager/valheim-dependencies.go:115-117 | replacing a kept version by a newer one whose dependencies are served leaves every other package served |
| DependencyPlanner.Finishing | internal/modmanager/valheim-dependencies.go:104-117 | the same at the end of a visit, when the maps have changed since it began |
| DependencyPlanner.CircleFound | internal/modmanager/valheim-dependencies.go:65-67 | a reference to a package under visit closes a circle of fetched packages |
| DependencyPlanner.Resolver.AppendPackage | internal/modmanager/valheim-dependencies.go:132-152 | the plan stays sound, only reachable packages are placed, and a refusal yields a path from a root that meets a package twice; ends because each call visits a new package |
| DependencyPlanner.Resolver.AppendDependencies | internal/modmanager/valheim-dependencies.go:141-147 | after the loop all dependencies of the package are in the plan |
| DependencyPlanner.Resolver.Order | internal/modmanager/valheim-dependencies.go:127-158 | ordering succeeds if and only if the final versions are acyclic, and then the plan is exactly the reachable set |
| DependencyPlanner.Placing | internal/modmanager/valheim-dependencies.go:148-150 | placing a package after what it depends on keeps the plan sound |
| DependencyPlanner.PathGoesBack | internal/modmanager/valheim-dependencies.go:127-152 | along a path of dependencies every later package stands strictly earlier in the plan |
| DependencyPlanner.SoundPlanIsComplete | internal/modmanager/valheim-dependencies.go:127-158 | a sound plan that holds loader and root leaves no circle and no reachable package out |
| DependencyPlanner.ReachedIsNeeded | internal/modmanager/valheim-dependencies.go:127-128 | obsolete children of superseded versions never appear: all but loader and root are dependencies of a later package of the plan |
| DependencyPlanner.DistinctIdsFit | internal/modmanager/valheim-dependencies.go:129-150 | a plan has no more packages than were resolved |
| DependencyPlanner.CollectExisting | internal/modmanager/valheim-dependencies.go:48-53 | the loop over installed records computes the specified map |
| DependencyPlanner.ExistingIsLast | internal/modmanager/valheim-dependencies.go:48-53 | which has a package if and only if a Thunderstore record is about it, with the mod of the last such record |
| PackageNames.VersionInjective | internal/modmanager/valheim-dependencies.go:176-178 | a valid version text is determined by its three numbers (Semantic Versioning 2.0.0, section 2), so equal rank means equal text |
| PackageNames.ValueInjective | internal/modmanager/valheim-dependencies.go:176-178 | two numerals without leading zeros and with equal value are the same text |
| PackageNames.JoinedIsVersion | internal/modmanager/valheim-dependencies.go:176-178 | any three such numerals joined by dots are a valid version |
| PackageNames.VersionIsJoined | internal/modmanager/valheim-dependencies.go:176-178 | and nothing else is a version |
| PackageNames.ValidIdExactly | internal/modmanager/valheim-dependencies.go:161-174 | an identifier is valid if and only if it is two non-empty names of letters, digits and underscores joined by a dash |
| PackageNames.ReferenceRoundTrip | internal/modmanager/valheim-dependencies.go:106-109 | a reference written `id-version` is cut back into exactly these, whatever dashes the id contains |
| PackageNames.ValheimNotationCoherent | internal/modmanager/valheim-dependencies.go:161-178 | the real notation has all that the planner relies on, for any comparison that orders valid versions by their numbers |
| ModPaths.PlaceRespectsCase | internal/modmanager/valheim-mods.go:78-88 | two files of a mod have the same place exactly if their paths are equal but for case |
| ModPaths.PlaceAvoidsConfig | internal/modmanager/valheim-mods.go:78-88 | no other file is ever placed where a configuration file lives |
| ModPaths.ValheimLayoutCoherent | internal/modmanager/valheim-mods.go:78-88 | the real layout has all that transactions rely on |
| FileMoves.UndoAfter | internal/modmanager/manager.go:248-268 | putting moved files back, last one first, restores the tree |
| FileMoves.LegalCanBeUndone | internal/modmanager/manager.go:248-268 | moves onto vacant places can be put back even if unrelated files have gone |
| FileMoves.ApartRelocates | internal/modmanager/valheim-mods.go:262-284 | moves that do not meet carry each content to its new place and touch nothing else |
| FileMoves.PutBackOne | internal/modmanager/manager.go:248-268 | one attempt at putting back, successful or not, keeps every content at one of the two ends of its move |
| FileMoves.AllWereThere | internal/modmanager/valheim-mods.go:466-500 | files that could be moved away and then back in the same order were all there to begin with |
| FileMoves.ThereAndBackApart | internal/modmanager/valheim-mods.go:466-500 | and none of them stood in another one's way |
| FileMoves.LegalExactly | internal/modmanager/valheim-mods.go:466-500 | moves that do not meet are possible if and only if every file is there and every destination vacant at the start |
| FileMoves.BackExactlyIfApart | internal/modmanager/valheim-mods.go:466-500 | moves that were made can be made backwards in the same order if and only if no file went where another one came from |
| FileMoves.ThereAndBack | internal/modmanager/valheim-mods.go:466-500 | so the tree is exactly what it was |
| ModTransactions.ModManager.ChangePackage | internal/modmanager/valheim-mods.go:128-347 | the new package and records are in place if and only if the package is acceptable, is not installed yet or is the old mod's, and none of the calls up to the commit fails, whose number is computed from the request; it then succeeds if and only if the next call, the reading of the new record, does not fail either (Decided). Otherwise the records are unchanged and, if putting back worked, so is every place outside staging, else no content is lost; every failure is explained by a failing call, a foreign file or another installed version |
| ModTransactions.InstalledInSpiteOfError | internal/modmanager/valheim-mods.go:341-346 | a run in which the reading after the commit is the only call that fails: the caller gets an error, and the mod is installed and recorded |
| ModTransactions.ModManager.Apply | internal/modmanager/valheim-mods.go:184-346 | the same for everything from staging to reading back: it commits if and only if the package is acceptable and no call before the reading fails |
| ModTransactions.ModManager.Attempt | internal/modmanager/valheim-mods.go:196-341 | everything up to the commit: an acceptable change takes exactly the calls counted for it or stops at one that fails, and what it leaves can then be rolled back |
| ModTransactions.ModManager.Swap | internal/modmanager/valheim-mods.go:262-296 | the old files go aside and the new ones come in: the tree is what the change is meant to leave, or can be rolled back |
| ModTransactions.ModManager.Open | internal/modmanager/valheim-mods.go:128-179 | the package is refused before any remote file is looked at only for a failing call, for being installed, or for another installed version |
| ModTransactions.ClearedOne | internal/modmanager/valheim-mods.go:262-284 | setting one owned file aside takes away exactly its share of the calls still to be made, in whatever order the map is walked |
| ModTransactions.ModManager.StageFiles | internal/modmanager/valheim-mods.go:196-257 | either all files are acceptable and uploaded with retained set and records as specified, or only staging was touched |
| ModTransactions.ModManager.Admit | internal/modmanager/valheim-mods.go:204-256 | one file is kept, adopted, refused or uploaded as decided from the tree before |
| ModTransactions.ModManager.MoveAside | internal/modmanager/valheim-mods.go:262-284 | in whatever order the map is walked, the moves are onto vacant places, keep apart, and clear every owned place |
| ModTransactions.ModManager.ClearOne | internal/modmanager/valheim-mods.go:262-284 | afterwards the file, unless it is configuration or retained, is not at its place, and the moves made so far stay possible and apart; or a call failed |
| ModTransactions.ModManager.SetAside | internal/modmanager/valheim-mods.go:276-283 | the rename is onto a vacant place and the moves stay apart, or a call failed and nothing moved |
| ModTransactions.ModManager.PromoteAll | internal/modmanager/valheim-mods.go:285-296 | every promotion lands on a vacant place, and a failure leaves only promoted files over the tree set aside |
| ModTransactions.ModManager.Commit | internal/modmanager/valheim-mods.go:297-341 | the database transaction: all of it or none |
| ModTransactions.ModManager.RollBack | internal/modmanager/valheim-mods.go:184-195 | either every place outside staging is as before, or some call failed and every content is still to be found |
| ModTransactions.ModManager.Cleanup | internal/modmanager/manager.go:237-247 | goes on after failures; success means every promoted file is gone and nothing else changed |
| ModTransactions.ModManager.Restore | internal/modmanager/manager.go:248-268 | goes on after failures; success is the full undo, and even a failure keeps each content at one end of its move |
| ModTransactions.ModManager.Exists | internal/modmanager/valheim-mods.go:108-124 | answers whether a file is at the place, compared without regard to case |
| ModTransactions.StagingOne | internal/modmanager/valheim-mods.go:199-257 | uploading one more file changes nothing outside staging |
| ModTransactions.AsideNext | internal/modmanager/valheim-mods.go:262-284 | the next file to set aside exists, its backup place is vacant, and the moves stay apart |
| ModTransactions.AsideMakesRoom | internal/modmanager/valheim-mods.go:262-296 | once the owned files are aside every place to promote to is vacant |
| ModTransactions.PromotingNext | internal/modmanager/valheim-mods.go:285-296 | the next upload is there, its target vacant, and earlier promotions keep their content |
| ModTransactions.CompletedIsInstalled | internal/modmanager/valheim-mods.go:196-346 | staged, set aside and promoted: the tree is what the change is meant to leave, also after staging is deleted |
| ModTransactions.CleanedCanBeUndone | internal/modmanager/valheim-mods.go:184-195 | with the promoted files gone, the files set aside can all be put back and the old tree results |
| ModTransactions.NothingIsLost | internal/modmanager/valheim-mods.go:184-195 | however clean-up and restore fail, every file of the old tree is at its place or in the staging directory |
| ModTransactions.ModManager.Mutate | internal/modmanager/valheim-mods.go:428-530 | a successful removal leaves none of the recorded files and every other place outside staging as it was; enabling and disabling move exactly the recorded files that are not configuration; the records are updated; a failure that could be undone leaves every place as it was; a removal fails only for a failing call or because other mods need the loader, and every other failure is explained too |
| ModTransactions.RemovalIsExact | internal/modmanager/valheim-mods.go:466-500 | a removal is always possible, and what it leaves is all but the recorded files, place by place |
| ModTransactions.ModManager.MoveFiles | internal/modmanager/valheim-mods.go:466-500 | the loop makes exactly the moves of the operation, all onto vacant places, or a call failed or the operation is impossible |
| ModTransactions.ModManager.MoveBack | internal/modmanager/valheim-mods.go:453-465 | the deferred rollback restores every place, also those the removal had staged, or some call failed |
| ModTransactions.ModManager.CommitMutation | internal/modmanager/valheim-mods.go:501-528 | the database transaction: all of it or none |
| ModTransactions.Impossible | internal/modmanager/valheim-mods.go:478-494 | a missing file or a taken destination makes the operation impossible |
| ModOwnership.OwnershipOverRuns | internal/modmanager/valheim-mods.go:199-296 | over any run of installs, updates, enables, disables, removals and rolled-back failures, with any provider, every recorded non-configuration file is at its place and no two records share one, at every moment, if and only if the loader never adopts a file that is recorded already |
| ModSupply.OwnedAtEveryMoment | internal/modmanager/valheim-mods.go:128-530 | with the program's provider this holds at every moment of every run, without a proviso: packages are in their own directories, the loader's files are in none of these and always spelled alike |
| ModSupply.SuppliedIsClean | internal/modmanager/valheim-mods.go:218-236 | with that provider no installation adopts a file that is recorded already |
| ModSupply.AdoptsNothingRecorded | internal/modmanager/valheim-mods.go:218-236 | neither one of another mod, enabled or disabled, nor one of the loader itself |
| ModSupply.StaysSupplied | internal/modmanager/valheim-mods.go:128-530 | every step keeps that mods record files of their packages alone and that the loader is installed once at most |
| ModSupply.PlacesApart | internal/modmanager/valheim-mods.go:78-88 | a file of the loader and one of another package never have the same place, whichever of the two mods is enabled |
| ModSupply.DisabledApart | internal/modmanager/valheim-mods.go:78-83 | two disabled mods never have a place in common |
| ModSupply.NoModsToBeginWith | internal/modmanager/valheim-mods.go:128-530 | a server without mods is a start of such runs |
| ValheimArchive.InstallsInDirectory | pkg/modproviders/thunderstore/valheim-archive.go:126-150 | whatever an archive entry is called, a package other than the loader has it in a directory of its own or as configuration, or it is refused |
| ValheimArchive.RefusedExactly | pkg/modproviders/thunderstore/valheim-archive.go:139-150 | outside its plugins, patchers and configuration a package may bring no file of the loader and nothing whose name ends, in any spelling, like a script or program |
| ValheimArchive.ScriptsExactly | pkg/modproviders/thunderstore/valheim-archive.go:144-149 | the extensions are recognised by the end of the name |
| ValheimArchive.LoaderNotDisabled | pkg/modproviders/thunderstore/valheim-archive.go:160-178 | no place allowed to the loader is among those of disabled mods |
| ValheimArchive.DirectoryStart | pkg/modproviders/thunderstore/valheim-archive.go:126-135 | neither is any directory of a package |
| ModOwnership.StepKeepsExactly | internal/modmanager/valheim-mods.go:218-236 | the same for one step, both ways |
| ModOwnership.CleanInstallKeeps | internal/modmanager/valheim-mods.go:196-346 | an installation without such an adoption keeps ownership |
| ModOwnership.UncleanInstallBreaks | internal/modmanager/valheim-mods.go:218-236 | with such an adoption the file belongs to two records, or is gone |
| ModAdoption.SharedAdoption | internal/modmanager/valheim-mods.go:218-236 | what the provider is needed for: an update of the loader from an earlier version to an archive with another mod's file, which two mods record afterwards |
| ModAdoption.RespelledAdoption | internal/modmanager/valheim-mods.go:218-284 | and one to an archive that spells a file differently, which is recorded and not there afterwards |
| ModAdoption.PlacementAllowsBoth | pkg/modproviders/thunderstore/valheim-archive.go:126-178 | the rules for placing files rule out neither, so that it is for the loader's archives to avoid them |
| ModOwnership.RespelledIsGone | internal/modmanager/valheim-mods.go:218-284 | the loader adopting its own file under another spelling loses it: the old spelling is set aside with it |
| ModOwnership.MutationKeeps | internal/modmanager/valheim-mods.go:428-530 | enabling, disabling and removing always keep ownership |
| ModOwnership.RollbackKeeps | internal/modmanager/valheim-mods.go:184-195 | so does a failed run that was put back |
| ModOwnership.EnabledModsShareNothing | internal/modmanager/valheim-mods.go:78-88 | two enabled mods never record the same non-configuration path, compared without regard to case |
| ModOwnership.ConfigurationUntouched | internal/modmanager/valheim-mods.go:209-217 | no configuration file that exists is altered or removed by an installation |
| ModOwnership.DroppedFileIsGone | internal/modmanager/valheim-mods.go:262-284 | a formerly recorded non-configuration file that the new package lacks is gone after the commit |
| ModOwnership.InstalledRecordsDistinct | internal/modmanager/valheim-mods.go:200-203 | no installed package has two files that are the same but for case |
| ModContents.RemovalLeavesNothing | internal/modmanager/valheim-mods.go:428-530 | after a removal no file of the mod is at its place, and every other file, all configuration included, is as it was |
| ModContents.SwitchIsExact | internal/modmanager/valheim-mods.go:428-530 | enabling and disabling move every recorded file with its content from its old place to its new one, and touch nothing else |
| ModContents.AcceptableExactly | internal/modmanager/valheim-mods.go:196-231 | a package is acceptable if and only if its paths are sound and differ but for case, and each place it would write to is free, its own, a setting, or holds the loader's own content |
| ModContents.InstalledAsPacked | internal/modmanager/valheim-mods.go:196-296 | after an installation every file of the package has its content at its place, but for settings that were there |
| ModContents.SettingKeptExactly | internal/modmanager/valheim-mods.go:209-217 | a setting that was there is as it was if and only if the mod has not recorded it under another spelling |
| ModContents.RecordedExactly | internal/modmanager/valheim-mods.go:209-257 | a setting that was there keeps its earlier record if it had one and gets none otherwise; every other file is recorded with its content |
| ModContents.NothingElseRecorded | internal/modmanager/valheim-mods.go:324-335 | and nothing else is recorded |
| ModOwnership.DisableThenEnable | internal/modmanager/valheim-mods.go:428-530 | disabling and then enabling a mod restores tree and records exactly, whatever else is in the tree |
| ModOwnership.EnabledAgainExactly | internal/modmanager/valheim-mods.go:466-500 | a mod just disabled can be enabled again if and only if none of its recorded paths is the disabled place of another |
| ModOwnership.EnabledLaterExactly | internal/modmanager/valheim-mods.go:466-500 | and at any later time, while ownership holds, if and only if nothing has taken the old places |
| ModInstaller.Install | internal/modmanager/valheim-mods.go:128-347 | every package change, whatever fails, is a step of the ownership model unless putting back failed, and so is one whose new record cannot be read back; a failure is explained by a failing call, an unacceptable package or another installed version |
| ModInstaller.Operate | internal/modmanager/valheim-mods.go:428-530 | so is every enabling, disabling and removing |
| ModInstaller.CheckInPlace | internal/modmanager/valheim-mods.go:388-410 | true if and only if the mod was extracted before and all its non-configuration files are there; no answer only when a call failed |
| ModInstaller.InstallPlan | internal/modmanager/valheim-mods.go:365-424 | success leaves every planned package installed at its planned version, having installed it or found all its files in place, and the one asked for in any case installed; it stops only because a call failed or because a planned package was unacceptable in a world of the run; in any case a run of the ownership model has happened that installs nothing but what the provider has for each package, unless a call failed while putting back |
| ModInstaller.InstallPlanned | internal/modmanager/valheim-mods.go:379-421 | one package is kept, only with all its files in place and if it is not the one asked for, installed, or stops the plan, for the same reasons |
| NodeEvents.EveryRunIsGood | internal/node/events.go:40-124 | over all interleavings of subscribe, publish, receive, unsubscribe and close: replayed events fit, open channels are exactly the subscribers, and every stream is its replay followed by the published events, of which only non-lifecycle ones may be missing |
| NodeEvents.StepKeeps | internal/node/events.go:40-124 | every operation keeps that |
| NodeEvents.ReplicaAgrees | internal/node/events.go:40-108 | for an open subscriber with replay, the last status of every process in what it received or has queued is the emitter's own map |
| NodeEvents.ReplicaAgreesUpTo | internal/node/events.go:40-108 | for one that was cut off, the map as it was after the last event it followed |
| NodeEvents.ReconnectingAgrees | internal/node/events.go:77-80 | a new subscription with replay agrees at once, whatever became of the old one |
| NodeEvents.ReplayTellsLatest | internal/node/events.go:53-58 | replaying the retained events in any order tells a consumer exactly the retained map |
| NodeDelivery.PublishDelivers | internal/node/events.go:81-108 | in every run a published event of either kind reaches each open subscriber that has fewer than 1024 events more than its replay unreceived; one with all of them unreceived is closed if the event is of a life cycle and passed over otherwise |
| NodeDelivery.PublishRetains | internal/node/events.go:85-91 | a life cycle event becomes what is retained for its process, no other event changes anything that is retained, and closed channels stay as they are |
| NodeDelivery.SubscriptionStarts | internal/node/events.go:40-61 | a new subscriber has the retained events queued, each once and marked as replayed, if it asked for them and the emitter is open |
| NodeDelivery.UnsubscribeCloses | internal/node/events.go:65-75 | unsubscribing closes that channel and leaves every other one alone |
| NodeDelivery.CloseClosesAll | internal/node/events.go:112-124 | closing the emitter closes every channel |
| NodeEvents.CutOffOnlyWhenFull | internal/node/events.go:93-103 | a subscriber is disconnected only by a lifecycle event that finds its buffer full |
| NodeEvents.LatestOfStatusOnly | internal/node/events.go:88-91 | what a consumer knows depends on the lifecycle events alone |
| NodeEmitter.EventEmitter.SubscribeWithReplay | internal/node/events.go:40-61 | the method is the specified step; sending the replay under the lock never blocks, and a closed emitter never touches its nil subscriber map |
| NodeEmitter.EventEmitter.Replay | internal/node/events.go:53-58 | every retained event is sent once, with room to spare |
| NodeEmitter.EventEmitter.Unsubscribe | internal/node/events.go:65-75 | the method is the specified step; a channel is closed at most once |
| NodeEmitter.EventEmitter.Publish | internal/node/events.go:81-108 | the method is the specified step in any order of subscribers; nothing is sent on a closed channel |
| NodeEmitter.EventEmitter.Deliver | internal/node/events.go:94-106 | one subscriber: sent, cut off or passed over |
| NodeEmitter.EventEmitter.Close | internal/node/events.go:112-124 | the method is the specified step; each channel is closed once and the map becomes nil |
| EventBus.NothingMissed | internal/eventbus/eventbus.go:76-89 | a subscriber that missed nothing has exactly its topic |
| EventBus.OfferFaithful | internal/eventbus/eventbus.go:76-89 | a stream stays a subsequence of its topic, with every missing message counted, whether sent or dropped |
| EventBus.OfferDelivers | internal/eventbus/eventbus.go:79-87 | a reliable subscriber gets a message if and only if fewer than 1024 are queued, any other one if and only if it is waiting |
| EventBus.AddingLists | internal/eventbus/eventbus.go:52-74 | after a subscription each topic lists exactly its open channels, once |
| EventBus.RemovingLists | internal/eventbus/eventbus.go:91-102 | so it does after a subscription is removed from the middle of the list |
| EventBus.Bus.Subscribe | internal/eventbus/eventbus.go:52-74 | a new open channel with the buffer of its kind, following from now on |
| EventBus.Bus.Publish | internal/eventbus/eventbus.go:76-89 | exactly the open subscribers of the topic are offered the message, each once, and get it as above; none of them is closed |
| EventBus.Bus.Unsubscribe | internal/eventbus/eventbus.go:91-102 | closes the channel if it is listed under the topic and does nothing otherwise |
| EventBus.Bus.Receive | internal/eventbus/eventbus.go:52-74 | messages come out in the order in which they were sent |
| BusInterleavings.EveryRunIsGood | internal/eventbus/eventbus.go:52-102 | with any number of publishers under the read lock at once, in every interleaving: each topic lists exactly its open channels, every publication has only open ones still to come, and every message since a subscription was offered to it or is owed to it, once |
| BusInterleavings.StepKeeps | internal/eventbus/eventbus.go:52-102 | every lock operation and every select of a publisher keeps that |
| BusInterleavings.OfferedExactlyOnce | internal/eventbus/eventbus.go:76-89 | an open subscriber that no publication has still to come to was offered exactly the messages published since it subscribed, each once, and received a subsequence of the offers |
| BusInterleavings.NeverSendsOnClosed | internal/eventbus/eventbus.go:76-102 | no publisher ever has a closed channel still to come |
| BusInterleavings.ClosesOnlyOpen | internal/eventbus/eventbus.go:91-102 | a channel is closed at most once, and never while a publisher could still send on it |
| BusInterleavings.SendsExactly | internal/eventbus/eventbus.go:79-87 | in every run a select sends to a reliable subscriber if and only if not all of its 1024 places are taken, to any other one if and only if it is waiting, and touches no other |
| BusInterleavings.BeginsForAll | internal/eventbus/eventbus.go:76-80 | a publication is for exactly the open subscribers of its topic |
| BusInterleavings.SubscribersComeAndGo | internal/eventbus/eventbus.go:52-102 | a new subscriber is open, listed and empty, with 1024 places or none; one that leaves is closed and no longer listed, and no other is touched |
| BusInterleavings.OwedAfterSend | internal/eventbus/eventbus.go:79-87 | one select settles exactly one owed message of exactly one subscriber |
| AlertPipeline.EachJobOnce | internal/alerts/evaluator.go:162-240 | in every run each matched job is still with its listener, was put on the channel once, or was dropped once, and never two of these; none is processed more often than accepted |
| AlertPipeline.DrainComplete | internal/alerts/delivery.go:107-164 | in every run in which the workers have stopped, each job accepted before cancellation was processed exactly once |
| AlertPipeline.RowBeforeDispatch | internal/alerts/delivery.go:186-206 | no delivery is attempted for a job without a history row |
| AlertOutcomes.AttemptedExactlyOnce | internal/alerts/delivery.go:186-219 | if no store call failed, once the pool has stopped each processed job was sent exactly once, unless its notification channel could not be looked up, and then not at all; a dropped job never |
| AlertOutcomes.FailedExactly | internal/alerts/delivery.go:186-219 | and a row says failed if and only if its job was dropped, its channel could not be looked up, or sending it failed |
| AlertOutcomes.FinalRowTellsOutcome | internal/alerts/delivery.go:168-219 | if no store call failed, once the pool has stopped each processed or dropped job has exactly one row, which says sent if the job was delivered and failed otherwise |
| AlertProgress.JobGoesOut | internal/alerts/delivery.go:168-219 | from every point of a run a worker that holds a job can look it up, insert its row, send it and mark it in these steps alone, with exactly the row and the histories that the answers call for |
| AlertProgress.TakesNext | internal/alerts/delivery.go:113-158 | an idle worker, or one that drains, takes the next job of the channel |
| AlertProgress.OfferedExactly | internal/alerts/evaluator.go:180-187 | a matched job goes onto the channel if and only if fewer than 256 are queued, and is otherwise recorded as failed |
| AlertOutcomes.SentExactlyIfDelivered | internal/alerts/delivery.go:186-219 | and a row is marked sent if and only if its job was delivered |
| AlertOutcomes.TriedAtMostOnce | internal/alerts/delivery.go:186-206 | in no run is the notification of a job tried twice, whatever fails |
| AlertOutcomes.ProcessedExactlyIfInTime | internal/alerts/delivery.go:98-164 | once the pool has stopped, a job was processed exactly once if it was put on the channel before the last worker exited, and otherwise not at all; every job put there before cancellation is in time |
| AlertOutcomes.LateJobIsLost | internal/alerts/delivery.go:107-158 | a run in which a listener puts a job on the channel after the last worker has exited, and the job is never processed |
| AlertOutcomes.EveryRunSettles | internal/alerts/delivery.go:98-219 | in every run the last worker leaves an empty channel, no job is tried more often than taken, and a delivered job has its row marked or about to be |
| AlertPipeline.EveryRunIsGood | internal/alerts/delivery.go:98-219 | the invariant behind these holds in every interleaving of listeners, workers and cancellation |
| AlertPipeline.StepKeeps | internal/alerts/delivery.go:98-219 | every enabled step keeps it |
| AlertPipeline.WorkKeeps | internal/alerts/delivery.go:113-219 | so does every step of a worker, whatever call fails |
| AlertPipeline.ReactConserves | internal/alerts/delivery.go:113-164 | a worker neither loses nor duplicates the job it takes |
| AlertPipeline.ReactRecords | internal/alerts/delivery.go:168-219 | a row appears exactly for a job that gets one or ends, unless a store call fails |
| MetricsRollup.Normalize | internal/db/metrics-history.go:168-217 | every stored count is given exactly by what is handed in: above its bound it is the bound, a positive one is kept, an absent one is filled in where its flag allows; so sub-counts are nested, also I/O and connections when they are set, as every caller in the program sets them; nothing else of the sample changes |
| MetricsRollup.SampleCounts | internal/db/metrics-history.go:172-217 | the same for the counts among all samples; I/O and connection counts exceed the samples exactly when a larger available count stands in for them |
| MetricsRollup.QueryCounts | internal/db/metrics-history.go:188-203 | the same for the counts among query successes |
| MetricsRollup.CountWithin | internal/db/metrics-history.go:180-203 | a clamped count is within its bound and is kept if it was within it already |
| MetricsRollup.CountOrAvailable | internal/db/metrics-history.go:204-217 | an absent count that was not set is the available count |
| MetricsRollup.MetricsHistory.Insert | internal/db/metrics-history.go:168-270 | one row more: the sample as it was handed in, with the counts so normalised |
| MetricsRollup.MetricsHistory.RollupToHourly | internal/db/metrics-history.go:522-673 | all of the rollup or, whatever statement fails, none of it |
| MetricsRollup.RollupAccounts | internal/db/metrics-history.go:522-673 | a rollup keeps every counter total and the weighted CPU sum of every server and hour but for the hourly row it replaces |
| MetricsRows.RolledExactly | internal/db/metrics-history.go:522-673 | a rollup takes exactly the samples of less than an hour from before the cutoff; every server and hour that had one gets a row stamped with server and hour, and every other hourly row stays |
| MetricsRows.SumsAdd | internal/db/metrics-history.go:559-620 | the sums behind the means add up over any split of the rows |
| MetricsRows.SumsOfOne | internal/db/metrics-history.go:559-620 | and weigh the memory of a row by its available samples and its CPU value by its valid ones |
| MetricsRows.CpuOfHour | internal/db/metrics-history.go:560-561 | the CPU value of an hour is the weighted mean, or the plain one if no sample had a valid value |
| MetricsRows.MemoryWithoutWeight | internal/db/metrics-history.go:562-563 | without available samples memory is the plain mean, rounded to the nearest, halves away from zero |
| MetricsRows.MemoryWithinMeasured | internal/db/metrics-history.go:562-563 | the mean lies between any bounds that the measured values keep |
| MetricsRollup.ConservedExactly | internal/db/metrics-history.go:522-673 | totals are conserved if and only if no sample belongs to an hour that was rolled up before |
| MetricsRollup.ServerConserved | internal/db/metrics-history.go:522-673 | then so are the totals of a server over all its hours |
| MetricsRollup.ConservedOverRuns | internal/db/metrics-history.go:168-673 | over any run with whole-hour, non-decreasing cutoffs and no sample behind them, every total equals that of the samples stored |
| MetricsRollup.LateSampleIsLost | internal/db/metrics-history.go:522-673 | and a run with a sample behind the cutoff in which the hour keeps only that sample's counts |
| MetricsRollup.AggregateTotals | internal/db/metrics-history.go:559-620 | an hourly row stands for exactly the counters and the weighted CPU sum of its group |
| MetricsRollup.RollupNested | internal/db/metrics-history.go:522-673 | a rollup keeps all counters nested |
| MetricsRollup.RollupFullyNested | internal/db/metrics-history.go:522-673 | and the I/O and connection counts within the samples, where they were before |
| MetricsRollup.RollupInSteps | internal/db/metrics-history.go:522-673 | rolling up to a whole hour and then further gives the same table as rolling up once |
| MetricsRollup.RollupTwiceIsOnce | internal/db/metrics-history.go:522-673 | repeating a rollup changes nothing |
| MetricsRollup.MeanMemoryIsFloor | internal/db/metrics-history.go:559-620 | the stored mean m over weight N and weighted sum S satisfies N*m <= S < N*(m+1), mirrored for negative sums |
| MetricsRollup.LeastBoundIsLeast | internal/db/metrics-history.go:597-598 | the stored lower memory bound is attained by a row that had the measurement and is below those of all others |
| MetricsRollup.GreatestBoundIsGreatest | internal/db/metrics-history.go:597-598 | and the stored upper bound the other way round |
| MetricsRollup.MeanMemoryWithinBounds | internal/db/metrics-history.go:559-620 | the stored mean lies between the stored bounds when every weighted row has bounds that contain its value |
| SystemdQuoting.ExecStartRoundTrip | internal/appservice/systemd-unit.go:41-50 | reading the printed arguments as systemd does gives back exactly the argument list, whatever it contains |
| SystemdQuoting.PrintArguments | internal/appservice/systemd-unit.go:41-50 | the loop refuses exactly lists with a line break or NUL, and its text reads back as the list |
| SystemdQuoting.ChainedIsOnePass | internal/appservice/systemd-unit.go:82-98 | the chained whole-string replacements are one pass that escapes each character |
| SystemdQuoting.QuotedIsEscaped | internal/appservice/systemd-unit.go:82-98 | a quoted argument is its escaped characters between quotes, or refused |
| SystemdQuoting.UnquoteEscaped | internal/appservice/systemd-unit.go:82-98 | inside quotes the reader undoes the escapes and comes out behind the closing quote |
| SystemdQuoting.SplitPrinted | internal/appservice/systemd-unit.go:41-50 | each printed argument is one word, also an empty one |
| EnvLines.SplitJoin | internal/firstsetup/secrets.go:253-271 | joining lines and splitting gives the lines back |
| EnvLines.JoinSplit | internal/firstsetup/secrets.go:253-271 | splitting text and joining gives the text back |
| EnvLines.ReadWritten | internal/firstsetup/secrets.go:179-179 | a line written for a key is read as that key and the trimmed value, with either line ending |
| EnvReading.SpacedReads | internal/firstsetup/secrets.go:261-268 | white space before the name, before the equals sign and around the value makes no difference |
| EnvReading.ExportedReads | internal/firstsetup/secrets.go:262-265 | nor does `export` in front |
| EnvReading.NothingAssigned | internal/firstsetup/secrets.go:266-268 | a line without an equals sign assigns nothing |
| EnvReading.TrimExactly | internal/firstsetup/secrets.go:261-267 | trimming takes away the white space at both ends and nothing else |
| EnvLines.ReplaceInLine | internal/firstsetup/secrets.go:255-269 | a line is replaced exactly if a reader of the line sees an assignment of the key |
| FirstRunSecrets.ReplaceEnvAssignment | internal/firstsetup/secrets.go:252-272 | all assignments of one key are replaced, every other line and all line endings kept byte for byte |
| EnvFile.DictRepaired | internal/firstsetup/secrets.go:252-272 | reading repaired lines gives the dictionary with exactly the repaired names changed, however often a name is assigned |
| EnvFile.RepairedNext | internal/firstsetup/secrets.go:170-178 | a pass per name is the same as one pass for all names |
| EnvFile.SplitAdded | internal/firstsetup/secrets.go:181-187 | appended text is the old lines followed by the new ones, with or without a final line break |
| EnvFile.UpdatedReads | internal/firstsetup/secrets.go:148-187 | the new file reads as the old dictionary with each generated name set only where it was missing or blank |
| EnvFile.OtherLinesKept | internal/firstsetup/secrets.go:148-187 | every line that assigns no name to be filled in is kept, byte for byte, in its position |
| EnvFile.UnchangedWhenSettled | internal/firstsetup/secrets.go:188-197 | the text stays the same if and only if every generated name already has a value |
| EnvFile.SecondRunChangesNothing | internal/firstsetup/secrets.go:134-199 | a second run for the same names changes nothing, whatever it generates |
| FirstRunSecrets.Rewrite | internal/firstsetup/secrets.go:162-187 | the loop over the names computes the specified text |
| FirstRunSecrets.EnvStore.PersistGeneratedSecrets | internal/firstsetup/secrets.go:134-199 | succeeds if and only if nothing was generated or the path is not blank and every call that is needed succeeds; a success stores the specified text, a failure leaves the file as it was |
| FirstRunSecrets.EnvStore.EnsureSecrets | internal/firstsetup/secrets.go:45-91 | succeeds if and only if every missing key can be had and storing can; an encryption key can be had only where the database is known not to exist; then all returned keys are set, configured ones unchanged, and the file reads as the completed dictionary; an error leaves the file alone |
| FirstRunSecrets.EnvStore.LoadCurrentSecrets | internal/firstsetup/env-path.go:45-71 | each key is that of the environment or, where that is blank, of the file; an error only if an existing file cannot be read |
| FirstRunSecrets.UsedIsStored | internal/firstsetup/secrets.go:45-91 | started with the keys so loaded, every key in use that the environment does not provide is the one the file holds afterwards |
| FirstRunSecrets.LoadedExactly | internal/firstsetup/env-path.go:56-61 | which key comes from where, name by name |
| FirstRunSecrets.HostIsStored | internal/firstsetup/secrets.go:48-51 | a default host that is not blank is stored unless the file names a host already, and a blank one changes nothing |
| FirstRunSecrets.FreshFile | internal/firstsetup/secrets.go:158-187 | a new file has the four lines, in alphabetical order of their names |
| FirstRunSecrets.ReturnedIsStored | internal/firstsetup/secrets.go:57-90 | for any other `Current`, a generated key that is returned is the stored one if and only if the file had none, or the same |
| FirstRunSecrets.SecondStart | internal/firstsetup/secrets.go:45-91 | started again with the returned keys the program leaves the file alone |
| LaunchEnv.MergeNormal | internal/launchenv/env.go:198-221 | refused exactly if one of the lists is invalid, with all problems of both; otherwise the merged list |
| LaunchEnv.MergeIndexed | internal/launchenv/env.go:204-220 | the loops with the index map compute the specified merge |
| LaunchEnv.MergeIsLastWins | internal/launchenv/env.go:204-220 | the merged list finds for every name what a linear search through defaults and then server variables finds last |
| LaunchEnv.MergeKeys | internal/launchenv/env.go:196-197 | the defaults keep their positions and the server's other variables follow in their order |
| LaunchEnv.MergeHasNoRepeats | internal/launchenv/env.go:204-220 | no two merged names are the same but for case |
| LaunchEnv.MergeAssociative | internal/launchenv/env.go:198-221 | merging is associative, including order and spelling of the names |
| LaunchEnv.MergeOverNothing | internal/launchenv/env.go:198-221 | the empty list is neutral: server variables without defaults are kept as they are, order and spelling included |
| LaunchEnv.MergeIdempotent | internal/launchenv/env.go:198-221 | merging a list over itself gives the list itself |
| LaunchEnv.MergeIsValid | internal/launchenv/env.go:198-203 | what merging yields can be merged again exactly if it has at most 64 variables |
| LaunchEnv.Determined | internal/launchenv/env.go:204-220 | the order of names and what each name finds determine a list without repeats |
| LaunchEnv.ValidateVariables | internal/launchenv/env.go:138-161 | computes the specified list of problems |
| LaunchEnv.ReportedExactly | internal/launchenv/env.go:138-161 | a problem is in it if and only if the list is longer than 64, an entry has that bad name or value, or an entry repeats that first entry with its name in any spelling |
| LaunchEnv.NoIssues | internal/launchenv/env.go:138-161 | a list has no problems exactly if it is short enough, all entries are fine and no two names are the same but for case |
| LaunchEnv.ValidateSecretStates | internal/launchenv/env.go:231-266 | no problems exactly if there are at most 64 names, all fine, no two the same but for case and none a normal variable's |
| LaunchEnv.ValidateMap | internal/launchenv/env.go:301-328 | in whatever order the map is walked, no problems exactly if it has at most 128 entries, all fine, no two names the same but for case, within 16384 bytes |
| LaunchEnv.BuildLaunchEnv | internal/launchenv/env.go:269-296 | succeeds if and only if both parts are valid and their sizes add up to at most 16384 bytes; then the map has exactly as many entries as variables and secrets together |
| LaunchStart.SavedCanStart | internal/controller/actions/launch-environment.go:134-156 | what was accepted for saving can be started if and only if the game's variables and those the server adds are at most 64 together and everything is within 16384 bytes |
| LaunchStart.SavedButNotStarted | internal/controller/api/rpc/game-server-environment.go:62-80 | 64 variables of a game and 64 others of a server are accepted, and the server cannot be started |
| LaunchEnv.NothingLost | internal/launchenv/env.go:287-291 | no entry overwrites another, so number and size of the parts add up |
| LaunchEnv.OnlySizeIsLeft | internal/launchenv/env.go:292-295 | after the earlier checks the last one can only find the size at fault |
| LaunchEnv.SizeWithout | internal/launchenv/env.go:353-359 | the size does not depend on the order of counting |
| LaunchEnv.DangerousNeverLaunched | internal/launchenv/env.go:339-351 | under the program's own rules nothing that is launched gets a variable by which programs are found or started, named one by one or by prefix, in whatever spelling |
| LaunchEnv.DeniedInNoSpelling | internal/launchenv/env.go:339-351 | a denied name is denied in every spelling |
| LaunchEnv.RulesExactly | internal/launchenv/env.go:163-194 | which names and values the rules accept |
| LaunchEnv.SizeOfOne | internal/launchenv/env.go:353-359 | a variable takes its name, its value and two bytes more |
| OfficialSync.UsersOwnIsKept | internal/gamedefinitions/definitions.go:305-328 | no synchronisation changes anything but the mark of a row that is not official or whose content is neither its base nor, without one, the shipped definition |
| OfficialSync.ProgramFollowsExactly | internal/gamedefinitions/definitions.go:279-348 | after a synchronisation, cut short as the program does at the first error or unreadable row, a row is the shipped definition if and only if it was already, or it was missing or official and clean and no definition up to it met an error or an unreadable row |
| OfficialSync.UnreadableRowStopsSync | internal/gamedefinitions/definitions.go:310-313 | a table in which one unreadable row keeps the next definition from being inserted, by every synchronisation |
| OfficialSync.FollowsExactlyIfClean | internal/gamedefinitions/definitions.go:286-348 | among the definitions that take effect, a row is the shipped definition afterwards if and only if it was missing, or official and clean |
| OfficialSync.SecondSyncChangesNothing | internal/gamedefinitions/definitions.go:279-351 | a second synchronisation with the same definitions that gets no further than the first inserts and updates nothing and leaves the table as it is, whatever errors either meets |
| OfficialSync.SecondSyncGetsAsFar | internal/gamedefinitions/definitions.go:279-351 | without failing calls it gets exactly as far as the first, also where that stopped at an unreadable row |
| OfficialSync.SharedIdNeverSettles | internal/gamedefinitions/definitions.go:243-275 | this needs distinct ids: two definitions with one id are updated in turn for ever |
| OfficialSync.EditsSurvive | internal/gamedefinitions/definitions.go:279-386 | over any run of synchronisations with changing definitions an edited or custom row keeps its content until it is saved, reset or removed |
| OfficialSync.UneditedStays | internal/gamedefinitions/definitions.go:279-386 | a row that nobody saves or removes is as recorded at every point of a run |
| OfficialSync.UneditedFollows | internal/gamedefinitions/definitions.go:279-351 | and after any run the next synchronisation makes it what was shipped if and only if no definition up to its own meets an error or an unreadable row, or it was that already |
| OfficialSync.RejoinsExactlyAtBase | internal/gamedefinitions/definitions.go:315-347 | a saved official row rejoins at the next synchronisation if and only if what was saved hashes to its base and the synchronisation gets to it |
| OfficialSync.ResetRejoins | internal/gamedefinitions/definitions.go:353-386 | a reset row follows its definition at once, and still after the next synchronisation, however that fares |
| OfficialSync.EveryRunMarksEdits | internal/gamedefinitions/definitions.go:388-431 | in every run a row that is not marked as diverged is as recorded |
| OfficialRows.JudgedExactly | internal/gamedefinitions/definitions.go:286-347 | what is done about a definition, from the row's own fields: inserted if missing, skipped if not official, an error if unreadable, marked if its content hashes to neither its base nor, without one, the definition, left if it is the definition already, and else updated |
| OfficialRows.WrittenExactly | internal/gamedefinitions/definitions.go:286-347 | a new or updated row is the definition to the letter, a marked one differs in its mark alone, and no other row is touched |
| OfficialRows.HandledExactly | internal/gamedefinitions/definitions.go:286-347 | a definition is handled if and only if its row can be read and no call that it needs fails |
| OfficialRows.ShippedExactly | internal/gamedefinitions/definitions.go:286-348 | where a definition takes effect its row is the shipped one afterwards if and only if it was missing, or official with the content of its base or, without one, of the definition |
| OfficialRows.BaselessEditKept | internal/gamedefinitions/definitions.go:315-328 | an official row without a base whose content is none of those shipped keeps its content in every synchronisation |
| OfficialRows.BaselessEditSurvives | internal/gamedefinitions/definitions.go:279-386 | and over any run of them, until it is saved, reset or removed |
| OfficialRows.CountedExactly | internal/gamedefinitions/definitions.go:280-347 | the result counts each definition once, by what became of its row |
| OfficialRows.SavedAndReset | internal/gamedefinitions/definitions.go:353-431 | a saved official row keeps its origin and is marked, any other has no origin; a reset row is the definition |
| OfficialSync.GameTable.SyncOfficialDefinitions | internal/gamedefinitions/definitions.go:279-351 | succeeds if and only if every definition is handled without an error or an unreadable row; otherwise those up to the first that is not have taken effect and are counted, and none after it |
| OfficialSync.GameTable.SyncDefinition | internal/gamedefinitions/definitions.go:287-347 | succeeds if and only if no needed call fails and the row, if official, can be read; one definition is then inserted, skipped, marked, updated or left, and an error comes with or without the write |
| OfficialSync.GameTable.ResetGameToOfficialDefinition | internal/gamedefinitions/definitions.go:356-386 | succeeds if and only if the row is official, has a shipped definition and no call fails; it stamps the first such definition, which an error after the write leaves in place |
| OfficialSync.MarkedOnce | internal/gamedefinitions/definitions.go:388-400 | marking a diverged row changes its mark alone and no verdict, so that marking again changes nothing |

## Left out

- DependencyPlanner.PlanPackages: assumes that version comparison orders valid versions by their numbers (Semantic Versioning 2.0.0, section 11) and takes it as a parameter elsewhere, because `golang.org/x/mod/semver` is not part of this model; that a file client lacks the planner's interface is not modelled
- PackageNames.JoinedIsVersion: covers versions of three numerals, the only ones that `validValheimPackageVersion` lets through
- ModTransactions.ModManager.ChangePackage: a rename, deletion or commit that reports an error changes nothing; one that takes effect and then reports an error is not modelled
- ModSupply.OwnedAtEveryMoment: the pinned archive of the loader is represented by what is assumed of its paths (`ModSupply.LoaderFiles`); generated ids are of one length and in lower case
- ValheimArchive.InstallsInDirectory: reading the archive, its hash and the checks of unsafe, repeated or colliding entries are left out
- LaunchStart.SavedCanStart: secrets are those present when the environment is saved, their values checked when stored; placeholders and the secrets that some games add at the start are left out
- ModTransactions.ModManager.Exists: directories are not modelled, so neither is a directory that has the name of a file
- ModPaths.PlaceRespectsCase: letters outside ASCII are not folded, `cleanRemotePath` is taken as the identity on recorded and packaged paths, and a mod's id has no upper-case twin
- ModTransactions.ModManager.Commit: `IsPrimary`, sizes, the primary hash, timestamps and pins of records are left out; a digest stands for the content it was taken of
- ModInstaller.InstallPlan: identifiers generated for mods and staging directories are assumed not to be in use; the plan itself and the checks that the server is stopped enter as parameters and failing calls
- NodeEvents.ReplicaAgrees: the fields of an event other than type, process and replay mark are one body, and the mutex makes each method one step
- EventBus.Bus.Publish: which unbuffered subscribers are waiting at the moment is a parameter, and the method runs to its end; publishers that overlap under the read lock, and can then reach different subscribers in different orders, are in BusInterleavings
- AlertPipeline.EachJobOnce: rule matching (`processServerEvent`, `processNodeEvent`, `matchesServer`, `matchesNode`, `evaluateCondition`) only decides how many jobs a message gives rise to; the job channel is never closed, as in the program; time-outs are failing calls
- AlertPipeline.DrainComplete: says nothing about jobs accepted after cancellation, which can stay in the channel (`AlertOutcomes.ProcessedExactlyIfInTime` says which)
- MetricsRollup.RollupInSteps: generated row ids, player, disk, I/O and volume columns, memory percentages and the latest-rank columns are not modelled; rounding of real averages is exact arithmetic
- MetricsRollup.RollupNested: leaves the I/O and connection counts out, because the insert bounds them only when they are set; `MetricsRollup.RollupFullyNested` covers that case
- SystemdQuoting.ExecStartRoundTrip: the executable path, `WorkingDirectory=`, the rest of the unit and the reader's numeric escapes are left out
- EnvFile.UpdatedReads: the reader is one of single `KEY=VALUE` lines; quoting, in-line comments, variable expansion and values over several lines of `github.com/joho/godotenv` are not modelled, nor are file modes and the temporary file
- FirstRunSecrets.EnvStore.EnsureSecrets: generated values and the default host are assumed to be non-blank and without line breaks, as base64 text and the program's own default are
- LaunchEnv.ValidateVariables: one problem stands for the several that one bad name or value may give; `strings.ToUpper` is a parameter, concretely on ASCII, which is all that valid names can hold
- LaunchEnv.ValidateMap: sizes count characters, which stand for bytes; text outside ASCII is longer in UTF-8
- LaunchEnv.BuildLaunchEnv: the order of problems, JSON parsing and printing are left out
- OfficialSync.UneditedFollows: equality is up to contents with the same hash, a shipped definition is assumed to hash to its own hash once stored, and shipped ids are assumed distinct, as they are
- OfficialSync.EditsSurvive: a saved edit always sets the mark, as every handler does; timestamps and the imported copy's id are left out
- Node metrics: `RollupNodeMetricsToHourly` is not modelled
- Mod managers for other games, mail, webhooks, RPC handlers, process supervision and the user interface are not modelled

# wazo-sdk core, modelled in Dafny

This project models the core of wazo-sdk (`wdk`), Wazo's developer command-line tool, together with
the older `xivoswap` tool it ships. Six parts of the tool are modelled:

- **Mount state** (`mount_state.dfy`, module `MountState`). The JSON document that records, per host,
  which repositories are mounted. A `State` object holds it and updates it in place. Python's
  dict aliasing is modelled explicitly: `_nested_get` either hands back a value stored in the
  document (`Stored`) or a fresh `{}` attached to nothing (`Fresh`). The operations are proved
  against a reference view of the document (`At`, `Blocked`, `Put`).
- **xivoswap** (`xivoswap.dfy`, module `XivoSwap`). It swaps packaged files for symlinks to a git
  checkout and back:
  - the module registry (a `Registry` object) and its top nodes;
  - command planning for path and compound modules;
  - de-duplication of commands (`simplify`);
  - command execution against a filesystem map (a `Host` object), with every `subprocess.call`
    and printed line logged.
- **chores** (`chores.dfy`, module `Chores`). The newer chore list: active repositories,
  per-chore statistics, dirty-repository details, and chore lookup by name. The docker and authors
  chores are included; their `grep`/`isfile` calls are given as oracles.
- **legacy chores** (`chores_legacy.dfy`, module `ChoresLegacy`). The older copy of the same
  command, with its in-file `Chore` base class. It is proved to agree with the newer one except
  for the detail lines.
- **repository clean-up**.
  - `repos.dfy` holds the shared data: upstream repositories and local git checkouts.
  - `rm_orphan.dfy` (module `RmOrphan`) deletes local clones without a live upstream repository,
    asking before each one.
  - `rm_archived.dfy` (module `RmArchived`) deletes local clones of archived repositories.
  - Each `take_action` loop is a method proved equal to a specification function. Its
    deletion-safety rules are lemmas about that function.
- **configuration** (`config.dfy`, module `WdkConfig`). How the option, the environment, the
  configuration file and the defaults take precedence over one another.

The shared helpers are:

- `wrappers.dfy`: `Option` and `Result`.
- `json.dfy`: JSON/YAML documents with Python truthiness, `or` and `dict.get`.
- `paths.dfy`: `os.path.join`.

Exceptions of the source are `Err` values (`KeyError`, `TypeError`, `AttributeError`, the tool's
own `NoSuchChore`, `BadArgumentsException`, …). Nothing is assumed away with a precondition.

## Model

| member | source | states |
|---|---|---|
| `MountState.State.constructor` | wazo_sdk/state.py:9-10 | the state holds exactly the document it is given |
| `MountState.State.FromJson` | wazo_sdk/state.py:43-45 | a new state whose document is the given JSON |
| `MountState.State.NestedGet` | wazo_sdk/state.py:51-56 | the loop of `.get(key, {})` rounds computes `NestedLookup` of the document |
| `MountState.LookupCharacterised` | wazo_sdk/state.py:51-56 | `_nested_get` raises (AttributeError) exactly when a non-dict blocks the path; it returns the stored value exactly when the path exists; otherwise it returns a fresh `{}` |
| `MountState.FreshStaysFresh` | wazo_sdk/state.py:53-54 | once a key is missing, every further round yields a fresh `{}` |
| `MountState.State.GetMount` | wazo_sdk/state.py:20-21 | the lookup of `hosts/<host>/mounts/<repo>` |
| `MountState.State.GetMounts` | wazo_sdk/state.py:23-24 | the lookup of `hosts/<host>/mounts` |
| `MountState.GetMountsUnknownHost` | wazo_sdk/state.py:23-24 | for a host the document does not know, the mounts are an empty dict |
| `MountState.State.IsMounted` | wazo_sdk/state.py:26-28 | the truthiness of the mount record, errors propagated |
| `MountState.IsMountedIff` | wazo_sdk/state.py:26-28 | mounted iff a truthy record is stored at the mount path; raises iff that path is blocked |
| `MountState.IsMountedIn` | wazo_sdk/state.py:26-28 | `is_mounted` on a document; stated by `MountState.IsMountedIff` |
| `MountState.UnknownHostNotMounted` | wazo_sdk/state.py:26-28 | no repo is mounted on an unknown host |
| `MountState.State.AddMount` | wazo_sdk/state.py:12-18 | the new document is `AddMountIn` of the old one; on error the document is unchanged |
| `MountState.AddMountIn` | wazo_sdk/state.py:12-18 | `add_mount` on a document; stated by `MountState.AddMountStores`, `MountState.AddMountFrame`, `MountState.AddMountIntoDetached` and `MountState.AddMountErrors` |
| `MountState.AddMountStores` | wazo_sdk/state.py:12-18 | when the mounts dict exists, the record `{project, lsync_config, lsync_pidfile}` is stored under `repo` and the repo is then mounted |
| `MountState.AddMountFrame` | wazo_sdk/state.py:12-18 | every path other than the repo's record (and those on the way to it) is unchanged |
| `MountState.AddMountIntoDetached` | wazo_sdk/state.py:12-18 | with no mounts dict for the host, the record goes into a detached `{}`: the document is unchanged and the repo is still not mounted |
| `MountState.AddMountErrors` | wazo_sdk/state.py:12-18 | raises AttributeError exactly where the lookup is blocked; raises TypeError when the mounts value is not a dict |
| `MountState.State.RemoveMount` | wazo_sdk/state.py:30-38 | the new document is `RemoveMountIn` of the old one; on error the document is unchanged |
| `MountState.RemoveMountIn` | wazo_sdk/state.py:30-38 | `remove_mount` on a document; stated by `MountState.RemoveMountDeletes`, `MountState.RemoveMountFrame`, `MountState.RemoveMountUnmounts` and `MountState.RemoveMountMissingRaises` |
| `MountState.IndexedAt` | wazo_sdk/state.py:31 | the `[...]` index chain finds the same mounts value as the reference view |
| `MountState.RemoveMountDeletes` | wazo_sdk/state.py:30-38 | when the mounts dict exists, exactly `repo` is deleted from it (nothing changes when it was absent) |
| `MountState.RemoveMountFrame` | wazo_sdk/state.py:30-38 | every path other than the repo's record is unchanged |
| `MountState.RemoveMountUnmounts` | wazo_sdk/state.py:30-38 | after a `remove_mount` that returns, the repo is not mounted |
| `MountState.RemoveMountMissingRaises` | wazo_sdk/state.py:31 | unlike the `.get` lookups, a missing `hosts`, host or `mounts` raises KeyError |
| `XivoSwap.CheckOptions` | genesis/xivoswap/xivoswap.py:57-59 | its meaning for a caller is stated by `XivoSwap.Start`: with no module named the command fails with BadArguments and touches nothing |
| `XivoSwap.Start` | genesis/xivoswap/xivoswap.py:52-55 | no module named: BadArguments and the host untouched; otherwise the outcome of `swap` |
| `XivoSwap.Swap` | genesis/xivoswap/xivoswap.py:61-68 | the host's new files and log, and the error, are `SwapOutcome`: plan every module first, then run the de-duplicated plan |
| `XivoSwap.PlanStopsAt` | genesis/xivoswap/xivoswap.py:63-65 | the first module whose commands fail makes the whole plan fail with that error |
| `XivoSwap.Registry.constructor` | genesis/xivoswap/xivoswap.py:71 | the registry starts empty |
| `XivoSwap.Registry.Register` | genesis/xivoswap/xivoswap.py:74-78 | a `Module` subclass is bound to the name (a new name is appended in order); any other class raises and leaves the registry unchanged |
| `XivoSwap.PathModuleCommands` | genesis/xivoswap/xivoswap.py:118-124 | an unlinked package swapped to git yields a print and an AddLink; a linked package swapped back yields a print and a RemoveLink; otherwise nothing; a missing package raises |
| `XivoSwap.PathActions` | genesis/xivoswap/xivoswap.py:118-124 | `PathModule.get_commands`; stated by `XivoSwap.PathModuleCommands` |
| `XivoSwap.CompoundModuleCommands` | genesis/xivoswap/xivoswap.py:103-111 | exactly the components' commands, followed by one RestartDaemon when there are some and the daemon is set, and by nothing otherwise; nothing at all exactly when every component yields nothing |
| `XivoSwap.ModuleActions` | genesis/xivoswap/xivoswap.py:103-124 | `get_commands` of a registered module; stated by `XivoSwap.PathModuleCommands`, `XivoSwap.CompoundModuleCommands` and `XivoSwap.PlanActionsPlanned`; an unknown name raises |
| `XivoSwap.ComponentActions` | genesis/xivoswap/xivoswap.py:104-107 | the components' commands in component order; stated by `XivoSwap.ComponentActionsAppend`, `XivoSwap.ComponentActionsSingle`, `XivoSwap.CompoundModuleCommands` and `XivoSwap.ComponentsEmptyIff` |
| `XivoSwap.ComponentActionsAppend` | genesis/xivoswap/xivoswap.py:104-107 | the commands of two runs of components are those of the first followed by those of the second; the first failure is the result |
| `XivoSwap.ComponentActionsSingle` | genesis/xivoswap/xivoswap.py:104-107 | a single component contributes exactly its own commands, or its error |
| `XivoSwap.ComponentsEmptyIff` | genesis/xivoswap/xivoswap.py:104-107 | the components yield nothing exactly when every component module yields nothing |
| `XivoSwap.PlanActionsPlanned` | genesis/xivoswap/xivoswap.py:61-65 | swapping to git never plans a restore, swapping back never plans a link; each link goes from an unlinked package of a registered path module to its git path, each restore is of a linked package |
| `XivoSwap.Simplify` | genesis/xivoswap/xivoswap.py:185-191 | the first occurrence of each command, in input order: no repeats, the same commands, a subsequence of the input |
| `XivoSwap.FirstOccurrencesDistinct` | genesis/xivoswap/xivoswap.py:187-191 | `simplify` never yields a command twice |
| `XivoSwap.FirstOccurrencesElements` | genesis/xivoswap/xivoswap.py:187-191 | every input command is yielded and nothing else is |
| `XivoSwap.FirstOccurrencesSubsequence` | genesis/xivoswap/xivoswap.py:187-191 | `simplify` keeps the input order |
| `XivoSwap.FirstOccurrencesOfDistinct` | genesis/xivoswap/xivoswap.py:187-191 | on a list without repeats `simplify` is the identity |
| `XivoSwap.NewCommandsPassSimplify` | genesis/xivoswap/xivoswap.py:182-183 | since every planned command is a new object, the decorator passes the whole plan through |
| `XivoSwap.Host.Process` | genesis/xivoswap/xivoswap.py:172-175 | the commands' effects in order; the first error stops the loop, the effects before it stay |
| `XivoSwap.Host.Execute` | genesis/xivoswap/xivoswap.py:131-169 | each command's effect: a printed line, `link_to`, `restore` or `service <daemon> restart` |
| `XivoSwap.Host.LinkTo` | genesis/xivoswap/xivoswap.py:198-201 | the new filesystem and log are `LinkedTo` of the old ones; a missing path raises and changes nothing |
| `XivoSwap.Host.Restore` | genesis/xivoswap/xivoswap.py:203-206 | the new filesystem and log are `Restored` of the old ones; a missing path raises and changes nothing |
| `XivoSwap.LinkToLinked` | genesis/xivoswap/xivoswap.py:198-199 | `link_to` on a link does nothing |
| `XivoSwap.LinkToPlain` | genesis/xivoswap/xivoswap.py:198-201 | `link_to` on a plain path moves it to `<path>-orig`, links the path to the git copy, and logs `mv` then `ln -s` |
| `XivoSwap.RestoreUnlinked` | genesis/xivoswap/xivoswap.py:203-204 | `restore` on a non-link does nothing |
| `XivoSwap.RestoreLinked` | genesis/xivoswap/xivoswap.py:203-206 | `restore` on a link removes it, moves `<path>-orig` back, and logs `rm` then `mv` |
| `XivoSwap.LinkThenRestore` | genesis/xivoswap/xivoswap.py:198-206 | `restore` after `link_to` gives the path its original content back; the files are as before except that an older `<path>-orig` is gone |
| `XivoSwap.SwapPathModuleToGit` | genesis/xivoswap/xivoswap.py:61-68 | swapping one unlinked path module to git prints one line, keeps the original at `<package>-orig` and leaves the package a link to the git path, logging `mv` then `ln -s` |
| `XivoSwap.SwapPathModuleRoundTrip` | genesis/xivoswap/xivoswap.py:61-68 | swapping to git and back restores the filesystem, when no `<package>-orig` was there before |
| `XivoSwap.SwapPathModuleIdempotent` | genesis/xivoswap/xivoswap.py:61-68 | a second swap to git changes neither the files nor the log |
| `XivoSwap.Registry.TopNodes` | genesis/xivoswap/xivoswap.py:881-888 | succeeds exactly when the components of all compound modules are distinct and registered; the result is then the registered names minus those components, in registration order; otherwise `list.remove` raises (ValueError) |
| `XivoSwap.Registry.RemoveComponents` | genesis/xivoswap/xivoswap.py:885-887 | removes each component of one compound module from the list in turn; on success the removed components grow by exactly that module's components and stay distinct and registered; a failing `list.remove` means a repeated or unregistered component |
| `XivoSwap.NotDistinctOrUnregistered` | genesis/xivoswap/xivoswap.py:885-887 | a component missing from the list means a repeated or unregistered component |
| `Chores.ActiveRepos` | wazo_sdk/commands/chores_.py:137-146 | the listed directories minus the archived and ignored names; that no archived or ignored name is ever counted or reported by any chore is stated by `Chores.ExcludedNeverSeen` |
| `Chores.ExcludedNeverSeen` | wazo_sdk/commands/chores_.py:143 | an archived or ignored repository is never counted or reported, by any chore |
| `Chores.FindChore` | wazo_sdk/commands/chores_.py:108-113 | the index of the first chore with that name; NoSuchChore when none has it |
| `Chores.GetChore` | wazo_sdk/commands/chores_.py:108-113 | that first chore, or NoSuchChore(name) |
| `Chores.FindFirst` | wazo_sdk/commands/chores_.py:109-111 | the first chore with the name is the one found, whatever follows |
| `Chores.KnownChores` | wazo_sdk/commands/chores_.py:105-106 | "docker" and "authors" name the two chores; every other name raises NoSuchChore |
| `Chores.Dirty` | wazo_sdk/commands/chores_.py:115-118 | the reported repositories; `Chores.DirtySplit` states they are exactly the applicable ones that are not clean, and `Chores.StatsCountDirty` that their number is total minus clean |
| `Chores.AllStats` | wazo_sdk/commands/chores_.py:120-135 | one statistics line per chore; `Chores.TakeActionStats` states these are what `--list` prints, and `ChoresLegacy.SameStats` that both copies print the same |
| `Chores.DirtySplit` | wazo_sdk/commands/chores_.py:120-135 | the clean repositories are applicable ones; the dirty ones are exactly the applicable ones that are not clean |
| `Chores.StatsCountDirty` | wazo_sdk/commands/chores_.py:120-135 | clean is at most total; total minus clean is the number of reported repositories; "OK" iff none is reported |
| `Chores.TakeActionStats` | wazo_sdk/commands/chores_.py:92-94 | with `--list` or no chore name, the statistics of every chore are printed |
| `Chores.TakeActionUnknown` | wazo_sdk/commands/chores_.py:95-101 | an unknown name prints "Chore not found: <name>" |
| `Chores.TakeActionKnown` | wazo_sdk/commands/chores_.py:95-103 | a known name prints the details of the first chore so named |
| `Chores.TakeActionEmptyName` | wazo_sdk/commands/chores_.py:93-95 | an empty chore name does nothing |
| `Chores.TakeAction` | wazo_sdk/commands/chores_.py:92-103 | `take_action`; its four cases are stated by `Chores.TakeActionStats`, `Chores.TakeActionUnknown`, `Chores.TakeActionKnown` and `Chores.TakeActionEmptyName` |
| `ChoresLegacy.LegacyDocker` | wazo_sdk/commands/chores.py:95-104 | the older docker chore; `ChoresLegacy.SameStats` and `ChoresLegacy.SameDetails` state it counts like the newer one and reports each dirty repository by name |
| `ChoresLegacy.LegacyAuthors` | wazo_sdk/commands/chores.py:142-151 | the older authors chore; `ChoresLegacy.SameStats` and `ChoresLegacy.SameDetails` state it counts like the newer one and reports each dirty repository by name |
| `ChoresLegacy.BaseChoreDefaults` | wazo_sdk/commands/chores.py:74-87 | the base chore applies to every active repository, finds all of them dirty, and reports each by name: 0 out of the number of active repositories |
| `ChoresLegacy.BaseChoreNotListed` | wazo_sdk/commands/chores.py:189-197 | "undefined", the base class's name, names no chore |
| `ChoresLegacy.LegacyDetailsAreNames` | wazo_sdk/commands/chores.py:199-202 | a chore without its own detail line reports the names of the dirty repositories |
| `ChoresLegacy.SameLookup` | wazo_sdk/commands/chores.py:192-197 | both copies find a chore name in the same place |
| `ChoresLegacy.SameStats` | wazo_sdk/commands/chores.py:204-219 | both copies print the same statistics |
| `ChoresLegacy.SameDetails` | wazo_sdk/commands/chores.py:199-202 | both copies report the same repositories for a known chore, the older one by name |
| `ChoresLegacy.SameAsNewer` | wazo_sdk/commands/chores.py:176-187 | both copies of `take_action` agree on everything except the detail lines |
| `Paths.Join` | wazo_sdk/commands/repos/rm_archived.py:30 | an absolute second part replaces the first; otherwise the result starts with the first part and ends with the second |
| `Paths.JoinInjective` | wazo_sdk/commands/chores_.py:144-146 | under one directory, different entry names give different paths |
| `RmOrphan.Partition` | wazo_sdk/commands/repos/rm_orphan.py:28-35 | each upstream repository goes to the archived or the live set according to its flag, and the two sets hold exactly the listed names |
| `RmOrphan.Lower` | wazo_sdk/commands/repos/rm_orphan.py:70 | ASCII lowering; what the prompt relies on is stated by `RmOrphan.LowerAnswers` |
| `RmOrphan.LowerAnswers` | wazo_sdk/commands/repos/rm_orphan.py:70-76 | an answer lowers to "y" exactly when it is "y" or "Y", to "n" exactly when it is "n" or "N"; lowering twice is lowering once |
| `RmOrphan.ConfirmDelete` | wazo_sdk/commands/repos/rm_orphan.py:67-79 | re-prompts until an answer lowercases to "y" or "n"; the verdict is True exactly for "y"; the answers read are those up to the first valid one; None when input ends first |
| `RmOrphan.ReasonFor` | wazo_sdk/commands/repos/rm_orphan.py:47-49 | the reason printed and recorded; `RmOrphan.StepJustified` states that every WouldDelete, Aborted and Deleted decision carries "Archived" exactly for archived names |
| `RmOrphan.HandleDirectory` | wazo_sdk/commands/repos/rm_orphan.py:38-65 | one pass of the directory loop, equal to `StepFor` |
| `RmOrphan.Advance` | wazo_sdk/commands/repos/rm_orphan.py:38-65 | one more directory handled keeps the run so far a prefix of the whole run; an interrupted prompt ends the run there |
| `RmOrphan.TakeAction` | wazo_sdk/commands/repos/rm_orphan.py:27-65 | the whole run, equal to `OrphanRun` over the live and archived names |
| `RmOrphan.StepJustified` | wazo_sdk/commands/repos/rm_orphan.py:38-65 | each decision follows the checks in order, each as an if-and-only-if; the directory is removed exactly when the decision is Deleted, and then the last answer read lowers to "y" |
| `RmOrphan.OrphanRunOrder` | wazo_sdk/commands/repos/rm_orphan.py:37 | directories are handled in listing order, all of them unless input ends at a prompt |
| `RmOrphan.OrphanRunSafe` | wazo_sdk/commands/repos/rm_orphan.py:37-65 | live remote, non-git and dirty directories are never deleted; exactly the Deleted entries' paths are removed, in order |
| `RmOrphan.DryRunDeletesNothing` | wazo_sdk/commands/repos/rm_orphan.py:55-57 | a dry run deletes nothing, never prompts and needs no input |
| `RmOrphan.ConfirmYes` | wazo_sdk/commands/repos/rm_orphan.py:70-79 | a True verdict means an answer "y" was read |
| `RmOrphan.ConfirmLast` | wazo_sdk/commands/repos/rm_orphan.py:70-79 | the last answer `confirm_delete` reads is the one it accepts, and the verdict is True exactly when that answer lowers to "y" |
| `RmOrphan.DeletionsNeedYes` | wazo_sdk/commands/repos/rm_orphan.py:59-64 | there are no more deletions than answers "y" |
| `RmArchived.HandleRepo` | wazo_sdk/commands/repos/rm_archived.py:28-41 | one pass of the loop, equal to `StepFor` |
| `RmArchived.TakeAction` | wazo_sdk/commands/repos/rm_archived.py:26-41 | the whole run, equal to `ArchivedRun` starting with nothing deleted |
| `RmArchived.StepJustified` | wazo_sdk/commands/repos/rm_archived.py:28-41 | each check as an if-and-only-if: not archived, excluded, directory missing or already deleted, dirty; a clean present repository is reported in a dry run and deleted otherwise; the path is removed exactly when the decision is Deleted |
| `RmArchived.ArchivedRunJustified` | wazo_sdk/commands/repos/rm_archived.py:27-41 | repositories are handled in listing order, all of them unless one failed, and each entry is justified by its repository with the paths deleted before it counted as gone |
| `RmArchived.ArchivedRunDeletes` | wazo_sdk/commands/repos/rm_archived.py:37-41 | exactly the Deleted entries' paths are removed, in order, each once, and none that was already gone |
| `RmArchived.ArchivedRunFails` | wazo_sdk/commands/repos/rm_archived.py:33 | a run stops only at the first repository it does not handle, which is archived, not excluded, and whose directory is there but is not a git repository |
| `RmArchived.DryRunDeletesNothing` | wazo_sdk/commands/repos/rm_archived.py:37-38 | a dry run deletes nothing |
| `WdkConfig.Get` | wazo_sdk/config.py:32 | `.get` on the configuration; its effect on each setting is stated by `WdkConfig.HostnamePrecedence`, `WdkConfig.LocalSourcePrecedence`, `WdkConfig.RemoteSourceFromFile` and `WdkConfig.GetProjectDefault`, each including the AttributeError on a document that is not a mapping |
| `WdkConfig.ExpandUser` | wazo_sdk/config.py:35 | `os.path.expanduser`; `WdkConfig.LocalSourcePrecedence` states that a local source that is not a string raises TypeError |
| `WdkConfig.ReadYml` | wazo_sdk/config.py:47-51 | reading a YAML file; `WdkConfig.DefaultProjectFile` and `WdkConfig.UnreadableProjectFile` state that a missing or unreadable file reads as `{}` |
| `WdkConfig.Load` | wazo_sdk/config.py:12-15 | `Config.__init__`; stated by `WdkConfig.DefaultProjectFile` (nothing set: `{}` and the default project file) and `WdkConfig.UnreadableProjectFile` |
| `WdkConfig.ProjectFilename` | wazo_sdk/config.py:38-45 | the project file name chain; stated by `WdkConfig.ProjectFilenameOrder` and `WdkConfig.ProjectFilenameFileNotMapping` |
| `WdkConfig.FirstTruthy` | wazo_sdk/config.py:39-44 | the first truthy value, all before it falsy; the last resort when none is truthy |
| `WdkConfig.HostnamePrecedence` | wazo_sdk/config.py:17-19 | a non-empty `--hostname` wins; otherwise the file's `hostname`, `None` when absent |
| `WdkConfig.Hostname` | wazo_sdk/config.py:17-19 | `Config.hostname`; stated by `WdkConfig.HostnamePrecedence` |
| `WdkConfig.LocalSourcePrecedence` | wazo_sdk/config.py:21-25 | an expanded non-empty `--dev-dir` wins; otherwise the file's `local_source`, expanded, TypeError when it is not a string, and AttributeError when the file is not a mapping |
| `WdkConfig.LocalSource` | wazo_sdk/config.py:21-25 | `Config.local_source`; stated by `WdkConfig.LocalSourcePrecedence` |
| `WdkConfig.RemoteSourceFromFile` | wazo_sdk/config.py:27-29 | only the file's `remote_source` counts, whatever the options |
| `WdkConfig.RemoteSource` | wazo_sdk/config.py:27-29 | `Config.remote_source`; stated by `WdkConfig.RemoteSourceFromFile` |
| `WdkConfig.ProjectFilenameOrder` | wazo_sdk/config.py:38-45 | the project file is the first truthy of the option, `WDK_PROJECT_FILE`, the file's `project_file` and `~/.config/wdk/project.yml` |
| `WdkConfig.ProjectFilenameFileNotMapping` | wazo_sdk/config.py:38-44 | with a configuration document that is not a mapping, the chain fails exactly when it gets as far as the file |
| `WdkConfig.DefaultProjectFile` | wazo_sdk/config.py:12-15 | with nothing set, the configuration is `{}` and the project file is the default |
| `WdkConfig.GetProjectDefault` | wazo_sdk/config.py:31-32 | a known project's entry, `{}` for an unknown one; AttributeError when the project document is not a mapping |
| `WdkConfig.GetProject` | wazo_sdk/config.py:31-32 | `Config.get_project`; stated by `WdkConfig.GetProjectDefault` |
| `WdkConfig.UnreadableProjectFile` | wazo_sdk/config.py:47-51 | an unreadable project file makes every project `{}` |
| `WdkConfig.EmptyProjectFile` | wazo_sdk/config.py:31-32 | an empty project file loads as `None`, so every `get_project` raises AttributeError |

## Left out

Reading and writing files is left out:

- `State.to_file` and `State.from_file`: the JSON file I/O is not modelled. `from_json` is.
- `Config._read_yml_file` parsing: `yaml.load` is given as the already-parsed content of each
  file. YAML parse errors are not modelled, and neither are I/O errors other than `IOError`.

Operating-system calls are given as parameters:

- `os.path.expanduser` is an arbitrary function on strings (`World.expand`).
- `os.getenv` is a map.
- `os.listdir` is a sequence, `os.path.isdir` and `os.path.isfile` are predicates, and
  `git.Repo(...).is_dirty()` is a function from path to `LocalRepo`.
- A failing `os.listdir` and git's `NoSuchPathError` are not modelled.
- `shutil.rmtree` always succeeds in the model (rm-orphan and rm-archived). The `OSError` it can
  raise, for example on a permission error, which would end the command, is not modelled.

Other gaps:

- Python sets are unordered, so the order in which chores visits its set of active
  repositories, and the order of the lines it prints, is not modelled. Chore details and active
  repositories are sets. rm-orphan walks `os.listdir` in order, and the model keeps that order.
- Python 2 dict order in `get_top_nodes` is modelled as registration order. The concrete
  registry table of xivoswap (its hundreds of `register_module` calls) and the `AllModules` class
  built from `get_top_nodes` at import time are not modelled. The operations are proved for
  every registry.
- Registering the base class `Module` itself passes the `issubclass` check, and its `commands`
  then raises `NotImplementedError`. The model's `ModuleClass` holds only a path or compound
  module definition, so that registration and its error are not modelled.
- JSON and YAML numbers are integers (`Json.Num`). Floats, and the falsiness of `0.0`, are not
  modelled; none of the configuration keys read is a number.
- `XivoSwap.ModuleActions`: the interpreter's recursion limit is a `depth` bound. Nesting beyond
  it gives `RecursionLimit`.
- xivoswap's `mv`: moving into an existing directory and the descendants of a directory are not
  modelled. The filesystem is a flat map from path to node. A failing `mv`, `ln` or `rm` is
  ignored, as `subprocess.call` ignores it.
- The output of the subprocesses (`service … restart`, `grep`) is not modelled. Only the call
  is logged.
- The chore predicates are oracles (`Oracles`). When `grep` exits with status 2, the source
  raises `CalledProcessError`; that case is not modelled.
- Logging (`self.app.LOG`), the "Invalid answer." message and `print_expectations` are not
  modelled.
- `RmOrphan.Lower`: only ASCII letters are lower-cased, not all of Unicode.
- `iter_all_repositories` (the GitHub listing) is a sequence of `RemoteRepo` given to
  `TakeAction`.
- `--exclude` of rm-orphan is parsed but never read by the source, so the model has no such
  parameter.
- The mount state document is a tree of values. `from_json` can be handed Python objects whose
  sub-dicts are shared, so that one `add_mount` shows under two paths; that sharing is not
  modelled.
- The mount orchestration that calls `State` (`wazo_sdk/mount.py`) is not part of this model.
- xivoswap's parser and `Assembler` wiring, and the commented-out `/proc/mounts` variant of
  `link_to`, are not modelled.
- Command identity in `simplify`: command objects define no equality, so two commands are the
  same only when they are the same object. Every planned command is a new object. So `simplify`
  removes nothing from a plan (`NewCommandsPassSimplify`), even when two modules plan the same
  link.

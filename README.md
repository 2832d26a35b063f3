# AG Manager, modelled in Dafny

AG Manager runs several isolated instances of the Antigravity editor on macOS. For
each registered instance name it keeps three things apart:

- a physical clone of the app bundle, `apps_dir/Antigravity-<safe>.app`;
- a data directory, `data_dir/<safe>`, holding `user_data` and `extensions`;
- a process identity: two shell launchers replace the language-server and Electron
  binaries inside the clone. At run time each launcher copies the original binary to
  `<binary>_<identity>` and execs that copy, so a Proxifier rule can tell the
  instances' processes apart by name.

This project models the core of `ag_manager.py`:

- the instance registry (`ConfigManager`);
- name sanitisation and path derivation;
- cloning with its nesting guard;
- the two shim installs and the launchers' run-time decision;
- `sync_kernel`;
- `launch`: the executable choice, the argument vector, the child environment and
  the VS Code settings merge;
- `delete_resources`.

The file system is a map from resolved absolute paths to nodes (directory, or file
with contents, integer mtime and execute bit). Every path the program hands to the
OS is resolved as `os.path.abspath` resolves it (`Paths.AbsPath`, a model of
`posixpath.join`/`normpath`). The one exception is the data path of a name that
sanitises to "." or "..": `delete_resources` tests and removes it as the OS resolves
it, against the data directory itself.

The modules:

- `Wrappers`: `Option`, `Result` and the three error kinds. `PathPolicy` is the
  guards' `ValueError`, `NotFound` a missing source, `IOFailure` any OS error.
- `Paths`: `join`, `normpath`, `abspath`, "lies below" (`Under`), and their laws.
- `Naming`: `sanitize_filename`, the clone and data paths, and the ASCII identity
  filter that the launcher's `tr -cd '[:alnum:]_-'` and the rule text's `re.sub`
  share.
- `Registry`: the `Account` record and the `ConfigManager` class over a
  `seq<Account>`, with a `saves` counter for `save()`.
- `FileSystem`: `rmtree`, `copytree`, `makedirs`, `mv` and `listdir` as functions on
  the map. `ListDir` is a method that returns the names in an unspecified order.
- `Shim`: the install state machine, and the launcher's decision (when to copy,
  what to exec).
- `Settings`: the three-key merge of `settings.json`.
- `Launch`: the executable choice as the source's loop, the command line, and the
  environment built by repeated key assignment.
- `Manager`: each operation as a function of the state before it (`Created`,
  `ShimStep`, `Synced`, `Prepared`, `Injected`, `Removed`). The `AppPowerManager`
  class performs the steps one by one over its `fs` field, and each method is proved
  to end in the state the function gives.
- `Properties`: what the operations guarantee. Guards run before anything changes,
  each operation stays inside its own instance's trees, and steps leave what they
  promise.
- `Isolation`: when two instances are really apart, and the names with which they are
  not.

Inputs the program reads from the environment are parameters:

- `time.time()` is `now`;
- `os.environ` is `environ`;
- the working directory is `Layout.cwd`;
- `os.listdir` order is a nondeterministic choice.

## Model

| member | source | states |
|---|---|---|
| Registry.Without | ag_manager.py:100 | the comprehension `[a for a in accounts if a["name"] != name]`; `WithoutSpec`, `WithoutConcat` and `WithoutAbsent` state what it keeps |
| Registry.Apply | ag_manager.py:107 | `acc.update(kwargs)` for the keys callers pass (`note`, `proxy_url`, `last_used`): a key present overwrites, an absent one keeps; `ApplyKeepsName` states that the name and `created_at` never change |
| Registry.FirstIndexOf | ag_manager.py:105-108 | no index exactly when no record has the name; otherwise the position of the first record with it |
| Registry.FindAccount | ag_manager.py:385 | a record exactly when some record has the name, and then a record of the list with that name |
| Registry.FindAccountFirst | ag_manager.py:385 | the record `launch` reads is the first one with the name, whatever follows it |
| Registry.WithoutSpec | ag_manager.py:99-102 | the filter leaves no record with the name, keeps exactly the records with other names, and never grows the list |
| Registry.WithoutConcat | ag_manager.py:100 | the filter distributes over concatenation, so it keeps the records' order |
| Registry.WithoutAbsent | ag_manager.py:100 | deleting a name nobody has leaves the list unchanged |
| Registry.AddThenDelete | ag_manager.py:699-714 | adding a fresh name and deleting it again restores the list: the rollback when the clone cannot be made |
| Registry.AppendKeepsUnique | ag_manager.py:84-97 | appending a record under a fresh name keeps names unique |
| Registry.WithoutKeepsUnique | ag_manager.py:99-102 | deleting keeps names unique |
| Registry.ApplyKeepsName | ag_manager.py:104-110 | an update never renames a record nor changes its creation time |
| Registry.UpdateKeepsUnique | ag_manager.py:104-110 | updating one record keeps names unique |
| Registry.AddAccountAdmitsCollision | ag_manager.py:84-97 | beside "a b", `add_account` accepts "a_b" though both sanitise to "a_b"; the admissibility check refuses it |
| Registry.AdmissibleKeepsSeparated | ag_manager.py:84-97 | appending an admissible name keeps every pair of registered names distinguishable |
| Registry.SeparatedUnique | ag_manager.py:84-97 | a separated registry has unique names, so the checked add is at least as strict as the source's |
| Registry.ConfigManager.constructor | ag_manager.py:40-46 | the source path, both roots and the accounts are those the configuration supplies, and nothing has been saved yet |
| Registry.ConfigManager.GetAccounts | ag_manager.py:81-82 | returns the account list |
| Registry.ConfigManager.AddAccount | ag_manager.py:84-97 | adds exactly when no record has the name; then it appends one record with that name, the given note and proxy, `created_at = now` and `last_used = 0`, and saves once; otherwise nothing changes |
| Registry.ConfigManager.AddAccountChecked | ag_manager.py:84-97 | the corrected add: adds exactly when the name is admissible, as `AddAccount` does, and preserves separation |
| Registry.ConfigManager.DeleteAccount | ag_manager.py:99-102 | the list becomes the filter of the old list, and one save happens |
| Registry.ConfigManager.UpdateAccount | ag_manager.py:104-110 | returns true exactly when a record has the name; then only the first such record gets the update and one save happens; otherwise nothing changes |
| Naming.Sanitize | ag_manager.py:118-119 | `sanitize_filename`: the `re.sub` of every character outside `[\w\-.一-龥]` by '_', then `strip()`; `SanitizeAt`, `SanitizeSafe`, `SanitizeFixed`, `SanitizeIdempotent` and `SanitizeNoSlash` state its meaning |
| Naming.AppPath | ag_manager.py:121-124 | `get_app_path`: `os.path.join(apps_dir, "Antigravity-" + safe + ".app")`; `AppPathShape`, `AppNamePlain` and `AppNameInjective` state its shape |
| Naming.DataPath | ag_manager.py:126-129 | `get_data_path`: `os.path.join(data_dir, safe)`; `DataPathShape` and `Isolation.InstancePaths` state its shape |
| Naming.IdentityFilter | ag_manager.py:813 | deletes every character outside `[A-Za-z0-9_-]`, as the rule's `re.sub` and the launcher's `tr -cd '[:alnum:]_-'` (ag_manager.py:207) do; the `IdentityFilter` lemmas below state its meaning |
| Naming.SafeIsNotSpace | ag_manager.py:119 | no character that the substitution keeps or writes is whitespace |
| Naming.ReplaceUnsafeAt | ag_manager.py:119 | the substitution keeps the length and maps each character to itself when safe, to '_' otherwise |
| Naming.StripNoSpace | ag_manager.py:119 | `strip()` of a string without whitespace is that string |
| Naming.SanitizeAt | ag_manager.py:118-119 | `sanitize_filename` keeps the length, replaces exactly the unsafe characters by '_' and keeps every other character |
| Naming.SanitizeSafe | ag_manager.py:118-119 | a sanitised name holds only safe characters |
| Naming.SanitizeFixed | ag_manager.py:118-119 | a name is its own sanitisation exactly when all its characters are safe |
| Naming.SanitizeIdempotent | ag_manager.py:118-119 | sanitising twice is sanitising once |
| Naming.SanitizeNoSlash | ag_manager.py:118-119 | a sanitised name never contains '/' |
| Naming.AppNamePlain | ag_manager.py:121-124 | the clone's file name is one directory entry ending in `.app` |
| Naming.AppPathShape | ag_manager.py:121-124 | `get_app_path(n)` is `apps_dir + "/Antigravity-" + sanitize(n) + ".app"` and ends in `.app` |
| Naming.DataPathShape | ag_manager.py:126-129 | `get_data_path(n)` is `data_dir + "/" + sanitize(n)` |
| Naming.PathsFollowSanitize | ag_manager.py:118-129 | both paths depend on the name only through its sanitisation |
| Naming.AppNameInjective | ag_manager.py:121-124 | different sanitisations give different clone names |
| Naming.IdentityFilterAt | ag_manager.py:813 | the identity filter keeps only `[A-Za-z0-9_-]` and never lengthens |
| Naming.IdentityFilterFixed | ag_manager.py:813 | a string is its own filtering exactly when all its characters are identity characters |
| Naming.IdentityFilterIdempotent | ag_manager.py:813 | filtering twice is filtering once |
| Naming.IdentityFilterConcat | ag_manager.py:207 | filtering a concatenation filters each part, so `echo`'s newline is dropped |
| Paths.Join | ag_manager.py:124 | `os.path.join(a, b)`: an absolute `b` replaces `a`, otherwise exactly one '/' separates them; `JoinEndsWith` and `AbsPathJoinPlain` are its laws |
| Paths.NormPath | ag_manager.py:137 | `posixpath.normpath`: empty and "." components dropped, ".." cancelling a preceding name (and dropped at the root of an absolute path), POSIX's one-or-two leading slashes, "." for nothing |
| Paths.AbsPath | ag_manager.py:137 | `os.path.abspath(p)` as `normpath(join(cwd, p))`; `AbsPathIsAbsolute`, `AbsPathJoinPlain`, `AbsPathJoinDot` and `AbsPathJoinDotDot` state its meaning |
| Paths.AbsPathIsAbsolute | ag_manager.py:137 | `abspath` always yields an absolute path |
| Paths.AbsPathJoinPlain | ag_manager.py:137 | `abspath(join(d, c))` is `join(abspath(d), c)` for a plain entry name `c` |
| Paths.AbsPathJoinDot | ag_manager.py:126-129 | joining "." or "" does not move a path under `abspath` |
| Paths.AbsPathJoinDotDot | ag_manager.py:126-129 | joining ".." to a non-root path names its parent under `abspath` |
| Paths.UnderStartsWith | ag_manager.py:137 | an entry below a directory has that directory as a string prefix, the form the guards test |
| Paths.JoinEndsWith | ag_manager.py:308 | a joined relative name is a suffix of the result |
| FileSystem.MakeDirs | ag_manager.py:155 | `os.makedirs(p, exist_ok=True)`: fails when a file stands at `p` or an ancestor, else makes every missing ancestor a directory; `MakeDirsSpec` states its meaning |
| FileSystem.CopyTree | ag_manager.py:159 | `shutil.copytree(src, dst, symlinks=True)`: a missing source, a non-directory source and an existing target are refused. The source is listed before the target is made, and each subdirectory when it is copied, so the copy runs into its own output (an OS error) exactly when a directory strictly inside the source already holds the target. Otherwise the target's ancestors are made and the tree as listed is grafted, also onto a target inside the source. `CopyTreeSpec` states its meaning |
| FileSystem.Rename | ag_manager.py:184 | `mv target_bin original_bin` onto a free name: the entry moves, nothing else changes; `Shim.InstallKeepsBackup` states its effect in the install |
| FileSystem.RemoveTree | ag_manager.py:312-313 | `rmtree(p)` removes exactly `p` and the entries below it and keeps everything else unchanged |
| FileSystem.EmptyTree | ag_manager.py:468 | what `rmtree(p)` leaves when it removes everything below `p` but fails on `p` itself: exactly `p` and the entries not below it remain, unchanged |
| FileSystem.ListDir | ag_manager.py:355 | `listdir` returns each child name exactly once, in some order |
| FileSystem.MakeDirsSpec | ag_manager.py:155 | `makedirs` fails exactly when a file stands at the path or at an ancestor; on success the path is a directory, every entry is kept, and only ancestors of the path are added |
| FileSystem.CopyTreeSpec | ag_manager.py:159 | `copytree` reports a missing source as not found and never as a policy refusal. It succeeds exactly when the source is a directory, the target is free, no directory inside the source holds the target, and no file stands on the target's ancestry. On success each entry of the source reappears unchanged at its re-rooted place, nothing outside the target changes, only the target's tree and its ancestors are added, and every new entry below the target is a re-rooted source entry with its contents |
| FileSystem.GraftSpec | ag_manager.py:159 | the grafted tree lies below the target, holds every source entry re-rooted, and holds nothing else: each of its entries is a re-rooted source entry with that entry's contents |
| Shim.InstallAt | ag_manager.py:176-230 | one install on a slot directory: a missing directory stops it; the live binary is moved to the backup name when no backup exists; a still missing backup stops it; a directory at the live name makes the write fail; otherwise the launcher is written over the live name; `InstallStages`, `InstallKeepsBackup`, `InstallIdempotent` and `InstallFrame` state its meaning |
| Shim.Install | ag_manager.py:164-230 | `install_process_shim` / `install_electron_shim` (ag_manager.py:232-292) on a resolved slot directory, with the slot's names and launcher text |
| Shim.NeedsCopy | ag_manager.py:212 | the launcher's test before `cp`: no regular file at the target, or, for Electron (ag_manager.py:275), an original newer than the target; `RunCopies` and `RunReuses` state both outcomes |
| Shim.RunLauncher | ag_manager.py:197-222 | one start of the language-server launcher, and of the Electron one (ag_manager.py:263-284): no identity execs the original; otherwise the copy is made when due and the copy is exec'd; `RunTarget`, `RunCopies`, `RunReuses` and `RunStable` state its meaning |
| Shim.SlotNamesPlain | ag_manager.py:173-174 | the live and backup names are single directory entries |
| Shim.SlotPaths | ag_manager.py:173-174 | the live and backup paths are distinct children of the slot directory, neither below the other |
| Shim.BackupBesideLive | ag_manager.py:174 | the backup is the live path with `.original` appended |
| Shim.InstallStages | ag_manager.py:176-191 | a missing slot, or a backup still missing after capture, ends the install with nothing changed; a directory at the live name makes the write fail; the install ends in the shimmed state exactly when it reports success, and it succeeds exactly from the pristine, shimmed or captured state |
| Shim.InstallKeepsBackup | ag_manager.py:180-183 | an existing backup is never overwritten; a first install moves the live binary to the backup |
| Shim.InstallIdempotent | ag_manager.py:164-230 | installing twice equals installing once at the later time |
| Shim.InstallFrame | ag_manager.py:164-230 | nothing outside the slot directory changes, nor the directory itself |
| Shim.RunTarget | ag_manager.py:197-222 | with no identity the launcher execs the original and changes nothing; with one it execs only the renamed copy and writes nothing else |
| Shim.RunCopies | ag_manager.py:212-217 | when a copy is due, the launcher execs a fresh, unsigned, executable copy of the original stamped `now` |
| Shim.RunReuses | ag_manager.py:275 | an existing copy is reused by the language-server launcher always; the Electron launcher leaves the file system as it was exactly when the original is not newer than the copy, or the refreshed copy would equal the old one |
| Shim.RunStable | ag_manager.py:263-284 | after a first start has made the copy, a later start changes nothing and execs the same copy |
| Shim.TargetIsNotBackup | ag_manager.py:208 | the renamed copy never takes the backup's name |
| Shim.EchoedTargetMatchesRule | ag_manager.py:207 | for every identity `echo` prints verbatim, the script's target name is the rule's process name |
| Shim.EchoOptionMismatch | ag_manager.py:271-272 | for the identity "-n" the script execs `Electron_` while the rule lists `Electron_-n` |
| Shim.TargetMatchesRule | ag_manager.py:813-818 | the target computed from the identity itself is the rule's name for every identity, and agrees with the script wherever `echo` is verbatim |
| Settings.WithProxy | ag_manager.py:443-446 | the three key assignments on the loaded document; `WithProxySpec` and `WithProxyTwice` state their meaning |
| Settings.WithProxySpec | ag_manager.py:443-446 | the merge sets the three proxy keys to the proxy, false and "on", keeps every other key's value, and adds no other key |
| Settings.WithProxyTwice | ag_manager.py:443-446 | merging again with a new proxy equals merging once with it |
| Launch.FirstRunnable | ag_manager.py:355-364 | the index, if any, of the first runnable entry (among candidates, or among all), with no earlier such entry; none exactly when there is no such entry |
| Launch.ChooseExecutable | ag_manager.py:355-364 | the loop with its `break` picks the first runnable `Electron`/`Antigravity`, else the first runnable entry, else none |
| Launch.PreferredUnique | ag_manager.py:355-364 | the preference determines the choice |
| Launch.PreferredShim | ag_manager.py:355-364 | a runnable `Electron` is chosen in any listing order when no runnable `Antigravity` is beside it |
| Launch.PreferredNone | ag_manager.py:366-375 | with no runnable entry nothing is chosen, so `open -n -a` is used |
| Launch.CommandLine | ag_manager.py:366-397 | the argument vector `launch` builds; `CommandLineSpec` states its shape and `BuildCommand` that the source's list-then-append builds it |
| Launch.BuildCommand | ag_manager.py:366-397 | the command is built as the literal list, then the proxy flag is appended |
| Launch.CommandLineSpec | ag_manager.py:366-397 | the command always carries the two data flags; it runs the chosen executable, or `open -n -a <app> --args`; it ends with `--proxy-server=<proxy>` exactly when a proxy is set |
| Launch.IsChildEnvironment | ag_manager.py:386-416 | the environment `launch` gives the child: the parent's, with `AG_INSTANCE_NAME`, and with the ten proxy variables exactly when a proxy is set; `BuildEnvironment` and `ChildEnvironmentUnique` connect it to the source's assignments |
| Launch.BuildEnvironment | ag_manager.py:386-416 | the child's environment is the parent's with `AG_INSTANCE_NAME = name`; the eight proxy variables and the two `NO_PROXY` variables are added exactly when a proxy is set; nothing else changes |
| Launch.ChildEnvironmentUnique | ag_manager.py:386-416 | that description leaves exactly one environment |
| Launch.ChildEnvironmentPlain | ag_manager.py:386-416 | without a proxy the child sees the parent's environment plus its instance name |
| Manager.Created | ag_manager.py:131-162 | `ensure_app_created` on the state before it: the nesting guard, the existing clone, the missing source, `makedirs(apps_dir)` and `copytree`; `Properties.CreatedSpec` states its meaning |
| Manager.ShimStep | ag_manager.py:164-230 | one install on the clone's resolved slot directory; `Properties.ShimStepConfined` states its frame |
| Manager.Shimmed | ag_manager.py:319-320 | both installs in the source's order; `Properties.ShimmedConfined` states its frame |
| Manager.Synced | ag_manager.py:294-321 | `sync_kernel` on the state before it: the source check, the path guard, `rmtree`, `copytree`, then both installs; `Properties.SyncedRefusals` and `Properties.SyncedSpec` state its meaning |
| Manager.GuardedSynced | ag_manager.py:300-309 | `sync_kernel` with the nesting guard of `ensure_app_created` (ag_manager.py:136-138) among its guards; `Properties.GuardedSyncSparesSource` states its meaning |
| Manager.EnsureDirs | ag_manager.py:339-341 | the loop that makes each missing data directory in turn and stops at the first failure; `Properties.EnsureDirsSpec` states its meaning |
| Manager.Prepared | ag_manager.py:323-341 | the file-system steps of `launch` before the executable is looked for; `Properties.PreparedSpec` states its meaning |
| Manager.Injected | ag_manager.py:423-454 | `inject_vscode_settings`: `makedirs` of `User`, then the read-merge-write, every error caught; `Properties.InjectedSpec` states its meaning |
| Manager.SettingsWritten | ag_manager.py:430-451 | the read-merge-write of `settings.json`; `Properties.SettingsWrittenSpec` states its meaning |
| Manager.DotName | ag_manager.py:118-129 | the names whose data path ends in "." or "..", which the OS resolves against `data_dir` itself |
| Manager.DataExists | ag_manager.py:466 | `os.path.exists(data_path)` as the OS answers it: for a dot name, whether `data_dir` is a directory |
| Manager.Removed | ag_manager.py:456-471 | `delete_resources` on the state before it; `Properties.RemovedSpec` states its meaning, and the `Isolation` lemmas what it does to other instances and for dot names |
| Manager.AppPowerManager.constructor | ag_manager.py:115-116 | the manager holds the given registry, working directory and file system |
| Manager.AppPowerManager.EnsureAppCreated | ag_manager.py:131-162 | the new state and the result are those of `Created` on the old state |
| Manager.AppPowerManager.InstallShim | ag_manager.py:164-230 | one install on the resolved slot directory: the new state and the outcome are those of `ShimStep` |
| Manager.AppPowerManager.InstallProcessShim | ag_manager.py:164-230 | `ShimStep` for the language-server slot |
| Manager.AppPowerManager.InstallElectronShim | ag_manager.py:232-292 | `ShimStep` for the Electron slot |
| Manager.AppPowerManager.SyncKernel | ag_manager.py:294-321 | the new state and the result are those of `Synced` |
| Manager.AppPowerManager.InjectVscodeSettings | ag_manager.py:423-454 | the new state is `Injected` of the old |
| Manager.AppPowerManager.WriteSettings | ag_manager.py:430-451 | the new state is the read-merge-write `SettingsWritten` of the old |
| Manager.AppPowerManager.Launch | ag_manager.py:323-421 | a preparation error is raised with its state. A file at `Contents/MacOS` fails the listing. Otherwise: the listing is that directory's children; the chosen executable is the preferred one; argv is the command line for it; the environment is the child's; the settings are injected exactly when a proxy is set |
| Manager.AppPowerManager.PrepareLaunch | ag_manager.py:323-341 | shims, clone re-creation and the data directories: the state and result of `Prepared` |
| Manager.AppPowerManager.FindExecutable | ag_manager.py:347-364 | a file at `Contents/MacOS` fails the listing; otherwise the result is the preferred entry of its children, or none when the directory is missing |
| Manager.AppPowerManager.DeleteResources | ag_manager.py:456-471 | the new state and the result are those of `Removed`: for a dot name `rmtree` empties `data_dir` or its parent and then fails |
| Properties.SlotDirInApp | ag_manager.py:172 | both slot directories lie strictly inside the clone |
| Properties.CreatedSpec | ag_manager.py:131-162 | a policy refusal happens exactly when the resolved target has the resolved source as a prefix; the guard comes first and changes nothing, and it refuses every target inside the source. The clone is reported as already there, with nothing changed, exactly when the guard passes and something exists at the target. A fresh clone holds every source entry re-rooted, and nothing new below the target but re-rooted source entries. Nothing outside the clone changes. An error keeps every entry and adds only directories, `apps_dir` and its ancestors |
| Properties.ShimStepConfined | ag_manager.py:164-230 | an install changes nothing outside the clone, nor the clone's root |
| Properties.ShimmedConfined | ag_manager.py:319-320 | both installs together change nothing outside the clone |
| Properties.ShimsSkippedWithoutClone | ag_manager.py:327-338 | when nothing exists at the clone's path, both installs report a missing slot and change nothing, so a clone that `launch` re-creates runs unshimmed until the next launch |
| Properties.SyncGuardPasses | ag_manager.py:306-309 | the clone path `get_app_path` derives always passes the sync guard: it lies in `apps_dir` and ends in `.app` |
| Properties.SyncedRefusals | ag_manager.py:300-309 | a missing source is refused with nothing touched, and the policy refusal never happens |
| Properties.SyncedSpec | ag_manager.py:311-320 | nothing outside the clone changes, so the data directory survives; a success is both installs run over a tree that holds every source entry re-rooted at the clone and, below the clone, nothing but re-rooted source entries (or, when no clone root existed, entries already there) |
| Properties.SyncIntoSourceSucceeds | ag_manager.py:300-320 | with `apps_dir` resolving to the source bundle, which is a directory with no file on the clone's ancestry, `sync_kernel` succeeds and leaves the clone as a directory strictly inside the source |
| Properties.GuardedSyncSparesSource | ag_manager.py:300-320 | the guarded sync refuses as a policy error exactly the clone paths that have an existing source as a prefix, and, unless the source lies inside the clone, no entry at or below the source is added, changed or removed |
| Properties.EnsureDirsSpec | ag_manager.py:339-341 | making the data directories keeps every entry, and on success each directory exists |
| Properties.PreparedSpec | ag_manager.py:323-341 | preparation changes no existing entry outside the clone; on success the clone, `user_data` and `extensions` exist |
| Properties.DataDirsInData | ag_manager.py:333-334 | `user_data`, `extensions`, `User` and `settings.json` lie strictly inside the instance's data directory |
| Properties.SettingsWrittenSpec | ag_manager.py:430-451 | only the settings file changes. A non-object document or a directory at the path is left alone. Otherwise the file is rewritten at `now` with its execute bit. The new document holds the three proxy values and keeps every other key of an object document; a missing, unparsable or non-JSON document yields exactly the three keys |
| Properties.InjectedSpec | ag_manager.py:423-454 | the injection changes no existing entry but the settings file and adds only directories; it is a no-op, or the read-merge-write of the file as it stood |
| Properties.LaunchConfined | ag_manager.py:323-421 | `launch` changes no existing entry outside the instance's clone and data directory |
| Properties.RemovedSpec | ag_manager.py:456-471 | the error and both flags are exactly characterised: an error exactly when a file stands at the clone's path, or data is asked for and present and its path is a file or a dot name; the app flag is "the clone existed", the data flag is "data asked for and present after the clone went". Entries are only removed, none altered or added. Everything outside the clone, and outside the data directory when it goes, survives, and so does the data directory's own entry for a dot name. What was removed leaves nothing below it; a dot name's data directory is left empty |
| Isolation.InstancePaths | ag_manager.py:121-129 | the resolved clone is a child of the resolved `apps_dir`; the resolved data directory of a plain sanitised name is a child of the resolved `data_dir` |
| Isolation.SameSanitisationSameInstance | ag_manager.py:118-129 | two names with one sanitisation have one clone and one data directory, and deleting or syncing either does the same |
| Isolation.SpaceUnderscoreShareInstance | ag_manager.py:84-97 | "a b" and "a_b" are both accepted, and deleting or syncing either acts on both |
| Isolation.DotDataIsDataRoot | ag_manager.py:126-129 | the data directory of "." is `data_dir` itself |
| Isolation.DotDeleteEmptiesDataRoot | ag_manager.py:456-471 | when `data_dir` is a directory, deleting "." with its data empties `data_dir`, removing every instance's data, keeps `data_dir` itself and every entry outside it and outside the clone unchanged, and fails, so the record stays |
| Isolation.DotDeleteNeedsDataRoot | ag_manager.py:466 | when `data_dir` is not a directory, a dot name's data is absent: asking for it changes nothing and the data flag stays false |
| Isolation.DotDotDataIsParent | ag_manager.py:126-129 | the data directory of ".." is the parent of `data_dir` |
| Isolation.DotDotDeleteEmptiesParent | ag_manager.py:456-471 | when `data_dir` is a directory below the root, deleting ".." with its data empties the parent of `data_dir`, removing `data_dir`, every instance's data, and the clones below that parent; the parent and every entry outside it and outside the clone stay unchanged; and it fails, so the record stays |
| Isolation.CjkIdentityCollides | ag_manager.py:813-818 | "工作" and "测试" have different clones but the same empty identity, so their processes and rules share names |
| Isolation.DottedIdentityCollides | ag_manager.py:813 | "a.b" and "ab" have different clones but one identity |
| Isolation.SeparatedApart | ag_manager.py:118-129 | for separated names and roots apart, the trees of two instances share no entry and their rules name different processes |
| Isolation.RuleNameInjective | ag_manager.py:813-818 | different identities give different rule names |
| Isolation.DeleteSparesOthers | ag_manager.py:456-471 | deleting a separated instance leaves every entry of every other instance, and both roots, unchanged |
| Isolation.SyncSparesOthers | ag_manager.py:294-321 | syncing a separated instance leaves every other instance's entries unchanged |
| Isolation.LaunchSparesOthers | ag_manager.py:323-421 | launching a separated instance leaves every other instance's existing entries unchanged |

## Left out

- Symbolic links are not modelled. The fallback of `ensure_app_created` that resolves a
  dangling source link (ag_manager.py:144-149) therefore reduces to "missing source is
  not found".
- `subprocess.run(["mv", ...], check=True)` is modelled as a rename that always
  succeeds. A failing `mv` would raise out of the install; that is not modelled. A
  directory standing at the live name is moved as one entry, without its contents.
- `shutil.copytree` failing halfway leaves a partial copy on a real disk. In the model
  a failed copy adds nothing but the target's ancestors.
- The launcher's `cp` onto a directory target and `codesign` failures are not
  modelled. A copy marks the binary unsigned and executable.
- Only the decision the launcher scripts encode is modelled, not their text.
  `tr [:alnum:]` is read in the C locale.
- Python's `\w` is modelled for ASCII, Latin-1 letters and numerals, and the CJK
  unified ideographs; letters of other scripts are not.
- JSON values other than strings and booleans are opaque. JSON with comments counts as
  unparsable. The `indent` formatting of the written file is not modelled.
- Registry.ConfigManager.constructor: takes the configuration as parameters. The probe
  of the default app locations (ag_manager.py:33-38) and the defaults under
  `~/Antigravity_Avatars` (ag_manager.py:18-28) are not modelled.
- `ConfigManager.load`/`save`, the self-heal of `original_app_path`, `get`/`set` of
  other keys and the column widths are file I/O. A save is recorded as a count.
- `subprocess.Popen` and its detached session are not modelled: `Launch` returns the
  process it would spawn as a `Spawn` value. A failing spawn is not modelled.
- All Tk UI classes are out, except that the rollback of the add dialog
  (ag_manager.py:699-714) is stated by `Registry.AddThenDelete`. The UI's
  `update_account(last_used=...)` after a launch (ag_manager.py:893-904) is the
  registry's `UpdateAccount`. The dialog strips names and rejects only the empty one
  (ag_manager.py:583-587), so ".", ".." and "a b" reach `add_account`.
- Messages and `print` output are not modelled. Every OS error surfaces as
  `IOFailure`.
- FileSystem.CopyTree: when a directory inside the source already holds the target, a
  real `copytree` copies into its own output until an OS error stops it. The model
  reports that error but not the partial copy it leaves. Symbolic links to directories,
  which `symlinks=True` copies as links, are not modelled (no links are).
- The lemmas do not assume the file-system map is well formed (every entry's parent
  present). They hold for every map.
- Paths.AbsPath: resolves lexically, as `os.path.abspath` does, and every path the
  model hands to the OS is resolved that way. The OS resolves ".." physically, and
  through symbolic links. The difference is only modelled for `delete_resources`
  (`Manager.DataExists`, `Manager.Removed`). Configured roots that contain ".." or run
  through links are otherwise resolved lexically.
- Manager.AppPowerManager.PrepareLaunch: `os.path.exists` and `os.makedirs` of
  `data_dir/../user_data` for the name ".." (and of `data_dir/./user_data` for ".")
  are resolved lexically. On a real disk `makedirs` of `data_dir/../user_data` also
  creates `data_dir`, and the exists test needs `data_dir`. The same holds for
  `Manager.AppPowerManager.Launch` and `Manager.AppPowerManager.InjectVscodeSettings`
  on `User/settings.json`.
- Registry.ConfigManager.AddAccount: `created_at` and `last_used` are `time.time()`
  floats (ag_manager.py:92). The model takes `now` as an integer; no property depends on
  the fraction.
- Shim.RunLauncher: execs the copy named with the identity filtered directly
  (`Shim.TargetName`), not through `echo` as the script does. The two differ only for
  identities of the form `-[neE]+`; the script's name is `Shim.EchoedTargetName`.

## Findings

| source | as written | input that shows it | evidently intended | confidence | as-written member | corrected member |
|---|---|---|---|---|---|---|
| ag_manager.py:84-97 | `add_account` refuses only an exactly equal name, but every path is built from `sanitize_filename(name)` | register "a b", then "a_b": both are accepted and share one clone and one data directory, so deleting either deletes both | refuse a name that shares a clone, a data directory or an identity with a registered one | not executed | Registry.AddAccountAdmitsCollision | Registry.ConfigManager.AddAccountChecked |
| ag_manager.py:118-129 | `sanitize_filename` keeps "." and "..", so the data path of ".." is `data_dir/..` | name "..", then delete it from the UI, which passes `delete_data=True` (ag_manager.py:928-937): with `data_dir` present, `rmtree` empties the parent of `data_dir`, every instance's data with it, and then raises, so the record stays | every instance's data directory is an entry of `data_dir` | not executed | Isolation.DotDotDeleteEmptiesParent | Isolation.SeparatedApart |
| ag_manager.py:813 | the identity filter drops every non-ASCII character, though sanitisation keeps CJK | names "工作" and "测试": two clones, but both launchers run `Electron_` and `language_server_macos_arm_`, and both rules name them | every instance has its own process names | not executed | Isolation.CjkIdentityCollides | Isolation.SeparatedApart |
| ag_manager.py:271 | the launcher computes `SAFE_NAME` from `echo "$INSTANCE_NAME"`, and bash's `echo` takes "-n" as an option | instance "-n": the launcher runs `Electron_` while the Proxifier rule lists `Electron_-n` | the copy is named with the filtered identity itself, as the rule is | not executed | Shim.EchoOptionMismatch | Shim.TargetMatchesRule |
| ag_manager.py:300-320 | `sync_kernel` checks only that the clone lies in `apps_dir` and ends in `.app`, not the nesting guard `ensure_app_created` applies (ag_manager.py:136-138) | set `apps_dir` to the source bundle `/A.app` itself and sync "a": `copytree('/A.app', '/A.app/Antigravity-a.app')` lists the bundle before making the target and succeeds; both shim installs then run on a clone inside the original bundle, and the sync reports success | a sync refuses a clone path inside the source, as creation does, leaving the source untouched | not executed | Properties.SyncIntoSourceSucceeds | Properties.GuardedSyncSparesSource |

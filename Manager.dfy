/**
 * `AppPowerManager`: cloning the app, installing the shims, re-syncing the
 * kernel, launching an instance and deleting its resources, over the file-system
 * map. Each operation is specified by a function of the state before it; the
 * class's methods perform the steps one by one and are proved to end where that
 * function says. Every path is looked up as the OS would look it up, resolved
 * against the working directory.
 */
module Manager {
  import opened Wrappers
  import opened Paths
  import opened Naming
  import opened Registry
  import opened FileSystem
  import opened Shim
  import opened Settings
  import opened Launch

  /** The configured roots `original_app_path`, `apps_dir` and `data_dir`, and the
      working directory relative paths are resolved against. */
  datatype Layout = Layout(cwd: AbsolutePath, originalApp: Path, appsDir: Path, dataDir: Path)

  /** The entry the OS reaches for `p`: `os.path.abspath(p)`. */
  function Resolve(l: Layout, p: Path): Path {
    AbsPath(l.cwd, p)
  }

  /** `get_app_path(name)` */
  function AppOf(l: Layout, name: string): Path {
    AppPath(l.appsDir, name)
  }

  /** `get_data_path(name)` */
  function DataOf(l: Layout, name: string): Path {
    DataPath(l.dataDir, name)
  }

  /** The slot directory of a clone, as the installer spells it. */
  function BinDirOf(l: Layout, name: string, slot: Slot): Path {
    Join(AppOf(l, name), SlotDir(slot))
  }

  function UserDataOf(l: Layout, name: string): Path {
    Join(DataOf(l, name), "user_data")
  }

  function ExtensionsOf(l: Layout, name: string): Path {
    Join(DataOf(l, name), "extensions")
  }

  /** `os.path.join(app_path, "Contents", "MacOS")` */
  function MacOsOf(l: Layout, name: string): Path {
    Join(Join(AppOf(l, name), "Contents"), "MacOS")
  }

  function SettingsDirOf(userDataDir: Path): Path {
    Join(userDataDir, "User")
  }

  function SettingsFileOf(userDataDir: Path): Path {
    Join(SettingsDirOf(userDataDir), "settings.json")
  }

  /** The state an operation leaves, and what it returned or raised. */
  datatype Outcome<T> = Outcome(fs: FS, result: Result<T>)

  /** The process `launch` hands to `subprocess.Popen`. */
  datatype Spawn = Spawn(argv: seq<string>, env: map<string, string>)

  // ---------------------------------------------------------------------------
  // The operations as functions of the state before them
  // ---------------------------------------------------------------------------

  /** `ensure_app_created(name)`: the nesting guard; an existing clone is reused; a missing
      source is reported; otherwise `apps_dir` is created and the source copied. Every
      error of the two copying steps surfaces as one failure. */
  function Created(fs: FS, l: Layout, name: string): Outcome<(Path, bool)> {
    var target := AppOf(l, name);
    var t := Resolve(l, target);
    var src := Resolve(l, l.originalApp);
    if StartsWith(t, src) then Outcome(fs, Err(PathPolicy))
    else if t in fs then Outcome(fs, Ok((target, false)))
    else if src !in fs then Outcome(fs, Err(NotFound))
    else if l.appsDir == "" then Outcome(fs, Err(IOFailure))
    else match MakeDirs(fs, Resolve(l, l.appsDir))
      case Err(_) => Outcome(fs, Err(IOFailure))
      case Ok(made) =>
        match CopyTree(made, src, t)
        case Err(_) => Outcome(made, Err(IOFailure))
        case Ok(copied) => Outcome(copied, Ok((target, true)))
  }

  /** One install step on the clone's slot directory, resolved. */
  function ShimStep(fs: FS, l: Layout, name: string, slot: Slot, now: int): Installation {
    Install(fs, Resolve(l, BinDirOf(l, name, slot)), slot, now)
  }

  /** `install_process_shim` followed by `install_electron_shim`. */
  function Shimmed(fs: FS, l: Layout, name: string, now: int): FS {
    ShimStep(ShimStep(fs, l, name, LanguageServer, now).fs, l, name, Electron, now).fs
  }

  /** `sync_kernel(name)`: a missing source and the two path guards are checked before
      anything is touched; then the clone is removed, copied afresh and shimmed again. */
  function Synced(fs: FS, l: Layout, name: string, now: int): Outcome<()> {
    var src := Resolve(l, l.originalApp);
    var app := AppOf(l, name);
    var a := Resolve(l, app);
    if l.originalApp == "" || src !in fs then Outcome(fs, Err(NotFound))
    else if !StartsWith(a, Resolve(l, l.appsDir)) || !EndsWith(app, ".app") then Outcome(fs, Err(PathPolicy))
    else if IsFile(fs, a) then Outcome(fs, Err(IOFailure))
    else
      var cleared := if a in fs then RemoveTree(fs, a) else fs;
      match CopyTree(cleared, src, a)
      case Err(e) => Outcome(cleared, Err(e))
      case Ok(copied) => Outcome(Shimmed(copied, l, name, now), Ok(()))
  }

  /** `sync_kernel` with the nesting guard of `ensure_app_created` among its guards: once
      the source is known to exist, a clone path that has the source as a prefix is
      refused before anything is touched. */
  function GuardedSynced(fs: FS, l: Layout, name: string, now: int): Outcome<()> {
    var src := Resolve(l, l.originalApp);
    if l.originalApp != "" && src in fs && StartsWith(Resolve(l, AppOf(l, name)), src) then
      Outcome(fs, Err(PathPolicy))
    else Synced(fs, l, name, now)
  }

  /** `for p in ps: if not os.path.exists(p): os.makedirs(p, exist_ok=True)` */
  function EnsureDirs(fs: FS, l: Layout, ps: seq<Path>): Outcome<()>
    decreases |ps|
  {
    if ps == [] then Outcome(fs, Ok(()))
    else
      var p := Resolve(l, ps[0]);
      if p in fs then EnsureDirs(fs, l, ps[1..])
      else match MakeDirs(fs, p)
        case Err(_) => Outcome(fs, Err(IOFailure))
        case Ok(made) => EnsureDirs(made, l, ps[1..])
  }

  /** The file-system part of `launch` before the executable is looked for: both shims are
      installed, a missing clone is created, and the two data directories are made. */
  function Prepared(fs: FS, l: Layout, name: string, now: int): Outcome<()> {
    var shimmed := Shimmed(fs, l, name, now);
    var dirs := [UserDataOf(l, name), ExtensionsOf(l, name)];
    if Resolve(l, AppOf(l, name)) in shimmed then EnsureDirs(shimmed, l, dirs)
    else
      var c := Created(shimmed, l, name);
      if c.result.Err? then Outcome(c.fs, Err(c.result.error))
      else EnsureDirs(c.fs, l, dirs)
  }

  /** `os.path.isfile(p) and os.access(p, os.X_OK)` */
  predicate Runnable(fs: FS, p: Path) {
    IsFile(fs, p) && fs[p].executable
  }

  /** The listing of `Contents/MacOS` as the executable search sees it. */
  function EntriesOf(fs: FS, l: Layout, macos: Path, names: seq<string>): seq<Entry> {
    seq(|names|, i requires 0 <= i < |names| => Entry(names[i], Runnable(fs, Resolve(l, Join(macos, names[i])))))
  }

  /** `executable_path` for the chosen name. */
  function ExePath(macos: Path, choice: Option<string>): Option<Path> {
    if choice.Some? then Some(Join(macos, choice.value)) else None
  }

  /** The `proxy_url` of the first record with the name, or none. */
  function ProxyOf(accounts: seq<Account>, name: string): string {
    match FindAccount(accounts, name)
    case Some(a) => a.proxyUrl
    case None => ""
  }

  /** The execute bit a file keeps when `open(path, 'w')` rewrites it; a new file has none. */
  predicate KeepsExecBit(fs: FS, p: Path) {
    IsFile(fs, p) && fs[p].executable
  }

  /** `inject_vscode_settings(user_data_dir, proxy_url)`; every error is caught, so the
      result is only a state. */
  function Injected(fs: FS, l: Layout, userDataDir: Path, proxy: string, now: int): FS {
    match MakeDirs(fs, Resolve(l, SettingsDirOf(userDataDir)))
    case Err(_) => fs
    case Ok(made) => SettingsWritten(made, Resolve(l, SettingsFileOf(userDataDir)), proxy, now)
  }

  /** The read-merge-write of the settings file `f`: what is not a file of JSON text reads
      as an empty document; a document that parses to something other than an object
      makes the key assignment raise, and a directory at `f` makes the write fail. */
  function SettingsWritten(fs: FS, f: Path, proxy: string, now: int): FS {
    var loaded := if IsFile(fs, f) && fs[f].data.Text? then fs[f].data.json else Unparsable;
    if loaded.NotAnObject? || IsDir(fs, f) then fs
    else
      var content := if loaded.Object? then loaded.fields else map[];
      fs[f := File(Text(Object(WithProxy(content, proxy))), now, KeepsExecBit(fs, f))]
  }

  /** The name sanitises to "." or "..", so its data path `data_dir/.` or `data_dir/..`
      ends in a component the OS resolves against `data_dir` itself. */
  predicate DotName(name: string) {
    Sanitize(name) == "." || Sanitize(name) == ".."
  }

  /** `os.path.exists(get_data_path(name))`. The OS follows `data_dir/.` and `data_dir/..`
      only through an existing directory `data_dir`; any other data path is the entry its
      resolved form names. */
  predicate DataExists(fs: FS, l: Layout, name: string) {
    if DotName(name) then IsDir(fs, Resolve(l, l.dataDir)) else Resolve(l, DataOf(l, name)) in fs
  }

  /** `delete_resources(name, delete_data)`: the clone goes if present, the data directory
      too when asked for and present; `rmtree` refuses a plain file. On `data_dir/.` and
      `data_dir/..` it empties the directory they name and then fails, since `rmdir`
      refuses a last component "." and `data_dir/..` no longer resolves once `data_dir`
      is gone. */
  function Removed(fs: FS, l: Layout, name: string, deleteData: bool): Outcome<(bool, bool)> {
    var a := Resolve(l, AppOf(l, name));
    var d := Resolve(l, DataOf(l, name));
    if IsFile(fs, a) then Outcome(fs, Err(IOFailure))
    else
      var cleared := if a in fs then RemoveTree(fs, a) else fs;
      if !(deleteData && DataExists(cleared, l, name)) then Outcome(cleared, Ok((a in fs, false)))
      else if DotName(name) then Outcome(EmptyTree(cleared, d), Err(IOFailure))
      else if IsFile(cleared, d) then Outcome(cleared, Err(IOFailure))
      else Outcome(RemoveTree(cleared, d), Ok((a in fs, true)))
  }

  // ---------------------------------------------------------------------------
  // The manager object
  // ---------------------------------------------------------------------------

  /** `AppPowerManager(config_mgr)` with the file system it acts on. */
  class AppPowerManager {
    const cfg: ConfigManager
    /** `os.getcwd()` */
    const cwd: AbsolutePath
    var fs: FS

    constructor (cfg: ConfigManager, cwd: AbsolutePath, fs: FS)
      ensures this.cfg == cfg && this.cwd == cwd && this.fs == fs
    {
      this.cfg := cfg;
      this.cwd := cwd;
      this.fs := fs;
    }

    /** The roots as `self.cfg.get(...)` returns them. */
    function Roots(): Layout
      reads cfg
    {
      Layout(cwd, cfg.originalAppPath, cfg.appsDir, cfg.dataDir)
    }

    /** `ensure_app_created(name)` */
    method EnsureAppCreated(name: string) returns (r: Result<(Path, bool)>)
      modifies this
      ensures Outcome(fs, r) == Created(old(fs), Roots(), name)
    {
      var l := Roots();
      var target := AppOf(l, name);
      var source := cfg.originalAppPath;
      if StartsWith(Resolve(l, target), Resolve(l, source)) {
        return Err(PathPolicy);
      }
      if Resolve(l, target) in fs {
        return Ok((target, false));
      }
      if Resolve(l, source) !in fs {
        return Err(NotFound);
      }
      if cfg.appsDir == "" {
        return Err(IOFailure);
      }
      var made := MakeDirs(fs, Resolve(l, cfg.appsDir));
      if made.Err? {
        return Err(IOFailure);
      }
      fs := made.value;
      var copied := CopyTree(fs, Resolve(l, source), Resolve(l, target));
      if copied.Err? {
        return Err(IOFailure);
      }
      fs := copied.value;
      return Ok((target, true));
    }

    /** The body shared by the two installers: capture the binary if no backup exists,
        then write the launcher over it. */
    method InstallShim(name: string, slot: Slot, now: int) returns (outcome: InstallOutcome)
      modifies this
      ensures Installation(fs, outcome) == ShimStep(old(fs), Roots(), name, slot, now)
    {
      var l := Roots();
      var binDir := BinDirOf(l, name, slot);
      var targetBin := Join(binDir, LiveName(slot));
      var originalBin := Join(binDir, BackupName(slot));
      var dir := Resolve(l, binDir);
      var live := Resolve(l, targetBin);
      var backup := Resolve(l, originalBin);
      SlotNamesPlain(slot);
      AbsPathJoinPlain(cwd, binDir, LiveName(slot));
      AbsPathJoinPlain(cwd, binDir, BackupName(slot));
      assert live == LivePath(dir, slot) && backup == BackupPath(dir, slot);
      if dir !in fs {
        return SlotMissing;
      }
      if live in fs && backup !in fs {
        fs := Rename(fs, live, backup);
      }
      if backup !in fs {
        return BackupMissing;
      }
      if IsDir(fs, live) {
        return WriteFailed;
      }
      fs := fs[live := LauncherNode(slot, now)];
      return Installed;
    }

    /** `install_process_shim(name)` */
    method InstallProcessShim(name: string, now: int) returns (outcome: InstallOutcome)
      modifies this
      ensures Installation(fs, outcome) == ShimStep(old(fs), Roots(), name, LanguageServer, now)
    {
      outcome := InstallShim(name, LanguageServer, now);
    }

    /** `install_electron_shim(name)` */
    method InstallElectronShim(name: string, now: int) returns (outcome: InstallOutcome)
      modifies this
      ensures Installation(fs, outcome) == ShimStep(old(fs), Roots(), name, Electron, now)
    {
      outcome := InstallShim(name, Electron, now);
    }

    /** `sync_kernel(name)` */
    method SyncKernel(name: string, now: int) returns (r: Result<()>)
      modifies this
      ensures Outcome(fs, r) == Synced(old(fs), Roots(), name, now)
    {
      var l := Roots();
      var source := cfg.originalAppPath;
      if source == "" || Resolve(l, source) !in fs {
        return Err(NotFound);
      }
      var appPath := AppOf(l, name);
      if !StartsWith(Resolve(l, appPath), Resolve(l, cfg.appsDir)) || !EndsWith(appPath, ".app") {
        return Err(PathPolicy);
      }
      if Resolve(l, appPath) in fs {
        if IsFile(fs, Resolve(l, appPath)) {
          return Err(IOFailure);
        }
        fs := RemoveTree(fs, Resolve(l, appPath));
      }
      var copied := CopyTree(fs, Resolve(l, source), Resolve(l, appPath));
      if copied.Err? {
        return Err(copied.error);
      }
      fs := copied.value;
      var o1 := InstallProcessShim(name, now);
      var o2 := InstallElectronShim(name, now);
      return Ok(());
    }

    /** `inject_vscode_settings(user_data_dir, proxy_url)` */
    method InjectVscodeSettings(userDataDir: Path, proxy: string, now: int)
      modifies this
      ensures fs == Injected(old(fs), Roots(), userDataDir, proxy, now)
    {
      var l := Roots();
      var made := MakeDirs(fs, Resolve(l, SettingsDirOf(userDataDir)));
      if made.Err? {
        return;
      }
      fs := made.value;
      WriteSettings(Resolve(l, SettingsFileOf(userDataDir)), proxy, now);
    }

    /** The body of the `try` after `os.makedirs`. */
    method WriteSettings(settingsPath: Path, proxy: string, now: int)
      modifies this
      ensures fs == SettingsWritten(old(fs), settingsPath, proxy, now)
    {
      var content: map<string, Json> := map[];
      if IsFile(fs, settingsPath) && fs[settingsPath].data.Text? {
        match fs[settingsPath].data.json
        case Object(fields) =>
          content := fields;
        case NotAnObject =>
          // item assignment on a list or a scalar raises TypeError, caught by the caller
          return;
        case Unparsable =>
      }
      content := content[ProxyKey := JString(proxy)];
      content := content[StrictSslKey := JBool(false)];
      content := content[SupportKey := JString("on")];
      if IsDir(fs, settingsPath) {
        return;
      }
      fs := fs[settingsPath := File(Text(Object(content)), now, KeepsExecBit(fs, settingsPath))];
    }

    /** `launch(name)` at time `now` with `os.environ` = `environ`. Returns the process it
        would spawn; `listing` is the order `os.listdir` produced and `choice` the name
        the executable search settled on. */
    method Launch(name: string, now: int, environ: map<string, string>)
      returns (r: Result<Spawn>, ghost listing: seq<string>, ghost choice: Option<string>)
      modifies this
      ensures var l := Roots(); var p := Prepared(old(fs), l, name, now);
        var m := Resolve(l, MacOsOf(l, name)); var proxy := ProxyOf(cfg.accounts, name);
        if p.result.Err? then r == Err(p.result.error) && fs == p.fs
        else if IsFile(p.fs, m) then r == Err(IOFailure) && fs == p.fs
        else
          && (forall c :: c in listing <==> m in p.fs && c in Children(p.fs, m))
          && IsPreferred(EntriesOf(p.fs, l, MacOsOf(l, name), listing), choice)
          && r.Ok?
          && r.value.argv == CommandLine(ExePath(MacOsOf(l, name), choice), AppOf(l, name),
                                         UserDataOf(l, name), ExtensionsOf(l, name), proxy)
          && IsChildEnvironment(r.value.env, environ, name, proxy)
          && fs == (if proxy != "" then Injected(p.fs, l, UserDataOf(l, name), proxy, now) else p.fs)
    {
      var l := Roots();
      listing := [];
      choice := None;
      var prepared := PrepareLaunch(name, now);
      if prepared.Err? {
        return Err(prepared.error), listing, choice;
      }
      var found;
      found, listing, choice := FindExecutable(name);
      if found.Err? {
        return Err(found.error), listing, choice;
      }
      var userDataDir := UserDataOf(l, name);
      var proxy := ProxyOf(cfg.accounts, name);
      var cmd := BuildCommand(found.value, AppOf(l, name), userDataDir, ExtensionsOf(l, name), proxy);
      if proxy != "" {
        InjectVscodeSettings(userDataDir, proxy, now);
      }
      var env := BuildEnvironment(environ, name, proxy);
      r := Ok(Spawn(cmd, env));
    }

    /** The steps of `launch` up to the executable search: shims, a missing clone, and the
        user-data and extensions directories. */
    method PrepareLaunch(name: string, now: int) returns (r: Result<()>)
      modifies this
      ensures Outcome(fs, r) == Prepared(old(fs), Roots(), name, now)
    {
      var l := Roots();
      var o1 := InstallProcessShim(name, now);
      var o2 := InstallElectronShim(name, now);
      if Resolve(l, AppOf(l, name)) !in fs {
        var c := EnsureAppCreated(name);
        if c.Err? {
          return Err(c.error);
        }
      }
      ghost var start := fs;
      var dirs := [UserDataOf(l, name), ExtensionsOf(l, name)];
      var i := 0;
      while i < |dirs|
        invariant 0 <= i <= |dirs|
        invariant EnsureDirs(fs, l, dirs[i..]) == EnsureDirs(start, l, dirs)
      {
        assert dirs[i..][0] == dirs[i] && dirs[i..][1..] == dirs[i + 1..];
        var p := Resolve(l, dirs[i]);
        if p !in fs {
          var made := MakeDirs(fs, p);
          if made.Err? {
            return Err(IOFailure);
          }
          fs := made.value;
        }
        i := i + 1;
      }
      return Ok(());
    }

    /** The search of `Contents/MacOS`: listing a file there raises; a missing directory
        gives no executable. */
    method FindExecutable(name: string) returns (r: Result<Option<Path>>, ghost listing: seq<string>, ghost choice: Option<string>)
      ensures var l := Roots(); var m := Resolve(l, MacOsOf(l, name));
        if IsFile(fs, m) then r == Err(IOFailure)
        else
          && (forall c :: c in listing <==> m in fs && c in Children(fs, m))
          && IsPreferred(EntriesOf(fs, l, MacOsOf(l, name), listing), choice)
          && r == Ok(ExePath(MacOsOf(l, name), choice))
    {
      var l := Roots();
      var macosDir := MacOsOf(l, name);
      listing := [];
      choice := None;
      if Resolve(l, macosDir) !in fs {
        PreferredNone([]);
        return Ok(None), listing, choice;
      }
      if IsFile(fs, Resolve(l, macosDir)) {
        return Err(IOFailure), listing, choice;
      }
      var names := ListDir(fs, Resolve(l, macosDir));
      listing := names;
      var chosen := ChooseExecutable(EntriesOf(fs, l, macosDir, names));
      choice := chosen;
      r := Ok(ExePath(macosDir, chosen));
    }

    /** `delete_resources(name, delete_data)` */
    method DeleteResources(name: string, deleteData: bool) returns (r: Result<(bool, bool)>)
      modifies this
      ensures Outcome(fs, r) == Removed(old(fs), Roots(), name, deleteData)
    {
      var l := Roots();
      var appPath := Resolve(l, AppOf(l, name));
      var dataPath := Resolve(l, DataOf(l, name));
      var deletedApp := false;
      var deletedData := false;
      if appPath in fs {
        if IsFile(fs, appPath) {
          return Err(IOFailure);
        }
        fs := RemoveTree(fs, appPath);
        deletedApp := true;
      }
      if deleteData && DataExists(fs, l, name) {
        if DotName(name) {
          fs := EmptyTree(fs, dataPath);
          return Err(IOFailure);
        }
        if IsFile(fs, dataPath) {
          return Err(IOFailure);
        }
        fs := RemoveTree(fs, dataPath);
        deletedData := true;
      }
      return Ok((deletedApp, deletedData));
    }
  }
}

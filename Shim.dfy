/**
 * The process-identity shims. The install step replaces a binary inside the
 * clone (the language server, or Electron itself) by a launcher script and
 * keeps the real binary beside it as `<name>.original`. At run time the
 * launcher copies the original to `<name>_<identity>` and execs that copy, so
 * that each instance runs under a process name of its own; the Proxifier rule
 * text names the same files.
 */
module Shim {
  import opened Wrappers
  import opened Paths
  import opened Naming
  import opened FileSystem

  /** The two binaries that get a shim. */
  datatype Slot = LanguageServer | Electron

  /** The slot's directory inside the app bundle. */
  function SlotDir(slot: Slot): Path {
    match slot
    case LanguageServer => "Contents/Resources/app/extensions/antigravity/bin"
    case Electron => "Contents/MacOS"
  }

  /** The name of the binary the shim replaces. */
  function LiveName(slot: Slot): string {
    match slot
    case LanguageServer => "language_server_macos_arm"
    case Electron => "Electron"
  }

  /** The name the real binary is kept under. */
  function BackupName(slot: Slot): string {
    LiveName(slot) + ".original"
  }

  function LivePath(dir: Path, slot: Slot): Path {
    Join(dir, LiveName(slot))
  }

  function BackupPath(dir: Path, slot: Slot): Path {
    Join(dir, BackupName(slot))
  }

  /** The launcher script as written by the install: mode 0755, stamped `now`. */
  function LauncherNode(slot: Slot, now: int): Node {
    File(Launcher(LiveName(slot)), now, true)
  }

  // ---------------------------------------------------------------------------
  // Install
  // ---------------------------------------------------------------------------

  /** How an install ended: no slot directory, no original binary to wrap, a write
      error (caught and reported), or a launcher in place. */
  datatype InstallOutcome = SlotMissing | BackupMissing | WriteFailed | Installed

  datatype Installation = Installation(fs: FS, outcome: InstallOutcome)

  /** The install on a slot directory `dir` holding the live name `live` and the backup
      name `backup`: capture the live binary as the backup when there is none yet, then
      write `launcher` over the live name. */
  function InstallAt(fs: FS, dir: Path, live: Path, backup: Path, launcher: Node): Installation {
    if dir !in fs then Installation(fs, SlotMissing)
    else
      var captured := if live in fs && backup !in fs then Rename(fs, live, backup) else fs;
      if backup !in captured then Installation(captured, BackupMissing)
      else if IsDir(captured, live) then Installation(captured, WriteFailed)
      else Installation(captured[live := launcher], Installed)
  }

  /** `install_process_shim` / `install_electron_shim` on the resolved slot directory `dir`. */
  function Install(fs: FS, dir: Path, slot: Slot, now: int): Installation {
    InstallAt(fs, dir, LivePath(dir, slot), BackupPath(dir, slot), LauncherNode(slot, now))
  }

  /** The stages a slot passes through: no slot, the pristine bundle, the binary captured
      as the backup, the launcher installed; and a slot with neither binary. */
  datatype SlotState = NoSlot | Pristine | Captured | Shimmed | Broken

  function StateAt(fs: FS, dir: Path, live: Path, backup: Path, shim: Data): SlotState {
    if dir !in fs then NoSlot
    else if backup !in fs then (if live in fs then Pristine else Broken)
    else if live in fs && fs[live].File? && fs[live].data == shim && fs[live].executable then Shimmed
    else Captured
  }

  function StateOf(fs: FS, dir: Path, slot: Slot): SlotState {
    StateAt(fs, dir, LivePath(dir, slot), BackupPath(dir, slot), Launcher(LiveName(slot)))
  }

  /** Both names are single directory entries. */
  lemma SlotNamesPlain(slot: Slot)
    ensures IsPlainComponent(LiveName(slot)) && IsPlainComponent(BackupName(slot))
  {
    var l := LiveName(slot);
    var b := BackupName(slot);
    assert forall i :: 0 <= i < |l| ==> l[i] != '/';
    assert forall i :: 0 <= i < |b| ==> b[i] != '/';
  }

  /** The live and the backup name are distinct entries of `dir`, neither inside the other. */
  lemma SlotPaths(dir: Path, slot: Slot)
    requires dir != ""
    ensures Under(LivePath(dir, slot), dir) && LivePath(dir, slot) != dir
    ensures Under(BackupPath(dir, slot), dir) && BackupPath(dir, slot) != dir
    ensures LivePath(dir, slot) != BackupPath(dir, slot)
    ensures !Under(BackupPath(dir, slot), LivePath(dir, slot))
    ensures !Under(LivePath(dir, slot), BackupPath(dir, slot))
  {
    var l := LiveName(slot);
    JoinUnder(dir, l);
    JoinUnder(dir, BackupName(slot));
    BackupBesideLive(dir, slot);
    var live := LivePath(dir, slot);
    assert live[|live| - 1] == l[|l| - 1];
    Sibling(live, ".original");
  }

  lemma BackupBesideLive(dir: Path, slot: Slot)
    requires dir != ""
    ensures BackupPath(dir, slot) == LivePath(dir, slot) + ".original"
  {
    JoinDirPrefix(dir, LiveName(slot));
    JoinDirPrefix(dir, BackupName(slot));
  }

  /** Extending a name that does not end in '/' by a suffix not starting with '/' gives a
      sibling: neither lies below the other. */
  lemma Sibling(x: Path, suffix: string)
    requires suffix != "" && suffix[0] != '/' && x != "" && !EndsWithSlash(x)
    ensures x + suffix != x && !Under(x + suffix, x) && !Under(x, x + suffix)
  {
    var y := x + suffix;
    assert DirPrefix(x) == x + "/";
    assert y[|x|] == suffix[0];
  }

  lemma InstallAtStages(fs: FS, dir: Path, live: Path, backup: Path, launcher: Node)
    requires dir != live && dir != backup && live != backup
    requires launcher.File? && launcher.executable
    ensures var r := InstallAt(fs, dir, live, backup, launcher); var s := StateAt(fs, dir, live, backup, launcher.data);
      (s == NoSlot ==> r.outcome == SlotMissing && r.fs == fs)
      && (s == Broken ==> r.outcome == BackupMissing && r.fs == fs)
      && (s == Captured && IsDir(fs, live) ==> r.outcome == WriteFailed && r.fs == fs)
      && (r.outcome == Installed <==> StateAt(r.fs, dir, live, backup, launcher.data) == Shimmed)
      && (r.outcome == Installed <==> (s == Pristine || s == Shimmed || (s == Captured && !IsDir(fs, live))))
  {
  }

  /** What the install does, stage by stage: nothing without a slot or without any binary;
      a write error only when a directory sits at the live name beside a backup; in every
      other case the launcher ends up installed. */
  lemma InstallStages(fs: FS, dir: Path, slot: Slot, now: int)
    requires dir != ""
    ensures var r := Install(fs, dir, slot, now); var s := StateOf(fs, dir, slot);
      (s == NoSlot ==> r.outcome == SlotMissing && r.fs == fs)
      && (s == Broken ==> r.outcome == BackupMissing && r.fs == fs)
      && (s == Captured && IsDir(fs, LivePath(dir, slot)) ==> r.outcome == WriteFailed && r.fs == fs)
      && (r.outcome == Installed <==> StateOf(r.fs, dir, slot) == Shimmed)
      && (r.outcome == Installed <==> (s == Pristine || s == Shimmed || (s == Captured && !IsDir(fs, LivePath(dir, slot)))))
  {
    SlotPaths(dir, slot);
    InstallAtStages(fs, dir, LivePath(dir, slot), BackupPath(dir, slot), LauncherNode(slot, now));
  }

  lemma InstallAtKeepsBackup(fs: FS, dir: Path, live: Path, backup: Path, launcher: Node)
    requires live != backup
    ensures var r := InstallAt(fs, dir, live, backup, launcher).fs;
      (backup in fs ==> backup in r && r[backup] == fs[backup])
      && (dir in fs && backup !in fs && live in fs ==> backup in r && r[backup] == fs[live])
  {
  }

  /** The original binary is never overwritten: an existing backup survives the install
      untouched, and a missing one is taken from the live binary. */
  lemma InstallKeepsBackup(fs: FS, dir: Path, slot: Slot, now: int)
    requires dir != ""
    ensures var r := Install(fs, dir, slot, now).fs; var backup := BackupPath(dir, slot);
      (backup in fs ==> backup in r && r[backup] == fs[backup])
      && (dir in fs && backup !in fs && LivePath(dir, slot) in fs ==> backup in r && r[backup] == fs[LivePath(dir, slot)])
  {
    SlotPaths(dir, slot);
    InstallAtKeepsBackup(fs, dir, LivePath(dir, slot), BackupPath(dir, slot), LauncherNode(slot, now));
  }

  lemma InstallAtIdempotent(fs: FS, dir: Path, live: Path, backup: Path, l1: Node, l2: Node)
    requires dir != live && dir != backup && live != backup && l1.File?
    ensures InstallAt(InstallAt(fs, dir, live, backup, l1).fs, dir, live, backup, l2) == InstallAt(fs, dir, live, backup, l2)
  {
    if dir in fs {
      var captured := if live in fs && backup !in fs then Rename(fs, live, backup) else fs;
      if backup in captured && !IsDir(captured, live) {
        assert captured[live := l1][live := l2] == captured[live := l2];
      }
    }
  }

  /** Installing twice leaves the file system as installing once at the later time. */
  lemma InstallIdempotent(fs: FS, dir: Path, slot: Slot, t1: int, t2: int)
    requires dir != ""
    ensures Install(Install(fs, dir, slot, t1).fs, dir, slot, t2) == Install(fs, dir, slot, t2)
  {
    SlotPaths(dir, slot);
    InstallAtIdempotent(fs, dir, LivePath(dir, slot), BackupPath(dir, slot), LauncherNode(slot, t1), LauncherNode(slot, t2));
  }

  lemma InstallAtFrame(fs: FS, dir: Path, live: Path, backup: Path, launcher: Node)
    ensures var r := InstallAt(fs, dir, live, backup, launcher).fs;
      forall k :: k != live && k != backup ==> (k in r <==> k in fs) && (k in fs ==> r[k] == fs[k])
  {
  }

  /** Nothing outside the slot directory changes, and the directory itself stays. */
  lemma InstallFrame(fs: FS, dir: Path, slot: Slot, now: int)
    requires dir != ""
    ensures var r := Install(fs, dir, slot, now).fs;
      forall k :: (!Under(k, dir) || k == dir) ==> (k in r <==> k in fs) && (k in fs ==> r[k] == fs[k])
  {
    var live, backup := LivePath(dir, slot), BackupPath(dir, slot);
    InstallAtFrame(fs, dir, live, backup, LauncherNode(slot, now));
    forall k | !Under(k, dir) || k == dir
      ensures k != live && k != backup
    {
      OutsideSlotEntries(k, dir, slot);
    }
  }

  /** A path outside the slot directory, or the directory itself, is neither slot entry. */
  lemma OutsideSlotEntries(k: Path, dir: Path, slot: Slot)
    requires dir != "" && (!Under(k, dir) || k == dir)
    ensures k != LivePath(dir, slot) && k != BackupPath(dir, slot)
  {
    SlotNamesPlain(slot);
    UnderOfChild(k, dir, LiveName(slot));
    UnderOfChild(k, dir, BackupName(slot));
  }

  /** A path that is outside `d`, or `d` itself, is outside each child of `d`. */
  lemma UnderOfChild(k: Path, d: Path, c: string)
    requires d != "" && IsPlainComponent(c) && (!Under(k, d) || k == d)
    ensures !Under(k, Join(d, c))
  {
    if Under(k, Join(d, c)) {
      UnderJoin(k, d, c);
    }
  }

  // ---------------------------------------------------------------------------
  // The launcher at run time
  // ---------------------------------------------------------------------------

  /** bash's builtin `echo` reads a first word of the form `-[neE]+` as options, not as text. */
  predicate IsEchoOption(s: string) {
    |s| >= 2 && s[0] == '-' && forall i :: 1 <= i < |s| ==> s[i] == 'n' || s[i] == 'e' || s[i] == 'E'
  }

  /** What `echo "$INSTANCE_NAME"` writes. */
  function EchoOutput(s: string): string {
    if IsEchoOption(s) then (if 'n' in s then "" else "\n") else s + "\n"
  }

  /** `$(echo "$INSTANCE_NAME" | tr -cd '[:alnum:]_-')`, with `[:alnum:]` read in the C locale. */
  function EchoedIdentity(id: string): string {
    IdentityFilter(EchoOutput(id))
  }

  /** The renamed copy the script as written execs: `<name>_<SAFE_NAME>`, with `SAFE_NAME`
      taken from `echo`'s output. */
  function EchoedTargetName(slot: Slot, id: string): string {
    LiveName(slot) + "_" + EchoedIdentity(id)
  }

  /** The process name the Proxifier rule lists for instance `name`. */
  function RuleName(slot: Slot, name: string): string {
    LiveName(slot) + "_" + IdentityFilter(name)
  }

  /** The renamed copy's name computed from the identity itself, not from `echo`'s rendering
      of it: the launcher below runs this one. */
  function TargetName(slot: Slot, id: string): string {
    LiveName(slot) + "_" + IdentityFilter(id)
  }

  /** The binary with its code signature stripped (`codesign --remove-signature`). */
  function Unsigned(d: Data): Data {
    if d.Binary? then Binary(d.build, false) else d
  }

  /** `exec p`: runs `p` when it is an executable regular file. */
  function Exec(fs: FS, p: Path): Option<Path> {
    if IsFile(fs, p) && fs[p].executable then Some(p) else None
  }

  /** bash's `a -nt b` where `b` is a regular file: `a` is a file modified later. */
  predicate NewerThan(fs: FS, a: Path, b: Path) {
    IsFile(fs, a) && IsFile(fs, b) && fs[a].mtime > fs[b].mtime
  }

  /** The launcher's test before copying: the language-server shim copies only when no
      regular file bears the target name, the Electron shim also when the original is newer. */
  predicate NeedsCopy(fs: FS, dir: Path, slot: Slot, id: string) {
    var target := Join(dir, TargetName(slot, id));
    !IsFile(fs, target) || (slot == Electron && NewerThan(fs, BackupPath(dir, slot), target))
  }

  /** `cp ORIGINAL TARGET; codesign --remove-signature TARGET; chmod +x TARGET` at time `now`. */
  function CopyOriginal(fs: FS, dir: Path, slot: Slot, id: string, now: int): FS {
    var backup := BackupPath(dir, slot);
    var target := Join(dir, TargetName(slot, id));
    if !IsFile(fs, backup) || IsDir(fs, target) then fs
    else fs[target := File(Unsigned(fs[backup].data), now, true)]
  }

  datatype Run = Run(fs: FS, execs: Option<Path>)

  /** One start of the launcher in `dir` with `AG_INSTANCE_NAME` = `id` (unset reads as ""). */
  function RunLauncher(fs: FS, dir: Path, slot: Slot, id: string, now: int): Run {
    if id == "" then Run(fs, Exec(fs, BackupPath(dir, slot)))
    else
      var target := Join(dir, TargetName(slot, id));
      var after := if NeedsCopy(fs, dir, slot, id) then CopyOriginal(fs, dir, slot, id, now) else fs;
      Run(after, Exec(after, target))
  }

  /** Without an identity the launcher execs the original and touches nothing; with one it
      execs the renamed copy or nothing, and writes at most that copy. */
  lemma RunTarget(fs: FS, dir: Path, slot: Slot, id: string, now: int)
    ensures var r := RunLauncher(fs, dir, slot, id, now); var target := Join(dir, TargetName(slot, id));
      (id == "" ==> r.fs == fs && r.execs == Exec(fs, BackupPath(dir, slot)))
      && (id != "" ==>
            (r.execs.Some? ==> r.execs.value == target)
            && forall k :: k != target ==> (k in r.fs <==> k in fs) && (k in fs ==> r.fs[k] == fs[k]))
  {
  }

  /** When a copy is due and the original is a regular file, the launcher execs a fresh,
      unsigned, executable copy of it. */
  lemma RunCopies(fs: FS, dir: Path, slot: Slot, id: string, now: int)
    requires id != "" && NeedsCopy(fs, dir, slot, id)
    requires IsFile(fs, BackupPath(dir, slot)) && !IsDir(fs, Join(dir, TargetName(slot, id)))
    ensures var r := RunLauncher(fs, dir, slot, id, now); var target := Join(dir, TargetName(slot, id));
      r.execs == Some(target) && r.fs[target] == File(Unsigned(fs[BackupPath(dir, slot)].data), now, true)
  {
  }

  /** An existing copy is reused, however stale, by the language-server shim; the Electron
      shim reuses it only when the original is not newer, and refreshes it otherwise. */
  lemma RunReuses(fs: FS, dir: Path, slot: Slot, id: string, now: int)
    requires id != "" && IsFile(fs, Join(dir, TargetName(slot, id)))
    ensures slot == LanguageServer ==> RunLauncher(fs, dir, slot, id, now).fs == fs
    ensures slot == Electron ==>
      (RunLauncher(fs, dir, slot, id, now).fs == fs <==>
        !NewerThan(fs, BackupPath(dir, slot), Join(dir, TargetName(slot, id)))
        || fs[Join(dir, TargetName(slot, id))] == File(Unsigned(fs[BackupPath(dir, slot)].data), now, true))
  {
    var target := Join(dir, TargetName(slot, id));
    if slot == Electron && NewerThan(fs, BackupPath(dir, slot), target) {
      var r := RunLauncher(fs, dir, slot, id, now).fs;
      assert r[target] == File(Unsigned(fs[BackupPath(dir, slot)].data), now, true);
    }
  }

  /** A second start makes no further copy: once the launcher has copied the original at
      `t1`, a start at any later `t2` finds the copy and execs it unchanged. */
  lemma RunStable(fs: FS, dir: Path, slot: Slot, id: string, t1: int, t2: int)
    requires dir != "" && id != "" && IsFile(fs, BackupPath(dir, slot))
    requires Join(dir, TargetName(slot, id)) !in fs
    requires fs[BackupPath(dir, slot)].mtime <= t1
    ensures var r1 := RunLauncher(fs, dir, slot, id, t1);
      RunLauncher(r1.fs, dir, slot, id, t2) == r1 && r1.execs == Some(Join(dir, TargetName(slot, id)))
  {
    TargetIsNotBackup(dir, slot, id);
  }

  /** The renamed copy never takes the backup's name. */
  lemma TargetIsNotBackup(dir: Path, slot: Slot, id: string)
    requires dir != ""
    ensures Join(dir, TargetName(slot, id)) != BackupPath(dir, slot)
  {
    var t := TargetName(slot, id);
    var b := BackupName(slot);
    var n := |LiveName(slot)|;
    assert !IsAbsolute(t) && !IsAbsolute(b);
    JoinDirPrefix(dir, t);
    JoinDirPrefix(dir, b);
    assert t[n] == '_' && b[n] == '.';
    assert (DirPrefix(dir) + t)[|DirPrefix(dir)| + n] != (DirPrefix(dir) + b)[|DirPrefix(dir)| + n];
  }

  /** For every identity `echo` prints verbatim, the launcher's target is the rule's name. */
  lemma EchoedTargetMatchesRule(slot: Slot, id: string)
    requires !IsEchoOption(id)
    ensures EchoedTargetName(slot, id) == RuleName(slot, id)
  {
    IdentityFilterConcat(id, "\n");
    assert IdentityFilter("\n") == [] + IdentityFilter("");
    assert id + "\n" == EchoOutput(id);
  }

  /** `echo` swallows an identity such as "-n": that instance's process runs as `Electron_`
      while its Proxifier rule lists `Electron_-n`. */
  lemma EchoOptionMismatch()
    ensures IsEchoOption("-n")
    ensures EchoedTargetName(Electron, "-n") == "Electron_"
    ensures RuleName(Electron, "-n") == "Electron_-n"
    ensures EchoedTargetName(Electron, "-n") != RuleName(Electron, "-n")
  {
    assert EchoOutput("-n") == "";
    assert IdentityFilter("-n") == "-" + IdentityFilter("n");
    assert IdentityFilter("n") == "n" + IdentityFilter("");
  }

  /** Computing the target from the identity itself gives every instance its rule's name,
      and agrees with the script wherever `echo` prints the identity verbatim. */
  lemma TargetMatchesRule(slot: Slot, id: string)
    ensures TargetName(slot, id) == RuleName(slot, id)
    ensures !IsEchoOption(id) ==> TargetName(slot, id) == EchoedTargetName(slot, id)
  {
    if !IsEchoOption(id) {
      EchoedTargetMatchesRule(slot, id);
    }
  }
}

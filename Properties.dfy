/**
 * What the manager's operations guarantee, stated over the functions that specify
 * them: the guards run before anything is touched, an operation on one instance
 * changes nothing outside that instance's clone and data directory, and each
 * step leaves what it promises in place.
 */
module Properties {
  import opened Wrappers
  import opened Paths
  import opened Naming
  import opened FileSystem
  import opened Shim
  import opened Settings
  import opened Manager

  /** `e` is unchanged from `fs` to `r`: present in both with the same node, or in neither. */
  predicate Kept(fs: FS, r: FS, k: Path) {
    (k in r <==> k in fs) && (k in fs ==> r[k] == fs[k])
  }

  // ---------------------------------------------------------------------------
  // Where the derived paths lie
  // ---------------------------------------------------------------------------

  /** Every resolved path is absolute, hence not empty. */
  lemma ResolvedAbsolute(l: Layout, p: Path)
    ensures IsAbsolute(Resolve(l, p)) && Resolve(l, p) != ""
  {
    AbsPathIsAbsolute(l.cwd, p);
  }

  /** `k` lies below `p` and is not `p` itself. */
  predicate StrictlyUnder(k: Path, p: Path) {
    Under(k, p) && |k| > |p|
  }

  lemma StrictlyUnderTrans(a: Path, b: Path, c: Path)
    requires StrictlyUnder(a, b) && StrictlyUnder(b, c)
    ensures StrictlyUnder(a, c)
  {
    UnderTrans(a, b, c);
  }

  /** The fixed names the manager joins onto its paths are single directory entries. */
  lemma FixedNamesPlain()
    ensures IsPlainComponent("Contents") && IsPlainComponent("Resources") && IsPlainComponent("app")
    ensures IsPlainComponent("extensions") && IsPlainComponent("antigravity") && IsPlainComponent("bin")
    ensures IsPlainComponent("MacOS") && IsPlainComponent("user_data") && IsPlainComponent("User")
    ensures IsPlainComponent("settings.json")
  {
    var names := ["Contents", "Resources", "app", "extensions", "antigravity", "bin", "MacOS", "user_data", "User", "settings.json"];
    forall j | 0 <= j < |names| ensures '/' !in names[j] {
      var n := names[j];
      assert forall i :: 0 <= i < |n| ==> n[i] != '/';
    }
    assert names[0] == "Contents" && names[1] == "Resources" && names[2] == "app" && names[3] == "extensions";
    assert names[4] == "antigravity" && names[5] == "bin" && names[6] == "MacOS" && names[7] == "user_data";
    assert names[8] == "User" && names[9] == "settings.json";
  }

  /** Resolving a plain name joined to `x` yields a child of the resolved `x`. */
  lemma ResolveChild(l: Layout, x: Path, c: string)
    requires IsPlainComponent(c)
    ensures Resolve(l, Join(x, c)) == Join(Resolve(l, x), c)
    ensures StrictlyUnder(Resolve(l, Join(x, c)), Resolve(l, x))
  {
    AbsPathJoinPlain(l.cwd, x, c);
    ResolvedAbsolute(l, x);
    JoinUnder(Resolve(l, x), c);
    UnderLonger(Resolve(l, Join(x, c)), Resolve(l, x));
  }

  /** The language server's slot directory spelled as one join per name. */
  lemma LanguageServerDirSpelled()
    ensures SlotDir(LanguageServer) == Join(Join(Join(Join(Join("Contents", "Resources"), "app"), "extensions"), "antigravity"), "bin")
  {
    Spelled1();
    Spelled2();
    Spelled3();
    Spelled4();
    Spelled5();
  }

  // Spelled1 to Spelled5 each evaluate one literal join. Each is cheap in a lemma of its
  // own; stated together in one body, the five exceed the solver's resource limit.

  lemma Spelled1()
    ensures Join("Contents", "Resources") == "Contents/Resources"
  {
  }

  lemma Spelled2()
    ensures Join("Contents/Resources", "app") == "Contents/Resources/app"
  {
  }

  lemma Spelled3()
    ensures Join("Contents/Resources/app", "extensions") == "Contents/Resources/app/extensions"
  {
  }

  lemma Spelled4()
    ensures Join("Contents/Resources/app/extensions", "antigravity") == "Contents/Resources/app/extensions/antigravity"
  {
  }

  lemma Spelled5()
    ensures Join("Contents/Resources/app/extensions/antigravity", "bin") == "Contents/Resources/app/extensions/antigravity/bin"
  {
  }

  /** The slot directories joined onto the clone, one name at a time. */
  lemma SlotDirSteps(app: Path)
    ensures Join(app, SlotDir(LanguageServer))
         == Join(Join(Join(Join(Join(Join(app, "Contents"), "Resources"), "app"), "extensions"), "antigravity"), "bin")
    ensures Join(app, SlotDir(Electron)) == Join(Join(app, "Contents"), "MacOS")
  {
    LanguageServerDirSpelled();
    var x2 := Join("Contents", "Resources");
    var x3 := Join(x2, "app");
    var x4 := Join(x3, "extensions");
    var x5 := Join(x4, "antigravity");
    JoinAssociative(app, x5, "bin");
    JoinAssociative(app, x4, "antigravity");
    JoinAssociative(app, x3, "extensions");
    JoinAssociative(app, x2, "app");
    JoinAssociative(app, "Contents", "Resources");
    assert Join("Contents", "MacOS") == SlotDir(Electron);
    JoinAssociative(app, "Contents", "MacOS");
  }

  /** Both slot directories lie strictly inside the clone. */
  lemma SlotDirInApp(l: Layout, name: string, slot: Slot)
    ensures StrictlyUnder(Resolve(l, BinDirOf(l, name, slot)), Resolve(l, AppOf(l, name)))
  {
    FixedNamesPlain();
    var a0 := AppOf(l, name);
    SlotDirSteps(a0);
    var a1 := Join(a0, "Contents");
    ResolveChild(l, a0, "Contents");
    match slot
    case Electron =>
      ResolveChild(l, a1, "MacOS");
      StrictlyUnderTrans(Resolve(l, Join(a1, "MacOS")), Resolve(l, a1), Resolve(l, a0));
    case LanguageServer =>
      var a2 := Join(a1, "Resources");
      var a3 := Join(a2, "app");
      var a4 := Join(a3, "extensions");
      var a5 := Join(a4, "antigravity");
      var a6 := Join(a5, "bin");
      ResolveChild(l, a1, "Resources");
      ResolveChild(l, a2, "app");
      ResolveChild(l, a3, "extensions");
      ResolveChild(l, a4, "antigravity");
      ResolveChild(l, a5, "bin");
      StrictlyUnderTrans(Resolve(l, a2), Resolve(l, a1), Resolve(l, a0));
      StrictlyUnderTrans(Resolve(l, a3), Resolve(l, a2), Resolve(l, a0));
      StrictlyUnderTrans(Resolve(l, a4), Resolve(l, a3), Resolve(l, a0));
      StrictlyUnderTrans(Resolve(l, a5), Resolve(l, a4), Resolve(l, a0));
      StrictlyUnderTrans(Resolve(l, a6), Resolve(l, a5), Resolve(l, a0));
  }

  // ---------------------------------------------------------------------------
  // ensure_app_created
  // ---------------------------------------------------------------------------

  /** The nesting guard is checked first and is the only source of a policy refusal; a
      clone inside the source is always refused; an existing clone is reused untouched;
      a fresh clone is a replica of the source; and nothing outside the clone changes,
      while a failure only adds directories. */
  lemma CreatedSpec(fs: FS, l: Layout, name: string)
    ensures var o := Created(fs, l, name); var t := Resolve(l, AppOf(l, name));
      var src := Resolve(l, l.originalApp);
      && (o.result == Err(PathPolicy) <==> StartsWith(t, src))
      && (StartsWith(t, src) ==> o.fs == fs)
      && (Under(t, src) ==> o.result == Err(PathPolicy))
      && (o.result.Ok? ==> o.result.value.0 == AppOf(l, name) && t in o.fs)
      && ((o.result.Ok? && !o.result.value.1) <==> (!StartsWith(t, src) && t in fs))
      && (o.result.Ok? && !o.result.value.1 ==> o.fs == fs)
      && (o.result.Ok? && o.result.value.1 ==>
            forall k :: k in fs && InTree(k, src) ==> Rebase(k, src, t) in o.fs && o.fs[Rebase(k, src, t)] == fs[k])
      && (o.result.Ok? && o.result.value.1 ==>
            forall k :: k in o.fs && k !in fs && Under(k, t) ==>
              exists s :: s in fs && InTree(s, src) && k == Rebase(s, src, t) && o.fs[k] == fs[s])
      && (forall k :: k in fs && !Under(k, t) ==> k in o.fs && o.fs[k] == fs[k])
      && (o.result.Err? ==> forall k :: k in fs ==> k in o.fs && o.fs[k] == fs[k])
      && (o.result.Err? ==> forall k :: k in o.fs && k !in fs ==>
            o.fs[k] == Dir && Under(Resolve(l, l.appsDir), k))
  {
    var t := Resolve(l, AppOf(l, name));
    var src := Resolve(l, l.originalApp);
    if Under(t, src) {
      UnderStartsWith(t, src);
    }
    if !StartsWith(t, src) && t !in fs && src in fs && l.appsDir != "" {
      var apps := Resolve(l, l.appsDir);
      ResolvedAbsolute(l, l.appsDir);
      MakeDirsSpec(fs, apps);
      if MakeDirs(fs, apps).Ok? {
        var made := MakeDirs(fs, apps).value;
        ResolvedAbsolute(l, AppOf(l, name));
        CopyTreeSpec(made, src, t);
        if CopyTree(made, src, t).Ok? {
          var copied := CopyTree(made, src, t).value;
          assert InTree(src, src) && Rebase(src, src, t) == t;
          AppNamePlain(name);
          ResolveChild(l, l.appsDir, AppName(name));
          UnderLonger(t, apps);
          forall k | k in copied && k !in fs && Under(k, t)
            ensures exists s :: s in fs && InTree(s, src) && k == Rebase(s, src, t) && copied[k] == fs[s]
          {
            if k in made {
              UnderTrans(apps, k, t);
              assert false;
            }
            var s :| s in made && InTree(s, src) && k == Rebase(s, src, t) && copied[k] == made[s];
            if s !in fs {
              UnderTrans(apps, s, src);
              UnderTrans(t, apps, src);
              UnderStartsWith(t, src);
              assert false;
            }
          }
        }
      }
    }
  }

  // ---------------------------------------------------------------------------
  // The shims inside a clone
  // ---------------------------------------------------------------------------

  /** One install step changes nothing outside the clone, nor the clone's root. */
  lemma ShimStepConfined(fs: FS, l: Layout, name: string, slot: Slot, now: int)
    ensures var r := ShimStep(fs, l, name, slot, now).fs; var a := Resolve(l, AppOf(l, name));
      forall k :: (!Under(k, a) || k == a) ==> Kept(fs, r, k)
  {
    var a := Resolve(l, AppOf(l, name));
    var dir := Resolve(l, BinDirOf(l, name, slot));
    ResolvedAbsolute(l, BinDirOf(l, name, slot));
    var r := Install(fs, dir, slot, now).fs;
    assert ShimStep(fs, l, name, slot, now).fs == r;
    InstallFrame(fs, dir, slot, now);
    SlotDirInApp(l, name, slot);
    forall k | !Under(k, a) || k == a ensures Kept(fs, r, k) {
      InsideInnerInsideOuter(k, dir, a);
    }
  }

  /** An entry below a directory that lies strictly inside `a` lies strictly inside `a`. */
  lemma InsideInnerInsideOuter(k: Path, dir: Path, a: Path)
    requires StrictlyUnder(dir, a)
    ensures Under(k, dir) ==> Under(k, a) && k != a
  {
    if Under(k, dir) {
      UnderTrans(k, dir, a);
      if k != dir {
        UnderLonger(k, dir);
      }
    }
  }

  /** Both installs together change nothing outside the clone, nor the clone's root. */
  lemma ShimmedConfined(fs: FS, l: Layout, name: string, now: int)
    ensures var r := Manager.Shimmed(fs, l, name, now); var a := Resolve(l, AppOf(l, name));
      forall k :: (!Under(k, a) || k == a) ==> Kept(fs, r, k)
  {
    var mid := ShimStep(fs, l, name, LanguageServer, now).fs;
    ShimStepConfined(fs, l, name, LanguageServer, now);
    ShimStepConfined(mid, l, name, Electron, now);
  }

  /** With nothing at or below the clone's path, both installs find no slot directory and
      change nothing: when `launch` has to re-create a missing clone, that clone runs
      without shims until the next launch. */
  lemma ShimsSkippedWithoutClone(fs: FS, l: Layout, name: string, now: int)
    requires forall k :: k in fs ==> !Under(k, Resolve(l, AppOf(l, name)))
    ensures ShimStep(fs, l, name, LanguageServer, now) == Installation(fs, SlotMissing)
    ensures ShimStep(fs, l, name, Electron, now) == Installation(fs, SlotMissing)
    ensures Manager.Shimmed(fs, l, name, now) == fs
  {
    var a := Resolve(l, AppOf(l, name));
    SlotDirInApp(l, name, LanguageServer);
    SlotDirInApp(l, name, Electron);
    var d1 := Resolve(l, BinDirOf(l, name, LanguageServer));
    var d2 := Resolve(l, BinDirOf(l, name, Electron));
    assert d1 !in fs && d2 !in fs;
  }

  // ---------------------------------------------------------------------------
  // sync_kernel
  // ---------------------------------------------------------------------------

  /** As written, `sync_kernel` has no nesting guard: with `apps_dir` the source bundle
      itself, it copies the bundle into a clone inside it, shims that clone and reports
      success. */
  lemma SyncIntoSourceSucceeds(fs: FS, l: Layout, name: string, now: int)
    requires l.originalApp != "" && Resolve(l, l.appsDir) == Resolve(l, l.originalApp)
    requires IsDir(fs, Resolve(l, l.originalApp))
    requires forall e :: e in Ancestry(Resolve(l, AppOf(l, name))) ==> !IsFile(fs, e)
    ensures var o := Synced(fs, l, name, now); var a := Resolve(l, AppOf(l, name));
      o.result == Ok(()) && StrictlyUnder(a, Resolve(l, l.originalApp)) && IsDir(o.fs, a)
  {
    var src := Resolve(l, l.originalApp);
    var a := Resolve(l, AppOf(l, name));
    AppNamePlain(name);
    ResolveChild(l, l.appsDir, AppName(name));
    SyncGuardPasses(l, name);
    ResolvedAbsolute(l, l.originalApp);
    ResolvedAbsolute(l, AppOf(l, name));
    AncestryUnder(a);
    UnderLonger(a, src);
    var cleared := if a in fs then RemoveTree(fs, a) else fs;
    assert src in cleared && cleared[src] == fs[src];
    if Relisted(cleared, src, a) {
      var e :| e in cleared && IsDir(cleared, e) && Below(e, src) && Under(a, e);
      NothingBetweenChild(src, AppName(name), e);
      assert false;
    }
    CopyTreeSpec(cleared, src, a);
    var c := CopyTree(cleared, src, a).value;
    assert InTree(src, src) && Rebase(src, src, a) == a && c[a] == Dir;
    ShimmedConfined(c, l, name, now);
    assert Synced(fs, l, name, now) == Outcome(Manager.Shimmed(c, l, name, now), Ok(()));
  }

  /** With the nesting guard, a sync refuses exactly the clone paths inside an existing
      source, and never adds, changes or removes an entry at or below the source, unless
      the source lies inside the clone. */
  lemma GuardedSyncSparesSource(fs: FS, l: Layout, name: string, now: int)
    ensures var o := GuardedSynced(fs, l, name, now); var a := Resolve(l, AppOf(l, name));
      var src := Resolve(l, l.originalApp);
      && (o.result == Err(PathPolicy) <==> l.originalApp != "" && src in fs && StartsWith(a, src))
      && (!Under(src, a) ==> forall k :: Under(k, src) ==> Kept(fs, o.fs, k))
  {
    var src := Resolve(l, l.originalApp);
    var a := Resolve(l, AppOf(l, name));
    SyncedRefusals(fs, l, name, now);
    if !(l.originalApp != "" && src in fs && StartsWith(a, src)) && l.originalApp != "" && src in fs
       && !IsFile(fs, a) && !Under(src, a) {
      if Under(a, src) {
        UnderStartsWith(a, src);
      }
      var cleared := if a in fs then RemoveTree(fs, a) else fs;
      ResolvedAbsolute(l, AppOf(l, name));
      CopyTreeSpec(cleared, src, a);
      var o := GuardedSynced(fs, l, name, now);
      forall k | Under(k, src) ensures Kept(fs, o.fs, k) {
        if Under(k, a) {
          UnderComparable(k, src, a);
        }
        match CopyTree(cleared, src, a)
        case Err(_) =>
        case Ok(c) =>
          ShimmedConfined(c, l, name, now);
          assert Kept(c, o.fs, k);
          if k in c && k !in cleared && Under(a, k) {
            UnderTrans(a, k, src);
          }
      }
    }
  }

  /** The guard of `sync_kernel` always passes for the path `get_app_path` derives: the
      clone is an entry of `apps_dir` and its name ends in `.app`. */
  lemma SyncGuardPasses(l: Layout, name: string)
    ensures StartsWith(Resolve(l, AppOf(l, name)), Resolve(l, l.appsDir))
    ensures EndsWith(AppOf(l, name), ".app")
  {
    AppNamePlain(name);
    AbsPathJoinPlain(l.cwd, l.appsDir, AppName(name));
    ResolvedAbsolute(l, l.appsDir);
    JoinUnder(Resolve(l, l.appsDir), AppName(name));
    UnderStartsWith(Resolve(l, AppOf(l, name)), Resolve(l, l.appsDir));
    assert !IsAbsolute(AppName(name)) by { assert AppName(name)[0] == 'A'; }
    JoinEndsWith(l.appsDir, AppName(name));
    EndsWithTrans(AppOf(l, name), AppName(name), ".app");
  }

  /** A missing source is refused with nothing touched, and the policy refusal never happens. */
  lemma SyncedRefusals(fs: FS, l: Layout, name: string, now: int)
    ensures var o := Synced(fs, l, name, now);
      && ((l.originalApp == "" || Resolve(l, l.originalApp) !in fs) ==> o == Outcome(fs, Err(NotFound)))
      && o.result != Err(PathPolicy)
  {
    var a := Resolve(l, AppOf(l, name));
    var src := Resolve(l, l.originalApp);
    SyncGuardPasses(l, name);
    if !(l.originalApp == "" || src !in fs) && !IsFile(fs, a) {
      var cleared := if a in fs then RemoveTree(fs, a) else fs;
      ResolvedAbsolute(l, AppOf(l, name));
      CopyTreeSpec(cleared, src, a);
    }
  }

  /** The tree `c` holds at the clone's path `a` a fresh replica of the source tree `src` of
      `fs`: every source entry outside the old clone reappears re-rooted, and below `a` there
      is nothing but re-rooted source entries, except entries that were already there
      without the clone's root itself. */
  predicate FreshReplica(fs: FS, c: FS, src: Path, a: Path) {
    && (forall k :: k in fs && InTree(k, src) && !Under(k, a) ==>
          Rebase(k, src, a) in c && c[Rebase(k, src, a)] == fs[k])
    && (forall k :: k in c && Under(k, a) ==>
          (exists s :: s in fs && InTree(s, src) && k == Rebase(s, src, a) && c[k] == fs[s])
          || (a !in fs && k in fs && c[k] == fs[k]))
  }

  /** Nothing outside the clone changes, so the data directory survives a sync; and a
      success leaves the two installs run over a fresh replica of the source. */
  lemma SyncedSpec(fs: FS, l: Layout, name: string, now: int)
    ensures var o := Synced(fs, l, name, now); var a := Resolve(l, AppOf(l, name));
      var src := Resolve(l, l.originalApp);
      && (forall k :: k in fs && !Under(k, a) ==> k in o.fs && o.fs[k] == fs[k])
      && (o.result.Ok? ==> exists c :: o.fs == Manager.Shimmed(c, l, name, now) && FreshReplica(fs, c, src, a))
  {
    var a := Resolve(l, AppOf(l, name));
    var src := Resolve(l, l.originalApp);
    SyncGuardPasses(l, name);
    if !(l.originalApp == "" || src !in fs) && !IsFile(fs, a) {
      var cleared := if a in fs then RemoveTree(fs, a) else fs;
      ResolvedAbsolute(l, AppOf(l, name));
      SyncedCopy(fs, cleared, l, name, now);
      if CopyTree(cleared, src, a).Ok? {
        var c := CopyTree(cleared, src, a).value;
        assert Synced(fs, l, name, now).fs == Manager.Shimmed(c, l, name, now);
        assert FreshReplica(fs, c, src, a);
      }
    }
  }

  lemma SyncedCopy(fs: FS, cleared: FS, l: Layout, name: string, now: int)
    requires var a := Resolve(l, AppOf(l, name));
      cleared == (if a in fs then RemoveTree(fs, a) else fs)
    ensures var a := Resolve(l, AppOf(l, name)); var src := Resolve(l, l.originalApp);
      match CopyTree(cleared, src, a)
      case Err(_) => forall k :: k in fs && !Under(k, a) ==> k in cleared && cleared[k] == fs[k]
      case Ok(c) =>
        && (forall k :: k in fs && !Under(k, a) ==> k in Manager.Shimmed(c, l, name, now) && Manager.Shimmed(c, l, name, now)[k] == fs[k])
        && FreshReplica(fs, c, src, a)
  {
    var a := Resolve(l, AppOf(l, name));
    var src := Resolve(l, l.originalApp);
    ResolvedAbsolute(l, AppOf(l, name));
    CopyTreeSpec(cleared, src, a);
    if CopyTree(cleared, src, a).Ok? {
      var c := CopyTree(cleared, src, a).value;
      var made := MakeDirs(cleared, a).value;
      var g := Graft(cleared, src, a);
      assert c == made + g;
      MakeDirsSpec(cleared, a);
      GraftSpec(cleared, src, a);
      ShimmedConfined(c, l, name, now);
      forall k | k in fs && InTree(k, src) && !Under(k, a)
        ensures Rebase(k, src, a) in c && c[Rebase(k, src, a)] == fs[k]
      {
        assert k in cleared && cleared[k] == fs[k];
      }
      assert InTree(src, src) && Rebase(src, src, a) == a && a in g;
      forall k | k in c && Under(k, a)
        ensures (exists s :: s in fs && InTree(s, src) && k == Rebase(s, src, a) && c[k] == fs[s])
                || (a !in fs && k in fs && c[k] == fs[k])
      {
        if k in g {
          var s :| s in cleared && InTree(s, src) && k == Rebase(s, src, a) && g[k] == cleared[s];
          assert s in fs && c[k] == fs[s];
        } else if k in cleared {
          assert a !in fs && c[k] == fs[k];
        } else {
          if k != a {
            UnderLonger(k, a);
          }
          assert false;
        }
      }
    }
  }

  // ---------------------------------------------------------------------------
  // launch
  // ---------------------------------------------------------------------------

  /** Making the data directories only adds entries, and on success each one exists. */
  lemma {:induction false} EnsureDirsSpec(fs: FS, l: Layout, ps: seq<Path>)
    ensures var o := EnsureDirs(fs, l, ps);
      && (forall k :: k in fs ==> k in o.fs && o.fs[k] == fs[k])
      && (o.result.Ok? ==> forall i :: 0 <= i < |ps| ==> Resolve(l, ps[i]) in o.fs)
    decreases |ps|
  {
    if ps != [] {
      var p := Resolve(l, ps[0]);
      var rest := ps[1..];
      assert forall i :: 1 <= i < |ps| ==> ps[i] == rest[i - 1];
      ResolvedAbsolute(l, ps[0]);
      if p in fs {
        assert EnsureDirs(fs, l, ps) == EnsureDirs(fs, l, rest);
        EnsureDirsSpec(fs, l, rest);
      } else {
        MakeDirsSpec(fs, p);
        if MakeDirs(fs, p).Ok? {
          var made := MakeDirs(fs, p).value;
          assert EnsureDirs(fs, l, ps) == EnsureDirs(made, l, rest);
          assert p in made;
          EnsureDirsSpec(made, l, rest);
        } else {
          assert EnsureDirs(fs, l, ps) == Outcome(fs, Err(IOFailure));
        }
      }
    }
  }

  /** Before the executable search, `launch` changes no existing entry outside the clone,
      and on success the clone and both data directories exist. */
  lemma PreparedSpec(fs: FS, l: Layout, name: string, now: int)
    ensures var o := Prepared(fs, l, name, now); var a := Resolve(l, AppOf(l, name));
      && (forall k :: k in fs && !Under(k, a) ==> k in o.fs && o.fs[k] == fs[k])
      && (o.result.Ok? ==> a in o.fs && Resolve(l, UserDataOf(l, name)) in o.fs
                           && Resolve(l, ExtensionsOf(l, name)) in o.fs)
  {
    var a := Resolve(l, AppOf(l, name));
    var shimmed := Manager.Shimmed(fs, l, name, now);
    var dirs := [UserDataOf(l, name), ExtensionsOf(l, name)];
    ShimmedConfined(fs, l, name, now);
    if a in shimmed {
      EnsureDirsSpec(shimmed, l, dirs);
      assert dirs[0] == UserDataOf(l, name) && dirs[1] == ExtensionsOf(l, name);
    } else {
      var c := Created(shimmed, l, name);
      CreatedSpec(shimmed, l, name);
      if c.result.Ok? {
        EnsureDirsSpec(c.fs, l, dirs);
        assert dirs[0] == UserDataOf(l, name) && dirs[1] == ExtensionsOf(l, name);
      }
    }
  }

  /** The user data, extensions and user settings directories, and the settings file,
      lie strictly inside the instance's data directory. */
  lemma DataDirsInData(l: Layout, name: string)
    ensures var d := Resolve(l, DataOf(l, name));
      && StrictlyUnder(Resolve(l, UserDataOf(l, name)), d)
      && StrictlyUnder(Resolve(l, ExtensionsOf(l, name)), d)
      && StrictlyUnder(Resolve(l, SettingsDirOf(UserDataOf(l, name))), d)
      && StrictlyUnder(Resolve(l, SettingsFileOf(UserDataOf(l, name))), d)
  {
    FixedNamesPlain();
    var d := DataOf(l, name);
    var ud := UserDataOf(l, name);
    ResolveChild(l, d, "user_data");
    ResolveChild(l, d, "extensions");
    ResolveChild(l, ud, "User");
    ResolveChild(l, SettingsDirOf(ud), "settings.json");
    StrictlyUnderTrans(Resolve(l, SettingsDirOf(ud)), Resolve(l, ud), Resolve(l, d));
    StrictlyUnderTrans(Resolve(l, SettingsFileOf(ud)), Resolve(l, SettingsDirOf(ud)), Resolve(l, d));
  }

  /** The read-merge-write changes nothing but the file `f`. A document that parsed to
      something other than an object, or a directory at `f`, is left as it was; otherwise
      `f` becomes a file stamped `now` whose document holds the three proxy keys, keeps
      every other key of a document that parsed to an object, and holds only the three
      keys when there was no such document (missing, unparsable, or not JSON text). */
  lemma SettingsWrittenSpec(fs: FS, f: Path, proxy: string, now: int)
    ensures var r := SettingsWritten(fs, f, proxy, now);
      var parsed := IsFile(fs, f) && fs[f].data.Text? && fs[f].data.json.Object?;
      && (forall k :: k != f ==> Kept(fs, r, k))
      && ((IsFile(fs, f) && fs[f].data == Text(NotAnObject)) || IsDir(fs, f) ==> r == fs)
      && (!(IsFile(fs, f) && fs[f].data == Text(NotAnObject)) && !IsDir(fs, f) ==>
            && f in r && r[f].File? && r[f].mtime == now && r[f].executable == KeepsExecBit(fs, f)
            && r[f].data.Text? && r[f].data.json.Object?
            && var m := r[f].data.json.fields;
               && m[ProxyKey] == JString(proxy) && m[StrictSslKey] == JBool(false) && m[SupportKey] == JString("on")
               && (parsed ==> (m.Keys == fs[f].data.json.fields.Keys + {ProxyKey, StrictSslKey, SupportKey}
                     && forall key :: key in fs[f].data.json.fields && key !in {ProxyKey, StrictSslKey, SupportKey} ==>
                          m[key] == fs[f].data.json.fields[key]))
               && (!parsed ==> m.Keys == {ProxyKey, StrictSslKey, SupportKey}))
  {
    var loaded := if IsFile(fs, f) && fs[f].data.Text? then fs[f].data.json else Unparsable;
    var content := if loaded.Object? then loaded.fields else map[];
    WithProxySpec(content, proxy);
  }

  /** The injection changes no existing entry but the settings file, and adds only
      directories besides it; what it does to the file is what `SettingsWrittenSpec` says
      of the file as it stood before. */
  lemma InjectedSpec(fs: FS, l: Layout, userDataDir: Path, proxy: string, now: int)
    ensures var r := Injected(fs, l, userDataDir, proxy, now); var f := Resolve(l, SettingsFileOf(userDataDir));
      && (forall k :: k in fs && k != f ==> k in r && r[k] == fs[k])
      && (forall k :: k in r && k !in fs && k != f ==> r[k] == Dir)
      && (r == fs || exists made :: (r == SettingsWritten(made, f, proxy, now) && (f in made <==> f in fs)
            && (f in fs ==> made[f] == fs[f])))
  {
    var dir := Resolve(l, SettingsDirOf(userDataDir));
    var f := Resolve(l, SettingsFileOf(userDataDir));
    ResolvedAbsolute(l, SettingsDirOf(userDataDir));
    MakeDirsSpec(fs, dir);
    if MakeDirs(fs, dir).Ok? {
      var made := MakeDirs(fs, dir).value;
      SettingsWrittenSpec(made, f, proxy, now);
      FixedNamesPlain();
      ResolveChild(l, SettingsDirOf(userDataDir), "settings.json");
      assert f !in Ancestry(dir) by {
        AncestryUnder(dir);
        if f in Ancestry(dir) { UnderLonger(f, dir); }
      }
      assert f in made <==> f in fs;
    }
  }

  /** `launch` changes no existing entry outside the instance's clone and data directory. */
  lemma LaunchConfined(fs: FS, l: Layout, name: string, now: int, proxy: string)
    ensures var p := Prepared(fs, l, name, now);
      var r := if proxy != "" then Injected(p.fs, l, UserDataOf(l, name), proxy, now) else p.fs;
      forall k :: k in fs && !Under(k, Resolve(l, AppOf(l, name))) && !Under(k, Resolve(l, DataOf(l, name))) ==>
        k in r && r[k] == fs[k]
  {
    var p := Prepared(fs, l, name, now);
    PreparedSpec(fs, l, name, now);
    InjectedSpec(p.fs, l, UserDataOf(l, name), proxy, now);
    DataDirsInData(l, name);
  }

  // ---------------------------------------------------------------------------
  // delete_resources
  // ---------------------------------------------------------------------------

  /** Whether `delete_resources` finds the data directory once the clone is gone: for a
      name sanitising to "." or "..", exactly when the data root is a directory outside
      the clone. */
  predicate DataStillThere(fs: FS, l: Layout, name: string) {
    var a := Resolve(l, AppOf(l, name));
    if DotName(name) then IsDir(fs, Resolve(l, l.dataDir)) && !(a in fs && Under(Resolve(l, l.dataDir), a))
    else Resolve(l, DataOf(l, name)) in fs && !(a in fs && Under(Resolve(l, DataOf(l, name)), a))
  }

  /** The error and the flags are characterised exactly. Only entries of the clone and,
      when asked for, of the data directory disappear, and nothing is added or altered.
      The data directory of "." or ".." is emptied, and then the call fails. */
  lemma RemovedSpec(fs: FS, l: Layout, name: string, deleteData: bool)
    ensures var o := Removed(fs, l, name, deleteData);
      var a := Resolve(l, AppOf(l, name)); var d := Resolve(l, DataOf(l, name));
      var present := deleteData && DataStillThere(fs, l, name);
      && (o.result.Err? <==> IsFile(fs, a) || (present && (DotName(name) || IsFile(fs, d))))
      && (o.result.Ok? ==> (o.result.value.0 <==> a in fs))
      && (o.result.Ok? ==> (o.result.value.1 <==> present))
      && (forall k :: k in o.fs ==> k in fs && o.fs[k] == fs[k])
      && (forall k :: k in fs && !Under(k, a) && !(present && Under(k, d) && !(DotName(name) && k == d)) ==> k in o.fs)
      && (o.result.Ok? && a in fs ==> forall k :: Under(k, a) ==> k !in o.fs)
      && (o.result.Ok? && o.result.value.1 ==> forall k :: Under(k, d) ==> k !in o.fs)
      && (!IsFile(fs, a) && present && DotName(name) ==> forall k :: Under(k, d) && k != d ==> k !in o.fs)
  {
  }
}

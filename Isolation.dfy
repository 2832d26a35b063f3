/**
 * When instances stay apart. Each instance owns a clone under `apps_dir` and a data
 * directory under `data_dir`, both named after the sanitised instance name. Names that
 * the registry check `Admissible` lets in keep these trees disjoint, so an operation on
 * one instance spares every other; names that `add_account` lets in unchecked do not.
 */
module Isolation {
  import opened Wrappers
  import opened Paths
  import opened Naming
  import opened Registry
  import opened FileSystem
  import opened Shim
  import opened Manager
  import opened Properties

  /** Neither root lies inside the other, as for the default `~/Antigravity_Avatars/apps`
      and `~/Antigravity_Avatars/data`. */
  predicate RootsApart(l: Layout) {
    var ra := Resolve(l, l.appsDir);
    var rd := Resolve(l, l.dataDir);
    !Under(ra, rd) && !Under(rd, ra)
  }

  /** The clone is an entry of the apps root; the data directory of a name whose sanitised
      form is a plain entry is an entry of the data root. */
  lemma InstancePaths(l: Layout, name: string)
    ensures Resolve(l, AppOf(l, name)) == Join(Resolve(l, l.appsDir), AppName(name))
    ensures StrictlyUnder(Resolve(l, AppOf(l, name)), Resolve(l, l.appsDir))
    ensures IsPlainComponent(Sanitize(name)) ==>
      Resolve(l, DataOf(l, name)) == Join(Resolve(l, l.dataDir), Sanitize(name))
      && StrictlyUnder(Resolve(l, DataOf(l, name)), Resolve(l, l.dataDir))
  {
    AppNamePlain(name);
    ResolveChild(l, l.appsDir, AppName(name));
    if IsPlainComponent(Sanitize(name)) {
      ResolveChild(l, l.dataDir, Sanitize(name));
    }
  }

  // ---------------------------------------------------------------------------
  // Names the registry does not keep apart
  // ---------------------------------------------------------------------------

  /** Two names with one sanitisation are one instance on disk: same clone, same data
      directory, and deleting or syncing either does the same to both. */
  lemma SameSanitisationSameInstance(fs: FS, l: Layout, n1: string, n2: string, deleteData: bool, now: int)
    requires Sanitize(n1) == Sanitize(n2)
    ensures AppOf(l, n1) == AppOf(l, n2) && DataOf(l, n1) == DataOf(l, n2)
    ensures Removed(fs, l, n1, deleteData) == Removed(fs, l, n2, deleteData)
    ensures Synced(fs, l, n1, now) == Synced(fs, l, n2, now)
  {
    PathsFollowSanitize(l.appsDir, l.dataDir, n1, n2);
    RemovedFollowsSanitize(fs, l, n1, n2, deleteData);
    SyncedFollowsApp(fs, l, n1, n2, now);
  }

  lemma RemovedFollowsSanitize(fs: FS, l: Layout, n1: string, n2: string, deleteData: bool)
    requires Sanitize(n1) == Sanitize(n2)
    requires AppOf(l, n1) == AppOf(l, n2) && DataOf(l, n1) == DataOf(l, n2)
    ensures Removed(fs, l, n1, deleteData) == Removed(fs, l, n2, deleteData)
  {
    assert DotName(n1) == DotName(n2);
    var a := Resolve(l, AppOf(l, n1));
    var cleared := if a in fs then RemoveTree(fs, a) else fs;
    assert DataExists(cleared, l, n1) == DataExists(cleared, l, n2);
  }

  lemma SyncedFollowsApp(fs: FS, l: Layout, n1: string, n2: string, now: int)
    requires AppOf(l, n1) == AppOf(l, n2)
    ensures Synced(fs, l, n1, now) == Synced(fs, l, n2, now)
  {
    var src := Resolve(l, l.originalApp);
    var a := Resolve(l, AppOf(l, n1));
    if !(l.originalApp == "" || src !in fs) && StartsWith(a, Resolve(l, l.appsDir))
       && EndsWith(AppOf(l, n1), ".app") && !IsFile(fs, a)
    {
      var cleared := if a in fs then RemoveTree(fs, a) else fs;
      if CopyTree(cleared, src, a).Ok? {
        var copied := CopyTree(cleared, src, a).value;
        assert BinDirOf(l, n1, LanguageServer) == BinDirOf(l, n2, LanguageServer);
        assert BinDirOf(l, n1, Electron) == BinDirOf(l, n2, Electron);
        assert Manager.Shimmed(copied, l, n1, now) == Manager.Shimmed(copied, l, n2, now);
      }
    }
  }

  /** "a b" and "a_b" are both registered by `add_account` and share one instance. */
  lemma SpaceUnderscoreShareInstance(fs: FS, l: Layout, now: int)
    ensures !Registry.HasName([Account("a b", "", "", 0, 0)], "a_b")
    ensures Removed(fs, l, "a b", true) == Removed(fs, l, "a_b", true)
    ensures Synced(fs, l, "a b", now) == Synced(fs, l, "a_b", now)
  {
    AddAccountAdmitsCollision();
    SameSanitisationSameInstance(fs, l, "a b", "a_b", true, now);
  }

  /** The name "." sanitises to itself, so its data directory is the data root. */
  lemma DotDataIsDataRoot(l: Layout)
    ensures Sanitize(".") == "."
    ensures Resolve(l, DataOf(l, ".")) == Resolve(l, l.dataDir)
  {
    assert IsSafeChar("."[0]);
    SanitizeFixed(".");
    AbsPathJoinDot(l.cwd, l.dataDir, ".");
  }

  /** Deleting instance "." with its data empties the data root, destroying the data
      directory of every instance, and then fails: the root itself stays, as does every
      entry outside it and outside the clone, and the UI, which drops the record only
      after a successful call, keeps it. */
  lemma DotDeleteEmptiesDataRoot(fs: FS, l: Layout)
    requires var rd := Resolve(l, l.dataDir); var a := Resolve(l, AppOf(l, "."));
      IsDir(fs, rd) && !IsFile(fs, a) && !(a in fs && Under(rd, a))
    ensures var o := Removed(fs, l, ".", true); var rd := Resolve(l, l.dataDir);
      var a := Resolve(l, AppOf(l, "."));
      && o.result == Err(IOFailure)
      && rd in o.fs
      && (forall k :: Under(k, rd) && k != rd ==> k !in o.fs)
      && (forall k :: k in fs && !Under(k, a) && (k == rd || !Under(k, rd)) ==> k in o.fs && o.fs[k] == fs[k])
      && (forall n :: IsPlainComponent(Sanitize(n)) ==>
            forall k :: Under(k, Resolve(l, DataOf(l, n))) ==> k !in o.fs)
  {
    DotDataIsDataRoot(l);
    RemovedSpec(fs, l, ".", true);
    var o := Removed(fs, l, ".", true);
    var rd := Resolve(l, l.dataDir);
    forall n, k | IsPlainComponent(Sanitize(n)) && Under(k, Resolve(l, DataOf(l, n))) ensures k !in o.fs {
      InstancePaths(l, n);
      UnderTrans(k, Resolve(l, DataOf(l, n)), rd);
      if k == rd {
        UnderLonger(k, Resolve(l, DataOf(l, n)));
      }
    }
  }

  /** Without a data root as a directory, `data_dir/.` and `data_dir/..` do not exist:
      deleting such an instance with its data leaves all data alone, exactly as deleting
      it without. */
  lemma DotDeleteNeedsDataRoot(fs: FS, l: Layout, name: string)
    requires DotName(name) && !IsDir(fs, Resolve(l, l.dataDir))
    ensures Removed(fs, l, name, true) == Removed(fs, l, name, false)
    ensures Removed(fs, l, name, true).result.Ok? ==> !Removed(fs, l, name, true).result.value.1
  {
    RemovedSpec(fs, l, name, true);
    RemovedSpec(fs, l, name, false);
  }

  /** The name ".." sanitises to itself, so its data directory is the parent of the data
      root: the base directory that also holds `apps_dir` and `config.json` by default. */
  lemma DotDotDataIsParent(l: Layout)
    requires Resolve(l, l.dataDir) != "/" && Resolve(l, l.dataDir) != "//"
    ensures Sanitize("..") == ".."
    ensures StrictlyUnder(Resolve(l, l.dataDir), Resolve(l, DataOf(l, "..")))
  {
    assert IsSafeChar(".."[0]) && IsSafeChar(".."[1]);
    SanitizeFixed("..");
    var last := AbsPathJoinDotDot(l.cwd, l.dataDir);
    ResolvedAbsolute(l, DataOf(l, ".."));
    JoinUnder(Resolve(l, DataOf(l, "..")), last);
    UnderLonger(Resolve(l, l.dataDir), Resolve(l, DataOf(l, "..")));
  }

  /** Deleting instance ".." with its data, when the data root is there, empties the
      parent of the data root: every instance's data goes, the data root with it, and the
      clones too when the apps root lies inside that parent; the parent itself and what
      lies outside it and outside the clone stay. Then the call fails, so the UI keeps
      the record. */
  lemma DotDotDeleteEmptiesParent(fs: FS, l: Layout)
    requires Resolve(l, l.dataDir) != "/" && Resolve(l, l.dataDir) != "//"
    requires var rd := Resolve(l, l.dataDir); var a := Resolve(l, AppOf(l, ".."));
      IsDir(fs, rd) && !IsFile(fs, a) && !(a in fs && Under(rd, a))
    ensures var o := Removed(fs, l, "..", true); var p := Resolve(l, DataOf(l, ".."));
      var a := Resolve(l, AppOf(l, ".."));
      && o.result == Err(IOFailure)
      && (forall k :: Under(k, p) && k != p ==> k !in o.fs)
      && (forall k :: k in fs && !Under(k, a) && (k == p || !Under(k, p)) ==> k in o.fs && o.fs[k] == fs[k])
      && (forall k :: Under(k, Resolve(l, l.dataDir)) ==> k !in o.fs)
      && (Under(Resolve(l, l.appsDir), p) ==>
            forall k :: Under(k, Resolve(l, l.appsDir)) && k != p ==> k !in o.fs)
  {
    DotDotDataIsParent(l);
    RemovedSpec(fs, l, "..", true);
    var o := Removed(fs, l, "..", true);
    var p := Resolve(l, DataOf(l, ".."));
    forall k | Under(k, Resolve(l, l.dataDir)) ensures k !in o.fs {
      UnderTrans(k, Resolve(l, l.dataDir), p);
    }
    if Under(Resolve(l, l.appsDir), p) {
      forall k | Under(k, Resolve(l, l.appsDir)) && k != p ensures k !in o.fs {
        UnderTrans(k, Resolve(l, l.appsDir), p);
      }
    }
  }

  /** "工作" and "测试" are different instances on disk but have the same, empty, identity:
      the launcher runs both as `language_server_macos_arm_` and `Electron_`, and the two
      Proxifier rules name the same processes. */
  lemma CjkIdentityCollides(slot: Slot)
    ensures Sanitize("工作") != Sanitize("测试")
    ensures IdentityFilter("工作") == IdentityFilter("测试") == ""
    ensures RuleName(slot, "工作") == RuleName(slot, "测试")
    ensures TargetName(slot, "工作") == TargetName(slot, "测试")
  {
    SanitizeSafeName("工作");
    SanitizeSafeName("测试");
    assert "工作"[0] != "测试"[0];
    assert !IsIdentityChar("工作"[0]) && !IsIdentityChar("工作"[1]);
    assert !IsIdentityChar("测试"[0]) && !IsIdentityChar("测试"[1]);
  }

  /** "a.b" and "ab" are different instances on disk with one identity, "ab". */
  lemma DottedIdentityCollides(slot: Slot)
    ensures Sanitize("a.b") != Sanitize("ab")
    ensures IdentityFilter("a.b") == IdentityFilter("ab") == "ab"
    ensures RuleName(slot, "a.b") == RuleName(slot, "ab")
  {
    SanitizeSafeName("a.b");
    SanitizeSafeName("ab");
    assert "a.b"[1] != "ab"[1];
    assert !IsIdentityChar("a.b"[1]);
    IdentityFilterFixed("ab");
    assert "a.b"[1..] == ".b" && ".b"[1..] == "b";
  }

  /** A name made of safe characters is its own sanitisation. */
  lemma SanitizeSafeName(s: string)
    requires s == "工作" || s == "测试" || s == "a.b" || s == "ab"
    ensures Sanitize(s) == s
  {
    assert forall i :: 0 <= i < |s| ==> IsSafeChar(s[i]);
    SanitizeFixed(s);
  }

  // ---------------------------------------------------------------------------
  // Names the registry keeps apart
  // ---------------------------------------------------------------------------

  /** For separated names and roots apart, the trees of two different instances share no
      entry, and their Proxifier rules name different processes. */
  lemma SeparatedApart(l: Layout, accounts: seq<Account>, i: nat, j: nat)
    requires Separated(accounts) && RootsApart(l)
    requires i < |accounts| && j < |accounts| && i != j
    ensures var ni := accounts[i].name; var nj := accounts[j].name;
      var ai := Resolve(l, AppOf(l, ni)); var di := Resolve(l, DataOf(l, ni));
      var aj := Resolve(l, AppOf(l, nj)); var dj := Resolve(l, DataOf(l, nj));
      forall k :: (Under(k, ai) || Under(k, di)) ==> !Under(k, aj) && !Under(k, dj)
    ensures forall slot :: RuleName(slot, accounts[i].name) != RuleName(slot, accounts[j].name)
  {
    var ni := accounts[i].name;
    var nj := accounts[j].name;
    assert Distinguishable(ni, nj) && WellFormedName(ni) && WellFormedName(nj);
    InstancePaths(l, ni);
    InstancePaths(l, nj);
    var ra := Resolve(l, l.appsDir);
    var rd := Resolve(l, l.dataDir);
    var ai := Resolve(l, AppOf(l, ni));
    var di := Resolve(l, DataOf(l, ni));
    var aj := Resolve(l, AppOf(l, nj));
    var dj := Resolve(l, DataOf(l, nj));
    ResolvedAbsolute(l, l.appsDir);
    ResolvedAbsolute(l, l.dataDir);
    AppNamePlain(ni);
    AppNamePlain(nj);
    AppNameInjective(ni, nj);
    SiblingsApart(ra, AppName(ni), AppName(nj));
    SiblingsApart(ra, AppName(nj), AppName(ni));
    SiblingsApart(rd, Sanitize(ni), Sanitize(nj));
    SiblingsApart(rd, Sanitize(nj), Sanitize(ni));
    forall k | Under(k, ai) || Under(k, di) ensures !Under(k, aj) && !Under(k, dj) {
      if Under(k, ai) {
        Disjoint(k, ai, aj);
        Crossed(k, ai, ra, dj, rd);
      } else {
        Crossed(k, di, rd, aj, ra);
        Disjoint(k, di, dj);
      }
    }
    forall slot ensures RuleName(slot, ni) != RuleName(slot, nj) {
      RuleNameInjective(slot, ni, nj);
    }
  }

  /** Two sibling entries hold no common entry. */
  lemma Disjoint(k: Path, x: Path, y: Path)
    requires Under(k, x) && !Under(x, y) && !Under(y, x)
    ensures !Under(k, y)
  {
    if Under(k, y) {
      UnderComparable(k, x, y);
    }
  }

  /** Entries of the two roots apart hold no common entry. */
  lemma Crossed(k: Path, x: Path, rx: Path, y: Path, ry: Path)
    requires Under(x, rx) && Under(y, ry) && !Under(rx, ry) && !Under(ry, rx)
    ensures !(Under(k, x) && Under(k, y))
  {
    if Under(k, x) && Under(k, y) {
      UnderTrans(k, x, rx);
      UnderTrans(k, y, ry);
      UnderComparable(k, rx, ry);
    }
  }

  /** Different identities give different rule names. */
  lemma RuleNameInjective(slot: Slot, n1: string, n2: string)
    requires IdentityFilter(n1) != IdentityFilter(n2)
    ensures RuleName(slot, n1) != RuleName(slot, n2)
  {
    var p := LiveName(slot) + "_";
    assert RuleName(slot, n1)[|p|..] == IdentityFilter(n1);
    assert RuleName(slot, n2)[|p|..] == IdentityFilter(n2);
  }

  /** Deleting a separated instance leaves every entry of every other instance, and both
      roots, as they were. */
  lemma DeleteSparesOthers(fs: FS, l: Layout, accounts: seq<Account>, i: nat, j: nat, deleteData: bool)
    requires Separated(accounts) && RootsApart(l)
    requires i < |accounts| && j < |accounts| && i != j
    ensures var o := Removed(fs, l, accounts[i].name, deleteData);
      var aj := Resolve(l, AppOf(l, accounts[j].name)); var dj := Resolve(l, DataOf(l, accounts[j].name));
      && (forall k :: k in fs && (Under(k, aj) || Under(k, dj)) ==> k in o.fs && o.fs[k] == fs[k])
      && (forall k :: k in fs && (k == Resolve(l, l.appsDir) || k == Resolve(l, l.dataDir)) ==> k in o.fs && o.fs[k] == fs[k])
  {
    var ni := accounts[i].name;
    RemovedSpec(fs, l, ni, deleteData);
    SeparatedApart(l, accounts, j, i);
    RootsSurvive(l, accounts, i);
  }

  /** Neither root lies inside a separated instance's clone or data directory. */
  lemma RootsSurvive(l: Layout, accounts: seq<Account>, i: nat)
    requires Separated(accounts) && RootsApart(l) && i < |accounts|
    ensures var a := Resolve(l, AppOf(l, accounts[i].name)); var d := Resolve(l, DataOf(l, accounts[i].name));
      var ra := Resolve(l, l.appsDir); var rd := Resolve(l, l.dataDir);
      !Under(ra, a) && !Under(ra, d) && !Under(rd, a) && !Under(rd, d)
  {
    var n := accounts[i].name;
    InstancePaths(l, n);
    var ra := Resolve(l, l.appsDir);
    var rd := Resolve(l, l.dataDir);
    var a := Resolve(l, AppOf(l, n));
    var d := Resolve(l, DataOf(l, n));
    UnderLonger(a, ra);
    UnderLonger(d, rd);
    if Under(ra, d) { UnderTrans(ra, d, rd); }
    if Under(rd, a) { UnderTrans(rd, a, ra); }
  }

  /** Syncing a separated instance leaves every entry of every other instance as it was. */
  lemma SyncSparesOthers(fs: FS, l: Layout, accounts: seq<Account>, i: nat, j: nat, now: int)
    requires Separated(accounts) && RootsApart(l)
    requires i < |accounts| && j < |accounts| && i != j
    ensures var o := Synced(fs, l, accounts[i].name, now);
      var aj := Resolve(l, AppOf(l, accounts[j].name)); var dj := Resolve(l, DataOf(l, accounts[j].name));
      forall k :: k in fs && (Under(k, aj) || Under(k, dj)) ==> k in o.fs && o.fs[k] == fs[k]
  {
    SyncedSpec(fs, l, accounts[i].name, now);
    SeparatedApart(l, accounts, j, i);
  }

  /** Launching a separated instance leaves every existing entry of every other instance
      as it was. */
  lemma LaunchSparesOthers(fs: FS, l: Layout, accounts: seq<Account>, i: nat, j: nat, now: int, proxy: string)
    requires Separated(accounts) && RootsApart(l)
    requires i < |accounts| && j < |accounts| && i != j
    ensures var ni := accounts[i].name; var p := Prepared(fs, l, ni, now);
      var r := if proxy != "" then Injected(p.fs, l, UserDataOf(l, ni), proxy, now) else p.fs;
      var aj := Resolve(l, AppOf(l, accounts[j].name)); var dj := Resolve(l, DataOf(l, accounts[j].name));
      forall k :: k in fs && (Under(k, aj) || Under(k, dj)) ==> k in r && r[k] == fs[k]
  {
    LaunchConfined(fs, l, accounts[i].name, now, proxy);
    SeparatedApart(l, accounts, j, i);
  }
}

/**
 * The instance registry held by `ConfigManager`: an in-memory list of account
 * records keyed by name, and the configured roots. Persisting the config to
 * disk is recorded only as a count of `save()` calls.
 */
module Registry {
  import opened Wrappers
  import opened Paths
  import opened Naming

  /** One account record; `created_at` and `last_used` are `time.time()` values. */
  datatype Account = Account(name: string, note: string, proxyUrl: string, createdAt: int, lastUsed: int)

  /** The keyword arguments callers pass to `update_account`: `note`, `proxy_url`, `last_used`. */
  datatype AccountUpdate = AccountUpdate(note: Option<string>, proxyUrl: Option<string>, lastUsed: Option<int>)

  /** `acc.update(kwargs)`: the keys present are overwritten, the others kept. */
  function Apply(a: Account, u: AccountUpdate): Account {
    a.(note := if u.note.Some? then u.note.value else a.note,
       proxyUrl := if u.proxyUrl.Some? then u.proxyUrl.value else a.proxyUrl,
       lastUsed := if u.lastUsed.Some? then u.lastUsed.value else a.lastUsed)
  }

  /** `any(a["name"] == name for a in accounts)` */
  predicate HasName(accounts: seq<Account>, name: string) {
    exists i :: 0 <= i < |accounts| && accounts[i].name == name
  }

  /** No two records share a name. */
  predicate UniqueNames(accounts: seq<Account>) {
    forall i, j :: 0 <= i < j < |accounts| ==> accounts[i].name != accounts[j].name
  }

  /** `[a for a in accounts if a["name"] != name]` */
  function Without(accounts: seq<Account>, name: string): seq<Account> {
    if accounts == [] then []
    else (if accounts[0].name == name then [] else [accounts[0]]) + Without(accounts[1..], name)
  }

  /** The position of the first record named `name`. */
  function FirstIndexOf(accounts: seq<Account>, name: string): (r: Option<nat>)
    ensures r.None? <==> !HasName(accounts, name)
    ensures r.Some? ==> (r.value < |accounts| && accounts[r.value].name == name
      && forall j :: 0 <= j < r.value ==> accounts[j].name != name)
  {
    if accounts == [] then None
    else if accounts[0].name == name then Some(0)
    else
      match FirstIndexOf(accounts[1..], name)
      case None =>
        assert forall j :: 1 <= j < |accounts| ==> accounts[j] == accounts[1..][j - 1];
        None
      case Some(k) => Some(k + 1)
  }

  /** `next((a for a in accounts if a["name"] == name), None)` */
  function FindAccount(accounts: seq<Account>, name: string): (r: Option<Account>)
    ensures r.Some? <==> HasName(accounts, name)
    ensures r.Some? ==> r.value.name == name && r.value in accounts
  {
    match FirstIndexOf(accounts, name)
    case None => None
    case Some(i) => Some(accounts[i])
  }

  // ---------------------------------------------------------------------------
  // Lemmas about the list operations
  // ---------------------------------------------------------------------------

  /** `delete_account`'s filter removes every record with the name and keeps every other
      record, in order. */
  lemma {:induction false} WithoutSpec(accounts: seq<Account>, name: string)
    ensures !HasName(Without(accounts, name), name)
    ensures forall a :: a in Without(accounts, name) <==> a in accounts && a.name != name
    ensures |Without(accounts, name)| <= |accounts|
  {
    if accounts != [] {
      WithoutSpec(accounts[1..], name);
      assert accounts == [accounts[0]] + accounts[1..];
    }
  }

  /** The filter distributes over concatenation, so it keeps the relative order. */
  lemma {:induction false} WithoutConcat(a: seq<Account>, b: seq<Account>, name: string)
    ensures Without(a + b, name) == Without(a, name) + Without(b, name)
  {
    if a == [] {
      assert a + b == b;
    } else {
      assert (a + b)[1..] == a[1..] + b;
      WithoutConcat(a[1..], b, name);
    }
  }

  /** Filtering out a name nobody has changes nothing. */
  lemma {:induction false} WithoutAbsent(accounts: seq<Account>, name: string)
    requires !HasName(accounts, name)
    ensures Without(accounts, name) == accounts
  {
    if accounts != [] {
      assert forall j :: 0 <= j < |accounts[1..]| ==> accounts[1..][j] == accounts[j + 1];
      WithoutAbsent(accounts[1..], name);
      assert accounts[0].name != name;
    }
  }

  /** Adding a record under a fresh name and then deleting that name restores the list:
      the rollback of the add dialog when the clone cannot be created. */
  lemma AddThenDelete(accounts: seq<Account>, a: Account)
    requires !HasName(accounts, a.name)
    ensures Without(accounts + [a], a.name) == accounts
  {
    WithoutConcat(accounts, [a], a.name);
    WithoutAbsent(accounts, a.name);
    assert Without([a], a.name) == [] + Without([], a.name);
  }

  /** Appending a record under a fresh name keeps the names unique. */
  lemma AppendKeepsUnique(accounts: seq<Account>, a: Account)
    requires UniqueNames(accounts) && !HasName(accounts, a.name)
    ensures UniqueNames(accounts + [a])
  {
    var s := accounts + [a];
    forall i, j | 0 <= i < j < |s| ensures s[i].name != s[j].name {
      if j == |accounts| {
        assert s[i] == accounts[i];
      } else {
        assert s[i] == accounts[i] && s[j] == accounts[j];
      }
    }
  }

  /** Filtering keeps the names unique. */
  lemma {:induction false} WithoutKeepsUnique(accounts: seq<Account>, name: string)
    requires UniqueNames(accounts)
    ensures UniqueNames(Without(accounts, name))
  {
    if accounts != [] {
      var t := accounts[1..];
      assert UniqueNames(t) by {
        forall i, j | 0 <= i < j < |t| ensures t[i].name != t[j].name {
          assert t[i] == accounts[i + 1] && t[j] == accounts[j + 1];
        }
      }
      WithoutKeepsUnique(t, name);
      WithoutSpec(t, name);
      var r := Without(accounts, name);
      if accounts[0].name != name {
        assert !HasName(t, accounts[0].name);
        forall i, j | 0 <= i < j < |r| ensures r[i].name != r[j].name {
          if i == 0 {
            assert r[j] in Without(t, name);
          } else {
            assert r[i] == Without(t, name)[i - 1] && r[j] == Without(t, name)[j - 1];
          }
        }
      }
    }
  }

  /** Applying an update never renames a record. */
  lemma ApplyKeepsName(a: Account, u: AccountUpdate)
    ensures Apply(a, u).name == a.name && Apply(a, u).createdAt == a.createdAt
  {
  }

  /** Updating the first record with a name keeps the names unique. */
  lemma UpdateKeepsUnique(accounts: seq<Account>, i: nat, u: AccountUpdate)
    requires UniqueNames(accounts) && i < |accounts|
    ensures UniqueNames(accounts[i := Apply(accounts[i], u)])
  {
  }

  /** The account `launch` reads is the first one with the name, whatever follows it. */
  lemma FindAccountFirst(accounts: seq<Account>, name: string, k: nat)
    requires k < |accounts| && accounts[k].name == name
    requires forall j :: 0 <= j < k ==> accounts[j].name != name
    ensures FindAccount(accounts, name) == Some(accounts[k])
  {
    assert HasName(accounts, name);
  }

  // ---------------------------------------------------------------------------
  // Names that share a clone, a data directory or a process identity
  // ---------------------------------------------------------------------------

  /** Two names that reach different clones, different data directories and different
      process identities. */
  predicate Distinguishable(a: string, b: string) {
    Sanitize(a) != Sanitize(b) && IdentityFilter(a) != IdentityFilter(b)
  }

  /** A name whose sanitised form is one directory entry (not empty, `.` or `..`) and whose
      identity is not empty. */
  predicate WellFormedName(name: string) {
    IsPlainComponent(Sanitize(name)) && IdentityFilter(name) != ""
  }

  /** The registry check that keeps instances apart: a well-formed name distinguishable
      from every registered one. */
  predicate Admissible(accounts: seq<Account>, name: string) {
    WellFormedName(name) && forall i :: 0 <= i < |accounts| ==> Distinguishable(accounts[i].name, name)
  }

  /** Every registered name is well formed and distinguishable from every other. */
  predicate Separated(accounts: seq<Account>) {
    (forall i :: 0 <= i < |accounts| ==> WellFormedName(accounts[i].name))
    && forall i, j :: 0 <= i < |accounts| && 0 <= j < |accounts| && i != j ==>
      Distinguishable(accounts[i].name, accounts[j].name)
  }

  /** The duplicate check `add_account` performs sees only exact names: "a b" is accepted
      beside "a_b", though both sanitise to "a_b". */
  lemma AddAccountAdmitsCollision()
    ensures var accounts := [Account("a b", "", "", 0, 0)];
      !HasName(accounts, "a_b") && !Admissible(accounts, "a_b")
      && Sanitize("a b") == Sanitize("a_b") == "a_b"
  {
    SanitizeAt("a b");
    SanitizeAt("a_b");
    var s1 := Sanitize("a b");
    var s2 := Sanitize("a_b");
    assert !IsSafeChar(' ') && IsSafeChar('_');
    assert s1[0] == 'a' && s1[1] == '_' && s1[2] == 'b';
    assert s2[0] == 'a' && s2[1] == '_' && s2[2] == 'b';
    assert s1 == "a_b" && s2 == "a_b";
    var accounts := [Account("a b", "", "", 0, 0)];
    assert !Distinguishable(accounts[0].name, "a_b");
    assert accounts[0].name != "a_b" by { assert accounts[0].name[1] != "a_b"[1]; }
  }

  /** Appending an admissible name keeps the registry separated. */
  lemma AdmissibleKeepsSeparated(accounts: seq<Account>, a: Account)
    requires Separated(accounts) && Admissible(accounts, a.name)
    ensures Separated(accounts + [a])
  {
    var s := accounts + [a];
    forall i | 0 <= i < |s| ensures WellFormedName(s[i].name) {
      if i < |accounts| { assert s[i] == accounts[i]; }
    }
    forall i, j | 0 <= i < |s| && 0 <= j < |s| && i != j
      ensures Distinguishable(s[i].name, s[j].name)
    {
      if i < |accounts| && j < |accounts| {
        assert s[i] == accounts[i] && s[j] == accounts[j];
      } else if i < |accounts| {
        assert s[i] == accounts[i] && s[j] == a;
      } else {
        assert s[i] == a && s[j] == accounts[j];
        assert Distinguishable(accounts[j].name, a.name);
      }
    }
  }

  /** A separated registry has unique names. */
  lemma SeparatedUnique(accounts: seq<Account>)
    requires Separated(accounts)
    ensures UniqueNames(accounts)
  {
    forall i, j | 0 <= i < j < |accounts| ensures accounts[i].name != accounts[j].name {
      assert Distinguishable(accounts[i].name, accounts[j].name);
    }
  }

  // ---------------------------------------------------------------------------
  // The registry object
  // ---------------------------------------------------------------------------

  /** `ConfigManager` after `load()`: the three configured roots and the account list. */
  class ConfigManager {
    var originalAppPath: Path
    var appsDir: Path
    var dataDir: Path
    var accounts: seq<Account>
    /** How many times `save()` has written the config file. */
    var saves: nat

    constructor (originalAppPath: Path, appsDir: Path, dataDir: Path, accounts: seq<Account>)
      ensures this.originalAppPath == originalAppPath && this.appsDir == appsDir
      ensures this.dataDir == dataDir && this.accounts == accounts && saves == 0
    {
      this.originalAppPath := originalAppPath;
      this.appsDir := appsDir;
      this.dataDir := dataDir;
      this.accounts := accounts;
      saves := 0;
    }

    /** `get_accounts()` */
    method GetAccounts() returns (r: seq<Account>)
      ensures r == accounts
    {
      r := accounts;
    }

    /** `add_account(name, note, proxy_url)` at time `now`: refused for a name already present,
        otherwise exactly one record is appended, never used yet, and the config saved. */
    method AddAccount(name: string, note: string, proxyUrl: string, now: int) returns (added: bool)
      modifies this
      ensures added <==> !HasName(old(accounts), name)
      ensures added ==> accounts == old(accounts) + [Account(name, note, proxyUrl, now, 0)] && saves == old(saves) + 1
      ensures !added ==> accounts == old(accounts) && saves == old(saves)
      ensures originalAppPath == old(originalAppPath) && appsDir == old(appsDir) && dataDir == old(dataDir)
    {
      if exists i :: 0 <= i < |accounts| && accounts[i].name == name {
        return false;
      }
      accounts := accounts + [Account(name, note, proxyUrl, now, 0)];
      saves := saves + 1;
      added := true;
    }

    /** `add_account` with the admissibility check in place of the exact-name test: it
        refuses every name that would share a clone, a data directory or a process
        identity with a registered one, and so keeps the registry separated. */
    method AddAccountChecked(name: string, note: string, proxyUrl: string, now: int) returns (added: bool)
      modifies this
      ensures added <==> Admissible(old(accounts), name)
      ensures added ==> accounts == old(accounts) + [Account(name, note, proxyUrl, now, 0)] && saves == old(saves) + 1
      ensures !added ==> accounts == old(accounts) && saves == old(saves)
      ensures Separated(old(accounts)) ==> Separated(accounts)
      ensures originalAppPath == old(originalAppPath) && appsDir == old(appsDir) && dataDir == old(dataDir)
    {
      if !WellFormedName(name) || exists i :: 0 <= i < |accounts| && !Distinguishable(accounts[i].name, name) {
        return false;
      }
      if Separated(accounts) {
        AdmissibleKeepsSeparated(accounts, Account(name, note, proxyUrl, now, 0));
      }
      accounts := accounts + [Account(name, note, proxyUrl, now, 0)];
      saves := saves + 1;
      added := true;
    }

    /** `delete_account(name)`: every record with the name goes, the rest stay in order. */
    method DeleteAccount(name: string)
      modifies this
      ensures accounts == Without(old(accounts), name) && saves == old(saves) + 1
      ensures originalAppPath == old(originalAppPath) && appsDir == old(appsDir) && dataDir == old(dataDir)
    {
      accounts := Without(accounts, name);
      saves := saves + 1;
    }

    /** `update_account(name, **kwargs)`: only the first record with the name changes. */
    method UpdateAccount(name: string, u: AccountUpdate) returns (found: bool)
      modifies this
      ensures found <==> HasName(old(accounts), name)
      ensures found ==> var i := FirstIndexOf(old(accounts), name).value;
        accounts == old(accounts)[i := Apply(old(accounts)[i], u)] && saves == old(saves) + 1
      ensures !found ==> accounts == old(accounts) && saves == old(saves)
      ensures originalAppPath == old(originalAppPath) && appsDir == old(appsDir) && dataDir == old(dataDir)
    {
      var i := 0;
      while i < |accounts|
        invariant 0 <= i <= |accounts| && accounts == old(accounts) && saves == old(saves)
        invariant forall j :: 0 <= j < i ==> accounts[j].name != name
      {
        if accounts[i].name == name {
          FindAccountFirst(accounts, name, i);
          accounts := accounts[i := Apply(accounts[i], u)];
          saves := saves + 1;
          return true;
        }
        i := i + 1;
      }
      found := false;
    }
  }
}

/**
 * Instance names and the paths derived from them: `sanitize_filename`,
 * `get_app_path`, `get_data_path`, and the ASCII identity filter shared by the
 * process shim (`tr -cd '[:alnum:]_-'`) and the Proxifier rule text.
 */
module Naming {
  import opened Paths

  /** ASCII letters and digits: `[:alnum:]` in the C locale. */
  predicate IsAsciiAlnum(c: char) {
    ('a' <= c <= 'z') || ('A' <= c <= 'Z') || ('0' <= c <= '9')
  }

  /**
   * Python's `\w` on `str`: ASCII word characters, the Latin-1 letters and numerals,
   * and the CJK unified ideographs. Letters of other scripts are not modelled.
   */
  predicate IsWordChar(c: char) {
    IsAsciiAlnum(c) || c == '_'
    || c == '\U{aa}' || c == '\U{b2}' || c == '\U{b3}' || c == '\U{b5}'
    || c == '\U{b9}' || c == '\U{ba}' || ('\U{bc}' <= c <= '\U{be}')
    || ('\U{c0}' <= c <= '\U{ff}' && c != '\U{d7}' && c != '\U{f7}')
    || ('\U{4e00}' <= c <= '\U{9fff}')
  }

  /** The class `[\w\-\.一-龥]` that `sanitize_filename` keeps. */
  predicate IsSafeChar(c: char) {
    IsWordChar(c) || c == '-' || c == '.' || ('\U{4e00}' <= c <= '\U{9fa5}')
  }

  /** Python's `str.isspace`, the set `str.strip()` removes. */
  predicate IsSpace(c: char) {
    ('\t' <= c <= '\r') || ('\U{1c}' <= c <= ' ') || c == '\U{85}' || c == '\U{a0}'
    || c == '\U{1680}' || ('\U{2000}' <= c <= '\U{200a}') || c == '\U{2028}' || c == '\U{2029}'
    || c == '\U{202f}' || c == '\U{205f}' || c == '\U{3000}'
  }

  /** `re.sub(r'[^\w\-\.一-龥]', '_', s)` */
  function ReplaceUnsafe(s: string): string {
    if s == [] then []
    else [if IsSafeChar(s[0]) then s[0] else '_'] + ReplaceUnsafe(s[1..])
  }

  /** Python's `s.lstrip()` */
  function StripLeft(s: string): string {
    if s != [] && IsSpace(s[0]) then StripLeft(s[1..]) else s
  }

  /** Python's `s.rstrip()` */
  function StripRight(s: string): string {
    if s != [] && IsSpace(s[|s| - 1]) then StripRight(s[..|s| - 1]) else s
  }

  /** Python's `s.strip()` */
  function Strip(s: string): string {
    StripRight(StripLeft(s))
  }

  /** `sanitize_filename(name)` */
  function Sanitize(name: string): string {
    Strip(ReplaceUnsafe(name))
  }

  /** `[A-Za-z0-9_-]`: what the shim's `tr -cd '[:alnum:]_-'` and the rule's `re.sub` keep. */
  predicate IsIdentityChar(c: char) {
    IsAsciiAlnum(c) || c == '_' || c == '-'
  }

  /** Deletes every character outside `[A-Za-z0-9_-]`. */
  function IdentityFilter(s: string): string {
    if s == [] then []
    else (if IsIdentityChar(s[0]) then [s[0]] else []) + IdentityFilter(s[1..])
  }

  /** The clone's file name, `Antigravity-<safe>.app`. */
  function AppName(name: string): string {
    "Antigravity-" + Sanitize(name) + ".app"
  }

  /** `get_app_path(name)` for `apps_dir` = `appsDir`. */
  function AppPath(appsDir: Path, name: string): Path {
    Join(appsDir, AppName(name))
  }

  /** `get_data_path(name)` for `data_dir` = `dataDir`. */
  function DataPath(dataDir: Path, name: string): Path {
    Join(dataDir, Sanitize(name))
  }

  // ---------------------------------------------------------------------------
  // Lemmas
  // ---------------------------------------------------------------------------

  /** Every character the substitution keeps is not whitespace, and neither is '_'. */
  lemma SafeIsNotSpace(c: char)
    requires IsSafeChar(c) || c == '_'
    ensures !IsSpace(c)
  {
  }

  lemma {:induction false} ReplaceUnsafeAt(s: string)
    ensures |ReplaceUnsafe(s)| == |s|
    ensures forall i :: 0 <= i < |s| ==>
      ReplaceUnsafe(s)[i] == if IsSafeChar(s[i]) then s[i] else '_'
  {
    if s != [] {
      ReplaceUnsafeAt(s[1..]);
      assert forall i :: 1 <= i < |s| ==> s[1..][i - 1] == s[i];
    }
  }

  /** A string none of whose ends is whitespace is its own strip. */
  lemma StripNoSpace(s: string)
    requires forall i :: 0 <= i < |s| ==> !IsSpace(s[i])
    ensures Strip(s) == s
  {
  }

  /**
   * `sanitize_filename` keeps the length of its input, replaces with '_' exactly the
   * characters outside the safe class, and leaves every other character alone:
   * the trailing `strip()` never removes anything.
   */
  lemma SanitizeAt(name: string)
    ensures |Sanitize(name)| == |name|
    ensures forall i :: 0 <= i < |name| ==>
      Sanitize(name)[i] == if IsSafeChar(name[i]) then name[i] else '_'
  {
    ReplaceUnsafeAt(name);
    var r := ReplaceUnsafe(name);
    forall i | 0 <= i < |r| ensures !IsSpace(r[i]) {
      SafeIsNotSpace(r[i]);
    }
    StripNoSpace(r);
  }

  /** A sanitised name consists of safe characters only. */
  lemma SanitizeSafe(name: string)
    ensures forall i :: 0 <= i < |Sanitize(name)| ==> IsSafeChar(Sanitize(name)[i])
  {
    SanitizeAt(name);
  }

  /** A name is its own sanitisation if and only if every character is safe. */
  lemma SanitizeFixed(name: string)
    ensures Sanitize(name) == name <==> forall i :: 0 <= i < |name| ==> IsSafeChar(name[i])
  {
    SanitizeAt(name);
    if Sanitize(name) == name {
      forall i | 0 <= i < |name| ensures IsSafeChar(name[i]) {
        assert Sanitize(name)[i] == name[i];
      }
    }
  }

  /** `sanitize_filename` is idempotent. */
  lemma SanitizeIdempotent(name: string)
    ensures Sanitize(Sanitize(name)) == Sanitize(name)
  {
    SanitizeSafe(name);
    SanitizeFixed(Sanitize(name));
  }

  /** A sanitised name never contains a path separator. */
  lemma SanitizeNoSlash(name: string)
    ensures '/' !in Sanitize(name)
  {
    SanitizeSafe(name);
  }

  /** The clone's name is always a plain directory entry ending in `.app`. */
  lemma AppNamePlain(name: string)
    ensures IsPlainComponent(AppName(name)) && EndsWith(AppName(name), ".app")
  {
    var s := Sanitize(name);
    var a := AppName(name);
    SanitizeNoSlash(name);
    assert a[0] == 'A';
    assert '/' !in a by {
      forall i | 0 <= i < |a| ensures a[i] != '/' {
        if 12 <= i < 12 + |s| {
          assert a[i] == s[i - 12];
        }
      }
    }
    assert a[|a| - 4..] == ".app";
  }

  /** `get_app_path(n)` is `apps_dir` joined with `Antigravity-<sanitize(n)>.app`, and
      lies directly under `apps_dir` however the name is spelled. */
  lemma AppPathShape(appsDir: Path, name: string)
    requires appsDir != "" && !EndsWithSlash(appsDir)
    ensures AppPath(appsDir, name) == appsDir + "/Antigravity-" + Sanitize(name) + ".app"
    ensures StartsWith(AppPath(appsDir, name), appsDir + "/") && EndsWith(AppPath(appsDir, name), ".app")
  {
    var a := AppName(name);
    AppNamePlain(name);
    assert !IsAbsolute(a);
    var p := appsDir + "/" + a;
    assert AppPath(appsDir, name) == p;
    assert p == appsDir + "/Antigravity-" + Sanitize(name) + ".app";
    assert p[..|appsDir + "/"|] == appsDir + "/";
    assert p[|p| - 4..] == a[|a| - 4..];
  }

  lemma EndsWithTrans(s: string, t: string, u: string)
    requires EndsWith(s, t) && EndsWith(t, u)
    ensures EndsWith(s, u)
  {
    assert s[|s| - |u|..] == s[|s| - |t|..][|t| - |u|..];
  }

  /** `get_data_path(n)` is `data_dir + "/" + sanitize(n)`. */
  lemma DataPathShape(dataDir: Path, name: string)
    requires dataDir != "" && !EndsWithSlash(dataDir)
    ensures DataPath(dataDir, name) == dataDir + "/" + Sanitize(name)
  {
    SanitizeNoSlash(name);
    assert !IsAbsolute(Sanitize(name)) by {
      if Sanitize(name) != "" { assert Sanitize(name)[0] in Sanitize(name); }
    }
  }

  /** Both paths depend on the name only through its sanitisation. */
  lemma PathsFollowSanitize(appsDir: Path, dataDir: Path, n1: string, n2: string)
    requires Sanitize(n1) == Sanitize(n2)
    ensures AppPath(appsDir, n1) == AppPath(appsDir, n2)
    ensures DataPath(dataDir, n1) == DataPath(dataDir, n2)
  {
  }

  lemma {:induction false} IdentityFilterAt(s: string)
    ensures forall i :: 0 <= i < |IdentityFilter(s)| ==> IsIdentityChar(IdentityFilter(s)[i])
    ensures |IdentityFilter(s)| <= |s|
  {
    if s != [] {
      IdentityFilterAt(s[1..]);
    }
  }

  /** The filter removes exactly the characters outside `[A-Za-z0-9_-]`: it is the
      identity on a string of identity characters, and idempotent. */
  lemma {:induction false} IdentityFilterFixed(s: string)
    ensures IdentityFilter(s) == s <==> forall i :: 0 <= i < |s| ==> IsIdentityChar(s[i])
  {
    IdentityFilterAt(s);
    if s != [] {
      IdentityFilterFixed(s[1..]);
      assert forall i :: 1 <= i < |s| ==> s[1..][i - 1] == s[i];
      if !IsIdentityChar(s[0]) {
        IdentityFilterAt(s[1..]);
        assert |IdentityFilter(s)| < |s|;
      }
    }
  }

  lemma IdentityFilterIdempotent(s: string)
    ensures IdentityFilter(IdentityFilter(s)) == IdentityFilter(s)
  {
    IdentityFilterAt(s);
    IdentityFilterFixed(IdentityFilter(s));
  }

  /** Filtering a concatenation filters each part. */
  lemma {:induction false} IdentityFilterConcat(a: string, b: string)
    ensures IdentityFilter(a + b) == IdentityFilter(a) + IdentityFilter(b)
  {
    if a != [] {
      assert (a + b)[1..] == a[1..] + b;
      IdentityFilterConcat(a[1..], b);
    } else {
      assert a + b == b;
    }
  }

  /** Different sanitised names give different clone names. */
  lemma AppNameInjective(n1: string, n2: string)
    requires Sanitize(n1) != Sanitize(n2)
    ensures AppName(n1) != AppName(n2)
  {
    var a1 := AppName(n1);
    var a2 := AppName(n2);
    assert a1[12..|a1| - 4] == Sanitize(n1);
    assert a2[12..|a2| - 4] == Sanitize(n2);
  }
}

/**
 * POSIX path strings as the manager's standard library treats them:
 * `os.path.join`, `os.path.normpath` and `os.path.abspath`, plus the
 * string-prefix and suffix tests the path-safety guards are built from.
 * Everything here is lexical: nothing consults a file system.
 */
module Paths {

  type Path = string

  /** A path whose first character is '/', as `os.getcwd()` returns. */
  type AbsolutePath = p: Path | |p| > 0 && p[0] == '/' witness "/"

  /** `s.startswith(prefix)` */
  predicate StartsWith(s: string, prefix: string) {
    |prefix| <= |s| && s[..|prefix|] == prefix
  }

  /** `s.endswith(suffix)` */
  predicate EndsWith(s: string, suffix: string) {
    |suffix| <= |s| && s[|s| - |suffix|..] == suffix
  }

  /** `os.path.isabs(p)` */
  predicate IsAbsolute(p: Path) {
    |p| > 0 && p[0] == '/'
  }

  /** One name inside a directory: what `os.path.join` appends verbatim. */
  predicate IsPlainComponent(c: string) {
    c != "" && c != "." && c != ".." && '/' !in c
  }

  /** `a.endswith('/')` */
  predicate EndsWithSlash(a: Path) {
    |a| > 0 && a[|a| - 1] == '/'
  }

  /** `os.path.join(a, b)`: an absolute `b` replaces `a`, otherwise one '/' separates them. */
  function Join(a: Path, b: Path): Path {
    if IsAbsolute(b) then b
    else if a == "" || EndsWithSlash(a) then a + b
    else a + "/" + b
  }

  /** `p` with exactly one trailing separator when it has none: where its entries' names begin. */
  function DirPrefix(p: Path): Path {
    if EndsWithSlash(p) then p else p + "/"
  }

  /** `k` is `p` itself or lies below it (the keys `shutil.rmtree(p)` removes). */
  predicate Under(k: Path, p: Path) {
    k == p || StartsWith(k, DirPrefix(p))
  }

  // ---------------------------------------------------------------------------
  // str.split('/'), '/'.join(...) and normpath
  // ---------------------------------------------------------------------------

  /** The index of the last '/' of `s`. */
  function LastSlash(s: string): (i: nat)
    requires '/' in s
    ensures i < |s| && s[i] == '/'
    ensures forall j :: i < j < |s| ==> s[j] != '/'
  {
    if s[|s| - 1] == '/' then |s| - 1
    else
      assert '/' in s[..|s| - 1] by {
        var k :| 0 <= k < |s| && s[k] == '/';
        assert s[..|s| - 1][k] == '/';
      }
      LastSlash(s[..|s| - 1])
  }

  /** `s.split('/')`: every piece between separators, empty ones included. */
  function Split(s: string): (cs: seq<string>)
    ensures |cs| > 0
    ensures forall k :: 0 <= k < |cs| ==> '/' !in cs[k]
    decreases |s|
  {
    if '/' !in s then [s]
    else
      var i := LastSlash(s);
      Split(s[..i]) + [s[i + 1..]]
  }

  /** `'/'.join(cs)` */
  function JoinComponents(cs: seq<string>): string {
    if |cs| == 0 then ""
    else if |cs| == 1 then cs[0]
    else JoinComponents(cs[..|cs| - 1]) + "/" + cs[|cs| - 1]
  }

  /** One iteration of normpath's loop over the components. */
  function Step(st: seq<string>, c: string, absolute: bool): seq<string> {
    if c == "" || c == "." then st
    else if c != ".." || (!absolute && st == []) || (st != [] && st[|st| - 1] == "..") then st + [c]
    else if st != [] then st[..|st| - 1]
    else st
  }

  /** normpath's loop over all components, left to right. */
  function Normalize(cs: seq<string>, absolute: bool): seq<string> {
    if cs == [] then [] else Step(Normalize(cs[..|cs| - 1], absolute), cs[|cs| - 1], absolute)
  }

  /** POSIX keeps exactly two leading slashes, and collapses one or three or more to one. */
  function LeadingSlashes(p: Path): string {
    if StartsWith(p, "//") && !StartsWith(p, "///") then "//"
    else if StartsWith(p, "/") then "/"
    else ""
  }

  /** `os.path.normpath(p)` */
  function NormPath(p: Path): Path {
    if p == "" then "."
    else
      var lead := LeadingSlashes(p);
      var r := lead + JoinComponents(Normalize(Split(p), lead != ""));
      if r == "" then "." else r
  }

  /** `os.path.abspath(p)` with `cwd` standing for `os.getcwd()`. */
  function AbsPath(cwd: AbsolutePath, p: Path): Path {
    NormPath(Join(cwd, p))
  }

  // ---------------------------------------------------------------------------
  // Lemmas
  // ---------------------------------------------------------------------------

  /** Joining a relative name places it after `a` and one separator. */
  lemma JoinRelative(a: Path, b: Path)
    requires !IsAbsolute(b) && a != "" && !EndsWithSlash(a)
    ensures Join(a, b) == a + "/" + b
    ensures StartsWith(Join(a, b), a + "/") && EndsWith(Join(a, b), b)
  {
    var r := a + "/" + b;
    assert r[..|a + "/"|] == a + "/";
    assert r[|r| - |b|..] == b;
  }

  /** `os.path.join` is associative when the last part is relative. */
  lemma JoinAssociative(x: Path, a: Path, c: Path)
    requires !IsAbsolute(c)
    ensures Join(x, Join(a, c)) == Join(Join(x, a), c)
  {
    if IsAbsolute(a) {
      assert IsAbsolute(Join(a, c)) by { assert Join(a, c)[0] == a[0]; }
    } else if a == "" {
      JoinEmptyMiddle(x, c);
    } else if EndsWithSlash(a) {
      JoinSlashMiddle(x, a, c);
    } else {
      JoinPlainMiddle(x, a, c);
    }
  }

  lemma JoinEmptyMiddle(x: Path, c: Path)
    requires !IsAbsolute(c)
    ensures Join(x, Join("", c)) == Join(Join(x, ""), c)
  {
    assert Join("", c) == c;
    if x != "" && !EndsWithSlash(x) {
      var xa := x + "/";
      assert Join(x, "") == xa;
      assert EndsWithSlash(xa);
      assert Join(xa, c) == xa + c;
    }
  }

  lemma JoinSlashMiddle(x: Path, a: Path, c: Path)
    requires !IsAbsolute(c) && !IsAbsolute(a) && EndsWithSlash(a)
    ensures Join(x, Join(a, c)) == Join(Join(x, a), c)
  {
    var ac := a + c;
    assert Join(a, c) == ac;
    assert !IsAbsolute(ac) by { assert ac[0] == a[0]; }
    var xa := Join(x, a);
    assert EndsWithSlash(xa) by { assert xa[|xa| - 1] == a[|a| - 1]; }
    assert Join(xa, c) == xa + c;
    if x == "" || EndsWithSlash(x) {
      assert x + ac == (x + a) + c;
    } else {
      assert x + "/" + ac == (x + "/" + a) + c;
    }
  }

  lemma JoinPlainMiddle(x: Path, a: Path, c: Path)
    requires !IsAbsolute(c) && !IsAbsolute(a) && a != "" && !EndsWithSlash(a)
    ensures Join(x, Join(a, c)) == Join(Join(x, a), c)
  {
    var ac := a + "/" + c;
    assert Join(a, c) == ac;
    assert !IsAbsolute(ac) by { assert ac[0] == a[0]; }
    if x == "" || EndsWithSlash(x) {
      JoinPlainMiddleAfter(x, "", a, c);
    } else {
      JoinPlainMiddleAfter(x, "/", a, c);
    }
  }

  /** `JoinPlainMiddle` once the separator `sep` that `join(x, _)` inserts is fixed. */
  lemma JoinPlainMiddleAfter(x: Path, sep: string, a: Path, c: Path)
    requires !IsAbsolute(c) && !IsAbsolute(a) && a != "" && !EndsWithSlash(a)
    requires sep == (if x == "" || EndsWithSlash(x) then "" else "/")
    ensures Join(x, a + "/" + c) == Join(x + sep + a, c)
  {
    ConcatKeepsEnds(a, "/" + c, "");
    ConcatKeepsEnds(a, "", x + sep);
    assert a + "/" + c == a + ("/" + c);
    assert x + sep + (a + "/" + c) == (x + sep + a) + "/" + c;
  }

  /** Gluing text after a non-empty `a` keeps its first character, and gluing text before
      it keeps its last: absolute-ness and a trailing '/' follow `a`. */
  lemma ConcatKeepsEnds(a: Path, after: string, before: string)
    requires a != ""
    ensures IsAbsolute(a + after) == IsAbsolute(a)
    ensures EndsWithSlash(before + a) == EndsWithSlash(a) && before + a != ""
  {
    assert (a + after)[0] == a[0];
    assert (before + a)[|before + a| - 1] == a[|a| - 1];
  }

  lemma SplitSnoc(p: string, c: string)
    requires '/' !in c
    ensures Split(p + "/" + c) == Split(p) + [c]
  {
    var s := p + "/" + c;
    assert s[|p|] == '/';
    var i := LastSlash(s);
    assert forall j :: |p| < j < |s| ==> s[j] == c[j - |p| - 1];
    assert i == |p|;
    assert s[..i] == p;
    assert s[i + 1..] == c;
  }

  lemma NormalizeSnocPlain(cs: seq<string>, c: string, absolute: bool)
    requires IsPlainComponent(c)
    ensures Normalize(cs + [c], absolute) == Normalize(cs, absolute) + [c]
  {
    assert (cs + [c])[..|cs|] == cs;
  }

  lemma NormalizeSnocEmpty(cs: seq<string>, absolute: bool)
    ensures Normalize(cs + [""], absolute) == Normalize(cs, absolute)
  {
    assert (cs + [""])[..|cs|] == cs;
  }

  lemma NormalizeSnoc(cs: seq<string>, c: string, absolute: bool)
    ensures Normalize(cs + [c], absolute) == Step(Normalize(cs, absolute), c, absolute)
  {
    assert (cs + [c])[..|cs|] == cs;
  }

  /** The components normpath keeps are names: never empty, never ".", never containing '/';
      and on an absolute path never "..". */
  lemma {:induction false} NormalizeComponents(cs: seq<string>, absolute: bool)
    requires forall k :: 0 <= k < |cs| ==> '/' !in cs[k]
    ensures forall k :: 0 <= k < |Normalize(cs, absolute)| ==>
      var n := Normalize(cs, absolute)[k];
      n != "" && n != "." && '/' !in n && (absolute ==> n != "..")
  {
    if cs != [] {
      NormalizeComponents(cs[..|cs| - 1], absolute);
    }
  }

  lemma JoinComponentsSnoc(cs: seq<string>, c: string)
    ensures JoinComponents(cs + [c]) == if cs == [] then c else JoinComponents(cs) + "/" + c
  {
    if cs != [] {
      assert (cs + [c])[..|cs|] == cs;
    }
  }

  /** '/'.join of names ends in the last name, so not in '/'. */
  lemma JoinComponentsLast(cs: seq<string>)
    requires cs != [] && cs[|cs| - 1] != "" && '/' !in cs[|cs| - 1]
    ensures |JoinComponents(cs)| > 0 && JoinComponents(cs)[|JoinComponents(cs)| - 1] != '/'
  {
    var l := cs[|cs| - 1];
    assert l[|l| - 1] in l;
    if |cs| > 1 {
      var j := JoinComponents(cs[..|cs| - 1]) + "/" + l;
      assert j[|j| - 1] == l[|l| - 1];
    }
  }

  /** Appending a relative non-empty name leaves the leading-slash class of an absolute path alone. */
  lemma LeadingSlashesJoin(q: Path, c: string)
    requires IsAbsolute(q) && c != "" && c[0] != '/'
    ensures LeadingSlashes(Join(q, c)) == LeadingSlashes(q)
  {
    var j := Join(q, c);
    assert !IsAbsolute(c);
    if EndsWithSlash(q) {
      assert j == q + c;
    } else {
      assert j == q + "/" + c;
    }
    assert j[..|q|] == q;
    assert j[|q|] == c[0] || j[|q|] == '/';
    if |q| >= 3 {
      assert j[..3] == q[..3];
      assert j[..2] == q[..2];
    } else if |q| == 2 {
      assert j[..2] == q;
      if q == "//" {
        assert j[2] == c[0];
      } else {
        assert q[1] != '/';
      }
    } else {
      assert q == "/";
      assert j[1] == c[0];
    }
  }

  /** The split of `Join(q, c)` normalises to that of `q` followed by `c`'s step. */
  lemma NormalizeSplitJoin(q: Path, c: string, absolute: bool)
    requires q != "" && c != "" && '/' !in c
    ensures Normalize(Split(Join(q, c)), absolute) == Step(Normalize(Split(q), absolute), c, absolute)
  {
    assert !IsAbsolute(c) by { assert c[0] in c; }
    if EndsWithSlash(q) {
      var q' := q[..|q| - 1];
      assert q == q' + "/" + "";
      SplitSnoc(q', "");
      assert Join(q, c) == q' + "/" + c;
      SplitSnoc(q', c);
      NormalizeSnocEmpty(Split(q'), absolute);
      NormalizeSnoc(Split(q'), c, absolute);
    } else {
      assert Join(q, c) == q + "/" + c;
      SplitSnoc(q, c);
      NormalizeSnoc(Split(q), c, absolute);
    }
  }

  /** The normal form of an absolute path is its leading slashes followed by its kept names. */
  lemma NormPathAbsolute(q: Path)
    requires IsAbsolute(q)
    ensures LeadingSlashes(q) == "/" || LeadingSlashes(q) == "//"
    ensures NormPath(q) == LeadingSlashes(q) + JoinComponents(Normalize(Split(q), true))
  {
    assert StartsWith(q, "/") by { assert q[..1] == "/"; }
  }

  /** On an absolute path, normpath then join of a plain name is join then normpath. */
  lemma NormPathJoinPlain(q: Path, c: string)
    requires IsAbsolute(q) && IsPlainComponent(c)
    ensures NormPath(Join(q, c)) == Join(NormPath(q), c)
  {
    assert c[0] != '/' by { assert c[0] in c; }
    JoinKeepsAbsolute(q, c);
    NormPathAbsolute(q);
    NormPathAbsolute(Join(q, c));
    LeadingSlashesJoin(q, c);
    NormalizeSplitJoin(q, c, true);
    var n := Normalize(Split(q), true);
    NormalizeComponents(Split(q), true);
    assert n != [] ==> n[|n| - 1] != "" && '/' !in n[|n| - 1];
    JoinComponentsStep(LeadingSlashes(q), n, c);
  }

  lemma JoinComponentsStep(lead: string, n: seq<string>, c: string)
    requires lead == "/" || lead == "//"
    requires n != [] ==> n[|n| - 1] != "" && '/' !in n[|n| - 1]
    requires IsPlainComponent(c)
    ensures lead + JoinComponents(Step(n, c, true)) == Join(lead + JoinComponents(n), c)
  {
    assert Step(n, c, true) == n + [c];
    assert !IsAbsolute(c) by { assert c[0] in c; }
    JoinComponentsSnoc(n, c);
    if n == [] {
      JoinComponentsStepEmpty(lead, c);
    } else {
      JoinComponentsStepMore(lead, n, c);
    }
  }

  lemma JoinComponentsStepEmpty(lead: string, c: string)
    requires lead == "/" || lead == "//"
    requires !IsAbsolute(c)
    ensures lead + c == Join(lead + JoinComponents([]), c)
  {
    assert lead + JoinComponents([]) == lead;
    assert EndsWithSlash(lead);
  }

  lemma JoinComponentsStepMore(lead: string, n: seq<string>, c: string)
    requires n != [] && n[|n| - 1] != "" && '/' !in n[|n| - 1]
    requires !IsAbsolute(c)
    ensures lead + (JoinComponents(n) + "/" + c) == Join(lead + JoinComponents(n), c)
  {
    var jn := JoinComponents(n);
    JoinComponentsLast(n);
    var np := lead + jn;
    assert np[|np| - 1] == jn[|jn| - 1];
    assert Join(np, c) == np + "/" + c;
    ConcatAssoc(lead, jn, "/", c);
  }

  /** Regrouping a concatenation, stated apart so the proofs that need it see one small fact
      instead of the sequence axioms at full width. */
  lemma ConcatAssoc(a: string, b: string, c: string, d: string)
    ensures a + (b + c + d) == (a + b) + c + d
  {
  }

  /** A plain name joined to a path stays a child of that path after `abspath`:
      abspath(join(d, c)) == join(abspath(d), c). */
  lemma AbsPathJoinPlain(cwd: AbsolutePath, d: Path, c: string)
    requires IsPlainComponent(c)
    ensures AbsPath(cwd, Join(d, c)) == Join(AbsPath(cwd, d), c)
  {
    assert !IsAbsolute(c) by { assert c[0] in c; }
    JoinAssociative(cwd, d, c);
    JoinKeepsAbsolute(cwd, d);
    NormPathJoinPlain(Join(cwd, d), c);
  }

  lemma JoinKeepsAbsolute(x: Path, d: Path)
    requires IsAbsolute(x)
    ensures IsAbsolute(Join(x, d))
  {
    if !IsAbsolute(d) {
      assert Join(x, d)[0] == x[0];
    }
  }

  lemma LeadingSlashesTrailing(q: Path)
    requires IsAbsolute(q) && !EndsWithSlash(q)
    ensures LeadingSlashes(q + "/") == LeadingSlashes(q)
  {
    var qs := q + "/";
    assert |q| >= 2;
    assert qs[..2] == q[..2];
    if |q| >= 3 {
      assert qs[..3] == q[..3];
    } else {
      assert q[1] != '/';
    }
  }

  /** Two absolute paths with the same leading slashes and the same kept names normalise alike. */
  lemma NormPathSame(q1: Path, q2: Path)
    requires IsAbsolute(q1) && IsAbsolute(q2)
    requires LeadingSlashes(q1) == LeadingSlashes(q2)
    requires Normalize(Split(q1), true) == Normalize(Split(q2), true)
    ensures NormPath(q1) == NormPath(q2)
  {
    NormPathAbsolute(q1);
    NormPathAbsolute(q2);
  }

  /** On an absolute path, joining "." or "" changes nothing after normpath. */
  lemma NormPathJoinDot(q: Path, c: string)
    requires IsAbsolute(q) && (c == "." || c == "")
    ensures NormPath(Join(q, c)) == NormPath(q)
  {
    JoinKeepsAbsolute(q, c);
    if c == "." {
      LeadingSlashesJoin(q, c);
      NormalizeSplitJoin(q, c, true);
      assert Step(Normalize(Split(q), true), c, true) == Normalize(Split(q), true);
      NormPathSame(Join(q, c), q);
    } else if !EndsWithSlash(q) {
      NormPathJoinEmpty(q);
    } else {
      assert Join(q, c) == q + "" == q;
    }
  }

  lemma NormPathJoinEmpty(q: Path)
    requires IsAbsolute(q) && !EndsWithSlash(q)
    ensures NormPath(Join(q, "")) == NormPath(q)
  {
    var qs := q + "/";
    assert Join(q, "") == qs;
    assert IsAbsolute(qs);
    LeadingSlashesTrailing(q);
    assert qs == q + "/" + "";
    SplitSnoc(q, "");
    NormalizeSnocEmpty(Split(q), true);
    NormPathSame(qs, q);
  }

  /** Joining "." or "" does not move a path under `abspath`. */
  lemma AbsPathJoinDot(cwd: AbsolutePath, d: Path, c: string)
    requires c == "." || c == ""
    ensures AbsPath(cwd, Join(d, c)) == AbsPath(cwd, d)
  {
    JoinAssociative(cwd, d, c);
    JoinKeepsAbsolute(cwd, d);
    NormPathJoinDot(Join(cwd, d), c);
  }

  /** On an absolute path that is not a root, normpath of `q/..` is the parent of normpath of `q`. */
  lemma NormPathJoinDotDot(q: Path) returns (last: string)
    requires IsAbsolute(q) && NormPath(q) != "/" && NormPath(q) != "//"
    ensures IsPlainComponent(last) && NormPath(q) == Join(NormPath(Join(q, "..")), last)
  {
    var q' := Join(q, "..");
    JoinKeepsAbsolute(q, "..");
    NormPathAbsolute(q);
    NormPathAbsolute(q');
    LeadingSlashesJoin(q, "..");
    NormalizeSplitJoin(q, "..", true);
    NormalizeComponents(Split(q), true);
    var lead := LeadingSlashes(q);
    var n := Normalize(Split(q), true);
    assert n != [];
    last := n[|n| - 1];
    var parent := StepParent(n);
    assert Normalize(Split(q'), true) == parent;
    JoinComponentsStep(lead, parent, last);
  }

  /** Dropping the last of normpath's kept names: `..` undoes that name's step. */
  lemma StepParent(n: seq<string>) returns (parent: seq<string>)
    requires n != []
    requires forall k :: 0 <= k < |n| ==> n[k] != "" && n[k] != "." && '/' !in n[k] && n[k] != ".."
    ensures parent == Step(n, "..", true) && IsPlainComponent(n[|n| - 1])
    ensures Step(parent, n[|n| - 1], true) == n
    ensures parent != [] ==> parent[|parent| - 1] != "" && '/' !in parent[|parent| - 1]
  {
    parent := n[..|n| - 1];
    assert n == parent + [n[|n| - 1]];
    if parent != [] {
      assert parent[|parent| - 1] == n[|n| - 2];
    }
  }

  /** Joining ".." to a path that is not a root names its parent under `abspath`:
      the original is that parent joined with the name that was dropped. */
  lemma AbsPathJoinDotDot(cwd: AbsolutePath, d: Path) returns (last: string)
    requires AbsPath(cwd, d) != "/" && AbsPath(cwd, d) != "//"
    ensures IsPlainComponent(last) && AbsPath(cwd, d) == Join(AbsPath(cwd, Join(d, "..")), last)
  {
    JoinAssociative(cwd, d, "..");
    JoinKeepsAbsolute(cwd, d);
    last := NormPathJoinDotDot(Join(cwd, d));
  }

  /** Joining a relative name to a non-empty directory places it right after the directory's prefix. */
  lemma JoinDirPrefix(d: Path, c: string)
    requires d != "" && !IsAbsolute(c)
    ensures Join(d, c) == DirPrefix(d) + c
  {
  }

  lemma StartsWithConcat(s: string, p: string, c: string)
    requires StartsWith(s, p + c)
    ensures StartsWith(s, p)
  {
    assert s[..|p|] == s[..|p + c|][..|p|];
  }

  /** What lies below a child of `d` lies below `d`. */
  lemma UnderJoin(k: Path, d: Path, c: string)
    requires d != "" && IsPlainComponent(c) && Under(k, Join(d, c))
    ensures Under(k, d) && k != d
  {
    assert !IsAbsolute(c) by { assert c[0] in c; }
    JoinDirPrefix(d, c);
    var j := DirPrefix(d) + c;
    if k == j {
      assert k[..|DirPrefix(d)|] == DirPrefix(d);
    } else {
      assert j[|j| - 1] == c[|c| - 1] && c[|c| - 1] in c;
      assert DirPrefix(j) == DirPrefix(d) + (c + "/");
      StartsWithConcat(k, DirPrefix(d), c + "/");
    }
    assert |k| > |d|;
  }

  /** A child of `d` lies below `d`. */
  lemma JoinUnder(d: Path, c: string)
    requires d != "" && IsPlainComponent(c)
    ensures Under(Join(d, c), d) && Join(d, c) != d
  {
    UnderJoin(Join(d, c), d, c);
  }

  /** `abspath` always yields an absolute path. */
  lemma AbsPathIsAbsolute(cwd: AbsolutePath, p: Path)
    ensures IsAbsolute(AbsPath(cwd, p))
  {
    JoinKeepsAbsolute(cwd, p);
    NormPathAbsolute(Join(cwd, p));
  }

  /** Resolving a path one plain name deeper than `join(d, x)` gives a child of the
      resolved `join(d, x)`. */
  lemma AbsPathJoinStep(cwd: AbsolutePath, d: Path, x: Path, c: string)
    requires IsPlainComponent(c)
    ensures AbsPath(cwd, Join(d, Join(x, c))) == Join(AbsPath(cwd, Join(d, x)), c)
    ensures Under(AbsPath(cwd, Join(d, Join(x, c))), AbsPath(cwd, Join(d, x)))
  {
    assert !IsAbsolute(c) by { assert c[0] in c; }
    JoinAssociative(d, x, c);
    AbsPathJoinPlain(cwd, Join(d, x), c);
    AbsPathIsAbsolute(cwd, Join(d, x));
    JoinUnder(AbsPath(cwd, Join(d, x)), c);
  }

  lemma StartsWithTrans(a: string, b: string, c: string)
    requires StartsWith(a, b) && StartsWith(b, c)
    ensures StartsWith(a, c)
  {
    assert a[..|c|] == a[..|b|][..|c|];
  }

  /** Lying below is transitive. */
  lemma UnderTrans(a: Path, b: Path, c: Path)
    requires Under(a, b) && Under(b, c)
    ensures Under(a, c)
  {
    if a != b && b != c {
      assert StartsWith(DirPrefix(b), b);
      StartsWithTrans(a, DirPrefix(b), b);
      StartsWithTrans(a, b, DirPrefix(c));
    }
  }

  /** Two prefixes of the same string are prefixes of one another. */
  lemma StartsWithComparable(s: string, p: string, q: string)
    requires StartsWith(s, p) && StartsWith(s, q) && |p| <= |q|
    ensures StartsWith(q, p)
  {
    assert q[..|p|] == s[..|q|][..|p|];
  }

  /** Two directories that hold a common entry lie one below the other. */
  lemma UnderComparable(k: Path, p: Path, q: Path)
    requires Under(k, p) && Under(k, q)
    ensures Under(p, q) || Under(q, p)
  {
    if k != p && k != q {
      var pp := DirPrefix(p);
      var qq := DirPrefix(q);
      if |pp| <= |qq| {
        StartsWithComparable(k, pp, qq);
        if EndsWithSlash(q) || |pp| <= |q| {
          assert StartsWith(q, pp) by {
            if !EndsWithSlash(q) { assert q == qq[..|q|]; assert q[..|pp|] == qq[..|pp|]; }
          }
        } else {
          assert pp == qq;
          assert p == q || p == q + "/";
          if p != q { assert StartsWith(p, qq); }
        }
      } else {
        StartsWithComparable(k, qq, pp);
        assert StartsWith(p, qq) by {
          if !EndsWithSlash(p) { assert p == pp[..|p|]; assert p[..|qq|] == pp[..|qq|]; }
        }
      }
    }
  }

  /** Two different children of one directory: neither lies below the other. */
  lemma SiblingsApart(d: Path, c1: string, c2: string)
    requires d != "" && IsPlainComponent(c1) && IsPlainComponent(c2) && c1 != c2
    ensures !Under(Join(d, c1), Join(d, c2))
  {
    assert !IsAbsolute(c1) by { assert c1[0] in c1; }
    assert !IsAbsolute(c2) by { assert c2[0] in c2; }
    JoinDirPrefix(d, c1);
    JoinDirPrefix(d, c2);
    var pre := DirPrefix(d);
    var j1 := pre + c1;
    var j2 := pre + c2;
    assert j1 != j2 by { assert j1[|pre|..] == c1 && j2[|pre|..] == c2; }
    assert !EndsWithSlash(j2) by { assert j2[|j2| - 1] == c2[|c2| - 1] && c2[|c2| - 1] in c2; }
    assert DirPrefix(Join(d, c2)) == j2 + "/";
    NoSlashNoExtension(pre, c1, c2);
  }

  /** A name without '/' does not continue another name past a separator. */
  lemma NoSlashNoExtension(pre: string, c1: string, c2: string)
    requires '/' !in c1
    ensures !StartsWith(pre + c1, pre + c2 + "/")
  {
    var s := pre + c1;
    var t := pre + c2 + "/";
    if |t| <= |s| {
      assert s[|t| - 1] == c1[|c2|];
      assert t[|t| - 1] == '/';
    }
  }

  /** A joined relative name is a suffix of the result. */
  lemma JoinEndsWith(a: Path, b: Path)
    requires !IsAbsolute(b)
    ensures EndsWith(Join(a, b), b)
  {
    var j := Join(a, b);
    assert j[|j| - |b|..] == b;
  }

  /** What lies below `p` has `p` as a string prefix: the form the guards test. */
  lemma UnderStartsWith(k: Path, p: Path)
    requires Under(k, p)
    ensures StartsWith(k, p)
  {
    if k != p {
      assert StartsWith(DirPrefix(p), p);
      StartsWithTrans(k, DirPrefix(p), p);
    }
  }

  /** An entry strictly below `p` is longer than `p`, so `p` does not lie below it. */
  lemma UnderLonger(k: Path, p: Path)
    requires Under(k, p) && k != p
    ensures |k| > |p| && !Under(p, k)
  {
  }
}

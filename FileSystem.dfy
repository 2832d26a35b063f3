/**
 * The part of the file system the manager touches, as a map from resolved
 * paths to nodes, and the OS operations it calls as functions on that map:
 * `shutil.rmtree`, `shutil.copytree` (with `copy2`, so modification times and
 * modes are kept), `mv`, `os.makedirs(exist_ok=True)` and `os.listdir`.
 */
module FileSystem {
  import opened Wrappers
  import opened Paths

  /** A JSON value as `json.load` returns it; values other than strings and booleans are kept opaque. */
  datatype Json = JString(str: string) | JBool(flag: bool) | JOther(text: string)

  /** What `json.load` makes of a text file. */
  datatype Parsed = Unparsable | NotAnObject | Object(fields: map<string, Json>)

  /** File contents: a Mach-O image (which build, whether its code signature is intact),
      a shim launcher script for the binary named `wraps`, or a JSON text. */
  datatype Data =
    | Binary(build: nat, signed: bool)
    | Launcher(wraps: string)
    | Text(json: Parsed)

  /** A directory, or a regular file with its modification time and its execute bit. */
  datatype Node = Dir | File(data: Data, mtime: int, executable: bool)

  type FS = map<Path, Node>

  /** `os.path.isdir(p)` */
  predicate IsDir(fs: FS, p: Path) {
    p in fs && fs[p].Dir?
  }

  /** `os.path.isfile(p)`, and `test -f` */
  predicate IsFile(fs: FS, p: Path) {
    p in fs && fs[p].File?
  }

  /** `k` lies strictly below `p`, with a non-empty remainder after `p`'s prefix. */
  predicate Below(k: Path, p: Path) {
    StartsWith(k, DirPrefix(p)) && |k| > |DirPrefix(p)|
  }

  /** No directory lies strictly between a directory and one of its entries. */
  lemma NothingBetweenChild(p: Path, c: string, e: Path)
    requires p != "" && IsPlainComponent(c) && Below(e, p) && Under(Join(p, c), e)
    ensures e == Join(p, c)
  {
    assert !IsAbsolute(c) by { assert c[0] in c; }
    JoinDirPrefix(p, c);
    var pp := DirPrefix(p);
    var a := pp + c;
    if e != a {
      SlashAfterPrefix(pp, c, e);
    }
  }

  /** A path strictly longer than `pp` that, with its separator, is a prefix of `pp + c`
      puts a '/' into `c`. */
  lemma SlashAfterPrefix(pp: Path, c: string, e: Path)
    requires StartsWith(e, pp) && |e| > |pp| && StartsWith(pp + c, DirPrefix(e))
    ensures '/' in c
  {
    var a := pp + c;
    if EndsWithSlash(e) {
      assert a[|e| - 1] == e[|e| - 1];
      assert c[|e| - 1 - |pp|] == a[|e| - 1];
    } else {
      assert a[|e|] == DirPrefix(e)[|e|];
      assert c[|e| - |pp|] == a[|e|];
    }
  }

  /** `shutil.rmtree(p)`: `p` and everything below it disappear, nothing else changes. */
  function RemoveTree(fs: FS, p: Path): (r: FS)
    ensures forall k :: k in r <==> k in fs && !Under(k, p)
    ensures forall k :: k in r ==> r[k] == fs[k]
  {
    map k | k in fs && !Under(k, p) :: fs[k]
  }

  /** What `shutil.rmtree(p)` leaves when it has removed everything below `p` and then
      fails to remove `p` itself. */
  function EmptyTree(fs: FS, p: Path): (r: FS)
    ensures forall k :: k in r <==> k in fs && (k == p || !Under(k, p))
    ensures forall k :: k in r ==> r[k] == fs[k]
  {
    map k | k in fs && (k == p || !Under(k, p)) :: fs[k]
  }

  /** `k` is the root `p` of a tree or one of its entries. */
  predicate InTree(k: Path, p: Path) {
    k == p || Below(k, p)
  }

  /** Where the entry `k` of the tree at `src` lands when that tree is re-rooted at `dst`. */
  function Rebase(k: Path, src: Path, dst: Path): Path
    requires InTree(k, src)
  {
    if k == src then dst else DirPrefix(dst) + k[|DirPrefix(src)|..]
  }

  lemma RebaseInjective(k1: Path, k2: Path, src: Path, dst: Path)
    requires InTree(k1, src) && InTree(k2, src)
    requires Rebase(k1, src, dst) == Rebase(k2, src, dst)
    ensures k1 == k2
  {
    var n := |DirPrefix(src)|;
    var m := |DirPrefix(dst)|;
    assert |DirPrefix(dst)| >= |dst|;
    if k1 != src && k2 != src {
      assert k1[n..] == Rebase(k1, src, dst)[m..];
      assert k2[n..] == Rebase(k2, src, dst)[m..];
      assert k1 == k1[..n] + k1[n..];
      assert k2 == k2[..n] + k2[n..];
    }
  }

  lemma RebaseInjectiveAll(src: Path, dst: Path)
    ensures forall k1, k2 ::
      (InTree(k1, src) && InTree(k2, src) && Rebase(k1, src, dst) == Rebase(k2, src, dst)) ==> k1 == k2
  {
    forall k1, k2 | InTree(k1, src) && InTree(k2, src) && Rebase(k1, src, dst) == Rebase(k2, src, dst)
      ensures k1 == k2
    {
      RebaseInjective(k1, k2, src, dst);
    }
  }

  /** A re-rooted entry lies at or below the new root. */
  lemma RebaseUnder(k: Path, src: Path, dst: Path)
    requires InTree(k, src)
    ensures Under(Rebase(k, src, dst), dst)
  {
    if k != src {
      var r := Rebase(k, src, dst);
      assert r[..|DirPrefix(dst)|] == DirPrefix(dst);
    }
  }

  /** The tree at `src` as a set of entries re-rooted at `dst`. */
  function Graft(fs: FS, src: Path, dst: Path): FS {
    RebaseInjectiveAll(src, dst);
    map k | k in fs && InTree(k, src) :: Rebase(k, src, dst) := fs[k]
  }

  /** Every entry of the tree at `src` reappears, unchanged, at its re-rooted place, and
      nothing else is grafted. */
  lemma GraftSpec(fs: FS, src: Path, dst: Path)
    ensures forall k :: k in Graft(fs, src, dst) ==> Under(k, dst)
    ensures forall k :: k in fs && InTree(k, src) ==>
      Rebase(k, src, dst) in Graft(fs, src, dst) && Graft(fs, src, dst)[Rebase(k, src, dst)] == fs[k]
    ensures forall k :: k in Graft(fs, src, dst) ==>
      exists s :: s in fs && InTree(s, src) && k == Rebase(s, src, dst) && Graft(fs, src, dst)[k] == fs[s]
  {
    RebaseInjectiveAll(src, dst);
    forall k | k in fs && InTree(k, src) ensures Under(Rebase(k, src, dst), dst) {
      RebaseUnder(k, src, dst);
    }
  }

  /** `p` and each of its ancestors below the root: the directories `os.makedirs(p)` may create. */
  function Ancestry(p: Path): set<Path> {
    set i | 0 < i <= |p| && (i == |p| || p[i] == '/') :: p[..i]
  }

  /** `os.makedirs(p, exist_ok=True)`: fails, creating nothing, when a file stands at `p` or
      at one of its ancestors; otherwise every missing one becomes a directory. */
  function MakeDirs(fs: FS, p: Path): Result<FS> {
    if exists a :: a in Ancestry(p) && IsFile(fs, a) then Err(IOFailure)
    else Ok(fs + map a | a in Ancestry(p) :: Dir)
  }

  /** `copytree` lists `src` before it creates `dst`, and lists each subdirectory only when
      it comes to copy it: the copy runs into its own output exactly when a directory
      strictly inside `src` already holds `dst`. */
  predicate Relisted(fs: FS, src: Path, dst: Path) {
    exists e :: e in fs && IsDir(fs, e) && Below(e, src) && Under(dst, e)
  }

  /** `shutil.copytree(src, dst, symlinks=True)`: refused when `src` is missing or not a
      directory or when `dst` exists; a copy that runs into its own output fails; otherwise
      `dst` and its missing ancestors are created and the tree, as it was listed before,
      is copied. A `dst` inside `src` below no existing subdirectory is copied like any
      other. */
  function CopyTree(fs: FS, src: Path, dst: Path): Result<FS> {
    if src !in fs then Err(NotFound)
    else if !IsDir(fs, src) || dst in fs || Relisted(fs, src, dst) then Err(IOFailure)
    else match MakeDirs(fs, dst)
      case Err(e) => Err(e)
      case Ok(made) => Ok(made + Graft(fs, src, dst))
  }

  /** `mv src dst` onto a name that does not exist: the entry at `src` is renamed. */
  function Rename(fs: FS, src: Path, dst: Path): FS
    requires src in fs
  {
    (fs - {src})[dst := fs[src]]
  }

  /** The names `os.listdir(d)` returns. */
  function Children(fs: FS, d: Path): set<string> {
    set k | k in fs && Below(k, d) && '/' !in k[|DirPrefix(d)|..] :: k[|DirPrefix(d)|..]
  }

  /** `os.listdir(d)`: every name exactly once, in whatever order the OS chooses. */
  method ListDir(fs: FS, d: Path) returns (names: seq<string>)
    ensures forall c :: c in names <==> c in Children(fs, d)
    ensures forall i, j :: 0 <= i < j < |names| ==> names[i] != names[j]
  {
    names := Enumerate(Children(fs, d));
  }

  /** Lists a finite set once over, one element at a time in an arbitrary order. */
  method Enumerate(all: set<string>) returns (names: seq<string>)
    ensures forall c :: c in names <==> c in all
    ensures forall i, j :: 0 <= i < j < |names| ==> names[i] != names[j]
  {
    var rest := all;
    names := [];
    while rest != {}
      invariant forall c :: c in all <==> c in names || c in rest
      invariant forall c :: c in names ==> c !in rest
      invariant forall i, j :: 0 <= i < j < |names| ==> names[i] != names[j]
      decreases |rest|
    {
      var c :| c in rest;
      names := names + [c];
      rest := rest - {c};
    }
  }


  // ---------------------------------------------------------------------------
  // Lemmas
  // ---------------------------------------------------------------------------

  /** `p` lies below each of the paths `os.makedirs(p)` creates, and is one of them. */
  lemma AncestryUnder(p: Path)
    requires p != ""
    ensures p in Ancestry(p)
    ensures forall a :: a in Ancestry(p) ==> Under(p, a)
  {
    assert p[..|p|] == p;
    forall a | a in Ancestry(p) ensures Under(p, a) {
      var i :| 0 < i <= |p| && (i == |p| || p[i] == '/') && a == p[..i];
      if i < |p| {
        var d := DirPrefix(a);
        assert p[..|d|] == d;
      }
    }
  }

  /** A successful `makedirs` leaves a directory at `p` and keeps every other entry. */
  lemma MakeDirsSpec(fs: FS, p: Path)
    requires p != ""
    ensures MakeDirs(fs, p).Ok? <==> forall a :: a in Ancestry(p) ==> !IsFile(fs, a)
    ensures MakeDirs(fs, p).Ok? ==> var r := MakeDirs(fs, p).value;
      IsDir(r, p) && (forall k :: k in fs ==> k in r && r[k] == fs[k])
      && (forall k :: k in r && k !in fs ==> Under(p, k) && r[k] == Dir)
  {
    AncestryUnder(p);
  }

  /** A successful copy leaves at `dst` a replica of the tree at `src`, keeps everything that
      was there, adds nothing outside `dst` except its missing ancestors, and adds nothing
      below `dst` that is not a re-rooted entry of `src`. */
  lemma CopyTreeSpec(fs: FS, src: Path, dst: Path)
    requires dst != ""
    ensures CopyTree(fs, src, dst) == Err(NotFound) <==> src !in fs
    ensures CopyTree(fs, src, dst).Err? ==> CopyTree(fs, src, dst).error != PathPolicy
    ensures CopyTree(fs, src, dst).Ok? <==>
      IsDir(fs, src) && dst !in fs && !Relisted(fs, src, dst) && forall a :: a in Ancestry(dst) ==> !IsFile(fs, a)
    ensures CopyTree(fs, src, dst).Ok? ==> var r := CopyTree(fs, src, dst).value;
      (forall k :: k in fs && InTree(k, src) ==> Rebase(k, src, dst) in r && r[Rebase(k, src, dst)] == fs[k])
      && (forall k :: k in fs && !Under(k, dst) ==> k in r && r[k] == fs[k])
      && (forall k :: k in r && k !in fs ==> Under(k, dst) || Under(dst, k))
      && (forall k :: k in r && k !in fs && Under(k, dst) ==>
            exists s :: s in fs && InTree(s, src) && k == Rebase(s, src, dst) && r[k] == fs[s])
  {
    MakeDirsSpec(fs, dst);
    if CopyTree(fs, src, dst).Ok? {
      var r := CopyTree(fs, src, dst).value;
      var g := Graft(fs, src, dst);
      GraftSpec(fs, src, dst);
      assert InTree(src, src) && Rebase(src, src, dst) == dst;
      forall k | k in r && k !in fs && Under(k, dst)
        ensures exists s :: s in fs && InTree(s, src) && k == Rebase(s, src, dst) && r[k] == fs[s]
      {
        if k != dst {
          UnderLonger(k, dst);
        }
        assert k in g;
      }
    }
  }
}

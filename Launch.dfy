/**
 * The pieces of `launch` that only compute: the choice of the executable in
 * `Contents/MacOS`, the argument vector, and the child's environment.
 */
module Launch {
  import opened Wrappers
  import opened Paths

  /** One name from `os.listdir(macos_dir)`, and whether it is an executable regular file. */
  datatype Entry = Entry(name: string, runnable: bool)

  /** The names `launch` prefers. */
  predicate IsCandidate(name: string) {
    name == "Electron" || name == "Antigravity"
  }

  /** The first runnable entry, among the candidates only or among all entries. */
  function FirstRunnable(entries: seq<Entry>, candidatesOnly: bool): (r: Option<nat>)
    ensures r.Some? ==> (r.value < |entries| && entries[r.value].runnable
      && (candidatesOnly ==> IsCandidate(entries[r.value].name)))
    ensures r.Some? ==> forall j :: 0 <= j < r.value ==>
      !(entries[j].runnable && (candidatesOnly ==> IsCandidate(entries[j].name)))
    ensures r.None? ==> forall j :: 0 <= j < |entries| ==>
      !(entries[j].runnable && (candidatesOnly ==> IsCandidate(entries[j].name)))
  {
    if entries == [] then None
    else if entries[0].runnable && (candidatesOnly ==> IsCandidate(entries[0].name)) then Some(0)
    else
      match FirstRunnable(entries[1..], candidatesOnly)
      case None => None
      case Some(k) => Some(k + 1)
  }

  /** The executable the loop settles on: the first runnable candidate if there is one,
      otherwise the first runnable entry, otherwise none. */
  predicate IsPreferred(entries: seq<Entry>, r: Option<string>) {
    match FirstRunnable(entries, true)
    case Some(i) => r == Some(entries[i].name)
    case None =>
      match FirstRunnable(entries, false)
      case Some(i) => r == Some(entries[i].name)
      case None => r == None
  }

  /** The `for f in os.listdir(macos_dir)` loop with its `break`; returns the chosen name. */
  method ChooseExecutable(entries: seq<Entry>) returns (r: Option<string>)
    ensures IsPreferred(entries, r)
  {
    r := None;
    var i := 0;
    while i < |entries|
      invariant 0 <= i <= |entries|
      invariant forall j :: 0 <= j < i ==> !(entries[j].runnable && IsCandidate(entries[j].name))
      invariant r.None? <==> forall j :: 0 <= j < i ==> !entries[j].runnable
      invariant r.Some? ==> FirstRunnable(entries, false).Some? && r == Some(entries[FirstRunnable(entries, false).value].name)
    {
      var e := entries[i];
      if e.runnable {
        if IsCandidate(e.name) {
          r := Some(e.name);
          assert FirstRunnable(entries, true) == Some(i);
          return;
        }
        if r.None? {
          r := Some(e.name);
        }
      }
      i := i + 1;
    }
  }

  /** Only one result satisfies the preference: the choice is a function of the listing. */
  lemma PreferredUnique(entries: seq<Entry>, r1: Option<string>, r2: Option<string>)
    requires IsPreferred(entries, r1) && IsPreferred(entries, r2)
    ensures r1 == r2
  {
  }

  /** A runnable `Electron` is chosen whatever the order of the listing, as long as no
      runnable `Antigravity` sits beside it. */
  lemma PreferredShim(entries: seq<Entry>, k: nat)
    requires k < |entries| && entries[k] == Entry("Electron", true)
    requires forall j :: 0 <= j < |entries| && entries[j].name == "Antigravity" ==> !entries[j].runnable
    ensures IsPreferred(entries, Some("Electron"))
  {
    var f := FirstRunnable(entries, true);
    assert f.Some?;
  }

  /** Without any runnable entry `launch` falls back to `open -n -a`. */
  lemma PreferredNone(entries: seq<Entry>)
    requires forall j :: 0 <= j < |entries| ==> !entries[j].runnable
    ensures IsPreferred(entries, None)
  {
    assert FirstRunnable(entries, false).None?;
  }

  function UserDataFlag(userDataDir: Path): string { "--user-data-dir=" + userDataDir }
  function ExtensionsFlag(extensionsDir: Path): string { "--extensions-dir=" + extensionsDir }
  function ProxyFlag(proxy: string): string { "--proxy-server=" + proxy }

  /** The argument vector `launch` hands to `Popen`. */
  function CommandLine(exe: Option<Path>, appPath: Path, userDataDir: Path, extensionsDir: Path, proxy: string): seq<string> {
    (if exe.None? then ["open", "-n", "-a", appPath, "--args"] else [exe.value])
    + [UserDataFlag(userDataDir), ExtensionsFlag(extensionsDir)]
    + (if proxy != "" then [ProxyFlag(proxy)] else [])
  }

  /** `cmd` built as `launch` builds it: the literal list, then `cmd.append` of the proxy flag. */
  method BuildCommand(exe: Option<Path>, appPath: Path, userDataDir: Path, extensionsDir: Path, proxy: string)
    returns (cmd: seq<string>)
    ensures cmd == CommandLine(exe, appPath, userDataDir, extensionsDir, proxy)
  {
    if exe.None? {
      cmd := ["open", "-n", "-a", appPath, "--args", UserDataFlag(userDataDir), ExtensionsFlag(extensionsDir)];
    } else {
      cmd := [exe.value, UserDataFlag(userDataDir), ExtensionsFlag(extensionsDir)];
    }
    if proxy != "" {
      cmd := cmd + [ProxyFlag(proxy)];
    }
  }

  /** The command always names the instance's user-data and extensions directories; it
      runs the chosen executable, or `open -n -a <app>` when there is none; and it carries
      `--proxy-server=<proxy>` exactly when a proxy is configured, as its last word. */
  lemma CommandLineSpec(exe: Option<Path>, appPath: Path, userDataDir: Path, extensionsDir: Path, proxy: string)
    ensures var cmd := CommandLine(exe, appPath, userDataDir, extensionsDir, proxy);
      UserDataFlag(userDataDir) in cmd && ExtensionsFlag(extensionsDir) in cmd
      && (exe.Some? ==> cmd[0] == exe.value && |cmd| == 3 + (if proxy != "" then 1 else 0))
      && (exe.None? ==> cmd[..5] == ["open", "-n", "-a", appPath, "--args"] && |cmd| == 7 + (if proxy != "" then 1 else 0))
      && (proxy != "" <==> cmd[|cmd| - 1] == ProxyFlag(proxy))
  {
  }

  /** The eight variables that carry the proxy to child processes. */
  const ProxyVariables: set<string> :=
    {"HTTP_PROXY", "HTTPS_PROXY", "ALL_PROXY", "http_proxy", "https_proxy", "all_proxy", "GRPC_PROXY", "grpc_proxy"}

  /** The two variables that exempt local traffic, and their value. */
  const NoProxyVariables: set<string> := {"NO_PROXY", "no_proxy"}
  const NoProxyValue := "localhost,127.0.0.1"

  /** The variable the shims read the instance's identity from. */
  const IdentityVariable := "AG_INSTANCE_NAME"

  /** The child's environment: the parent's, with the instance name, and with the proxy
      variables exactly when a proxy is configured. */
  predicate IsChildEnvironment(env: map<string, string>, environ: map<string, string>, name: string, proxy: string) {
    && IdentityVariable in env && env[IdentityVariable] == name
    && (proxy != "" ==> forall k :: k in ProxyVariables ==> k in env && env[k] == proxy)
    && (proxy != "" ==> forall k :: k in NoProxyVariables ==> k in env && env[k] == NoProxyValue)
    && env.Keys == environ.Keys + {IdentityVariable} + (if proxy != "" then ProxyVariables + NoProxyVariables else {})
    && forall k :: (k in environ && k != IdentityVariable
                    && (proxy != "" ==> k !in ProxyVariables + NoProxyVariables)) ==> env[k] == environ[k]
  }

  /** `env` for the child: a copy of `os.environ`, then the repeated key assignments of `launch`. */
  method BuildEnvironment(environ: map<string, string>, name: string, proxy: string) returns (env: map<string, string>)
    ensures IsChildEnvironment(env, environ, name, proxy)
  {
    env := environ;
    if proxy != "" {
      env := env["HTTP_PROXY" := proxy];
      env := env["HTTPS_PROXY" := proxy];
      env := env["ALL_PROXY" := proxy];
      env := env["http_proxy" := proxy];
      env := env["https_proxy" := proxy];
      env := env["all_proxy" := proxy];
      env := env["GRPC_PROXY" := proxy];
      env := env["grpc_proxy" := proxy];
      env := env["NO_PROXY" := NoProxyValue];
      env := env["no_proxy" := NoProxyValue];
    }
    env := env[IdentityVariable := name];
  }

  /** The description leaves nothing open: one environment meets it. */
  lemma ChildEnvironmentUnique(e1: map<string, string>, e2: map<string, string>, environ: map<string, string>,
                               name: string, proxy: string)
    requires IsChildEnvironment(e1, environ, name, proxy) && IsChildEnvironment(e2, environ, name, proxy)
    ensures e1 == e2
  {
    forall k | k in e1 ensures e1[k] == e2[k] {
      if k != IdentityVariable && !(proxy != "" && k in ProxyVariables + NoProxyVariables) {
        assert k in environ;
      }
    }
  }

  /** Without a proxy the child sees the parent's environment plus its instance name. */
  lemma ChildEnvironmentPlain(env: map<string, string>, environ: map<string, string>, name: string)
    requires IsChildEnvironment(env, environ, name, "")
    ensures env == environ[IdentityVariable := name]
  {
    ChildEnvironmentUnique(env, environ[IdentityVariable := name], environ, name, "");
  }
}

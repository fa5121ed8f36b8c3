/** Where the library roots are looked for: an environment override first, then the
    platform's KiCad installation. The operating system, the variable's value and the
    set of existing directories are parameters. */
module LibraryPaths {
  import opened Wrappers
  import opened Strings

  /** What `platform.system()` reports. */
  datatype System = Darwin | Linux | Windows | OtherSystem

  /** What a process sees of its host: the operating system, which paths are
      directories, and the values of KICAD_FOOTPRINT_DIR and KICAD_SYMBOL_DIR. */
  datatype Host = Host(sys: System, isDir: string -> bool, footprintEnv: Option<string>, symbolEnv: Option<string>)

  /** The first candidate that is a directory. */
  function FirstExisting(cands: seq<string>, isDir: string -> bool): (r: Option<string>)
    ensures r.None? <==> forall c :: c in cands ==> !isDir(c)
    ensures r.Some? ==> exists k :: 0 <= k < |cands| && cands[k] == r.value && isDir(r.value)
                                    && forall j :: 0 <= j < k ==> !isDir(cands[j])
  {
    if cands == [] then None
    else if isDir(cands[0]) then Some(cands[0])
    else
      var r := FirstExisting(cands[1..], isDir);
      assert forall c :: c in cands[1..] ==> c in cands;
      assert forall c :: c in cands ==> c == cands[0] || c in cands[1..];
      if r.Some? then
        var k :| 0 <= k < |cands[1..]| && cands[1..][k] == r.value && isDir(r.value)
                 && forall j :: 0 <= j < k ==> !isDir(cands[1..][j]);
        assert cands[k + 1] == r.value;
        assert forall j :: 0 <= j < k + 1 ==> !isDir(cands[j]) by {
          forall j | 0 <= j < k + 1 ensures !isDir(cands[j]) {
            if j > 0 { assert cands[j] == cands[1..][j - 1]; }
          }
        }
        r
      else r
  }

  const MacShare := "/Applications/KiCad/KiCad.app/Contents/SharedSupport"
  const LinuxShare := "/usr/share/kicad"
  const LocalShare := "/usr/local/share/kicad"
  const WindowsShare := "C:\\Program Files\\KiCad\\share\\kicad"

  /** The share directories `_get_kicad_share_path` tries, in order. */
  function ShareCandidates(sys: System): seq<string>
  {
    match sys
    case Darwin => [MacShare]
    case Linux => [LinuxShare, LocalShare]
    case Windows => [WindowsShare]
    case OtherSystem => []
  }

  function Separator(sys: System): char { if sys == Windows then '\\' else '/' }

  /** `os.path.join(a, b)` for a relative `b`. */
  function JoinPath(sys: System, a: string, b: string): (r: string)
    ensures StartsWith(r, a) && EndsWith(r, b)
  {
    if a == [] || EndsWith(a, [Separator(sys)]) then a + b else a + [Separator(sys)] + b
  }

  /** `_get_kicad_share_path()` */
  function KicadSharePath(sys: System, isDir: string -> bool): Option<string>
  {
    FirstExisting(ShareCandidates(sys), isDir)
  }

  /** A set environment variable that `env and ...` accepts. */
  predicate Given(env: Option<string>) { env.Some? && env.value != [] }

  /** `_get_footprint_lib_path()` (with `sub` = "footprints") and `_get_symbol_lib_path()`
      (with `sub` = "symbols") of the unified index. */
  function LibPath(env: Option<string>, sub: string, sys: System, isDir: string -> bool): (r: Option<string>)
    ensures r.Some? ==> isDir(r.value)
    ensures Given(env) && isDir(env.value) ==> r == env
    ensures r.Some? && !(Given(env) && isDir(env.value)) ==>
      KicadSharePath(sys, isDir).Some? && r.value == JoinPath(sys, KicadSharePath(sys, isDir).value, sub)
    ensures r.None? <==> (!(Given(env) && isDir(env.value)) &&
      (KicadSharePath(sys, isDir).None? || !isDir(JoinPath(sys, KicadSharePath(sys, isDir).value, sub))))
  {
    if Given(env) && isDir(env.value) then env
    else match KicadSharePath(sys, isDir)
      case None => None
      case Some(share) =>
        var p := JoinPath(sys, share, sub);
        if isDir(p) then Some(p) else None
  }

  function FootprintLibPath(env: Option<string>, sys: System, isDir: string -> bool): Option<string>
  {
    LibPath(env, "footprints", sys, isDir)
  }

  function SymbolLibPath(env: Option<string>, sys: System, isDir: string -> bool): Option<string>
  {
    LibPath(env, "symbols", sys, isDir)
  }

  /** The fixed candidates of the footprint-only index's `_get_footprint_lib_path`. */
  function TwinCandidates(sys: System): seq<string>
  {
    match sys
    case Darwin => [MacShare + "/" + "footprints"]
    case Linux => [LinuxShare + "/" + "footprints", LocalShare + "/" + "footprints"]
    case Windows => [WindowsShare + "\\" + "footprints"]
    case OtherSystem => []
  }

  /** `_get_footprint_lib_path()` of the footprint-only index: the variable, when set, is
      put in front of the candidates, and the first directory wins. */
  function TwinFootprintLibPath(env: Option<string>, sys: System, isDir: string -> bool): (r: Option<string>)
    ensures r.Some? ==> isDir(r.value)
    ensures Given(env) && isDir(env.value) ==> r == env
    ensures r.None? <==> (!(Given(env) && isDir(env.value)) && forall c :: c in TwinCandidates(sys) ==> !isDir(c))
    ensures r.Some? && !(Given(env) && isDir(env.value)) ==> r.value in TwinCandidates(sys)
  {
    var cands := (if Given(env) then [env.value] else []) + TwinCandidates(sys);
    var r := FirstExisting(cands, isDir);
    assert Given(env) ==> cands[0] == env.value;
    assert forall c :: c in cands ==> (Given(env) && c == env.value) || c in TwinCandidates(sys);
    r
  }

  lemma JoinOnSeparator(sys: System, a: string, b: string)
    requires a != [] && a[|a| - 1] != Separator(sys)
    ensures JoinPath(sys, a, b) == a + [Separator(sys)] + b
  {
  }

  /** Each fixed candidate of the footprint-only index is its share directory joined with
      "footprints". */
  lemma TwinCandidatesAreJoined(sys: System)
    ensures |TwinCandidates(sys)| == |ShareCandidates(sys)|
    ensures forall i :: 0 <= i < |ShareCandidates(sys)| ==>
      TwinCandidates(sys)[i] == JoinPath(sys, ShareCandidates(sys)[i], "footprints")
  {
    if sys == Darwin {
      JoinedCandidate(Darwin, 0);
    } else if sys == Linux {
      JoinedCandidate(Linux, 0);
      JoinedCandidate(Linux, 1);
    } else if sys == Windows {
      JoinedCandidate(Windows, 0);
    }
  }

  lemma JoinedCandidate(sys: System, i: nat)
    requires i < |ShareCandidates(sys)|
    ensures i < |TwinCandidates(sys)|
    ensures TwinCandidates(sys)[i] == JoinPath(sys, ShareCandidates(sys)[i], "footprints")
  {
    match sys
    case Darwin => JoinOnSeparator(Darwin, MacShare, "footprints");
    case Linux =>
      if i == 0 {
        JoinOnSeparator(Linux, LinuxShare, "footprints");
      } else {
        JoinOnSeparator(Linux, LocalShare, "footprints");
      }
    case Windows => JoinOnSeparator(Windows, WindowsShare, "footprints");
  }

  lemma {:induction false} FirstExistingJoined(sys: System, cs: seq<string>, ts: seq<string>, isDir: string -> bool)
    requires |ts| == |cs|
    requires forall i :: 0 <= i < |cs| ==> ts[i] == JoinPath(sys, cs[i], "footprints")
    requires forall i :: 0 <= i < |cs| ==> (isDir(cs[i]) <==> isDir(ts[i]))
    ensures FirstExisting(ts, isDir) ==
      if FirstExisting(cs, isDir).None? then None else Some(JoinPath(sys, FirstExisting(cs, isDir).value, "footprints"))
  {
    if cs != [] && !isDir(cs[0]) {
      FirstExistingJoined(sys, cs[1..], ts[1..], isDir);
    }
  }

  /** The set variable goes in front of the candidates; one that is no directory is passed over. */
  lemma {:induction false} EnvInFront(env: Option<string>, ts: seq<string>, isDir: string -> bool)
    ensures FirstExisting((if Given(env) then [env.value] else []) + ts, isDir) ==
      if Given(env) && isDir(env.value) then env else FirstExisting(ts, isDir)
  {
    var cands := (if Given(env) then [env.value] else []) + ts;
    if Given(env) {
      assert cands[0] == env.value && cands[1..] == ts;
    } else {
      assert cands == ts;
    }
  }

  lemma {:induction false} AgreeOnCandidates(env: Option<string>, sys: System, isDir: string -> bool,
                                             cs: seq<string>, ts: seq<string>)
    requires cs == ShareCandidates(sys) && ts == TwinCandidates(sys) && |ts| == |cs|
    requires forall i :: 0 <= i < |cs| ==> ts[i] == JoinPath(sys, cs[i], "footprints")
    requires forall i :: 0 <= i < |cs| ==> (isDir(cs[i]) <==> isDir(ts[i]))
    ensures FootprintLibPath(env, sys, isDir) == TwinFootprintLibPath(env, sys, isDir)
  {
    FirstExistingJoined(sys, cs, ts, isDir);
    EnvInFront(env, ts, isDir);
  }

  /** When every installed share directory has a footprints directory, and only those do,
      the two resolvers agree. */
  lemma ResolversAgree(env: Option<string>, sys: System, isDir: string -> bool)
    requires forall s :: s in ShareCandidates(sys) ==> (isDir(s) <==> isDir(JoinPath(sys, s, "footprints")))
    ensures FootprintLibPath(env, sys, isDir) == TwinFootprintLibPath(env, sys, isDir)
  {
    var cs := ShareCandidates(sys);
    var ts := TwinCandidates(sys);
    TwinCandidatesAreJoined(sys);
    assert forall i :: 0 <= i < |cs| ==> (isDir(cs[i]) <==> isDir(ts[i])) by {
      forall i | 0 <= i < |cs| ensures isDir(cs[i]) <==> isDir(ts[i]) {
        assert cs[i] in cs;
      }
    }
    AgreeOnCandidates(env, sys, isDir, cs, ts);
  }

  /** `os.path.expanduser("~/" + rest)` on a POSIX host whose HOME is `home`: the home
      directory without its trailing slashes, then the rest of the path. */
  function ExpandUser(home: string, rest: string): (r: string)
    ensures EndsWith(r, "/" + rest)
    ensures StartsWith(r, RStrip(home, '/'))
  {
    RStrip(home, '/') + "/" + rest
  }

  /** A Linux machine with both share directories, where only the second holds a
      footprint directory. */
  predicate SplitLinuxInstall(p: string) {
    p == LinuxShare || p == LocalShare || p == LocalShare + "/" + "footprints"
  }

  /** The resolvers can disagree on Linux: on such a machine the unified index finds no
      footprint root and the footprint-only index finds the second one. */
  lemma ResolversDisagreeOnLinux()
    ensures FootprintLibPath(None, Linux, SplitLinuxInstall) == None
    ensures TwinFootprintLibPath(None, Linux, SplitLinuxInstall) == Some(LocalShare + "/" + "footprints")
  {
    assert KicadSharePath(Linux, SplitLinuxInstall) == Some(LinuxShare);
    JoinedCandidate(Linux, 0);
    assert !SplitLinuxInstall(LinuxShare + "/" + "footprints");
    var ts := TwinCandidates(Linux);
    EnvInFront(None, ts, SplitLinuxInstall);
    assert !SplitLinuxInstall(ts[0]) && ts[1..] == [LocalShare + "/" + "footprints"];
    assert FirstExisting(ts[1..], SplitLinuxInstall) == Some(LocalShare + "/" + "footprints");
  }
}

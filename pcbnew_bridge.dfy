/** Running a script under KiCad's own Python: which stderr lines are known to be harmless,
    how the remaining ones are reported, and how the outcome of the subprocess becomes a
    parsed result or an error. Starting the process, the clock and the JSON decoder are
    not modelled; the process's outcome and the decoder are inputs. */
module PcbnewBridge {
  import opened Wrappers
  import opened Strings
  import opened LibraryPaths

  // ---------------------------------------------------------------------
  // _SAFE_STDERR_PATTERNS
  // ---------------------------------------------------------------------

  /** The words appear in `s` one after another, each found at its first occurrence after
      the previous one ends. */
  function InOrder(s: string, words: seq<string>): bool
    decreases |words|
  {
    if words == [] then true
    else match Find(s, words[0])
      case None => false
      case Some(k) => InOrder(s[k + |words[0]|..], words[1..])
  }

  /** A word found in a suffix is found in the whole text, no later. */
  lemma FindInSuffix(s: string, a: nat, w: string)
    requires a <= |s| && Find(s[a..], w).Some?
    ensures Find(s, w).Some? && Find(s, w).value <= a + Find(s[a..], w).value
  {
    var k := Find(s[a..], w).value;
    assert s[a + k..a + k + |w|] == s[a..][k..][..|w|];
    ContainsSlice(s, w, a + k);
    assert StartsWith(s[a + k..], w) by {
      assert s[a + k..][..|w|] == s[a..][k..][..|w|];
    }
  }

  /** One step of `InOrder`: the first word is found, and the others after it. */
  lemma InOrderCons(s: string, words: seq<string>)
    requires words != []
    ensures InOrder(s, words) <==>
      Find(s, words[0]).Some? && InOrder(s[Find(s, words[0]).value + |words[0]|..], words[1..])
  {
  }

  /** Finding the words in a suffix means finding them in the whole text: the first
      occurrence of each word in the whole text ends no later. */
  lemma {:induction false} InOrderSuffix(s: string, a: nat, words: seq<string>)
    requires a <= |s| && InOrder(s[a..], words)
    ensures InOrder(s, words)
    decreases |words|
  {
    if words != [] {
      var w := words[0];
      InOrderCons(s[a..], words);
      var k := Find(s[a..], w).value;
      FindInSuffix(s, a, w);
      var k' := Find(s, w).value;
      var t := s[a + k + |w|..];
      var u := s[k' + |w|..];
      DropDrop(s, a, k + |w|);
      DropDrop(s, k' + |w|, a + k - k');
      assert s[a..][k + |w|..] == t && u[a + k - k'..] == t;
      InOrderSuffix(u, a + k - k', words[1..]);
      InOrderCons(s, words);
    }
  }

  /** Text before a word and after it: the word is found, and the remaining words after it. */
  lemma InOrderAfter(x: string, w: string, rest: string, words: seq<string>)
    requires words != [] && words[0] == w && InOrder(rest, words[1..])
    ensures InOrder(x + w + rest, words)
  {
    var s := x + w + rest;
    MiddleSlice(x, w, rest);
    assert s[|x|..][..|w|] == w;
    FindInSuffix(s, |x|, w);
    var k := Find(s, w).value;
    assert s[|x| + |w|..] == rest;
    DropDrop(s, k + |w|, |x| - k);
    InOrderSuffix(s[k + |w|..], |x| - k, words[1..]);
  }

  /** `.*assert.*IsOk.*wxApp.*` under re.IGNORECASE, matched from the start of a line. */
  predicate AssertLine(line: string) {
    InOrder(Lower(line), ["assert", "isok", "wxapp"])
  }

  /** `.*Gtk-WARNING.*`. */
  predicate GtkWarning(line: string) {
    Contains(line, "Gtk-WARNING")
  }

  /** A line one of the three safe patterns matches (the third being `^\s*$`). */
  predicate IsSafe(line: string) {
    AssertLine(line) || GtkWarning(line) || IsBlank(line)
  }

  /** wxWidgets' assertion line, written in any case and with any text around the three
      words, is recognised as safe. */
  lemma AssertLinesAreSafe(x: string, a: string, y: string, b: string, z: string, c: string, t: string)
    requires Lower(a) == "assert" && Lower(b) == "isok" && Lower(c) == "wxapp"
    ensures IsSafe(x + a + y + b + z + c + t)
  {
    var line := x + a + y + b + z + c + t;
    assert Lower(line) == Lower(x) + "assert" + (Lower(y) + "isok" + (Lower(z) + "wxapp" + Lower(t)));
    InOrderAfter(Lower(z), "wxapp", Lower(t), ["wxapp"]);
    assert ["isok", "wxapp"][1..] == ["wxapp"];
    InOrderAfter(Lower(y), "isok", Lower(z) + "wxapp" + Lower(t), ["isok", "wxapp"]);
    assert ["assert", "isok", "wxapp"][1..] == ["isok", "wxapp"];
    InOrderAfter(Lower(x), "assert", Lower(y) + "isok" + (Lower(z) + "wxapp" + Lower(t)), ["assert", "isok", "wxapp"]);
  }

  lemma FindAssertInExample(s: string)
    requires s == "isok assert"
    ensures Find(s, "assert") == Some(5)
  {
    assert s[0] != 'a' && s[1] != 'a' && s[2] != 'a' && s[3] != 'a' && s[4] != 'a';
    forall j | 0 <= j < 5 ensures !StartsWith(s[j..], "assert") {
      assert s[j..][0] == s[j];
    }
    assert s[5..][..6] == "assert";
    assert s[5..11] == "assert";
    ContainsSlice(s, "assert", 5);
  }

  /** The words must come in order: `IsOk` before `assert` is not the wxWidgets line. */
  lemma OutOfOrderIsNotAssertLine()
    ensures !AssertLine("IsOk assert")
  {
    LowerExample();
    var s := "isok assert";
    FindAssertInExample(s);
    assert s[11..] == [];
    assert Find([], "isok") == None;
  }

  lemma LowerExample()
    ensures Lower("IsOk assert") == "isok assert"
  {
    var s := "IsOk assert";
    assert LowerChar(s[0]) == 'i' && LowerChar(s[2]) == 'o';
  }

  // ---------------------------------------------------------------------
  // _get_kicad_python, _get_kicad_env
  // ---------------------------------------------------------------------

  const MacApp := "/Applications/KiCad/KiCad.app"
  const MacPythonBin := MacApp + "/Contents/Frameworks/Python.framework/Versions/3.9/bin/"

  /** Where KiCad's bundled interpreter is looked for, in order. */
  function PythonCandidates(sys: System): seq<string> {
    match sys
      case Darwin => [MacPythonBin + "python3.9", MacPythonBin + "python3"]
      case Linux => ["/usr/bin/python3"]
      case Windows => ["C:\\Program Files\\KiCad\\bin\\python.exe"]
      case OtherSystem => []
  }

  /** `_get_kicad_python`: the first candidate that is a file; none on an unknown system. */
  function KicadPython(sys: System, isFile: string -> bool): (r: Option<string>)
    ensures r.Some? ==> r.value in PythonCandidates(sys) && isFile(r.value)
    ensures r.None? <==> forall c :: c in PythonCandidates(sys) ==> !isFile(c)
    ensures sys == OtherSystem ==> r.None?
    ensures sys == Darwin && isFile(MacPythonBin + "python3.9") ==> r == Some(MacPythonBin + "python3.9")
  {
    FirstExisting(PythonCandidates(sys), isFile)
  }

  const PythonPathKey := "PYTHONPATH"
  const FrameworkKey := "DYLD_FRAMEWORK_PATH"

  /** `_get_kicad_env`: a copy of the environment; on macOS the bundle's site-packages and
      frameworks are set, every other variable is kept as it was. */
  function KicadEnv(sys: System, env: map<string, string>): (r: map<string, string>)
    ensures sys != Darwin ==> r == env
    ensures sys == Darwin ==> r.Keys == env.Keys + {PythonPathKey, FrameworkKey}
    ensures forall k :: k in env && k != PythonPathKey && k != FrameworkKey ==> k in r && r[k] == env[k]
    ensures sys == Darwin ==> StartsWith(r[PythonPathKey], MacApp) && StartsWith(r[FrameworkKey], MacApp)
  {
    if sys == Darwin then
      env[PythonPathKey := MacApp + "/Contents/Frameworks/Python.framework/Versions/3.9/lib/python3.9/site-packages"]
         [FrameworkKey := MacApp + "/Contents/Frameworks"]
    else env
  }

  // ---------------------------------------------------------------------
  // _filter_stderr
  // ---------------------------------------------------------------------

  /** The lines `_filter_stderr` keeps: those no safe pattern matches and that are not
      blank. */
  predicate Kept(line: string) {
    !IsSafe(line) && Strip(line) != []
  }

  function KeptLines(lines: seq<string>): seq<string>
    decreases |lines|
  {
    if lines == [] then []
    else KeptLines(lines[..|lines| - 1]) + (if Kept(lines[|lines| - 1]) then [lines[|lines| - 1]] else [])
  }

  /** Blank lines are among the safe ones, so the emptiness test never decides. */
  lemma KeptIffNotSafe(line: string)
    ensures Kept(line) <==> !IsSafe(line)
  {
    StripEmptyIffBlank(line);
  }

  /** The kept lines are exactly the lines that match no safe pattern. */
  lemma {:induction false} KeptLinesExactly(lines: seq<string>)
    ensures forall l :: l in KeptLines(lines) <==> l in lines && !IsSafe(l)
    ensures |KeptLines(lines)| <= |lines|
    decreases |lines|
  {
    if lines != [] {
      var init := lines[..|lines| - 1];
      var last := lines[|lines| - 1];
      assert lines == init + [last];
      KeptLinesExactly(init);
      KeptIffNotSafe(last);
      assert KeptLines(lines) == KeptLines(init) + (if Kept(last) then [last] else []);
      forall l ensures l in KeptLines(lines) <==> l in lines && !IsSafe(l) {
        assert l in lines <==> l in init || l == last;
      }
    }
  }

  /** `_filter_stderr`. */
  function FilterStderr(stderr: string): string {
    Strip(Join(KeptLines(SplitOn(stderr, '\n')), "\n"))
  }

  /** The loop of `_filter_stderr`. */
  method FilterStderrLoop(stderr: string) returns (r: string)
    ensures r == FilterStderr(stderr)
  {
    var lines := SplitOn(stderr, '\n');
    var filtered := FilterLines(lines);
    r := Strip(Join(filtered, "\n"));
  }

  /** The lines the loop appends to `filtered`, in order. */
  method FilterLines(lines: seq<string>) returns (filtered: seq<string>)
    ensures filtered == KeptLines(lines)
  {
    filtered := [];
    var i := 0;
    while i < |lines|
      invariant 0 <= i <= |lines|
      invariant filtered == KeptLines(lines[..i])
    {
      var keep := KeepLine(lines[i]);
      KeptLinesStep(lines, i);
      if keep {
        filtered := filtered + [lines[i]];
      }
      i := i + 1;
    }
    assert lines[..|lines|] == lines;
  }

  /** One line of the loop: a line a safe pattern matches is skipped, so is a blank one. */
  method KeepLine(line: string) returns (keep: bool)
    ensures keep == Kept(line)
  {
    if IsSafe(line) {
      return false;
    }
    keep := Strip(line) != [];
  }

  lemma KeptLinesStep(lines: seq<string>, i: nat)
    requires i < |lines|
    ensures Kept(lines[i]) ==> KeptLines(lines[..i + 1]) == KeptLines(lines[..i]) + [lines[i]]
    ensures !Kept(lines[i]) ==> KeptLines(lines[..i + 1]) == KeptLines(lines[..i])
  {
    assert lines[..i + 1][..i] == lines[..i];
  }

  /** Only harmless lines: none is kept. */
  lemma {:induction false} SafeLinesKeepNothing(lines: seq<string>)
    requires forall l :: l in lines ==> IsSafe(l)
    ensures KeptLines(lines) == []
    decreases |lines|
  {
    if lines != [] {
      var init := lines[..|lines| - 1];
      assert forall l :: l in init ==> l in lines;
      SafeLinesKeepNothing(init);
      assert lines[|lines| - 1] in lines;
    }
  }

  /** Only harmless output: nothing is reported. */
  lemma SafeOutputFiltersToNothing(stderr: string)
    requires forall l :: l in SplitOn(stderr, '\n') ==> IsSafe(l)
    ensures FilterStderr(stderr) == []
  {
    SafeLinesKeepNothing(SplitOn(stderr, '\n'));
  }

  // ---------------------------------------------------------------------
  // run_pcbnew_script: the decision on the result
  // ---------------------------------------------------------------------

  /** What running the script did: time out, or exit with a code and its two outputs. */
  datatype ScriptRun = TimedOut | Finished(code: int, stdout: string, stderr: string)

  const NoInterpreter := "KiCad Python interpreter not found. Ensure KiCad is installed."
  const NoOutput := "pcbnew script produced no output"

  /** The last line of the stripped standard output: the tail of that output, so stray
      prints before it are ignored. */
  function LastLine(stdout: string): (line: string)
    ensures '\n' !in line && EndsWith(Strip(stdout), line)
    ensures |line| == |Strip(stdout)| || Strip(stdout)[|Strip(stdout)| - |line| - 1] == '\n'
  {
    LastPiece(Strip(stdout))
  }

  /** The text after the last line break of `t`, or all of `t`. */
  function LastPiece(t: string): (line: string)
    ensures '\n' !in line && EndsWith(t, line)
    ensures |line| == |t| || t[|t| - |line| - 1] == '\n'
  {
    var pieces := SplitOn(t, '\n');
    var line := pieces[|pieces| - 1];
    assert forall j :: 0 <= j < |line| ==> line[j] != '\n';
    assert "\n" == ['\n'];
    LastLineIsTail(pieces);
    line
  }

  /** `run_pcbnew_script` once the interpreter has been looked for: no interpreter is an
      error before anything runs; a timeout, a non-zero exit (reported with the filtered
      stderr), blank output or an undecodable last line are errors; otherwise the decoded
      last line. `timeoutText` is how the timeout prints, `decode` is `json.loads`. */
  function RunResult<T>(interpreter: Option<string>, run: ScriptRun, timeoutText: string,
                        decode: string -> Result<T, string>): (r: Result<T, string>)
    ensures interpreter.None? ==> r == Err(NoInterpreter)
    ensures interpreter.Some? && interpreter.value != [] && run.Finished? && run.code != 0 ==>
      r.Err? && EndsWith(r.error, FilterStderr(run.stderr))
    ensures r.Ok? ==>
      run.Finished? && run.code == 0 && Strip(run.stdout) != [] && decode(LastLine(run.stdout)) == Ok(r.value)
    ensures (interpreter.Some? && interpreter.value != [] && run.Finished? && run.code == 0
             && Strip(run.stdout) != [] && decode(LastLine(run.stdout)).Ok?) ==>
      r == Ok(decode(LastLine(run.stdout)).value)
    ensures interpreter.Some? && interpreter.value != [] && run.TimedOut? ==>
      r == Err("pcbnew script timed out after " + timeoutText + "s")
    ensures (interpreter.Some? && interpreter.value != [] && run.Finished? && run.code == 0
             && Strip(run.stdout) == []) ==> r == Err(NoOutput)
  {
    if interpreter.None? || (interpreter.Some? && interpreter.value == []) then Err(NoInterpreter)
    else match run
      case TimedOut => Err("pcbnew script timed out after " + timeoutText + "s")
      case Finished(code, stdout, stderr) =>
        if code != 0 then Err("pcbnew script failed (exit " + IntText(code) + "): " + FilterStderr(stderr))
        else if Strip(stdout) == [] then Err(NoOutput)
        else match decode(LastLine(stdout))
          case Ok(v) => Ok(v)
          case Err(e) => Err("pcbnew script output is not valid JSON: " + e + "\nOutput was: " + Take(stdout, 2000))
  }

  /** The decoder is consulted only for a clean exit with output: the result of a run that
      failed does not depend on how the output would have been decoded. */
  lemma DecoderOnlyOnSuccess<T>(interpreter: Option<string>, run: ScriptRun, timeoutText: string,
                                decode: string -> Result<T, string>, other: string -> Result<T, string>)
    requires !(run.Finished? && run.code == 0 && Strip(run.stdout) != [])
    ensures RunResult(interpreter, run, timeoutText, decode) == RunResult(interpreter, run, timeoutText, other)
  {
  }

  /** The decoded line is the tail of the output: stray prints before it are ignored. */
  lemma {:induction false} LastLineIsTail(pieces: seq<string>)
    requires |pieces| >= 1
    ensures EndsWith(Join(pieces, "\n"), pieces[|pieces| - 1])
    ensures |pieces| > 1 ==> (|pieces[|pieces| - 1]| < |Join(pieces, "\n")|
      && Join(pieces, "\n")[|Join(pieces, "\n")| - |pieces[|pieces| - 1]| - 1] == '\n')
    decreases |pieces|
  {
    if |pieces| > 1 {
      var rest := pieces[1..];
      var last := pieces[|pieces| - 1];
      LastLineIsTail(rest);
      assert rest[|rest| - 1] == last;
      var j, r := Join(pieces, "\n"), Join(rest, "\n");
      assert j == pieces[0] + "\n" + r;
      if |rest| == 1 {
        assert r == last;
        assert j[|j| - |last| - 1] == '\n';
      } else {
        assert j[|j| - |last| - 1] == r[|r| - |last| - 1];
      }
    }
  }
}

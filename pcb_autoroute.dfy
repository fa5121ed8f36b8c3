/** The FreeRouter step of autorouting: reading the number of unrouted connections from
    the router's output, choosing the best of several routing passes, and finding the
    router's JAR. Running Java, the DSN export and the SES import are not modelled; what
    they produce is given as input. */
module PcbAutoroute {
  import opened Wrappers
  import opened Strings
  import opened TextScan
  import opened LibraryPaths

  // ---------------------------------------------------------------------
  // _parse_freerouter_incomplete
  // ---------------------------------------------------------------------

  /** `(\d+)\s+connections?\s+not\s+found` under re.IGNORECASE. */
  const NotFound: Pattern := [Digits, Spaces, NoCase("connection"), Opt("s"), Spaces, NoCase("not"), Spaces, NoCase("found")]

  /** `(\d+)\s+incomplete` under re.IGNORECASE. */
  const Incomplete: Pattern := [Digits, Spaces, NoCase("incomplete")]

  lemma PatternsCaptureDigits()
    ensures DigitCaptures(NotFound) && DigitCaptures(Incomplete)
  {
  }

  /** `int(m.group(1))` for the leftmost match of the pattern in a line, if any. */
  function LineValue(line: string, p: Pattern): Option<nat>
    requires DigitCaptures(p)
  {
    match Search(line, p, 0)
    case None => None
    case Some(k) =>
      DigitGroup(line, k, p, []);
      Some(DigitsValue(MatchAt(line, k, p).value.group))
  }

  function NotFoundValue(line: string): Option<nat> {
    PatternsCaptureDigits();
    LineValue(line, NotFound)
  }

  function IncompleteValue(line: string): Option<nat> {
    PatternsCaptureDigits();
    LineValue(line, Incomplete)
  }

  /** `for line in reversed(lines)`: the value on the last line that has one. */
  function LastFound(lines: seq<string>, value: string -> Option<nat>): (r: Option<nat>)
    ensures r.None? <==> forall k :: 0 <= k < |lines| ==> value(lines[k]).None?
    decreases |lines|
  {
    if lines == [] then None
    else
      var last := lines[|lines| - 1];
      if value(last).Some? then value(last)
      else
        var init := lines[..|lines| - 1];
        assert forall k :: 0 <= k < |init| ==> init[k] == lines[k];
        LastFound(init, value)
  }

  /** The value found is that of a line after which no line has one. */
  lemma {:induction false} LastFoundIsLast(lines: seq<string>, value: string -> Option<nat>)
    ensures LastFound(lines, value).Some? ==> exists k :: (0 <= k < |lines| && value(lines[k]) == LastFound(lines, value)
      && forall j :: k < j < |lines| ==> value(lines[j]).None?)
    decreases |lines|
  {
    if lines != [] && value(lines[|lines| - 1]).None? {
      var init := lines[..|lines| - 1];
      LastFoundIsLast(init, value);
      var r := LastFound(init, value);
      assert LastFound(lines, value) == r;
      if r.Some? {
        var k :| 0 <= k < |init| && value(init[k]) == r && forall j :: k < j < |init| ==> value(init[j]).None?;
        assert lines[k] == init[k];
        assert forall j :: k < j < |lines| ==> value(lines[j]).None? by {
          forall j | k < j < |lines| ensures value(lines[j]).None? {
            if j < |init| { assert lines[j] == init[j]; }
          }
        }
      }
    }
  }

  /** The decision of `_parse_freerouter_incomplete` over the output's lines: the count
      on the last "N connections not found" line, else the count on the last
      "N incomplete" line, else 0. */
  function IncompleteCount(lines: seq<string>): nat
  {
    match LastFound(lines, NotFoundValue)
    case Some(n) => n
    case None =>
      match LastFound(lines, IncompleteValue)
      case Some(n) => n
      case None => 0
  }

  /** `_parse_freerouter_incomplete` on the router's standard output. */
  function ParseIncomplete(stdout: string): nat {
    IncompleteCount(SplitOn(stdout, '\n'))
  }

  /** The count comes from the last "not found" line whenever there is one, the
      "incomplete" lines being consulted only when there is none, and is 0 when neither
      kind of line appears. */
  lemma IncompleteCountOrder(lines: seq<string>)
    ensures (exists k :: 0 <= k < |lines| && NotFoundValue(lines[k]).Some?) ==>
      exists k :: (0 <= k < |lines| && NotFoundValue(lines[k]) == Some(IncompleteCount(lines))
        && forall j :: k < j < |lines| ==> NotFoundValue(lines[j]).None?)
    ensures ((forall k :: 0 <= k < |lines| ==> NotFoundValue(lines[k]).None?)
      && (exists k :: 0 <= k < |lines| && IncompleteValue(lines[k]).Some?)) ==>
      exists k :: (0 <= k < |lines| && IncompleteValue(lines[k]) == Some(IncompleteCount(lines))
        && forall j :: k < j < |lines| ==> IncompleteValue(lines[j]).None?)
    ensures (forall k :: 0 <= k < |lines| ==> NotFoundValue(lines[k]).None? && IncompleteValue(lines[k]).None?)
      ==> IncompleteCount(lines) == 0
  {
    PreferredOrder(lines, NotFoundValue, IncompleteValue, IncompleteCount(lines));
  }

  /** The same decision for any two readings of a line, the first preferred. */
  lemma PreferredOrder(lines: seq<string>, first: string -> Option<nat>, second: string -> Option<nat>, n: nat)
    requires n == match LastFound(lines, first)
      case Some(v) => v
      case None => (match LastFound(lines, second) case Some(v) => v case None => 0)
    ensures (exists k :: 0 <= k < |lines| && first(lines[k]).Some?) ==>
      exists k :: (0 <= k < |lines| && first(lines[k]) == Some(n)
        && forall j :: k < j < |lines| ==> first(lines[j]).None?)
    ensures ((forall k :: 0 <= k < |lines| ==> first(lines[k]).None?)
      && (exists k :: 0 <= k < |lines| && second(lines[k]).Some?)) ==>
      exists k :: (0 <= k < |lines| && second(lines[k]) == Some(n)
        && forall j :: k < j < |lines| ==> second(lines[j]).None?)
    ensures (forall k :: 0 <= k < |lines| ==> first(lines[k]).None? && second(lines[k]).None?) ==> n == 0
  {
    LastFoundIsLast(lines, first);
    LastFoundIsLast(lines, second);
  }

  const Summary := "3 connections not found"

  /** Where the words of the summary line sit. */
  lemma SummaryChars()
    ensures |Summary| == 23 && Summary[0] == '3' && Summary[1] == ' ' && Summary[2] == 'c'
    ensures Summary[13] == ' ' && Summary[14] == 'n' && Summary[17] == ' ' && Summary[18] == 'f'
  {
  }

  /** The summary line cut around each of its words. */
  lemma SummaryWords()
    ensures Summary == "3 " + "connection" + "s not found"
    ensures Summary == "3 connection" + "s" + " not found"
  {
  }

  lemma SummaryLastWords()
    ensures Summary == "3 connections " + "not" + " found"
    ensures Summary == "3 connections not " + "found" + ""
  {
  }

  /** Where the words of the summary line sit, as slices. */
  lemma SummarySlices()
    ensures Summary[2..12] == "connection" && Summary[12..13] == "s"
    ensures Summary[14..17] == "not" && Summary[18..23] == "found"
  {
    SummaryWords();
    SummaryLastWords();
    MiddleSlice("3 ", "connection", "s not found");
    MiddleSlice("3 connection", "s", " not found");
    MiddleSlice("3 connections ", "not", " found");
    MiddleSlice("3 connections not ", "found", "");
  }

  /** Each atom of the "not found" pattern on a line laid out as the summary line. */
  lemma NotFoundAtoms(s: string)
    requires |s| == 23 && s[0] == '3' && s[1] == ' ' && s[2] == 'c'
    requires s[13] == ' ' && s[14] == 'n' && s[17] == ' ' && s[18] == 'f'
    requires s[2..12] == "connection" && s[12..13] == "s"
    requires s[14..17] == "not" && s[18..23] == "found"
    ensures Step(s, 0, Digits, []) == Some(Match(1, "3"))
    ensures Step(s, 1, Spaces, "3") == Some(Match(2, "3"))
    ensures Step(s, 2, NoCase("connection"), "3") == Some(Match(12, "3"))
    ensures Step(s, 12, Opt("s"), "3") == Some(Match(13, "3"))
    ensures Step(s, 13, Spaces, "3") == Some(Match(14, "3"))
    ensures Step(s, 14, NoCase("not"), "3") == Some(Match(17, "3"))
    ensures Step(s, 17, Spaces, "3") == Some(Match(18, "3"))
    ensures Step(s, 18, NoCase("found"), "3") == Some(Match(23, "3"))
  {
    DigitStep(s, 0, []);
    SpaceStep(s, 1, "3");
    WordStep(s, 2, "connection", "3");
    WordStep(s, 12, "s", "3");
    SpaceStep(s, 13, "3");
    WordStep(s, 14, "not", "3");
    SpaceStep(s, 17, "3");
    WordStep(s, 18, "found", "3");
  }

  /** The whole pattern matches the summary line, capturing its count. */
  lemma SummaryMatch()
    ensures MatchFrom(Summary, 0, NotFound, []) == Some(Match(23, "3"))
  {
    SummaryChars();
    SummarySlices();
    NotFoundAtoms(Summary);
    NotFoundHead(Summary);
    NotFoundTail(Summary);
  }

  /** A line whose first four atoms match as on the summary line reaches its "not". */
  lemma NotFoundHead(s: string)
    requires |s| == 23
    requires Step(s, 0, Digits, []) == Some(Match(1, "3"))
    requires Step(s, 1, Spaces, "3") == Some(Match(2, "3"))
    requires Step(s, 2, NoCase("connection"), "3") == Some(Match(12, "3"))
    requires Step(s, 12, Opt("s"), "3") == Some(Match(13, "3"))
    ensures MatchFrom(s, 0, NotFound, []) == MatchFrom(s, 13, NotFound[4..], "3")
  {
    var p := NotFound;
    MatchStep(s, 0, p, [], Match(1, "3"));
    MatchStep(s, 1, p[1..], "3", Match(2, "3"));
    assert p[1..][1..] == p[2..];
    MatchStep(s, 2, p[2..], "3", Match(12, "3"));
    assert p[2..][1..] == p[3..];
    MatchStep(s, 12, p[3..], "3", Match(13, "3"));
    assert p[3..][1..] == p[4..];
  }

  /** A line whose last four atoms match as on the summary line completes the match. */
  lemma NotFoundTail(s: string)
    requires |s| == 23
    requires Step(s, 13, Spaces, "3") == Some(Match(14, "3"))
    requires Step(s, 14, NoCase("not"), "3") == Some(Match(17, "3"))
    requires Step(s, 17, Spaces, "3") == Some(Match(18, "3"))
    requires Step(s, 18, NoCase("found"), "3") == Some(Match(23, "3"))
    ensures MatchFrom(s, 13, NotFound[4..], "3") == Some(Match(23, "3"))
  {
    var p := NotFound[4..];
    assert p == [Spaces, NoCase("not"), Spaces, NoCase("found")];
    MatchStep(s, 13, p, "3", Match(14, "3"));
    MatchStep(s, 14, p[1..], "3", Match(17, "3"));
    assert p[1..][1..] == p[2..];
    MatchStep(s, 17, p[2..], "3", Match(18, "3"));
    assert p[2..][1..] == p[3..];
    MatchStep(s, 18, p[3..], "3", Match(23, "3"));
    assert p[3..][1..] == [];
  }

  /** A worked example: the router's summary line reads as its count. */
  lemma SummaryLine()
    ensures NotFoundValue(Summary) == Some(3)
  {
    SummaryMatch();
    assert MatchAt(Summary, 0, NotFound) == Some(Match(23, "3"));
    assert Search(Summary, NotFound, 0) == Some(0);
    assert DigitsValue("3") == 3;
  }

  // ---------------------------------------------------------------------
  // _find_freerouter_jar
  // ---------------------------------------------------------------------

  /** `_FREEROUTER_SEARCH_PATHS` for a user whose HOME is `home`. */
  function KnownJarPaths(home: string): seq<string> {
    ["/Volumes/Files/claude/KiCAD-mcp-extensions/freerouting-2.1.0.jar",
     ExpandUser(home, "freerouting-2.1.0.jar"), ExpandUser(home, "freerouting.jar")]
  }

  /** The files tried in order: the explicit path and FREEROUTER_JAR when they are set
      and non-empty, then the known locations. */
  function JarCandidates(explicit: Option<string>, env: Option<string>, home: string): seq<string> {
    (if Given(explicit) then [explicit.value] else [])
    + (if Given(env) then [env.value] else [])
    + KnownJarPaths(home)
  }

  /** `_find_freerouter_jar`: the first candidate that is a file, else what
      `shutil.which("freerouting")` found. */
  function FindJar(explicit: Option<string>, env: Option<string>, home: string,
                   isFile: string -> bool, which: Option<string>): (r: Option<string>)
    ensures Given(explicit) && isFile(explicit.value) ==> r == explicit
    ensures Given(env) && isFile(env.value) && !(Given(explicit) && isFile(explicit.value)) ==> r == env
    ensures (exists c :: c in JarCandidates(explicit, env, home) && isFile(c)) ==>
      r.Some? && exists k :: (0 <= k < |JarCandidates(explicit, env, home)|
      && JarCandidates(explicit, env, home)[k] == r.value
      && forall j :: 0 <= j < k ==> !isFile(JarCandidates(explicit, env, home)[j]))
    ensures (forall c :: c in JarCandidates(explicit, env, home) ==> !isFile(c)) ==>
      r == (if Given(which) then which else None)
  {
    var cands := JarCandidates(explicit, env, home);
    assert Given(explicit) ==> cands[0] == explicit.value;
    assert Given(env) ==> cands[if Given(explicit) then 1 else 0] == env.value;
    match FirstExisting(cands, isFile)
    case Some(path) => Some(path)
    case None => if Given(which) then which else None
  }

  // ---------------------------------------------------------------------
  // The routing passes of autoroute_pcb
  // ---------------------------------------------------------------------

  /** What one FreeRouter run did: time out, or exit with a code and its output, having
      written its session file or not. */
  datatype PassRun = TimedOut | Exited(code: int, stdout: string, stderr: string, sesWritten: bool)

  /** A `pass_results` entry. The timed-out entry's incomplete count is infinite. */
  datatype PassResult =
    | PassTimeout(pass: nat)
    | PassError(pass: nat, error: string)
    | PassNoOutput(pass: nat)
    | PassOk(pass: nat, incomplete: nat)

  /** The entry recorded for pass number `pass`. */
  function ResultOf(pass: nat, run: PassRun): (r: PassResult)
    ensures r.pass == pass
    ensures r.PassOk? <==> run.Exited? && run.code == 0 && run.sesWritten
  {
    match run
    case TimedOut => PassTimeout(pass)
    case Exited(code, stdout, stderr, written) =>
      if code != 0 then PassError(pass, Take(stderr, 500))
      else if !written then PassNoOutput(pass)
      else PassOk(pass, ParseIncomplete(stdout))
  }

  /** The session file a pass writes: the final path for a single pass, else a numbered
      file in the working directory. */
  function PassSes(sys: System, pass: nat, passes: nat, sesPath: string, workDir: string, base: string): string {
    if passes == 1 then sesPath else JoinPath(sys, workDir, base + "_pass" + NatText(pass) + ".ses")
  }

  /** The best pass so far as (pass number, incomplete count): a later pass replaces it
      only with strictly fewer incomplete connections. */
  function Best(results: seq<PassResult>): Option<(nat, nat)>
    decreases |results|
  {
    if results == [] then None
    else
      var best := Best(results[..|results| - 1]);
      var r := results[|results| - 1];
      if r.PassOk? && (best.None? || r.incomplete < best.value.1) then Some((r.pass, r.incomplete)) else best
  }

  /** The chosen pass is the earliest among those with the fewest incomplete connections,
      and only a pass that routed and wrote its session can be chosen. */
  lemma {:induction false} BestIsEarliestMinimum(results: seq<PassResult>)
    ensures Best(results).None? <==> forall k :: 0 <= k < |results| ==> !results[k].PassOk?
    ensures Best(results).Some? ==> exists k :: (0 <= k < |results|
      && results[k] == PassOk(Best(results).value.0, Best(results).value.1)
      && (forall j :: 0 <= j < |results| && results[j].PassOk? ==> Best(results).value.1 <= results[j].incomplete)
      && (forall j :: 0 <= j < k && results[j].PassOk? ==> Best(results).value.1 < results[j].incomplete))
    decreases |results|
  {
    if results != [] {
      var init := results[..|results| - 1];
      var r := results[|results| - 1];
      BestIsEarliestMinimum(init);
      assert forall k :: 0 <= k < |init| ==> init[k] == results[k];
      var best := Best(init);
      if r.PassOk? && (best.None? || r.incomplete < best.value.1) {
        var k := |results| - 1;
        if best.Some? {
          var i :| 0 <= i < |init| && init[i] == PassOk(best.value.0, best.value.1)
            && (forall j :: 0 <= j < |init| && init[j].PassOk? ==> best.value.1 <= init[j].incomplete);
        }
        assert results[k] == PassOk(r.pass, r.incomplete);
      } else if best.Some? {
        var i :| 0 <= i < |init| && init[i] == PassOk(best.value.0, best.value.1)
          && (forall j :: 0 <= j < |init| && init[j].PassOk? ==> best.value.1 <= init[j].incomplete)
          && (forall j :: 0 <= j < i && init[j].PassOk? ==> best.value.1 < init[j].incomplete);
        assert results[i] == init[i];
      }
    }
  }

  /** The result of the passes: every pass failed (the tool then reports "All FreeRouter
      passes failed" with the entries and imports nothing), or the best pass's session
      file and incomplete count, with one entry per pass either way. */
  datatype PassesOutcome =
    | AllPassesFailed(passes: seq<PassResult>)
    | Routed(ses: string, bestIncomplete: nat, passes: seq<PassResult>)

  /** `pass_results`: entry k records pass k + 1. */
  function PassResults(runs: seq<PassRun>): (rs: seq<PassResult>)
    ensures |rs| == |runs| && forall k :: 0 <= k < |runs| ==> rs[k] == ResultOf(k + 1, runs[k])
    decreases |runs|
  {
    if runs == [] then []
    else
      var init := PassResults(runs[..|runs| - 1]);
      assert forall k :: 0 <= k < |runs| - 1 ==> runs[..|runs| - 1][k] == runs[k];
      init + [ResultOf(|runs|, runs[|runs| - 1])]
  }

  function PassesSpec(sys: System, runs: seq<PassRun>, sesPath: string, workDir: string, base: string): PassesOutcome {
    var results := PassResults(runs);
    match Best(results)
    case None => AllPassesFailed(results)
    case Some((pass, incomplete)) => Routed(PassSes(sys, pass, |runs|, sesPath, workDir, base), incomplete, results)
  }

  /** The pass loop: one run per pass, in order, each recorded, the best one kept. */
  method RunPasses(sys: System, runs: seq<PassRun>, sesPath: string, workDir: string, base: string)
    returns (outcome: PassesOutcome)
    ensures outcome == PassesSpec(sys, runs, sesPath, workDir, base)
  {
    var bestSes: Option<string> := None;
    var bestIncomplete: Option<nat> := None;
    var results: seq<PassResult> := [];
    var i := 0;
    while i < |runs|
      invariant 0 <= i <= |runs|
      invariant results == PassResults(runs[..i])
      invariant bestIncomplete == (match Best(results) case None => None case Some(b) => Some(b.1))
      invariant bestSes == (match Best(results) case None => None
        case Some(b) => Some(PassSes(sys, b.0, |runs|, sesPath, workDir, base)))
    {
      var pass := i + 1;
      var ses := PassSes(sys, pass, |runs|, sesPath, workDir, base);
      var entry := ResultOf(pass, runs[i]);
      PassResultsStep(runs, i);
      BestStep(results, entry);
      results := results + [entry];
      if entry.PassOk? && (bestIncomplete.None? || entry.incomplete < bestIncomplete.value) {
        bestIncomplete := Some(entry.incomplete);
        bestSes := Some(ses);
      }
      i := i + 1;
    }
    assert runs[..|runs|] == runs;
    if bestSes.None? {
      outcome := AllPassesFailed(results);
    } else {
      outcome := Routed(bestSes.value, bestIncomplete.value, results);
    }
  }

  lemma PassResultsStep(runs: seq<PassRun>, i: nat)
    requires i < |runs|
    ensures PassResults(runs[..i + 1]) == PassResults(runs[..i]) + [ResultOf(i + 1, runs[i])]
  {
    assert runs[..i + 1][..i] == runs[..i];
  }

  /** A new entry replaces the best so far only when it routed with strictly fewer
      incomplete connections. */
  lemma BestStep(results: seq<PassResult>, e: PassResult)
    ensures e.PassOk? && (Best(results).None? || e.incomplete < Best(results).value.1) ==>
      Best(results + [e]) == Some((e.pass, e.incomplete))
    ensures !(e.PassOk? && (Best(results).None? || e.incomplete < Best(results).value.1)) ==>
      Best(results + [e]) == Best(results)
  {
    assert (results + [e])[..|results|] == results;
  }

  /** The passes never pick a pass that failed, and report one entry per pass. */
  lemma PassesOutcomeFacts(sys: System, runs: seq<PassRun>, sesPath: string, workDir: string, base: string)
    ensures |PassesSpec(sys, runs, sesPath, workDir, base).passes| == |runs|
    ensures PassesSpec(sys, runs, sesPath, workDir, base).AllPassesFailed? <==>
      forall k :: 0 <= k < |runs| ==> !(runs[k].Exited? && runs[k].code == 0 && runs[k].sesWritten)
    ensures var o := PassesSpec(sys, runs, sesPath, workDir, base);
      o.Routed? ==> exists k :: (0 <= k < |runs| && runs[k].Exited? && runs[k].code == 0 && runs[k].sesWritten
        && o.ses == PassSes(sys, k + 1, |runs|, sesPath, workDir, base)
        && o.bestIncomplete == ParseIncomplete(runs[k].stdout))
  {
    var results := PassResults(runs);
    BestIsEarliestMinimum(results);
    var o := PassesSpec(sys, runs, sesPath, workDir, base);
    if Best(results).None? {
      assert o == AllPassesFailed(results);
      forall k | 0 <= k < |runs| ensures !(runs[k].Exited? && runs[k].code == 0 && runs[k].sesWritten) {
        assert !ResultOf(k + 1, runs[k]).PassOk?;
      }
    } else {
      var b := Best(results).value;
      var k :| 0 <= k < |results| && results[k] == PassOk(b.0, b.1);
      assert o == Routed(PassSes(sys, b.0, |runs|, sesPath, workDir, base), b.1, results);
      ChosenRun(k + 1, runs[k], b.0, b.1);
    }
  }

  /** An entry that routed comes from a run that exited cleanly with its session written,
      and carries that run's pass number and count. */
  lemma ChosenRun(pass: nat, run: PassRun, p: nat, n: nat)
    requires ResultOf(pass, run) == PassOk(p, n)
    ensures run.Exited? && run.code == 0 && run.sesWritten
    ensures p == pass && n == ParseIncomplete(run.stdout)
  {
  }
}

/** The net table of a `.kicad_pcb` file edited as text: adding one net, the guard of the
    bulk pad assignment, and reconciling the nets of the schematic's netlist with the
    board's (the "update PCB from schematic" step). The board is held as its file text. */
module PcbNets {
  import opened Wrappers
  import opened Strings
  import opened TextScan
  import opened PyDict

  // ---------------------------------------------------------------------
  // The net-definition patterns
  // ---------------------------------------------------------------------

  /** `\(net\s+(\d+)\s+` */
  const NetOpen: Pattern := [Lit("(net"), Spaces, Digits, Spaces]

  /** `\(net\s+(\d+)\s+"`: where every code is read. */
  const CodePattern: Pattern := NetOpen + [Lit("\"")]

  /** `\(net\s+(\d+)\s+"<name>"\)` with the name escaped, so that it stands for itself. */
  function NamedNet(name: string): Pattern {
    NetOpen + [Lit("\"" + name + "\")")]
  }

  /** `\(net\s+(\d+)\s+"([^"]*)"\)`, split after its first group. */
  const NetHead: Pattern := [Lit("(net"), Spaces, Digits]
  const NetTail: Pattern := [Spaces, Quoted(false), Lit(")")]

  lemma PatternFacts(name: string)
    ensures Consuming(CodePattern) && Consuming(NamedNet(name)) && Consuming(NetHead + NetTail)
    ensures DigitCaptures(CodePattern) && DigitCaptures(NamedNet(name)) && DigitCaptures(NetHead)
  {
    assert Consumes(CodePattern[0]) && Consumes(NamedNet(name)[0]) && Consumes((NetHead + NetTail)[0]);
  }

  /** `int(m.group(1))` for a match whose only captures are `(\d+)`. */
  function CodeAt(s: string, k: nat, p: Pattern): nat
    requires k <= |s| && DigitCaptures(p) && MatchAt(s, k, p).Some?
  {
    DigitGroup(s, k, p, []);
    DigitsValue(MatchAt(s, k, p).value.group)
  }

  /** The codes of the `(net N "` occurrences starting at `ps`. */
  function CodesAt(s: string, ps: seq<nat>): (r: seq<nat>)
    requires AllMatch(s, ps, CodePattern)
    ensures |r| == |ps|
    decreases |ps|
  {
    PatternFacts([]);
    if ps == [] then [] else CodesAt(s, ps[..|ps| - 1]) + [CodeAt(s, ps[|ps| - 1], CodePattern)]
  }

  /** Every code written in a `(net N "` occurrence, in text order. */
  function Codes(s: string): seq<nat> {
    PatternFacts([]);
    CodesAt(s, FindAll(s, CodePattern, 0))
  }

  /** Python's `max` over natural numbers, 0 for none. */
  function MaxCode(xs: seq<nat>): (m: nat)
    ensures xs == [] ==> m == 0
    ensures xs != [] ==> m in xs
    ensures forall x :: x in xs ==> x <= m
    decreases |xs|
  {
    if xs == [] then 0
    else
      var rest := MaxCode(xs[..|xs| - 1]);
      assert forall x :: x in xs ==> x in xs[..|xs| - 1] || x == xs[|xs| - 1] by {
        assert xs == xs[..|xs| - 1] + [xs[|xs| - 1]];
      }
      if xs[|xs| - 1] >= rest then xs[|xs| - 1] else rest
  }

  /** The loop of `_get_next_net_number` over the matches at `ps`. */
  method LargestCode(s: string, ps: seq<nat>) returns (best: nat)
    requires AllMatch(s, ps, CodePattern)
    ensures best == MaxCode(CodesAt(s, ps))
  {
    PatternFacts([]);
    best := 0;
    var i := 0;
    while i < |ps|
      invariant 0 <= i <= |ps|
      invariant AllMatch(s, ps[..i], CodePattern)
      invariant best == MaxCode(CodesAt(s, ps[..i]))
    {
      var c := CodeAt(s, ps[i], CodePattern);
      CodesStep(s, ps, i);
      MaxStep(CodesAt(s, ps[..i]), c);
      if c >= best {
        best := c;
      }
      i := i + 1;
    }
    assert ps[..|ps|] == ps;
  }

  lemma CodesStep(s: string, ps: seq<nat>, i: nat)
    requires AllMatch(s, ps, CodePattern) && i < |ps|
    ensures AllMatch(s, ps[..i], CodePattern) && AllMatch(s, ps[..i + 1], CodePattern)
    ensures CodesAt(s, ps[..i + 1]) == CodesAt(s, ps[..i]) + [CodeAt(s, ps[i], CodePattern)]
  {
    assert ps[..i + 1][..i] == ps[..i];
  }

  /** One more code raises the largest only when it is at least as large. */
  lemma MaxStep(xs: seq<nat>, x: nat)
    ensures MaxCode(xs + [x]) == if x >= MaxCode(xs) then x else MaxCode(xs)
  {
    assert (xs + [x])[..|xs|] == xs;
  }

  /** The code `add_net` gives a new net: one more than the largest code in the file, or 1. */
  function NextCode(s: string): (c: nat)
    ensures c >= 1 && forall x :: x in Codes(s) ==> x < c
    ensures Codes(s) != [] ==> c - 1 in Codes(s)
  {
    var cs := Codes(s);
    if cs == [] then 1 else MaxCode(cs) + 1
  }

  /** Where the last complete net definition `(net N "name")` ends. */
  function LastNetEnd(s: string): (r: Option<nat>)
    ensures r.Some? ==> r.value <= |s|
  {
    PatternFacts([]);
    var ps := FindAll(s, NetHead + NetTail, 0);
    if ps == [] then None else Some(MatchAt(s, ps[|ps| - 1], NetHead + NetTail).value.end)
  }

  /** The definition line `add_net` and the reconciliation insert. */
  function NetLine(code: nat, name: string): string {
    "\n\t(net " + NatText(code) + " \"" + name + "\")"
  }

  // ---------------------------------------------------------------------
  // add_net
  // ---------------------------------------------------------------------

  datatype AddNetOutcome = AlreadyExists(code: nat) | Added(code: nat) | NoNetDefinitions

  function AddNetMessage(o: AddNetOutcome): Option<string> {
    if o.NoNetDefinitions? then Some("Could not find net definitions in PCB file") else None
  }

  /** `add_net` on the file text: an existing net is reported with its code and the text
      kept; otherwise the new definition goes right after the last definition, or the text
      is kept and an error reported when there is none. */
  function AddNetSpec(s: string, name: string): (r: (AddNetOutcome, string))
    ensures r.0.AlreadyExists? <==> Search(s, NamedNet(name), 0).Some?
    ensures !r.0.Added? ==> r.1 == s
    ensures r.0.AlreadyExists? ==> r.0.code == CodeAt(s, Search(s, NamedNet(name), 0).value, NamedNet(name))
    ensures r.0.NoNetDefinitions? <==> Search(s, NamedNet(name), 0).None? && LastNetEnd(s).None?
    ensures r.0.Added? ==> (LastNetEnd(s).Some? && r.0.code == NextCode(s)
      && r.1 == s[..LastNetEnd(s).value] + NetLine(r.0.code, name) + s[LastNetEnd(s).value..])
  {
    PatternFacts(name);
    match Search(s, NamedNet(name), 0)
    case Some(k) => (AlreadyExists(CodeAt(s, k, NamedNet(name))), s)
    case None =>
      match LastNetEnd(s)
      case None => (NoNetDefinitions, s)
      case Some(p) =>
        var t := s[..p] + NetLine(NextCode(s), name) + s[p..];
        assert t[..p] == s[..p];
        assert t[|t| - |NetLine(NextCode(s), name) + s[p..]|..] == NetLine(NextCode(s), name) + s[p..];
        (Added(NextCode(s)), t)
  }

  lemma {:induction false} SpaceRunIs(s: string, i: nat, n: nat)
    requires i + n <= |s|
    requires forall j :: i <= j < i + n ==> IsSpace(s[j])
    requires i + n < |s| ==> !IsSpace(s[i + n])
    ensures SpaceRun(s, i) == n
    decreases n
  {
    if n > 0 {
      SpaceRunIs(s, i + 1, n - 1);
    }
  }

  lemma {:induction false} DigitRunIs(s: string, i: nat, n: nat)
    requires i + n <= |s|
    requires forall j :: i <= j < i + n ==> IsDigit(s[j])
    requires i + n < |s| ==> !IsDigit(s[i + n])
    ensures DigitRun(s, i) == n
    decreases n
  {
    if n > 0 {
      DigitRunIs(s, i + 1, n - 1);
    }
  }

  /** The existence pattern matches wherever the text reads `(net`, one space, a code,
      one space and the quoted name with its closing bracket. */
  lemma NamedNetAt(s: string, i: nat, t: string, q: string)
    requires t != [] && forall j :: 0 <= j < |t| ==> IsDigit(t[j])
    requires q != [] && q[0] == '"'
    requires i + 6 + |t| + |q| <= |s|
    requires s[i..i + 4] == "(net" && s[i + 4] == ' ' && s[i + 5..i + 5 + |t|] == t
    requires s[i + 5 + |t|] == ' ' && s[i + 6 + |t|..i + 6 + |t| + |q|] == q
    ensures MatchAt(s, i, NetOpen + [Lit(q)]).Some?
  {
    var d := i + 5;
    var e := d + |t|;
    assert s[d] == t[0];
    SpaceRunIs(s, i + 4, 1);
    assert forall j :: d <= j < e ==> s[j] == t[j - d];
    DigitRunIs(s, d, |t|);
    assert s[e + 1] == '"';
    SpaceRunIs(s, e, 1);
    assert s[i..][..4] == s[i..i + 4];
    assert s[e + 1..][..|q|] == s[e + 1..e + 1 + |q|];
    NamedNetSteps(s, i, e, q);
  }

  /** The five atoms of the existence pattern matched one after the other. */
  lemma NamedNetSteps(s: string, i: nat, e: nat, q: string)
    requires i + 5 < e < |s|
    requires StartsWith(s[i..], "(net") && SpaceRun(s, i + 4) == 1
    requires DigitRun(s, i + 5) == e - (i + 5) && SpaceRun(s, e) == 1
    requires StartsWith(s[e + 1..], q)
    ensures MatchAt(s, i, NetOpen + [Lit(q)]).Some?
  {
    var d := i + 5;
    var g := s[d..e];
    NamedNetAtoms(s, i, e, q);
    var p := NetOpen + [Lit(q)];
    assert p == [Lit("(net"), Spaces, Digits, Spaces, Lit(q)];
    var p1, p2, p3, p4 := p[1..], p[2..], p[3..], p[4..];
    assert p1[0] == Spaces && p1[1..] == p2;
    assert p2[0] == Digits && p2[1..] == p3;
    assert p3[0] == Spaces && p3[1..] == p4;
    assert p4[0] == Lit(q) && p4[1..] == [];
    MatchStep(s, i, p, [], Match(i + 4, []));
    MatchStep(s, i + 4, p1, [], Match(d, []));
    MatchStep(s, d, p2, [], Match(e, g));
    MatchStep(s, e, p3, g, Match(e + 1, g));
    MatchStep(s, e + 1, p4, g, Match(e + 1 + |q|, g));
  }

  /** Each atom of the existence pattern on its own. */
  lemma NamedNetAtoms(s: string, i: nat, e: nat, q: string)
    requires i + 5 < e < |s|
    requires StartsWith(s[i..], "(net") && SpaceRun(s, i + 4) == 1
    requires DigitRun(s, i + 5) == e - (i + 5) && SpaceRun(s, e) == 1
    requires StartsWith(s[e + 1..], q)
    ensures Step(s, i, Lit("(net"), []) == Some(Match(i + 4, []))
    ensures Step(s, i + 4, Spaces, []) == Some(Match(i + 5, []))
    ensures Step(s, i + 5, Digits, []) == Some(Match(e, s[i + 5..e]))
    ensures Step(s, e, Spaces, s[i + 5..e]) == Some(Match(e + 1, s[i + 5..e]))
    ensures Step(s, e + 1, Lit(q), s[i + 5..e]) == Some(Match(e + 1 + |q|, s[i + 5..e]))
  {
  }

  /** The inserted definition line matches the existence pattern for its own name. */
  lemma NetLineMatches(a: string, code: nat, name: string, b: string)
    ensures |a| + 2 <= |a + NetLine(code, name) + b|
    ensures MatchAt(a + NetLine(code, name) + b, |a| + 2, NamedNet(name)).Some?
  {
    var t := NatText(code);
    var q := "\"" + name + "\")";
    var line := NetLine(code, name);
    assert line == "\n\t" + "(net" + " " + t + " " + q;
    var s := a + line + b;
    var i := |a| + 2;
    assert s[i..i + 4] == "(net";
    assert s[i + 4] == ' ';
    assert s[i + 5..i + 5 + |t|] == t;
    assert s[i + 5 + |t|] == ' ';
    assert s[i + 6 + |t|..i + 6 + |t| + |q|] == q;
    NamedNetAt(s, i, t, q);
  }

  /** Adding a net twice changes the file once: after a successful first call the second
      finds the net and leaves the text alone. */
  lemma AddNetIdempotent(s: string, name: string)
    ensures AddNetSpec(s, name).0 != NoNetDefinitions ==>
      AddNetSpec(AddNetSpec(s, name).1, name).0.AlreadyExists?
      && AddNetSpec(AddNetSpec(s, name).1, name).1 == AddNetSpec(s, name).1
  {
    var (r, t) := AddNetSpec(s, name);
    if r.Added? {
      var p := LastNetEnd(s).value;
      NetLineMatches(s[..p], r.code, name, s[p..]);
      assert t == s[..p] + NetLine(r.code, name) + s[p..];
      assert Matches(t, p + 2, NamedNet(name));
    }
  }

  /** The added definition carries a code no definition in the file uses. */
  lemma AddedCodeIsFresh(s: string, name: string)
    ensures AddNetSpec(s, name).0.Added? ==>
      AddNetSpec(s, name).0.code >= 1 && forall c :: c in Codes(s) ==> c < AddNetSpec(s, name).0.code
  {
  }

  /** The board file as text. */
  class PcbText {
    var content: string

    constructor(text: string)
      ensures content == text
    {
      content := text;
    }

    /** The largest code among the `(net N "` occurrences, read in one pass. */
    method ScanCodes() returns (next: nat)
      ensures next == NextCode(content)
    {
      PatternFacts([]);
      var at := FindAll(content, CodePattern, 0);
      var best := LargestCode(content, at);
      next := if |at| == 0 then 1 else best + 1;
    }

    /** The scan that keeps the last complete net definition. */
    method ScanLastNet() returns (last: Option<nat>)
      ensures last == LastNetEnd(content)
    {
      PatternFacts([]);
      var at := FindAll(content, NetHead + NetTail, 0);
      var lastAt: Option<nat> := None;
      var i := 0;
      while i < |at|
        invariant 0 <= i <= |at|
        invariant lastAt == if i == 0 then None else Some(at[i - 1])
      {
        lastAt := Some(at[i]);
        i := i + 1;
      }
      last := if lastAt.None? then None else Some(MatchAt(content, lastAt.value, NetHead + NetTail).value.end);
    }

    /** `add_net` after the file has been read. */
    method AddNet(name: string) returns (r: AddNetOutcome)
      modifies this
      ensures (r, content) == AddNetSpec(old(content), name)
    {
      PatternFacts(name);
      var found := Search(content, NamedNet(name), 0);
      if found.Some? {
        return AlreadyExists(CodeAt(content, found.value, NamedNet(name)));
      }
      var next := ScanCodes();
      var last := ScanLastNet();
      if last.None? {
        return NoNetDefinitions;
      }
      var p := last.value;
      content := content[..p] + NetLine(next, name) + content[p..];
      r := Added(next);
    }

    /** The `finditer` loop that fills `existing_nets`. */
    method ScanNets() returns (d: Dict)
      ensures d == ExistingNets(content)
    {
      PatternFacts([]);
      var at := FindAll(content, NetHead + NetTail, 0);
      d := [];
      var i := 0;
      while i < |at|
        invariant 0 <= i <= |at|
        invariant d == NetsAt(content, at[..i])
      {
        assert at[..i + 1][..i] == at[..i];
        var pair := NetPair(content, at[i]);
        d := Upsert(d, pair.0, pair.1);
        i := i + 1;
      }
      assert at[..|at|] == at;
    }

    /** The text of the created definitions, built line by line. */
    static method BuildLines(created: seq<string>, nets: Dict) returns (lines: string)
      requires forall k :: 0 <= k < |created| ==> Lookup(nets, created[k]).Some?
      ensures lines == NewLines(created, nets)
    {
      lines := [];
      var k := 0;
      while k < |created|
        invariant 0 <= k <= |created|
        invariant lines == NewLines(created[..k], nets)
      {
        assert created[..k + 1][..k] == created[..k];
        lines := lines + NetLine(Lookup(nets, created[k]).value, created[k]);
        k := k + 1;
      }
      assert created[..|created|] == created;
    }

    /** The reconciliation loop over the definitions. */
    static method ReconcileLoop(defs: seq<string>, known: Dict, start: nat) returns (r: Reconciled)
      ensures r == Reconcile(defs, known, start)
    {
      var nets := known;
      var maxCode := start;
      var created: seq<string> := [];
      var existing: seq<string> := [];
      var i := 0;
      while i < |defs|
        invariant 0 <= i <= |defs|
        invariant Reconcile(defs[..i], known, start) == Reconciled(created, existing, nets, maxCode)
      {
        assert defs[..i + 1][..i] == defs[..i];
        var name := defs[i];
        if Lookup(nets, name).Some? {
          existing := existing + [name];
        } else {
          maxCode := maxCode + 1;
          nets := Upsert(nets, name, maxCode);
          created := created + [name];
        }
        i := i + 1;
      }
      assert defs[..|defs|] == defs;
      r := Reconciled(created, existing, nets, maxCode);
    }

    /** The net steps of `update_pcb_from_schematic`: read the existing nets, reconcile the
        definitions with them, and insert the created ones. */
    method SyncNets(defs: seq<string>) returns (created: seq<string>, existing: seq<string>)
      modifies this
      ensures created == SyncSpec(old(content), defs).0.created
      ensures existing == SyncSpec(old(content), defs).0.existing
      ensures content == SyncSpec(old(content), defs).1
    {
      var known := ScanNets();
      var start := MaxValue(known);
      var r := ReconcileLoop(defs, known, start);
      ReconcileCodes(defs, known, start);
      created := r.created;
      existing := r.existing;
      if created != [] {
        var last := ScanLastNet();
        if last.Some? {
          var lines := BuildLines(created, r.nets);
          var p := last.value;
          content := content[..p] + lines + content[p..];
        }
      }
    }
  }

  /** What every tool answers when the board file does not exist. */
  function PcbMissing(path: string): string {
    "PCB file not found: " + path
  }

  /** `add_net` with its missing-file check. */
  method AddNetTool(path: string, present: bool, pcb: PcbText, name: string) returns (r: Result<AddNetOutcome, string>)
    modifies pcb
    ensures !present ==> r == Err(PcbMissing(path)) && pcb.content == old(pcb.content)
    ensures present ==> r.Ok? && (r.value, pcb.content) == AddNetSpec(old(pcb.content), name)
  {
    if !present {
      return Err(PcbMissing(path));
    }
    var outcome := pcb.AddNet(name);
    r := Ok(outcome);
  }

  // ---------------------------------------------------------------------
  // bulk_assign_pad_nets
  // ---------------------------------------------------------------------

  datatype PadAssignment = PadAssignment(reference: string, pad: string, net: string)

  /** The checks before the bulk assignment script is built: the file must exist and the
      list must not be empty. */
  function BulkAssignGuard(path: string, present: bool, assignments: seq<PadAssignment>): (r: Option<string>)
    ensures r.None? <==> present && assignments != []
    ensures !present ==> r == Some(PcbMissing(path))
    ensures present && assignments == [] ==> r == Some("No assignments provided")
  {
    if !present then Some(PcbMissing(path))
    else if assignments == [] then Some("No assignments provided")
    else None
  }

  // ---------------------------------------------------------------------
  // update_pcb_from_schematic
  // ---------------------------------------------------------------------

  datatype Platform = Darwin | Linux | Windows | OtherPlatform(name: string)

  function CliPath(p: Platform): string {
    match p
    case Darwin => "/Applications/KiCad/KiCad.app/Contents/MacOS/kicad-cli"
    case Linux => "kicad-cli"
    case Windows => "C:\\Program Files\\KiCad\\bin\\kicad-cli.exe"
    case OtherPlatform(_) => []
  }

  /** The checks before the netlist export, in the order the tool makes them. On Linux
      `kicad-cli` is looked up on the search path, so its absence is not an error here. */
  function SyncPrecheck(projectPath: string, projectPresent: bool, schPath: string, schPresent: bool,
                        pcbPath: string, pcbPresent: bool, platform: Platform, cliPresent: bool): (r: Option<string>)
    ensures r.None? <==> (projectPresent && schPresent && pcbPresent && !platform.OtherPlatform?
      && (cliPresent || platform == Linux))
    ensures !projectPresent ==> r == Some("Project file not found: " + projectPath)
    ensures projectPresent && !schPresent ==> r == Some("Schematic file not found: " + schPath)
    ensures projectPresent && schPresent && !pcbPresent ==> r == Some(PcbMissing(pcbPath))
  {
    if !projectPresent then Some("Project file not found: " + projectPath)
    else if !schPresent then Some("Schematic file not found: " + schPath)
    else if !pcbPresent then Some(PcbMissing(pcbPath))
    else if platform.OtherPlatform? then Some("Unsupported platform: " + platform.name)
    else if !cliPresent && platform != Linux then Some("kicad-cli not found at: " + CliPath(platform))
    else None
  }

  /** A `<node>` of the exported netlist; a missing attribute reads as "". */
  datatype XmlNode = XmlNode(reference: string, pin: string)

  /** A `<net>` of the exported netlist. */
  datatype XmlNet = XmlNet(name: string, nodes: seq<XmlNode>)

  /** The pad assignments of one net's nodes: those with both a reference and a pin. */
  function NodeAssignments(nodes: seq<XmlNode>, net: string): (r: seq<PadAssignment>)
    ensures forall k :: 0 <= k < |r| ==> r[k].reference != [] && r[k].pad != [] && r[k].net == net
    ensures |r| <= |nodes|
    decreases |nodes|
  {
    if nodes == [] then []
    else
      var n := nodes[|nodes| - 1];
      NodeAssignments(nodes[..|nodes| - 1], net)
      + (if n.reference != [] && n.pin != [] then [PadAssignment(n.reference, n.pin, net)] else [])
  }

  /** The net definitions: every named net, its name without leading "/". */
  function Definitions(nets: seq<XmlNet>): (r: seq<string>)
    ensures forall k :: 0 <= k < |r| ==> r[k] == [] || r[k][0] != '/'
    ensures |r| <= |nets|
    decreases |nets|
  {
    if nets == [] then []
    else
      var n := nets[|nets| - 1];
      Definitions(nets[..|nets| - 1]) + (if n.name != [] then [LStrip(n.name, '/')] else [])
  }

  /** The pad assignments of all named nets, in netlist order. */
  function Assignments(nets: seq<XmlNet>): seq<PadAssignment>
    decreases |nets|
  {
    if nets == [] then []
    else
      var n := nets[|nets| - 1];
      Assignments(nets[..|nets| - 1]) + (if n.name != [] then NodeAssignments(n.nodes, LStrip(n.name, '/')) else [])
  }

  /** Every pad assignment names a pad and one of the net definitions. */
  lemma {:induction false} AssignmentsUseDefinitions(nets: seq<XmlNet>)
    ensures forall a :: a in Assignments(nets) ==> a.reference != [] && a.pad != [] && a.net in Definitions(nets)
    decreases |nets|
  {
    if nets != [] {
      var init := nets[..|nets| - 1];
      AssignmentsUseDefinitions(init);
    }
  }

  /** A net without a name adds neither a definition nor an assignment. */
  lemma NamelessNetSkipped(nets: seq<XmlNet>, nodes: seq<XmlNode>)
    ensures Definitions(nets + [XmlNet([], nodes)]) == Definitions(nets)
    ensures Assignments(nets + [XmlNet([], nodes)]) == Assignments(nets)
  {
    assert (nets + [XmlNet([], nodes)])[..|nets|] == nets;
  }

  /** The loops over `<net>` and `<node>` elements. */
  method ReadNetlist(nets: seq<XmlNet>) returns (defs: seq<string>, pads: seq<PadAssignment>)
    ensures defs == Definitions(nets) && pads == Assignments(nets)
  {
    defs := [];
    pads := [];
    var i := 0;
    while i < |nets|
      invariant 0 <= i <= |nets|
      invariant defs == Definitions(nets[..i]) && pads == Assignments(nets[..i])
    {
      ReadStep(nets, i);
      var n := nets[i];
      if n.name != [] {
        var clean := LStrip(n.name, '/');
        defs := defs + [clean];
        var own := NodePads(n.nodes, clean);
        pads := pads + own;
      }
      i := i + 1;
    }
    assert nets[..|nets|] == nets;
  }

  /** The loop over the `<node>` elements of one named net. */
  method NodePads(nodes: seq<XmlNode>, net: string) returns (own: seq<PadAssignment>)
    ensures own == NodeAssignments(nodes, net)
  {
    own := [];
    var j := 0;
    while j < |nodes|
      invariant 0 <= j <= |nodes|
      invariant own == NodeAssignments(nodes[..j], net)
    {
      assert nodes[..j + 1][..j] == nodes[..j];
      var node := nodes[j];
      if node.reference != [] && node.pin != [] {
        own := own + [PadAssignment(node.reference, node.pin, net)];
      }
      j := j + 1;
    }
    assert nodes[..|nodes|] == nodes;
  }

  lemma ReadStep(nets: seq<XmlNet>, i: nat)
    requires i < |nets|
    ensures nets[i].name == [] ==>
      Definitions(nets[..i + 1]) == Definitions(nets[..i]) && Assignments(nets[..i + 1]) == Assignments(nets[..i])
    ensures nets[i].name != [] ==>
      Definitions(nets[..i + 1]) == Definitions(nets[..i]) + [LStrip(nets[i].name, '/')]
      && Assignments(nets[..i + 1]) == Assignments(nets[..i]) + NodeAssignments(nets[i].nodes, LStrip(nets[i].name, '/'))
  {
    assert nets[..i + 1][..i] == nets[..i];
  }

  /** The (name, code) pair of a net definition matched at `k`. */
  function NetPair(s: string, k: nat): (string, nat)
    requires Matches(s, k, NetHead + NetTail)
  {
    MatchConcat(s, k, NetHead, NetTail, []);
    PatternFacts([]);
    (MatchAt(s, k, NetHead + NetTail).value.group, CodeAt(s, k, NetHead))
  }

  /** The dict built from the definitions at `ps`, later ones overwriting earlier codes. */
  function NetsAt(s: string, ps: seq<nat>): (r: Dict)
    requires AllMatch(s, ps, NetHead + NetTail)
    ensures DistinctKeys(r)
    decreases |ps|
  {
    if ps == [] then []
    else
      var (name, code) := NetPair(s, ps[|ps| - 1]);
      Upsert(NetsAt(s, ps[..|ps| - 1]), name, code)
  }

  /** `existing_nets`: every `(net N "name")` definition of the file. */
  function ExistingNets(s: string): (r: Dict)
    ensures DistinctKeys(r)
  {
    PatternFacts([]);
    NetsAt(s, FindAll(s, NetHead + NetTail, 0))
  }

  /** `max(existing_nets.values())`, or 0 for an empty dict. */
  function MaxValue(d: Dict): (m: nat)
    ensures forall k :: 0 <= k < |d| ==> d[k].1 <= m
    ensures d == [] ==> m == 0
    ensures d != [] ==> exists k :: 0 <= k < |d| && d[k].1 == m
    decreases |d|
  {
    if d == [] then 0
    else
      var rest := MaxValue(d[..|d| - 1]);
      assert forall k :: 0 <= k < |d| - 1 ==> d[..|d| - 1][k] == d[k];
      if d[|d| - 1].1 >= rest then d[|d| - 1].1 else rest
  }

  /** The state of the reconciliation loop. */
  datatype Reconciled = Reconciled(created: seq<string>, existing: seq<string>, nets: Dict, maxCode: nat)

  /** The reconciliation loop over the definitions: a name already known is listed as
      existing, any other gets the next code and is listed as created. */
  function Reconcile(defs: seq<string>, nets: Dict, maxCode: nat): Reconciled
    decreases |defs|
  {
    if defs == [] then Reconciled([], [], nets, maxCode)
    else
      var r := Reconcile(defs[..|defs| - 1], nets, maxCode);
      var name := defs[|defs| - 1];
      if Lookup(r.nets, name).Some? then r.(existing := r.existing + [name])
      else Reconciled(r.created + [name], r.existing, Upsert(r.nets, name, r.maxCode + 1), r.maxCode + 1)
  }

  /** Every definition lands in exactly one of the two lists, and the code counter
      advances once per created net. */
  lemma {:induction false} ReconcileCounts(defs: seq<string>, nets: Dict, maxCode: nat)
    ensures |Reconcile(defs, nets, maxCode).created| + |Reconcile(defs, nets, maxCode).existing| == |defs|
    ensures Reconcile(defs, nets, maxCode).maxCode == maxCode + |Reconcile(defs, nets, maxCode).created|
    ensures forall name :: name in defs <==>
      name in Reconcile(defs, nets, maxCode).created || name in Reconcile(defs, nets, maxCode).existing
    decreases |defs|
  {
    if defs != [] {
      var init := defs[..|defs| - 1];
      ReconcileCounts(init, nets, maxCode);
      assert defs == init + [defs[|defs| - 1]];
    }
  }

  /** The loop only adds names: every old name and every definition is known after it. */
  lemma {:induction false} ReconcileKeys(defs: seq<string>, nets: Dict, maxCode: nat)
    ensures KeySet(nets) <= KeySet(Reconcile(defs, nets, maxCode).nets)
    ensures forall name :: name in defs ==> name in KeySet(Reconcile(defs, nets, maxCode).nets)
    decreases |defs|
  {
    if defs != [] {
      var init := defs[..|defs| - 1];
      var name := defs[|defs| - 1];
      ReconcileKeys(init, nets, maxCode);
      var r := Reconcile(init, nets, maxCode);
      assert forall x :: x in defs ==> x in init || x == name by {
        assert defs == init + [name];
      }
      if Lookup(r.nets, name).Some? {
        assert Reconcile(defs, nets, maxCode).nets == r.nets;
      } else {
        assert Reconcile(defs, nets, maxCode).nets == Upsert(r.nets, name, r.maxCode + 1);
      }
    }
  }

  /** Created names were unknown before and are created once each. */
  lemma {:induction false} ReconcileFresh(defs: seq<string>, nets: Dict, maxCode: nat)
    ensures var r := Reconcile(defs, nets, maxCode);
      (forall k :: 0 <= k < |r.created| ==> r.created[k] !in KeySet(nets) && r.created[k] in KeySet(r.nets))
      && (forall k, l :: 0 <= k < l < |r.created| ==> r.created[k] != r.created[l])
    decreases |defs|
  {
    if defs != [] {
      var init := defs[..|defs| - 1];
      var name := defs[|defs| - 1];
      ReconcileFresh(init, nets, maxCode);
      var r := Reconcile(init, nets, maxCode);
      if Lookup(r.nets, name).None? {
        ReconcileKeys(init, nets, maxCode);
        var c := r.created + [name];
        assert Reconcile(defs, nets, maxCode).created == c;
        assert KeySet(Reconcile(defs, nets, maxCode).nets) == KeySet(r.nets) + {name};
        assert forall k :: 0 <= k < |r.created| ==> c[k] == r.created[k];
      }
    }
  }

  /** Created names receive consecutive codes from `maxCode + 1`, in definition order. */
  lemma {:induction false} ReconcileCodes(defs: seq<string>, nets: Dict, maxCode: nat)
    ensures var r := Reconcile(defs, nets, maxCode);
      r.maxCode == maxCode + |r.created|
      && forall k :: 0 <= k < |r.created| ==> Lookup(r.nets, r.created[k]) == Some(maxCode + 1 + k)
    decreases |defs|
  {
    if defs != [] {
      var init := defs[..|defs| - 1];
      var name := defs[|defs| - 1];
      ReconcileCodes(init, nets, maxCode);
      var r := Reconcile(init, nets, maxCode);
      if Lookup(r.nets, name).None? {
        var u := Upsert(r.nets, name, r.maxCode + 1);
        var c := r.created + [name];
        assert Reconcile(defs, nets, maxCode) == Reconciled(c, r.existing, u, r.maxCode + 1);
        ReconcileFresh(init, nets, maxCode);
        forall k | 0 <= k < |c| ensures Lookup(u, c[k]) == Some(maxCode + 1 + k) {
          if k < |r.created| {
            var other := r.created[k];
            assert c[k] == other && other != name;
            UpsertOther(r.nets, name, r.maxCode + 1, other);
          } else {
            assert c[k] == name;
          }
        }
      }
    }
  }

  /** The text inserted for the created nets, each with its code from the dict. */
  function NewLines(created: seq<string>, nets: Dict): string
    requires forall k :: 0 <= k < |created| ==> Lookup(nets, created[k]).Some?
    decreases |created|
  {
    if created == [] then []
    else NewLines(created[..|created| - 1], nets) + NetLine(Lookup(nets, created[|created| - 1]).value, created[|created| - 1])
  }

  /** The same text written with consecutive codes from `first`. */
  function NumberedLines(names: seq<string>, first: nat): string
    decreases |names|
  {
    if names == [] then []
    else NumberedLines(names[..|names| - 1], first) + NetLine(first + |names| - 1, names[|names| - 1])
  }

  lemma {:induction false} NewLinesNumbered(created: seq<string>, nets: Dict, base: nat)
    requires forall k :: 0 <= k < |created| ==> Lookup(nets, created[k]) == Some(base + 1 + k)
    ensures NewLines(created, nets) == NumberedLines(created, base + 1)
    decreases |created|
  {
    if created != [] {
      var init := created[..|created| - 1];
      assert forall k :: 0 <= k < |init| ==> init[k] == created[k];
      NewLinesNumbered(init, nets, base);
    }
  }

  /** The reconciliation on the file text: the created definitions are inserted after
      the last existing one when there is one, and the text is kept otherwise. */
  function SyncSpec(s: string, defs: seq<string>): (Reconciled, string) {
    SyncWith(s, defs, ExistingNets(s), LastNetEnd(s))
  }

  /** The reconciliation against the nets `existing` read from `s`, inserting after `last`. */
  function SyncWith(s: string, defs: seq<string>, existing: Dict, last: Option<nat>): (Reconciled, string)
    requires last.Some? ==> last.value <= |s|
  {
    var r := Reconcile(defs, existing, MaxValue(existing));
    ReconcileCodes(defs, existing, MaxValue(existing));
    (r, InsertCreated(s, last, r))
  }

  /** The text after the created definitions are inserted at `last`, if anything was
      created and there is a place to insert it. */
  function InsertCreated(s: string, last: Option<nat>, r: Reconciled): string
    requires last.Some? ==> last.value <= |s|
    requires forall k :: 0 <= k < |r.created| ==> Lookup(r.nets, r.created[k]).Some?
  {
    if r.created != [] && last.Some? then s[..last.value] + NewLines(r.created, r.nets) + s[last.value..]
    else s
  }

  /** With nothing created, or no definition to insert after, the text is kept. */
  lemma SyncTextKept(s: string, defs: seq<string>)
    requires SyncSpec(s, defs).0.created == [] || LastNetEnd(s).None?
    ensures SyncSpec(s, defs).1 == s
  {
  }

  /** The inserted text holds the created nets in creation order with consecutive codes
      from one past the largest existing code, right after the last existing definition. */
  lemma SyncTextInserted(s: string, defs: seq<string>)
    requires SyncSpec(s, defs).0.created != [] && LastNetEnd(s).Some?
    ensures SyncSpec(s, defs).1 == s[..LastNetEnd(s).value] + NumberedLines(SyncSpec(s, defs).0.created, MaxValue(ExistingNets(s)) + 1)
      + s[LastNetEnd(s).value..]
  {
    SyncWithInserted(s, defs, ExistingNets(s), LastNetEnd(s).value);
  }

  lemma SyncWithInserted(s: string, defs: seq<string>, existing: Dict, p: nat)
    requires p <= |s| && SyncWith(s, defs, existing, Some(p)).0.created != []
    ensures SyncWith(s, defs, existing, Some(p)).1
      == s[..p] + NumberedLines(SyncWith(s, defs, existing, Some(p)).0.created, MaxValue(existing) + 1) + s[p..]
  {
    ReconcileCodes(defs, existing, MaxValue(existing));
    InsertNumbered(s, p, Reconcile(defs, existing, MaxValue(existing)), MaxValue(existing));
  }

  lemma InsertNumbered(s: string, p: nat, r: Reconciled, base: nat)
    requires p <= |s| && r.created != []
    requires forall k :: 0 <= k < |r.created| ==> Lookup(r.nets, r.created[k]) == Some(base + 1 + k)
    ensures InsertCreated(s, Some(p), r) == s[..p] + NumberedLines(r.created, base + 1) + s[p..]
  {
    NewLinesNumbered(r.created, r.nets, base);
  }

  datatype SyncReport = SyncReport(created: seq<string>, existing: seq<string>, pads: seq<PadAssignment>)

  /** How the netlist export ended: `kicad-cli` exited with an error, the export or the
      XML parse raised (timeout, unreadable file, malformed XML; `message` is `str(e)`), or
      the netlist was read, `None` standing for one without a `<nets>` element. */
  datatype NetlistExport =
    | ExportFailed(stderr: string)
    | ExportRaised(message: string)
    | Exported(netlist: Option<seq<XmlNet>>)

  /** `update_pcb_from_schematic` from the netlist export on. The pcbnew pad assignment
      that follows is not modelled; the assignments it would be given are returned. */
  method UpdateFromNetlist(pcb: PcbText, outcome: NetlistExport) returns (r: Result<SyncReport, string>)
    modifies pcb
    ensures outcome.ExportFailed? ==>
      r == Err("kicad-cli netlist export failed: " + Strip(outcome.stderr)) && pcb.content == old(pcb.content)
    ensures outcome.ExportRaised? ==>
      r == Err("Netlist export/parse failed: " + outcome.message) && pcb.content == old(pcb.content)
    ensures outcome == Exported(None) ==>
      r == Err("No <nets> element found in exported netlist") && pcb.content == old(pcb.content)
    ensures outcome.Exported? && outcome.netlist.Some? && Definitions(outcome.netlist.value) == [] ==>
      r == Err("No nets found in schematic netlist") && pcb.content == old(pcb.content)
    ensures outcome.Exported? && outcome.netlist.Some? && Definitions(outcome.netlist.value) != [] ==>
      var (rec, text) := SyncSpec(old(pcb.content), Definitions(outcome.netlist.value));
      r == Ok(SyncReport(rec.created, rec.existing, Assignments(outcome.netlist.value))) && pcb.content == text
  {
    match outcome
    case ExportFailed(stderr) =>
      return Err("kicad-cli netlist export failed: " + Strip(stderr));
    case ExportRaised(message) =>
      return Err("Netlist export/parse failed: " + message);
    case Exported(netlist) =>
      if netlist.None? {
        return Err("No <nets> element found in exported netlist");
      }
      var defs, pads := ReadNetlist(netlist.value);
      if defs == [] {
        return Err("No nets found in schematic netlist");
      }
      var created, existing := pcb.SyncNets(defs);
      r := Ok(SyncReport(created, existing, pads));
  }
}

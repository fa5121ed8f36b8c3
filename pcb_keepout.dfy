/** The keepout tools' decision logic over the rectangles and records pcbnew reports:
    checking a proposed placement, auditing every pair of footprints for collisions, and
    auditing every placed footprint against the keepout zones and the board outline. */
module PcbKeepout {
  import opened Wrappers
  import opened KeepoutHelpers
  import LibraryPaths
  import opened Strings

  // ---------------------------------------------------------------------
  // Keepout records
  // ---------------------------------------------------------------------

  /** A rule area's `constraints` dictionary, in its key order. */
  datatype Constraints = Constraints(noTracks: bool, noVias: bool, noPads: bool, noFootprints: bool, noCopperPour: bool)

  /** A keepout: where it comes from ("board" or "footprint"), the owning footprint's
      reference, its constraints and its bounding box. */
  datatype Keepout = Keepout(source: string, sourceRef: string, constraints: Constraints, box: Rect)

  /** The keys of the `constraints` dictionary, in its order. */
  datatype Restriction = NoTracks | NoVias | NoPads | NoFootprints | NoCopperPour

  /** How a key is reported: without its `no_` prefix. */
  function KeyName(k: Restriction): string {
    match k
      case NoTracks => "tracks"
      case NoVias => "vias"
      case NoPads => "pads"
      case NoFootprints => "footprints"
      case NoCopperPour => "copper_pour"
  }

  function KeyRank(k: Restriction): nat {
    match k
      case NoTracks => 0
      case NoVias => 1
      case NoPads => 2
      case NoFootprints => 3
      case NoCopperPour => 4
  }

  /** The value of key `k` in the dictionary. */
  predicate Forbids(c: Constraints, k: Restriction) {
    match k
      case NoTracks => c.noTracks
      case NoVias => c.noVias
      case NoPads => c.noPads
      case NoFootprints => c.noFootprints
      case NoCopperPour => c.noCopperPour
  }

  const Keys: seq<Restriction> := [NoTracks, NoVias, NoPads, NoFootprints, NoCopperPour]

  /** `[k for k in ks if c[k]]`. */
  function SetKeys(c: Constraints, ks: seq<Restriction>): (r: seq<Restriction>)
    ensures forall k :: k in r <==> k in ks && Forbids(c, k)
  {
    if ks == [] then [] else (if Forbids(c, ks[0]) then [ks[0]] else []) + SetKeys(c, ks[1..])
  }

  /** Filtering keeps the keys in the order they came. */
  lemma {:induction false} SetKeysRanked(c: Constraints, ks: seq<Restriction>)
    requires forall i, j :: 0 <= i < j < |ks| ==> KeyRank(ks[i]) < KeyRank(ks[j])
    ensures forall i, j :: 0 <= i < j < |SetKeys(c, ks)| ==> KeyRank(SetKeys(c, ks)[i]) < KeyRank(SetKeys(c, ks)[j])
  {
    if ks != [] {
      var rest := SetKeys(c, ks[1..]);
      SetKeysRanked(c, ks[1..]);
      if Forbids(c, ks[0]) {
        forall k | k in rest ensures KeyRank(ks[0]) < KeyRank(k) {
          var j :| 0 <= j < |ks[1..]| && ks[1..][j] == k;
          assert ks[j + 1] == k;
        }
        var r := [ks[0]] + rest;
        forall i, j | 0 <= i < j < |r| ensures KeyRank(r[i]) < KeyRank(r[j]) {
          assert r[j] == rest[j - 1] && rest[j - 1] in rest;
          if i > 0 { assert r[i] == rest[i - 1]; }
        }
      }
    }
  }

  lemma EveryKeyListed()
    ensures forall k :: k in Keys
    ensures forall i, j :: 0 <= i < j < |Keys| ==> KeyRank(Keys[i]) < KeyRank(Keys[j])
  {
    forall k ensures k in Keys {
      assert Keys[KeyRank(k)] == k;
    }
  }

  /** Filtering a list of every key, in rank order. */
  lemma SetKeysOfAll(c: Constraints, ks: seq<Restriction>)
    requires forall k :: k in ks
    requires forall i, j :: 0 <= i < j < |ks| ==> KeyRank(ks[i]) < KeyRank(ks[j])
    ensures forall k :: k in SetKeys(c, ks) <==> Forbids(c, k)
    ensures forall i, j :: 0 <= i < j < |SetKeys(c, ks)| ==> KeyRank(SetKeys(c, ks)[i]) < KeyRank(SetKeys(c, ks)[j])
    ensures SetKeys(c, ks) == [] <==> forall k :: !Forbids(c, k)
  {
    SetKeysRanked(c, ks);
    var r := SetKeys(c, ks);
    if r != [] {
      assert r[0] in r;
    }
  }

  lemma NoneForbidden(c: Constraints)
    ensures (forall k :: !Forbids(c, k)) <==> !(c.noTracks || c.noVias || c.noPads || c.noFootprints || c.noCopperPour)
  {
    assert Forbids(c, NoTracks) == c.noTracks && Forbids(c, NoVias) == c.noVias && Forbids(c, NoPads) == c.noPads;
    assert Forbids(c, NoFootprints) == c.noFootprints && Forbids(c, NoCopperPour) == c.noCopperPour;
  }

  /** The `blocked` list: every key whose value is set, in key order, each reported as
      its `KeyName`. */
  function Blocked(c: Constraints): (r: seq<Restriction>)
    ensures forall k :: k in r <==> Forbids(c, k)
    ensures forall i, j :: 0 <= i < j < |r| ==> KeyRank(r[i]) < KeyRank(r[j])
    ensures r == [] <==> !(c.noTracks || c.noVias || c.noPads || c.noFootprints || c.noCopperPour)
  {
    EveryKeyListed();
    SetKeysOfAll(c, Keys);
    NoneForbidden(c);
    SetKeys(c, Keys)
  }

  /** The fields an overlap with a keepout reports. */
  datatype ZoneHit = ZoneHit(source: string, sourceRef: string, area: int, blocked: seq<Restriction>)

  function Hit(k: Keepout, box: Rect): ZoneHit {
    ZoneHit(k.source, k.sourceRef, OverlapArea(box, k.box), Blocked(k.constraints))
  }

  /** How far a footprint sticks out past each side of the outline; a side it does not
      cross has no entry. */
  datatype Overhang = Overhang(left: Option<int>, right: Option<int>, top: Option<int>, bottom: Option<int>)

  function OverhangOf(fp: Rect, outline: Rect): (h: Overhang)
    ensures h.left.Some? <==> fp.xMin < outline.xMin
    ensures h.right.Some? <==> fp.xMax > outline.xMax
    ensures h.top.Some? <==> fp.yMin < outline.yMin
    ensures h.bottom.Some? <==> fp.yMax > outline.yMax
    ensures (h.left.Some? ==> h.left.value > 0) && (h.right.Some? ==> h.right.value > 0)
      && (h.top.Some? ==> h.top.value > 0) && (h.bottom.Some? ==> h.bottom.value > 0)
    ensures !RectInside(fp, outline) <==> h != Overhang(None, None, None, None)
  {
    Overhang(
      if fp.xMin < outline.xMin then Some(outline.xMin - fp.xMin) else None,
      if fp.xMax > outline.xMax then Some(fp.xMax - outline.xMax) else None,
      if fp.yMin < outline.yMin then Some(outline.yMin - fp.yMin) else None,
      if fp.yMax > outline.yMax then Some(fp.yMax - outline.yMax) else None)
  }

  /** What every tool answers when the board file does not exist. */
  function PcbMissing(path: string): string {
    "PCB file not found: " + path
  }

  /** `get_keepout_zones`: the keepouts pcbnew reports, unless the file is missing. */
  function KeepoutZones(path: string, present: bool, keepouts: seq<Keepout>): (r: Result<seq<Keepout>, string>)
    ensures !present <==> r == Err("PCB file not found: " + path)
    ensures present ==> r == Ok(keepouts)
  {
    if !present then Err(PcbMissing(path)) else Ok(keepouts)
  }

  // ---------------------------------------------------------------------
  // validate_placement
  // ---------------------------------------------------------------------

  datatype Violation = KeepoutOverlap(hit: ZoneHit) | OutsideBoard(overhang: Overhang)

  datatype PlacementReport = PlacementReport(valid: bool, violations: seq<Violation>, warnings: seq<ZoneHit>)

  /** The keepout violations: overlapping zones that forbid footprints. */
  function ZoneViolations(fp: Rect, ks: seq<Keepout>): seq<Violation>
    decreases |ks|
  {
    if ks == [] then []
    else
      var k := ks[|ks| - 1];
      ZoneViolations(fp, ks[..|ks| - 1])
      + (if RectsOverlap(fp, k.box) && k.constraints.noFootprints then [KeepoutOverlap(Hit(k, fp))] else [])
  }

  /** The warnings: overlapping zones that allow footprints but block something else. */
  function ZoneWarnings(fp: Rect, ks: seq<Keepout>): seq<ZoneHit>
    decreases |ks|
  {
    if ks == [] then []
    else
      var k := ks[|ks| - 1];
      ZoneWarnings(fp, ks[..|ks| - 1])
      + (if RectsOverlap(fp, k.box) && !k.constraints.noFootprints && Blocked(k.constraints) != [] then [Hit(k, fp)] else [])
  }

  function OutsideViolation(fp: Rect, outline: Option<Outline>): seq<Violation> {
    if outline.Some? && !RectInside(fp, outline.value.box) then [OutsideBoard(OverhangOf(fp, outline.value.box))] else []
  }

  /** No violation arises exactly when no overlapping zone forbids footprints. */
  lemma {:induction false} NoZoneViolations(fp: Rect, ks: seq<Keepout>)
    ensures ZoneViolations(fp, ks) == [] <==> forall k :: k in ks ==> !(RectsOverlap(fp, k.box) && k.constraints.noFootprints)
    decreases |ks|
  {
    if ks != [] {
      var init := ks[..|ks| - 1];
      NoZoneViolations(fp, init);
      assert ks == init + [ks[|ks| - 1]];
      assert forall k :: k in ks <==> k in init || k == ks[|ks| - 1];
    }
  }

  /** A placement is valid exactly when no overlapping zone forbids footprints and the
      footprint lies inside the outline (or there is no outline); warnings play no part. */
  lemma PlacementValidity(fp: Rect, ks: seq<Keepout>, outline: Option<Outline>)
    ensures ZoneViolations(fp, ks) + OutsideViolation(fp, outline) == [] <==>
      (forall k :: k in ks ==> !(RectsOverlap(fp, k.box) && k.constraints.noFootprints))
      && (outline.None? || RectInside(fp, outline.value.box))
  {
    NoZoneViolations(fp, ks);
  }

  /** The loop of the `validate_placement` script over the keepouts and the outline. */
  method ValidatePlacement(fp: Rect, keepouts: seq<Keepout>, outline: Option<Outline>) returns (r: PlacementReport)
    ensures r.violations == ZoneViolations(fp, keepouts) + OutsideViolation(fp, outline)
    ensures r.warnings == ZoneWarnings(fp, keepouts)
    ensures r.valid <==> r.violations == []
  {
    var violations: seq<Violation> := [];
    var warnings: seq<ZoneHit> := [];
    var i := 0;
    while i < |keepouts|
      invariant 0 <= i <= |keepouts|
      invariant violations == ZoneViolations(fp, keepouts[..i])
      invariant warnings == ZoneWarnings(fp, keepouts[..i])
    {
      assert keepouts[..i + 1][..i] == keepouts[..i];
      var k := keepouts[i];
      if RectsOverlap(fp, k.box) {
        if k.constraints.noFootprints {
          violations := violations + [KeepoutOverlap(Hit(k, fp))];
        } else {
          var blocked := Blocked(k.constraints);
          if blocked != [] {
            warnings := warnings + [Hit(k, fp)];
          }
        }
      }
      i := i + 1;
    }
    assert keepouts[..|keepouts|] == keepouts;
    if outline.Some? && !RectInside(fp, outline.value.box) {
      violations := violations + [OutsideBoard(OverhangOf(fp, outline.value.box))];
    }
    r := PlacementReport(|violations| == 0, violations, warnings);
  }

  /** The footprint directories searched, each joined with `<library>.pretty`. */
  const MacFootprints := "/Applications/KiCad/KiCad.app/Contents/SharedSupport/footprints"
  const LinuxFootprints := "/usr/share/kicad/footprints"

  function LibSearchPaths(sys: LibraryPaths.System, home: string, library: string): (r: seq<string>)
    ensures |r| == 3
    ensures forall k :: 0 <= k < 3 ==> EndsWith(r[k], library + ".pretty")
    ensures StartsWith(r[0], MacFootprints)
    ensures StartsWith(r[1], RStrip(home, '/')) && StartsWith(r[2], LinuxFootprints)
  {
    var mac := LibraryPaths.JoinPath(sys, MacFootprints, library + ".pretty");
    var user := LibraryPaths.ExpandUser(home, "Documents/KiCad/footprints");
    var docs := LibraryPaths.JoinPath(sys, user, library + ".pretty");
    var linux := LibraryPaths.JoinPath(sys, LinuxFootprints, library + ".pretty");
    StartsWithTrans(docs, user, RStrip(home, '/'));
    [mac, docs, linux]
  }

  lemma StartsWithTrans(s: string, p: string, q: string)
    requires StartsWith(s, p) && StartsWith(p, q)
    ensures StartsWith(s, q)
  {
    assert s[..|q|] == s[..|p|][..|q|];
  }

  /** `validate_placement`: the missing-file, missing-library and missing-footprint errors,
      then the placement check. `loaded` is the footprint's box as pcbnew places it, or
      `None` when `FootprintLoad` finds no such footprint. */
  method ValidatePlacementTool(pcbPath: string, present: bool, library: string, footprintName: string,
                               sys: LibraryPaths.System, home: string, isDir: string -> bool,
                               loaded: Option<Rect>, keepouts: seq<Keepout>, drawings: seq<Drawing>)
    returns (r: Result<PlacementReport, string>)
    ensures !present ==> r == Err(PcbMissing(pcbPath))
    ensures present && LibraryPaths.FirstExisting(LibSearchPaths(sys, home, library), isDir).None? ==>
      r == Err("Library '" + library + "' not found")
    ensures present && LibraryPaths.FirstExisting(LibSearchPaths(sys, home, library), isDir).Some? && loaded.None? ==>
      r == Err("Footprint '" + footprintName + "' not found in '" + library + "'")
    ensures r.Ok? <==> present && LibraryPaths.FirstExisting(LibSearchPaths(sys, home, library), isDir).Some? && loaded.Some?
    ensures r.Ok? ==> (r.value.violations == ZoneViolations(loaded.value, keepouts) + OutsideViolation(loaded.value, OutlineOf(drawings))
      && r.value.warnings == ZoneWarnings(loaded.value, keepouts))
    ensures r.Ok? ==> (r.value.valid <==>
      (forall k :: k in keepouts ==> !(RectsOverlap(loaded.value, k.box) && k.constraints.noFootprints))
      && (OutlineOf(drawings).None? || RectInside(loaded.value, OutlineOf(drawings).value.box)))
  {
    if !present {
      return Err(PcbMissing(pcbPath));
    }
    var libPath := LibraryPaths.FirstExisting(LibSearchPaths(sys, home, library), isDir);
    if libPath.None? {
      return Err("Library '" + library + "' not found");
    }
    if loaded.None? {
      return Err("Footprint '" + footprintName + "' not found in '" + library + "'");
    }
    var outline := BoardOutline(drawings);
    var report := ValidatePlacement(loaded.value, keepouts, outline);
    PlacementValidity(loaded.value, keepouts, outline);
    r := Ok(report);
  }

  // ---------------------------------------------------------------------
  // audit_footprint_overlaps
  // ---------------------------------------------------------------------

  /** A placed footprint with the box the audit checks (courtyard, pads or body). */
  datatype Placed = Placed(reference: string, value: string, box: Rect)

  datatype Severity = Error | Warning | Violation

  datatype OverlapEntry = OverlapEntry(refA: string, refB: string, overlap: bool, area: int, gap: int, severity: Severity)

  /** A box grown by the clearance on every side. */
  function Expand(r: Rect, clearance: int): Rect {
    Rect(r.xMin - clearance, r.yMin - clearance, r.xMax + clearance, r.yMax + clearance)
  }

  /** `gap_mm` before rounding: the larger of the two axis gaps. */
  function Gap(a: Rect, b: Rect): int {
    Max(Max(a.xMin, b.xMin) - Min(a.xMax, b.xMax), Max(a.yMin, b.yMin) - Min(a.yMax, b.yMax))
  }

  /** The gap is negative exactly for overlapping boxes: negative means penetration,
      otherwise it is the separation. */
  lemma GapSign(a: Rect, b: Rect)
    requires Proper(a) && Proper(b)
    ensures Gap(a, b) < 0 <==> RectsOverlap(a, b)
  {
  }

  /** The entry the audit records for footprints `i` and `j`, if any. */
  function PairEntry(fps: seq<Placed>, clearance: int, p: (nat, nat)): (r: Option<OverlapEntry>)
    requires p.0 < |fps| && p.1 < |fps|
    ensures var a := fps[p.0].box; var b := fps[p.1].box;
      (r.Some? <==> RectsOverlap(a, b) || (clearance > 0 && RectsOverlap(Expand(a, clearance), b)))
      && (r.Some? ==> (r.value.severity == Error <==> RectsOverlap(a, b))
                      && (r.value.severity == Error || r.value.severity == Warning)
                      && r.value.overlap == RectsOverlap(a, b)
                      && (Proper(a) && Proper(b) ==> (r.value.area > 0 <==> RectsOverlap(a, b)))
                      && r.value.refA == fps[p.0].reference && r.value.refB == fps[p.1].reference)
  {
    var a := fps[p.0];
    var b := fps[p.1];
    var actual := RectsOverlap(a.box, b.box);
    var area := if actual then OverlapArea(a.box, b.box) else 0;
    var clearanceViolation := clearance > 0 && RectsOverlap(Expand(a.box, clearance), b.box);
    if actual || clearanceViolation then
      Some(OverlapEntry(a.reference, b.reference, actual, area, Gap(a.box, b.box), if actual then Error else Warning))
    else None
  }

  /** The pairs `(i, i+1) .. (i, j-1)`. */
  function Row(i: nat, j: nat): (r: seq<(nat, nat)>)
    ensures |r| == if j > i + 1 then j - i - 1 else 0
    decreases j
  {
    if j <= i + 1 then [] else Row(i, j - 1) + [(i, j - 1)]
  }

  /** All pairs `(i, j)` with `i < j < n` and `i < rows`, in the audit's loop order. */
  function PairsBefore(n: nat, rows: nat): seq<(nat, nat)>
    decreases rows
  {
    if rows == 0 then [] else PairsBefore(n, rows - 1) + Row(rows - 1, n)
  }

  lemma {:induction false} RowMembers(i: nat, j: nat)
    ensures forall p :: p in Row(i, j) <==> p.0 == i && i < p.1 < j
    decreases j
  {
    if j > i + 1 {
      RowMembers(i, j - 1);
    }
  }

  /** Every unordered pair is checked, once, with the smaller index first. */
  lemma {:induction false} PairsMembers(n: nat, rows: nat)
    ensures forall p :: p in PairsBefore(n, rows) <==> p.0 < rows && p.0 < p.1 < n
    decreases rows
  {
    if rows > 0 {
      PairsMembers(n, rows - 1);
      RowMembers(rows - 1, n);
    }
  }

  /** The number of pairs checked: the first `rows` rows hold `rows * n - rows * (rows + 1) / 2`
      pairs, written here without division. */
  lemma {:induction false} PairsCount(n: nat, rows: nat)
    requires rows <= n
    ensures 2 * |PairsBefore(n, rows)| == 2 * rows * n - rows * (rows + 1)
    decreases rows
  {
    if rows > 0 {
      PairsCount(n, rows - 1);
      assert |Row(rows - 1, n)| == n - rows;
      assert 2 * rows * n - rows * (rows + 1) == 2 * (rows - 1) * n - (rows - 1) * rows + 2 * (n - rows);
    }
  }

  /** `pairs_checked = total * (total - 1) // 2` is the number of pairs the loops visit. */
  lemma AllPairsCount(n: nat)
    ensures |PairsBefore(n, n)| == n * (n - 1) / 2
  {
    PairsCount(n, n);
    assert 2 * |PairsBefore(n, n)| == n * (n - 1);
  }

  /** Every pair names two footprints of `fps`. */
  predicate InRange(fps: seq<Placed>, ps: seq<(nat, nat)>)
    decreases |ps|
  {
    ps == [] || (InRange(fps, ps[..|ps| - 1]) && ps[|ps| - 1].0 < |fps| && ps[|ps| - 1].1 < |fps|)
  }

  lemma {:induction false} InRangeAll(fps: seq<Placed>, ps: seq<(nat, nat)>)
    requires forall k :: 0 <= k < |ps| ==> ps[k].0 < |fps| && ps[k].1 < |fps|
    ensures InRange(fps, ps)
    decreases |ps|
  {
    if ps != [] {
      InRangeAll(fps, ps[..|ps| - 1]);
    }
  }

  /** The entries recorded over a sequence of pairs, in order. */
  function Collect(fps: seq<Placed>, clearance: int, ps: seq<(nat, nat)>): seq<OverlapEntry>
    requires InRange(fps, ps)
    decreases |ps|
  {
    if ps == [] then []
    else
      var e := PairEntry(fps, clearance, ps[|ps| - 1]);
      Collect(fps, clearance, ps[..|ps| - 1]) + (if e.Some? then [e.value] else [])
  }

  function CountSeverity(es: seq<OverlapEntry>, s: Severity): nat
    decreases |es|
  {
    if es == [] then 0 else CountSeverity(es[..|es| - 1], s) + (if es[|es| - 1].severity == s then 1 else 0)
  }

  /** Every recorded entry is an error or a warning, so the two counts add up to the number
      of entries. */
  lemma {:induction false} SeverityPartition(fps: seq<Placed>, clearance: int, ps: seq<(nat, nat)>)
    requires InRange(fps, ps)
    ensures CountSeverity(Collect(fps, clearance, ps), Error) + CountSeverity(Collect(fps, clearance, ps), Warning)
      == |Collect(fps, clearance, ps)|
    decreases |ps|
  {
    if ps != [] {
      var init := ps[..|ps| - 1];
      SeverityPartition(fps, clearance, init);
      var before := Collect(fps, clearance, init);
      var es := Collect(fps, clearance, ps);
      var e := PairEntry(fps, clearance, ps[|ps| - 1]);
      if e.Some? {
        assert es == before + [e.value];
        assert es[..|es| - 1] == before;
      } else {
        assert es == before;
      }
    }
  }

  datatype OverlapAudit = OverlapAudit(
    total: nat, pairsChecked: nat, overlaps: seq<OverlapEntry>, errorCount: nat, warningCount: nat)

  lemma AllPairsInRange(fps: seq<Placed>, rows: nat, j: nat)
    requires rows <= |fps| && j <= |fps|
    ensures InRange(fps, PairsBefore(|fps|, rows) + Row(rows, j))
  {
    PairsMembers(|fps|, rows);
    RowMembers(rows, j);
    var ps := PairsBefore(|fps|, rows) + Row(rows, j);
    forall k | 0 <= k < |ps| ensures ps[k].0 < |fps| && ps[k].1 < |fps| {
      assert ps[k] in PairsBefore(|fps|, rows) || ps[k] in Row(rows, j);
    }
    InRangeAll(fps, ps);
  }

  /** The entries of the whole audit: every pair `i < j`, in loop order. */
  function Overlaps(fps: seq<Placed>, clearance: int): seq<OverlapEntry> {
    AllPairsInRange(fps, |fps|, 0);
    assert PairsBefore(|fps|, |fps|) + Row(|fps|, 0) == PairsBefore(|fps|, |fps|);
    Collect(fps, clearance, PairsBefore(|fps|, |fps|))
  }

  /** The entries the audit records are exactly those of pairs `i < j` that overlap or come
      within the clearance, each with its severity. */
  lemma OverlapsExactly(fps: seq<Placed>, clearance: int, e: OverlapEntry)
    ensures e in Overlaps(fps, clearance) <==>
      exists i: nat, j: nat :: i < j < |fps| && PairEntry(fps, clearance, (i, j)) == Some(e)
  {
    var n := |fps|;
    AllPairsInRange(fps, n, 0);
    assert PairsBefore(n, n) + Row(n, 0) == PairsBefore(n, n);
    PairsMembers(n, n);
    CollectMembers(fps, clearance, PairsBefore(n, n), e);
    if e in Overlaps(fps, clearance) {
      var p :| p in PairsBefore(n, n) && PairEntry(fps, clearance, p) == Some(e);
      assert p.0 < p.1 < n;
    } else {
      forall i: nat, j: nat | i < j < n ensures PairEntry(fps, clearance, (i, j)) != Some(e) {
        assert (i, j) in PairsBefore(n, n);
      }
    }
  }

  lemma {:induction false} CollectMembers(fps: seq<Placed>, clearance: int, ps: seq<(nat, nat)>, e: OverlapEntry)
    requires InRange(fps, ps)
    ensures e in Collect(fps, clearance, ps) <==>
      exists p :: p in ps && p.0 < |fps| && p.1 < |fps| && PairEntry(fps, clearance, p) == Some(e)
    decreases |ps|
  {
    if ps != [] {
      var init := ps[..|ps| - 1];
      CollectMembers(fps, clearance, init, e);
      assert ps == init + [ps[|ps| - 1]];
      assert forall p :: p in ps <==> p in init || p == ps[|ps| - 1];
    }
  }

  /** The entry of one pair as a sequence of at most one element. */
  function EntryOf(fps: seq<Placed>, clearance: int, p: (nat, nat)): seq<OverlapEntry>
    requires p.0 < |fps| && p.1 < |fps|
  {
    var e := PairEntry(fps, clearance, p);
    if e.Some? then [e.value] else []
  }

  lemma CollectAppend(fps: seq<Placed>, clearance: int, ps: seq<(nat, nat)>, p: (nat, nat))
    requires InRange(fps, ps) && p.0 < |fps| && p.1 < |fps|
    ensures InRange(fps, ps + [p])
    ensures Collect(fps, clearance, ps + [p]) == Collect(fps, clearance, ps) + EntryOf(fps, clearance, p)
  {
    assert (ps + [p])[..|ps|] == ps;
  }

  /** The entries of row `i` up to (not including) column `j`. */
  function RowEntries(fps: seq<Placed>, clearance: int, i: nat, j: nat): seq<OverlapEntry>
    requires i < |fps| && j <= |fps|
    decreases j
  {
    if j <= i + 1 then [] else RowEntries(fps, clearance, i, j - 1) + EntryOf(fps, clearance, (i, j - 1))
  }

  /** The inner loop of the audit: footprint `i` against every later footprint, appending
      each pair's entry to those recorded so far. */
  method AuditRow(fps: seq<Placed>, clearance: int, i: nat, overlaps: seq<OverlapEntry>)
    returns (r: seq<OverlapEntry>)
    requires i < |fps|
    ensures r == overlaps + RowEntries(fps, clearance, i, |fps|)
  {
    var n := |fps|;
    r := overlaps;
    var j: nat := i + 1;
    while j < n
      invariant i + 1 <= j <= n
      invariant r == overlaps + RowEntries(fps, clearance, i, j)
    {
      var e := PairEntry(fps, clearance, (i, j));
      if e.Some? {
        r := r + [e.value];
      }
      j := j + 1;
    }
  }

  /** Collecting over `done` followed by row `i` appends that row's entries. */
  lemma {:induction false} CollectRow(fps: seq<Placed>, clearance: int, done: seq<(nat, nat)>, i: nat, j: nat)
    requires i < |fps| && j <= |fps| && InRange(fps, done)
    ensures InRange(fps, done + Row(i, j))
    ensures Collect(fps, clearance, done + Row(i, j)) == Collect(fps, clearance, done) + RowEntries(fps, clearance, i, j)
    decreases j
  {
    if j <= i + 1 {
      assert done + Row(i, j) == done;
    } else {
      var ps := done + Row(i, j - 1);
      var tail := EntryOf(fps, clearance, (i, j - 1));
      CollectRow(fps, clearance, done, i, j - 1);
      RowSnoc(done, ps, i, j - 1);
      CollectAppend(fps, clearance, ps, (i, j - 1));
      calc {
        Collect(fps, clearance, done + Row(i, j));
        Collect(fps, clearance, ps) + tail;
        (Collect(fps, clearance, done) + RowEntries(fps, clearance, i, j - 1)) + tail;
        { AppendAssoc(Collect(fps, clearance, done), RowEntries(fps, clearance, i, j - 1), tail); }
        Collect(fps, clearance, done) + (RowEntries(fps, clearance, i, j - 1) + tail);
      }
    }
  }

  /** One more step of the inner loop adds the pair `(i, j)` at the end. */
  lemma RowSnoc(done: seq<(nat, nat)>, ps: seq<(nat, nat)>, i: nat, j: nat)
    requires i < j && ps == done + Row(i, j)
    ensures ps + [(i, j)] == done + Row(i, j + 1)
  {
    AppendAssoc(done, Row(i, j), [(i, j)]);
  }

  /** The pairwise loops of the `audit_footprint_overlaps` script and its counts. */
  method AuditOverlaps(fps: seq<Placed>, clearance: int) returns (r: OverlapAudit)
    ensures r.total == |fps| && r.pairsChecked == |fps| * (|fps| - 1) / 2
    ensures r.overlaps == Overlaps(fps, clearance)
    ensures r.errorCount == CountSeverity(r.overlaps, Error)
    ensures r.warningCount == CountSeverity(r.overlaps, Warning)
    ensures r.errorCount + r.warningCount == |r.overlaps|
  {
    var n := |fps|;
    var overlaps: seq<OverlapEntry> := [];
    var i := 0;
    while i < n
      invariant 0 <= i <= n
      invariant InRange(fps, PairsBefore(n, i))
      invariant overlaps == Collect(fps, clearance, PairsBefore(n, i))
    {
      overlaps := AuditRow(fps, clearance, i, overlaps);
      CollectRow(fps, clearance, PairsBefore(n, i), i, n);
      assert PairsBefore(n, i + 1) == PairsBefore(n, i) + Row(i, n);
      i := i + 1;
    }
    AllPairsCount(n);
    SeverityPartition(fps, clearance, PairsBefore(n, n));
    r := OverlapAudit(n, n * (n - 1) / 2, overlaps, CountSeverity(overlaps, Error), CountSeverity(overlaps, Warning));
  }

  // ---------------------------------------------------------------------
  // audit_pcb_placement
  // ---------------------------------------------------------------------

  datatype Footprint = Footprint(reference: string, box: Rect)

  datatype Issue = ZoneIssue(severity: Severity, hit: ZoneHit) | OutsideIssue(overhang: Overhang)

  datatype AuditEntry = AuditEntry(reference: string, issues: seq<Issue>)

  datatype PlacementAudit = PlacementAudit(total: nat, violationsCount: nat, cleanCount: nat, violations: seq<AuditEntry>)

  /** A keepout belonging to the footprint itself is not held against it. */
  predicate OwnKeepout(fp: Footprint, k: Keepout) {
    k.source == "footprint" && k.sourceRef == fp.reference
  }

  /** What one keepout contributes to a footprint's issues. */
  function ZoneIssueFor(fp: Footprint, k: Keepout): (r: Option<Issue>)
    ensures r.Some? <==> !OwnKeepout(fp, k) && RectsOverlap(fp.box, k.box)
    ensures r.Some? ==> (r.value.ZoneIssue? && (r.value.severity == Violation <==> k.constraints.noFootprints)
      && (r.value.severity == Violation || r.value.severity == Warning))
  {
    if OwnKeepout(fp, k) || !RectsOverlap(fp.box, k.box) then None
    else Some(ZoneIssue(if k.constraints.noFootprints then Violation else Warning, Hit(k, fp.box)))
  }

  function ZoneIssues(fp: Footprint, ks: seq<Keepout>): seq<Issue>
    decreases |ks|
  {
    if ks == [] then []
    else
      var i := ZoneIssueFor(fp, ks[|ks| - 1]);
      ZoneIssues(fp, ks[..|ks| - 1]) + (if i.Some? then [i.value] else [])
  }

  function IssuesOf(fp: Footprint, ks: seq<Keepout>, outline: Option<Outline>): seq<Issue> {
    ZoneIssues(fp, ks)
    + (if outline.Some? && !RectInside(fp.box, outline.value.box) then [OutsideIssue(OverhangOf(fp.box, outline.value.box))] else [])
  }

  /** A footprint has issues exactly when a keepout other than its own overlaps it, or it
      leaves the outline. */
  lemma {:induction false} IssuesExactly(fp: Footprint, ks: seq<Keepout>, outline: Option<Outline>)
    ensures IssuesOf(fp, ks, outline) != [] <==>
      (exists k :: k in ks && !OwnKeepout(fp, k) && RectsOverlap(fp.box, k.box))
      || (outline.Some? && !RectInside(fp.box, outline.value.box))
  {
    ZoneIssuesExactly(fp, ks);
  }

  lemma {:induction false} ZoneIssuesExactly(fp: Footprint, ks: seq<Keepout>)
    ensures ZoneIssues(fp, ks) != [] <==> exists k :: k in ks && !OwnKeepout(fp, k) && RectsOverlap(fp.box, k.box)
    decreases |ks|
  {
    if ks != [] {
      var init := ks[..|ks| - 1];
      ZoneIssuesExactly(fp, init);
      assert ks == init + [ks[|ks| - 1]];
      assert forall k :: k in ks <==> k in init || k == ks[|ks| - 1];
    }
  }

  function Flagged(fps: seq<Footprint>, ks: seq<Keepout>, outline: Option<Outline>): seq<AuditEntry>
    decreases |fps|
  {
    if fps == [] then []
    else
      var fp := fps[|fps| - 1];
      var issues := IssuesOf(fp, ks, outline);
      Flagged(fps[..|fps| - 1], ks, outline) + (if issues != [] then [AuditEntry(fp.reference, issues)] else [])
  }

  function CleanCount(fps: seq<Footprint>, ks: seq<Keepout>, outline: Option<Outline>): nat
    decreases |fps|
  {
    if fps == [] then 0
    else CleanCount(fps[..|fps| - 1], ks, outline) + (if IssuesOf(fps[|fps| - 1], ks, outline) == [] then 1 else 0)
  }

  /** Every footprint is either listed with its issues or counted as clean. */
  lemma {:induction false} AuditCountsAddUp(fps: seq<Footprint>, ks: seq<Keepout>, outline: Option<Outline>)
    ensures |Flagged(fps, ks, outline)| + CleanCount(fps, ks, outline) == |fps|
    decreases |fps|
  {
    if fps != [] {
      AuditCountsAddUp(fps[..|fps| - 1], ks, outline);
    }
  }

  /** The keepout loop for one footprint in the `audit_pcb_placement` script. */
  method FootprintIssues(fp: Footprint, keepouts: seq<Keepout>, outline: Option<Outline>) returns (issues: seq<Issue>)
    ensures issues == IssuesOf(fp, keepouts, outline)
  {
    issues := [];
    var i := 0;
    while i < |keepouts|
      invariant 0 <= i <= |keepouts|
      invariant issues == ZoneIssues(fp, keepouts[..i])
    {
      assert keepouts[..i + 1][..i] == keepouts[..i];
      var k := keepouts[i];
      if !OwnKeepout(fp, k) && RectsOverlap(fp.box, k.box) {
        var severity := if k.constraints.noFootprints then Violation else Warning;
        issues := issues + [ZoneIssue(severity, Hit(k, fp.box))];
      }
      i := i + 1;
    }
    assert keepouts[..|keepouts|] == keepouts;
    if outline.Some? && !RectInside(fp.box, outline.value.box) {
      issues := issues + [OutsideIssue(OverhangOf(fp.box, outline.value.box))];
    }
  }

  /** The footprint loop of the `audit_pcb_placement` script and its counts. */
  method AuditPlacement(fps: seq<Footprint>, keepouts: seq<Keepout>, outline: Option<Outline>) returns (r: PlacementAudit)
    ensures r.violations == Flagged(fps, keepouts, outline)
    ensures r.cleanCount == CleanCount(fps, keepouts, outline)
    ensures r.total == |fps| && r.violationsCount == |r.violations|
    ensures r.violationsCount + r.cleanCount == r.total
  {
    var flagged: seq<AuditEntry> := [];
    var clean := 0;
    var i := 0;
    while i < |fps|
      invariant 0 <= i <= |fps|
      invariant flagged == Flagged(fps[..i], keepouts, outline)
      invariant clean == CleanCount(fps[..i], keepouts, outline)
    {
      AuditStep(fps, keepouts, outline, i);
      var issues := FootprintIssues(fps[i], keepouts, outline);
      if issues != [] {
        flagged := flagged + [AuditEntry(fps[i].reference, issues)];
      } else {
        clean := clean + 1;
      }
      i := i + 1;
    }
    assert fps[..|fps|] == fps;
    AuditCountsAddUp(fps, keepouts, outline);
    r := PlacementAudit(|fps|, |flagged|, clean, flagged);
  }

  lemma AuditStep(fps: seq<Footprint>, ks: seq<Keepout>, outline: Option<Outline>, i: nat)
    requires i < |fps|
    ensures var issues := IssuesOf(fps[i], ks, outline);
      Flagged(fps[..i + 1], ks, outline)
        == Flagged(fps[..i], ks, outline) + (if issues != [] then [AuditEntry(fps[i].reference, issues)] else [])
      && CleanCount(fps[..i + 1], ks, outline) == CleanCount(fps[..i], ks, outline) + (if issues == [] then 1 else 0)
  {
    assert fps[..i + 1][..i] == fps[..i];
  }

  /** `audit_footprint_overlaps` and `audit_pcb_placement` with their missing-file check. */
  method AuditOverlapsTool(path: string, present: bool, fps: seq<Placed>, clearance: int) returns (r: Result<OverlapAudit, string>)
    ensures !present <==> r == Err(PcbMissing(path))
    ensures r.Ok? ==> (r.value.total == |fps| && r.value.pairsChecked == |fps| * (|fps| - 1) / 2
      && r.value.overlaps == Overlaps(fps, clearance)
      && r.value.errorCount == CountSeverity(r.value.overlaps, Error)
      && r.value.warningCount == CountSeverity(r.value.overlaps, Warning))
  {
    if !present {
      return Err(PcbMissing(path));
    }
    var audit := AuditOverlaps(fps, clearance);
    r := Ok(audit);
  }

  method AuditPlacementTool(path: string, present: bool, fps: seq<Footprint>, keepouts: seq<Keepout>, drawings: seq<Drawing>)
    returns (r: Result<PlacementAudit, string>)
    ensures !present <==> r == Err(PcbMissing(path))
    ensures r.Ok? ==> r.value.total == |fps| && r.value.violationsCount + r.value.cleanCount == |fps|
    ensures r.Ok? ==> (r.value.violations == Flagged(fps, keepouts, OutlineOf(drawings))
      && r.value.cleanCount == CleanCount(fps, keepouts, OutlineOf(drawings)))
  {
    if !present {
      return Err(PcbMissing(path));
    }
    var outline := BoardOutline(drawings);
    var audit := AuditPlacement(fps, keepouts, outline);
    r := Ok(audit);
  }
}

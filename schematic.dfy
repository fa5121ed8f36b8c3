/** The schematic tools' own rules around the schematic library they wrap: one schematic
    is loaded at a time and every tool needs it, positions are `[x, y]` pairs, the
    `properties` text is parsed into key/value assignments, a validation's issues are
    counted by level, the summary is merged into the info, filters need a criterion and
    hierarchical label shapes are looked up by name. What the schematic library itself
    does (file parsing, validation, filtering, searching) is given to the model as data;
    coordinates are integers. */
module Schematic {
  import opened Wrappers
  import opened Strings

  // ---------------------------------------------------------------------
  // The loaded schematic
  // ---------------------------------------------------------------------

  datatype Point = Point(x: int, y: int)

  /** The shapes a hierarchical label can take. */
  datatype Shape = Input | Output | Bidirectional | Tristate | Passive | Unspecified

  /** A label; a hierarchical one has a shape. */
  datatype Label = Label(text: string, at: Point, shape: Option<Shape>)

  /** A placed symbol, with the properties the tool set on it. */
  datatype Component = Component(libId: string, reference: string, value: string, at: Point,
                                 footprint: Option<string>, properties: map<string, string>)

  /** What the tools add to and read from the schematic. */
  datatype Sheet = Sheet(name: string, components: seq<Component>, wires: seq<(Point, Point)>,
                         labels: seq<Label>, junctions: seq<Point>, texts: seq<(string, Point)>,
                         modified: bool)

  function NewSheet(name: string): Sheet {
    Sheet(name, [], [], [], [], [], false)
  }

  const NoSchematic := "No schematic loaded. Call create_schematic or load_schematic first."
  const PositionError := "Position must be [x, y] coordinates"

  /** `[x, y]` as a point; any other length is rejected. */
  function PointOf(position: seq<int>): (r: Option<Point>)
    ensures r.Some? <==> |position| == 2
    ensures r.Some? ==> r.value.x == position[0] && r.value.y == position[1]
  {
    if |position| == 2 then Some(Point(position[0], position[1])) else None
  }

  // ---------------------------------------------------------------------
  // The `properties` text of add_component
  // ---------------------------------------------------------------------

  /** The index of the first `c` in `s`. */
  function FirstIndex(s: string, c: char): (k: nat)
    requires c in s
    ensures k < |s| && s[k] == c && c !in s[..k]
  {
    if s[0] == c then 0
    else
      assert c in s[1..] by {
        var i :| 0 <= i < |s| && s[i] == c;
        assert s[1..][i - 1] == c;
      }
      var k := FirstIndex(s[1..], c);
      assert s[..k + 1] == [s[0]] + s[1..][..k];
      k + 1
  }

  /** A character that is not white space survives `strip()`. */
  lemma StripKeeps(s: string, c: char)
    requires c in s && !IsSpace(c)
    ensures c in Strip(s)
  {
    var i :| 0 <= i < |s| && s[i] == c;
    var t := TrimStart(s);
    var a := |s| - |t|;
    assert a <= i;
    assert t[i - a] == c;
    var r := TrimEnd(t);
    assert i - a < |r|;
    assert r[i - a] == c;
  }

  /** One `key=value` piece: split at the first `=` of the stripped piece, both sides
      stripped. */
  function Assignment(piece: string): (kv: (string, string))
    requires '=' in piece
    ensures '=' !in kv.0
  {
    StripKeeps(piece, '=');
    var t := Strip(piece);
    var k := FirstIndex(t, '=');
    var key := Strip(t[..k]);
    assert '=' !in key by {
      if '=' in key { StripSub(t[..k], '='); }
    }
    (key, Strip(t[k + 1..]))
  }

  /** Whatever `strip()` returns was already in the text. */
  lemma StripSub(s: string, c: char)
    requires c in Strip(s)
    ensures c in s
  {
    var t := TrimStart(s);
    var r := TrimEnd(t);
    assert r == Strip(s);
    var i :| 0 <= i < |r| && r[i] == c;
    assert i < |t| && t[i] == c;
    assert s[|s| - |t| + i] == c;
  }

  /** The assignments of the pieces that hold an `=`, in order. */
  function Assignments(pieces: seq<string>): seq<(string, string)>
    decreases |pieces|
  {
    if pieces == [] then []
    else
      var last := pieces[|pieces| - 1];
      Assignments(pieces[..|pieces| - 1]) + (if '=' in last then [Assignment(last)] else [])
  }

  /** The `set_property` calls `add_component` makes for its `properties` argument:
      nothing for a missing or empty text, otherwise one per comma-separated piece that
      holds an `=`. */
  function PropertyAssignments(properties: Option<string>): seq<(string, string)> {
    if properties.None? || properties.value == [] then []
    else Assignments(SplitOn(properties.value, ','))
  }

  /** The keys the assignments name. */
  function AssignedKeys(kvs: seq<(string, string)>): (r: set<string>)
    ensures forall k :: k in r <==> exists i :: 0 <= i < |kvs| && kvs[i].0 == k
    decreases |kvs|
  {
    if kvs == [] then {} else AssignedKeys(kvs[..|kvs| - 1]) + {kvs[|kvs| - 1].0}
  }

  /** The properties after the calls: a later assignment to a key wins. */
  function Applied(props: map<string, string>, kvs: seq<(string, string)>): (r: map<string, string>)
    ensures r.Keys == props.Keys + AssignedKeys(kvs)
    ensures forall k :: k in props && k !in AssignedKeys(kvs) ==> r[k] == props[k]
    decreases |kvs|
  {
    if kvs == [] then props
    else Applied(props, kvs[..|kvs| - 1])[kvs[|kvs| - 1].0 := kvs[|kvs| - 1].1]
  }

  /** Every key ends with the value of the last assignment that names it. */
  lemma {:induction false} AppliedLastWins(props: map<string, string>, kvs: seq<(string, string)>, i: nat)
    requires i < |kvs| && LastAssignment(kvs, i)
    ensures kvs[i].0 in Applied(props, kvs) && Applied(props, kvs)[kvs[i].0] == kvs[i].1
    decreases |kvs|
  {
    var init, last := kvs[..|kvs| - 1], kvs[|kvs| - 1];
    assert Applied(props, kvs) == Applied(props, init)[last.0 := last.1];
    if i < |kvs| - 1 {
      var kv := kvs[i];
      assert last.0 != kv.0;
      assert init[i] == kv;
      assert LastAssignment(init, i) by {
        forall j | i < j < |init| ensures init[j].0 != kv.0 {
          assert init[j] == kvs[j];
        }
      }
      AppliedLastWins(props, init, i);
    }
  }

  /** No later assignment names the key of assignment `i`. */
  predicate LastAssignment(kvs: seq<(string, string)>, i: nat)
    requires i < |kvs|
  {
    forall j :: i < j < |kvs| ==> kvs[j].0 != kvs[i].0
  }

  /** A text `strip()` leaves alone: empty, or without white space at either end. */
  predicate Stripped(s: string) {
    s == [] || (!IsSpace(s[0]) && !IsSpace(s[|s| - 1]))
  }

  lemma StrippedStrip(s: string)
    requires Stripped(s)
    ensures Strip(s) == s
  {
    if s != [] {
      assert TrimStart(s) == s;
      assert TrimEnd(s) == s;
    }
  }

  /** `"key=value"`. */
  function PieceOf(kv: (string, string)): string {
    kv.0 + "=" + kv.1
  }

  /** A piece written from a stripped key and a stripped value is itself stripped. */
  lemma PieceStripped(kv: (string, string))
    requires Stripped(kv.0) && Stripped(kv.1)
    ensures Strip(PieceOf(kv)) == PieceOf(kv)
  {
    var p := PieceOf(kv);
    assert p[0] == (if kv.0 == [] then '=' else kv.0[0]);
    assert p[|p| - 1] == (if kv.1 == [] then '=' else kv.1[|kv.1| - 1]);
    StrippedStrip(p);
  }

  /** The two sides of a piece around its `=`. */
  lemma PieceSides(kv: (string, string))
    ensures |kv.0| < |PieceOf(kv)|
    ensures PieceOf(kv)[..|kv.0|] == kv.0 && PieceOf(kv)[|kv.0| + 1..] == kv.1
  {
    var p := PieceOf(kv);
    assert p == kv.0 + ['='] + kv.1;
  }

  /** A piece that `strip()` leaves alone, split at the first `=` it holds. */
  lemma AssignmentOfStripped(piece: string, k: nat, key: string, value: string)
    requires '=' in piece && Strip(piece) == piece && FirstIndex(piece, '=') == k && k < |piece|
    requires piece[..k] == key && piece[k + 1..] == value
    ensures Assignment(piece) == (Strip(key), Strip(value))
  {
    var t := Strip(piece);
    assert Assignment(piece) == (Strip(t[..k]), Strip(t[k + 1..]));
    assert t[..k] == key && t[k + 1..] == value;
  }

  /** A piece written from a stripped key without `=` and a stripped value parses back. */
  lemma AssignmentOfPiece(kv: (string, string))
    requires '=' !in kv.0 && Stripped(kv.0) && Stripped(kv.1)
    ensures '=' in PieceOf(kv) && Assignment(PieceOf(kv)) == kv
  {
    var p := PieceOf(kv);
    assert '=' in p && FirstIndex(p, '=') == |kv.0| by {
      assert p == kv.0 + ['='] + kv.1;
      FirstIndexAfter(kv.0, '=', kv.1);
    }
    PieceStripped(kv);
    PieceSides(kv);
    AssignmentOfStripped(p, |kv.0|, kv.0, kv.1);
    StrippedStrip(kv.0);
    StrippedStrip(kv.1);
  }

  /** The first `c` after a text without one is the one right after it. */
  lemma {:induction false} FirstIndexAfter(x: string, c: char, y: string)
    requires c !in x
    ensures c in x + [c] + y && FirstIndex(x + [c] + y, c) == |x|
    decreases |x|
  {
    var s := x + [c] + y;
    assert s[|x|] == c;
    if x != [] {
      NotInTail(x, c);
      FirstIndexAfter(x[1..], c, y);
      assert s[1..] == x[1..] + [c] + y;
    }
  }

  lemma NotInTail(x: string, c: char)
    requires x != [] && c !in x
    ensures c !in x[1..]
  {
    forall i | 0 <= i < |x[1..]| ensures x[1..][i] != c {
      assert x[1..][i] == x[i + 1];
    }
  }

  /** Splitting a text with no separator in it gives the text itself. */
  lemma {:induction false} SplitOnNone(s: string, c: char)
    requires c !in s
    ensures SplitOn(s, c) == [s]
    decreases |s|
  {
    if s != [] {
      NotInTail(s, c);
      SplitOnNone(s[1..], c);
      assert [s[0]] + s[1..] == s;
    }
  }

  /** Splitting text with one more character in front: the separator opens a new first
      piece, any other character joins the first piece. */
  lemma SplitOnPrepend(x: char, r: string, c: char, first: string, more: seq<string>)
    requires x != c ==> SplitOn(r, c) == [first] + more
    ensures x == c ==> SplitOn([x] + r, c) == [[]] + SplitOn(r, c)
    ensures x != c ==> SplitOn([x] + r, c) == [[x] + first] + more
  {
    assert ([x] + r)[1..] == r;
    SplitOnHead([x] + r, c);
    assert ([first] + more)[1..] == more;
  }

  lemma PrependPiece(p: string, c: char, t: string)
    requires p != []
    ensures p + [c] + t == [p[0]] + (p[1..] + [c] + t) && [p[0]] + p[1..] == p
  {
  }

  /** A piece without the separator, the separator, then more text: the piece comes first. */
  lemma {:induction false} SplitOnFirst(p: string, c: char, t: string)
    requires c !in p
    ensures SplitOn(p + [c] + t, c) == [p] + SplitOn(t, c)
    decreases |p|
  {
    if p == [] {
      assert p + [c] + t == [c] + t;
      SplitOnPrepend(c, t, c, [], []);
    } else {
      NotInTail(p, c);
      SplitOnFirst(p[1..], c, t);
      PrependPiece(p, c, t);
      SplitOnPrepend(p[0], p[1..] + [c] + t, c, p[1..], SplitOn(t, c));
    }
  }

  /** Splitting joined pieces that do not hold the separator gives the pieces back. */
  lemma {:induction false} SplitOnJoin(pieces: seq<string>, c: char)
    requires pieces != [] && forall i :: 0 <= i < |pieces| ==> c !in pieces[i]
    ensures SplitOn(Join(pieces, [c]), c) == pieces
    decreases |pieces|
  {
    if |pieces| == 1 {
      SplitOnNone(pieces[0], c);
    } else {
      SplitOnJoin(pieces[1..], c);
      SplitOnFirst(pieces[0], c, Join(pieces[1..], [c]));
      assert [pieces[0]] + pieces[1..] == pieces;
    }
  }

  /** The `key=value` pieces of the assignments. */
  function Pieces(kvs: seq<(string, string)>): (r: seq<string>)
    ensures |r| == |kvs| && forall i :: 0 <= i < |kvs| ==> r[i] == PieceOf(kvs[i])
    decreases |kvs|
  {
    if kvs == [] then [] else Pieces(kvs[..|kvs| - 1]) + [PieceOf(kvs[|kvs| - 1])]
  }

  /** An assignment that writing and parsing preserve: a stripped key without `=` and a
      stripped value. */
  predicate Writable(kv: (string, string)) {
    '=' !in kv.0 && Stripped(kv.0) && Stripped(kv.1)
  }

  /** An assignment that can stand between the commas of the `properties` text. */
  predicate CommaFree(kv: (string, string)) {
    ',' !in kv.0 && ',' !in kv.1
  }

  /** The pieces of written assignments parse back to those assignments. */
  lemma {:induction false} AssignmentsOfPieces(kvs: seq<(string, string)>)
    requires forall i :: 0 <= i < |kvs| ==> Writable(kvs[i])
    ensures Assignments(Pieces(kvs)) == kvs
    decreases |kvs|
  {
    if kvs != [] {
      var init := kvs[..|kvs| - 1];
      var last := kvs[|kvs| - 1];
      assert kvs == init + [last];
      var pieces := Pieces(kvs);
      assert pieces[..|pieces| - 1] == Pieces(init);
      assert pieces[|pieces| - 1] == PieceOf(last);
      AssignmentsOfPieces(init);
      assert Writable(last);
      AssignmentOfPiece(last);
    }
  }

  /** Round trip: `k1=v1,k2=v2,...` written from stripped keys and values free of `,`
      (and keys free of `=`) is parsed back into exactly those assignments, in order. */
  lemma PropertiesRoundTrip(kvs: seq<(string, string)>)
    requires kvs != []
    requires forall i :: 0 <= i < |kvs| ==> Writable(kvs[i]) && CommaFree(kvs[i])
    ensures PropertyAssignments(Some(Join(Pieces(kvs), ","))) == kvs
  {
    JoinedPiecesNotEmpty(kvs);
    SplitJoinedPieces(kvs);
    AssignmentsOfPieces(kvs);
  }

  lemma SplitJoinedPieces(kvs: seq<(string, string)>)
    requires kvs != [] && forall i :: 0 <= i < |kvs| ==> CommaFree(kvs[i])
    ensures SplitOn(Join(Pieces(kvs), ","), ',') == Pieces(kvs)
  {
    PiecesWithoutComma(kvs);
    SplitOnJoin(Pieces(kvs), ',');
  }

  lemma PiecesWithoutComma(kvs: seq<(string, string)>)
    requires forall i :: 0 <= i < |kvs| ==> CommaFree(kvs[i])
    ensures forall i :: 0 <= i < |kvs| ==> ',' !in Pieces(kvs)[i]
  {
    forall i | 0 <= i < |kvs| ensures ',' !in Pieces(kvs)[i] {
      assert Pieces(kvs)[i] == kvs[i].0 + "=" + kvs[i].1;
    }
  }

  lemma JoinedPiecesNotEmpty(kvs: seq<(string, string)>)
    requires kvs != []
    ensures Join(Pieces(kvs), ",") != []
  {
    var at := JoinHas(Pieces(kvs), ",", 0);
    assert |Pieces(kvs)[0]| > 0;
  }

  lemma AssignmentsSnoc(pieces: seq<string>, i: nat)
    requires i < |pieces|
    ensures Assignments(pieces[..i + 1])
      == Assignments(pieces[..i]) + (if '=' in pieces[i] then [Assignment(pieces[i])] else [])
  {
    assert pieces[..i + 1][..i] == pieces[..i];
    assert pieces[..i + 1][i] == pieces[i];
  }

  lemma AppliedSnoc(props: map<string, string>, kvs: seq<(string, string)>, kv: (string, string))
    ensures Applied(props, kvs + [kv]) == Applied(props, kvs)[kv.0 := kv.1]
  {
    assert (kvs + [kv])[..|kvs|] == kvs;
  }

  /** The loop of `add_component` over the pieces of `properties`. */
  method SetProperties(properties: Option<string>) returns (props: map<string, string>)
    ensures props == Applied(map[], PropertyAssignments(properties))
  {
    props := map[];
    if properties.Some? && properties.value != [] {
      var pieces := SplitOn(properties.value, ',');
      var i := 0;
      while i < |pieces|
        invariant 0 <= i <= |pieces|
        invariant props == Applied(map[], Assignments(pieces[..i]))
      {
        AssignmentsSnoc(pieces, i);
        if '=' in pieces[i] {
          var kv := Assignment(pieces[i]);
          AppliedSnoc(map[], Assignments(pieces[..i]), kv);
          props := props[kv.0 := kv.1];
        } else {
          assert Assignments(pieces[..i + 1]) == Assignments(pieces[..i]) + [];
          assert Assignments(pieces[..i]) + [] == Assignments(pieces[..i]);
        }
        i := i + 1;
      }
      assert pieces[..|pieces|] == pieces;
    }
  }

  // ---------------------------------------------------------------------
  // validate_schematic
  // ---------------------------------------------------------------------

  datatype Issue = Issue(level: string, message: string)

  datatype Validation = Validation(issues: nat, errors: nat, warnings: nat, details: seq<Issue>)

  predicate IsErrorLevel(level: string) { level == "error" || level == "critical" }
  predicate IsWarningLevel(level: string) { level == "warning" }

  /** The number of issues whose level `p` accepts. */
  function CountLevel(issues: seq<Issue>, p: string -> bool): (n: nat)
    ensures n <= |issues|
    decreases |issues|
  {
    if issues == [] then 0
    else CountLevel(issues[..|issues| - 1], p) + (if p(issues[|issues| - 1].level) then 1 else 0)
  }

  const DetailCap := 20

  /** The counting loop of `validate_schematic`: every issue is counted once, errors and
      critical ones as errors, warnings as warnings; the details keep the first 20. */
  method CountIssues(issues: seq<Issue>) returns (v: Validation)
    ensures v.issues == |issues|
    ensures v.errors == CountLevel(issues, IsErrorLevel)
    ensures v.warnings == CountLevel(issues, IsWarningLevel)
    ensures |v.details| == if |issues| < DetailCap then |issues| else DetailCap
    ensures v.details == issues[..|v.details|]
  {
    var details: seq<Issue> := [];
    var errors := 0;
    var warnings := 0;
    var i := 0;
    while i < |issues|
      invariant 0 <= i <= |issues|
      invariant errors == CountLevel(issues[..i], IsErrorLevel)
      invariant warnings == CountLevel(issues[..i], IsWarningLevel)
      invariant details == issues[..i]
    {
      assert issues[..i + 1][..i] == issues[..i];
      var level := issues[i].level;
      if level == "error" || level == "critical" {
        errors := errors + 1;
      } else if level == "warning" {
        warnings := warnings + 1;
      }
      details := details + [issues[i]];
      i := i + 1;
    }
    assert issues[..|issues|] == issues;
    var shown := if |details| < DetailCap then |details| else DetailCap;
    v := Validation(|issues|, errors, warnings, details[..shown]);
  }

  /** No issue is both an error and a warning: errors, warnings and the rest add up to the
      number of issues. */
  lemma {:induction false} LevelsPartition(issues: seq<Issue>)
    ensures CountLevel(issues, IsErrorLevel) + CountLevel(issues, IsWarningLevel)
      + CountLevel(issues, l => !IsErrorLevel(l) && !IsWarningLevel(l)) == |issues|
    decreases |issues|
  {
    if issues != [] {
      LevelsPartition(issues[..|issues| - 1]);
    }
  }

  // ---------------------------------------------------------------------
  // get_schematic_info
  // ---------------------------------------------------------------------

  datatype InfoValue = Text(text: string) | Number(number: int) | Flag(flag: bool)

  /** An insertion-ordered dictionary from names to values. */
  type Info = seq<(string, InfoValue)>

  function KeysOf(a: Info): set<string> {
    set i | 0 <= i < |a| :: a[i].0
  }

  /** `d.get(k)`: the value of the first entry with the key. */
  function Get(a: Info, k: string): (r: Option<InfoValue>)
    ensures r.Some? <==> k in KeysOf(a)
    decreases |a|
  {
    if a == [] then None
    else if a[0].0 == k then Some(a[0].1)
    else
      assert KeysOf(a) == {a[0].0} + KeysOf(a[1..]) by {
        forall key | key in KeysOf(a) ensures key in {a[0].0} + KeysOf(a[1..]) {
          var i :| 0 <= i < |a| && a[i].0 == key;
          if i > 0 { assert a[1..][i - 1] == a[i]; }
        }
      }
      Get(a[1..], k)
  }

  lemma KeysOfSnoc(a: Info, e: (string, InfoValue))
    ensures KeysOf(a + [e]) == KeysOf(a) + {e.0}
  {
    forall key | key in KeysOf(a + [e]) ensures key in KeysOf(a) + {e.0} {
      var i :| 0 <= i < |a + [e]| && (a + [e])[i].0 == key;
      if i < |a| { assert (a + [e])[i] == a[i]; }
    }
    forall key | key in KeysOf(a) ensures key in KeysOf(a + [e]) {
      var i :| 0 <= i < |a| && a[i].0 == key;
      assert (a + [e])[i] == a[i];
    }
    assert (a + [e])[|a|].0 == e.0;
  }

  lemma {:induction false} GetSnoc(a: Info, e: (string, InfoValue), k: string)
    ensures Get(a + [e], k) == if k in KeysOf(a) then Get(a, k) else if e.0 == k then Some(e.1) else None
    decreases |a|
  {
    if a != [] {
      assert (a + [e])[1..] == a[1..] + [e];
      GetSnoc(a[1..], e, k);
    }
  }

  /** The keys of `info` then those of `summary` that it does not have, in order. */
  function Merged(info: Info, summary: Info): Info
    decreases |summary|
  {
    if summary == [] then info
    else
      var m := Merged(info, summary[..|summary| - 1]);
      var e := summary[|summary| - 1];
      if e.0 in KeysOf(m) then m else m + [e]
  }

  /** The merge keeps every base entry as it was and in front, and adds each summary key
      the base lacks with the summary's value for it. */
  lemma {:induction false} MergedFacts(info: Info, summary: Info)
    ensures |info| <= |Merged(info, summary)| && Merged(info, summary)[..|info|] == info
    ensures KeysOf(Merged(info, summary)) == KeysOf(info) + KeysOf(summary)
    ensures forall k :: k in KeysOf(info) ==> Get(Merged(info, summary), k) == Get(info, k)
    ensures forall k :: k !in KeysOf(info) ==> Get(Merged(info, summary), k) == Get(summary, k)
    decreases |summary|
  {
    if summary != [] {
      var init := summary[..|summary| - 1];
      var e := summary[|summary| - 1];
      var m := Merged(info, init);
      MergedFacts(info, init);
      assert summary == init + [e];
      KeysOfSnoc(init, e);
      forall k ensures Get(summary, k) == if k in KeysOf(init) then Get(init, k) else if e.0 == k then Some(e.1) else None {
        GetSnoc(init, e, k);
      }
      if e.0 !in KeysOf(m) {
        assert (m + [e])[..|info|] == m[..|info|];
        KeysOfSnoc(m, e);
        forall k ensures Get(m + [e], k) == if k in KeysOf(m) then Get(m, k) else if e.0 == k then Some(e.1) else None {
          GetSnoc(m, e, k);
        }
      }
    }
  }

  /** The info's own entries; the shape of the wrapped schematic decides the counts. */
  function BaseInfo(sheet: Sheet): Info {
    [("status", Text("ok")), ("components", Number(|sheet.components|)), ("wires", Number(|sheet.wires|)),
     ("junctions", Number(|sheet.junctions|)), ("modified", Flag(sheet.modified))]
  }

  /** The merge loop of `get_schematic_info`. */
  method MergeSummary(info: Info, summary: Info) returns (r: Info)
    ensures r == Merged(info, summary)
  {
    r := info;
    var i := 0;
    while i < |summary|
      invariant 0 <= i <= |summary|
      invariant r == Merged(info, summary[..i])
    {
      assert summary[..i + 1][..i] == summary[..i];
      var (k, v) := summary[i];
      if k !in KeysOf(r) {
        r := r + [(k, v)];
      }
      i := i + 1;
    }
    assert summary[..|summary|] == summary;
  }

  // ---------------------------------------------------------------------
  // filter_components and the hierarchical label shape
  // ---------------------------------------------------------------------

  /** `if x:` on an optional text. */
  predicate Given(x: Option<string>) { x.Some? && x.value != [] }

  /** The criteria `filter_components` passes on: the given, non-empty ones, in the
      order lib_id, value, reference, footprint. */
  function Criteria(libId: Option<string>, value: Option<string>, reference: Option<string>,
                    footprint: Option<string>): (c: seq<(string, string)>)
    ensures c == [] <==> !Given(libId) && !Given(value) && !Given(reference) && !Given(footprint)
    ensures forall i :: 0 <= i < |c| ==> c[i].1 != []
  {
    Pick("lib_id", libId) + Pick("value", value) + Pick("reference", reference) + Pick("footprint", footprint)
  }

  /** Each criterion is a given argument under its own name. */
  lemma CriteriaMembers(libId: Option<string>, value: Option<string>, reference: Option<string>,
                        footprint: Option<string>)
    ensures var c := Criteria(libId, value, reference, footprint);
      forall kv :: kv in c <==>
        (kv.0 == "lib_id" && Given(libId) && kv.1 == libId.value)
        || (kv.0 == "value" && Given(value) && kv.1 == value.value)
        || (kv.0 == "reference" && Given(reference) && kv.1 == reference.value)
        || (kv.0 == "footprint" && Given(footprint) && kv.1 == footprint.value)
  {
    var a, b := Pick("lib_id", libId), Pick("value", value);
    var c, d := Pick("reference", reference), Pick("footprint", footprint);
    assert Criteria(libId, value, reference, footprint) == a + b + c + d;
    forall kv ensures kv in a + b + c + d <==> kv in a || kv in b || kv in c || kv in d {
    }
  }

  /** The criteria come in the order lib_id, value, reference, footprint. */
  lemma CriteriaOrder(libId: Option<string>, value: Option<string>, reference: Option<string>,
                      footprint: Option<string>)
    ensures var c := Criteria(libId, value, reference, footprint);
      forall i, j :: 0 <= i < j < |c| ==> CriterionRank(c[i].0) < CriterionRank(c[j].0)
  {
    var a, b := Pick("lib_id", libId), Pick("value", value);
    var c, d := Pick("reference", reference), Pick("footprint", footprint);
    PickRanked("lib_id", libId, 0);
    PickRanked("value", value, 1);
    PickRanked("reference", reference, 2);
    PickRanked("footprint", footprint, 3);
    RankedPair(a, b, 0);
    RankedPair(a + b, c, 1);
    RankedPair(a + b + c, d, 2);
  }

  /** The criterion `name` when its argument is given. */
  function Pick(name: string, x: Option<string>): (r: seq<(string, string)>)
    ensures |r| <= 1 && (r == [] <==> !Given(x))
    ensures forall kv :: kv in r <==> kv.0 == name && Given(x) && kv.1 == x.value
  {
    if Given(x) then [(name, x.value)] else []
  }

  lemma PickRanked(name: string, x: Option<string>, n: nat)
    requires CriterionRank(name) == n
    ensures forall i :: 0 <= i < |Pick(name, x)| ==> CriterionRank(Pick(name, x)[i].0) == n
  {
  }

  /** The position of a criterion's name in the order the criteria are collected. */
  function CriterionRank(name: string): nat {
    if name == "lib_id" then 0 else if name == "value" then 1 else if name == "reference" then 2 else 3
  }

  /** Criteria ranked below `n`, followed by at most one of rank above `n`, stay ranked. */
  lemma RankedPair(p: seq<(string, string)>, q: seq<(string, string)>, n: nat)
    requires forall i, j :: 0 <= i < j < |p| ==> CriterionRank(p[i].0) < CriterionRank(p[j].0)
    requires forall i :: 0 <= i < |p| ==> CriterionRank(p[i].0) <= n
    requires |q| <= 1 && forall i :: 0 <= i < |q| ==> CriterionRank(q[i].0) == n + 1
    ensures forall i, j :: 0 <= i < j < |p + q| ==> CriterionRank((p + q)[i].0) < CriterionRank((p + q)[j].0)
    ensures forall i :: 0 <= i < |p + q| ==> CriterionRank((p + q)[i].0) <= n + 1
  {
  }

  const NoCriteria := "At least one filter criterion required"

  function ShapeName(shape: Shape): string {
    match shape
      case Input => "input"
      case Output => "output"
      case Bidirectional => "bidirectional"
      case Tristate => "tristate"
      case Passive => "passive"
      case Unspecified => "unspecified"
  }

  const ShapeMap: map<string, Shape> := map["input" := Input, "output" := Output,
    "bidirectional" := Bidirectional, "tristate" := Tristate, "passive" := Passive,
    "unspecified" := Unspecified]

  /** `shape_map.get(shape.lower(), INPUT)`: the shape named, in any letter case; input
      for a name that is none of them. */
  function ShapeOf(shape: string): (r: Shape)
    ensures Lower(shape) == ShapeName(r) || (r == Input && forall s :: Lower(shape) != ShapeName(s))
  {
    if Lower(shape) in ShapeMap then ShapeMap[Lower(shape)] else Input
  }

  /** Every shape is found by its name written in capitals. */
  lemma ShapeByUpperName(shape: Shape)
    ensures ShapeOf(Upper(ShapeName(shape))) == shape
  {
    var n := ShapeName(shape);
    assert forall i :: 0 <= i < |n| ==> 'a' <= n[i] <= 'z';
    assert Lower(Upper(n)) == n;
  }

  // ---------------------------------------------------------------------
  // search_components
  // ---------------------------------------------------------------------

  /** A row the symbol search returns; any field may be missing. */
  datatype Row = Row(libId: Option<string>, name: Option<string>, library: Option<string>,
                     description: Option<string>, keywords: Option<string>, pinCount: Option<int>)

  datatype Item = Item(libId: string, name: string, library: string, description: string,
                       keywords: string, pinCount: int)

  function ItemOf(r: Row): Item {
    Item(r.libId.GetOr("Unknown"), r.name.GetOr(""), r.library.GetOr(""), r.description.GetOr(""),
         r.keywords.GetOr(""), r.pinCount.GetOr(0))
  }

  /** `s[:n]` for any integer `n`: a negative one counts from the end. */
  function SliceTo<T>(s: seq<T>, n: int): (r: seq<T>)
    ensures |r| <= |s| && r == s[..|r|]
    ensures 0 <= n ==> |r| == if n < |s| then n else |s|
    ensures n < 0 ==> |r| == if -n < |s| then |s| + n else 0
  {
    if n >= |s| then s
    else if n >= 0 then s[..n]
    else if -n < |s| then s[..|s| + n]
    else []
  }

  /** The symbol search index of the schematic library: whether a library file changed
      since it was built, how many times it has been rebuilt, and its search, which is
      not part of this model. */
  class SearchIndex {
    var stale: bool
    var rebuilds: nat
    const search: (string, Option<string>, int) -> seq<Row>

    constructor(stale: bool, search: (string, Option<string>, int) -> seq<Row>)
      ensures this.stale == stale && rebuilds == 0 && this.search == search
    {
      this.stale := stale;
      rebuilds := 0;
      this.search := search;
    }

    method Rebuild()
      modifies this
      ensures !stale && rebuilds == old(rebuilds) + 1
    {
      stale := false;
      rebuilds := rebuilds + 1;
    }
  }

  /** `search_components`: without the search module the tool reports it unavailable;
      otherwise a stale index is rebuilt first, and the rows found become items, at most
      `limit` of them. */
  method SearchComponents(index: SearchIndex, available: bool, query: string, library: Option<string>, limit: int)
    returns (r: Result<seq<Item>, string>)
    modifies index
    ensures !available ==>
      (r == Err("Component search functionality not available") && index.stale == old(index.stale)
       && index.rebuilds == old(index.rebuilds))
    ensures available ==> !index.stale && index.rebuilds == old(index.rebuilds) + (if old(index.stale) then 1 else 0)
    ensures available ==>
      (r.Ok? && |r.value| == |SliceTo(index.search(query, library, limit), limit)|
       && forall i :: 0 <= i < |r.value| ==> r.value[i] == ItemOf(index.search(query, library, limit)[i]))
  {
    if !available {
      return Err("Component search functionality not available");
    }
    if index.stale {
      index.Rebuild();
    }
    var results := index.search(query, library, limit);
    if results == [] {
      return Ok([]);
    }
    var shown := SliceTo(results, limit);
    var items: seq<Item> := [];
    var i := 0;
    while i < |shown|
      invariant 0 <= i <= |shown|
      invariant |items| == i && forall j :: 0 <= j < i ==> items[j] == ItemOf(shown[j])
    {
      items := items + [ItemOf(shown[i])];
      i := i + 1;
    }
    r := Ok(items);
  }

  // ---------------------------------------------------------------------
  // The session
  // ---------------------------------------------------------------------

  /** The module-level current schematic the tools share: none until one is created or
      loaded, and replaced by every later create or load. */
  class Session {
    var sheet: Option<Sheet>

    constructor()
      ensures sheet.None?
    {
      sheet := None;
    }

    /** `create_schematic`. */
    method Create(name: string)
      modifies this
      ensures sheet == Some(NewSheet(name))
    {
      sheet := Some(NewSheet(name));
    }

    /** `load_schematic`: the file's contents are read by the library and given here. */
    method Load(loaded: Sheet) returns (count: nat)
      modifies this
      ensures sheet == Some(loaded) && count == |loaded.components|
    {
      sheet := Some(loaded);
      count := |loaded.components|;
    }

    /** `_require_schematic`: the current schematic, or the error every tool reports
      when none is loaded. */
    method Require() returns (r: Result<Sheet, string>)
      ensures r.Err? <==> sheet.None?
      ensures r.Err? ==> r.error == NoSchematic
      ensures r.Ok? ==> sheet == Some(r.value)
    {
      if sheet.None? {
        return Err(NoSchematic);
      }
      return Ok(sheet.value);
    }

    /** `add_component`: needs a schematic and an `[x, y]` position, then places the
      component with the properties its `properties` text sets. */
    method AddComponent(libId: string, reference: string, value: string, position: seq<int>,
                        footprint: Option<string>, properties: Option<string>)
      returns (r: Result<Component, string>)
      modifies this
      ensures old(sheet).None? ==> r == Err(NoSchematic) && sheet == old(sheet)
      ensures old(sheet).Some? && |position| != 2 ==> r == Err("position must be [x, y]") && sheet == old(sheet)
      ensures old(sheet).Some? && |position| == 2 ==>
        r.Ok? && r.value.at == Point(position[0], position[1])
        && r.value.properties == Applied(map[], PropertyAssignments(properties))
        && r.value == Component(libId, reference, value, r.value.at, footprint, r.value.properties)
        && sheet == Some(old(sheet).value.(components := old(sheet).value.components + [r.value]))
    {
      var s := Require();
      if s.Err? {
        return Err(s.error);
      }
      if |position| != 2 {
        return Err("position must be [x, y]");
      }
      var props := SetProperties(properties);
      var c := Component(libId, reference, value, Point(position[0], position[1]), footprint, props);
      sheet := Some(s.value.(components := s.value.components + [c]));
      r := Ok(c);
    }

    /** `add_wire`: both ends must be `[x, y]`. */
    method AddWire(start: seq<int>, end: seq<int>) returns (r: Result<(Point, Point), string>)
      modifies this
      ensures old(sheet).None? ==> r == Err(NoSchematic) && sheet == old(sheet)
      ensures old(sheet).Some? && (|start| != 2 || |end| != 2) ==>
        r == Err("Positions must be [x, y] coordinates") && sheet == old(sheet)
      ensures old(sheet).Some? && |start| == 2 && |end| == 2 ==>
        r == Ok((PointOf(start).value, PointOf(end).value))
        && sheet == Some(old(sheet).value.(wires := old(sheet).value.wires + [r.value]))
    {
      var s := Require();
      if s.Err? {
        return Err(s.error);
      }
      if |start| != 2 || |end| != 2 {
        return Err("Positions must be [x, y] coordinates");
      }
      var w := (Point(start[0], start[1]), Point(end[0], end[1]));
      sheet := Some(s.value.(wires := s.value.wires + [w]));
      r := Ok(w);
    }

    /** `add_label` (`shape` None) and `add_hierarchical_label` (`shape` the name given):
      the position must be `[x, y]`; the shape is looked up by name. */
    method AddLabel(text: string, position: seq<int>, shape: Option<string>) returns (r: Result<Label, string>)
      modifies this
      ensures old(sheet).None? ==> r == Err(NoSchematic) && sheet == old(sheet)
      ensures old(sheet).Some? && |position| != 2 ==> r == Err(PositionError) && sheet == old(sheet)
      ensures old(sheet).Some? && |position| == 2 ==>
        r == Ok(Label(text, PointOf(position).value, if shape.Some? then Some(ShapeOf(shape.value)) else None))
        && sheet == Some(old(sheet).value.(labels := old(sheet).value.labels + [r.value]))
    {
      var s := Require();
      if s.Err? {
        return Err(s.error);
      }
      if |position| != 2 {
        return Err(PositionError);
      }
      var l := Label(text, Point(position[0], position[1]), if shape.Some? then Some(ShapeOf(shape.value)) else None);
      sheet := Some(s.value.(labels := s.value.labels + [l]));
      r := Ok(l);
    }

    /** `add_junction`. */
    method AddJunction(position: seq<int>) returns (r: Result<Point, string>)
      modifies this
      ensures old(sheet).None? ==> r == Err(NoSchematic) && sheet == old(sheet)
      ensures old(sheet).Some? && |position| != 2 ==> r == Err(PositionError) && sheet == old(sheet)
      ensures old(sheet).Some? && |position| == 2 ==>
        r == Ok(PointOf(position).value)
        && sheet == Some(old(sheet).value.(junctions := old(sheet).value.junctions + [r.value]))
    {
      var s := Require();
      if s.Err? {
        return Err(s.error);
      }
      if |position| != 2 {
        return Err(PositionError);
      }
      var p := Point(position[0], position[1]);
      sheet := Some(s.value.(junctions := s.value.junctions + [p]));
      r := Ok(p);
    }

    /** `add_text`. */
    method AddText(text: string, position: seq<int>) returns (r: Result<(string, Point), string>)
      modifies this
      ensures old(sheet).None? ==> r == Err(NoSchematic) && sheet == old(sheet)
      ensures old(sheet).Some? && |position| != 2 ==> r == Err(PositionError) && sheet == old(sheet)
      ensures old(sheet).Some? && |position| == 2 ==>
        r == Ok((text, PointOf(position).value))
        && sheet == Some(old(sheet).value.(texts := old(sheet).value.texts + [r.value]))
    {
      var s := Require();
      if s.Err? {
        return Err(s.error);
      }
      if |position| != 2 {
        return Err(PositionError);
      }
      var t := (text, Point(position[0], position[1]));
      sheet := Some(s.value.(texts := s.value.texts + [t]));
      r := Ok(t);
    }

    /** `get_schematic_info`: the base entries, then the summary's other keys; a summary
      that could not be produced (`None`) adds nothing. */
    method Info(summary: Option<Info>) returns (r: Result<Info, string>)
      ensures sheet.None? ==> r == Err(NoSchematic)
      ensures sheet.Some? ==> r.Ok? && r.value == Merged(BaseInfo(sheet.value), summary.GetOr([]))
    {
      var s := Require();
      if s.Err? {
        return Err(s.error);
      }
      var merged := MergeSummary(BaseInfo(s.value), summary.GetOr([]));
      r := Ok(merged);
    }

    /** `validate_schematic` over the issues the library reports. */
    method Validate(issues: seq<Issue>) returns (r: Result<Validation, string>)
      ensures sheet.None? ==> r == Err(NoSchematic)
      ensures sheet.Some? ==>
        (r.Ok? && r.value.issues == |issues|
         && r.value.errors == CountLevel(issues, IsErrorLevel)
         && r.value.warnings == CountLevel(issues, IsWarningLevel)
         && r.value.details == issues[..if |issues| < DetailCap then |issues| else DetailCap])
    {
      var s := Require();
      if s.Err? {
        return Err(s.error);
      }
      if issues == [] {
        return Ok(Validation(0, 0, 0, []));
      }
      var v := CountIssues(issues);
      r := Ok(v);
    }

    /** `filter_components` up to the library's filter: the schematic is required first,
      then at least one criterion. */
    method FilterCriteria(libId: Option<string>, value: Option<string>, reference: Option<string>,
                          footprint: Option<string>) returns (r: Result<seq<(string, string)>, string>)
      ensures sheet.None? ==> r == Err(NoSchematic)
      ensures sheet.Some? && Criteria(libId, value, reference, footprint) == [] ==> r == Err(NoCriteria)
      ensures r.Ok? ==> sheet.Some? && r.value == Criteria(libId, value, reference, footprint) && r.value != []
    {
      var s := Require();
      if s.Err? {
        return Err(s.error);
      }
      var criteria := Criteria(libId, value, reference, footprint);
      if criteria == [] {
        return Err(NoCriteria);
      }
      r := Ok(criteria);
    }
  }
}

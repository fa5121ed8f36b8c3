/** The two library-file scanners of the index: one record per `.kicad_mod` footprint
    file and one record per top-level symbol of a `.kicad_sym` library. A file's
    content is `None` when it cannot be read. */
module LibraryParsers {
  import opened Wrappers
  import opened Strings
  import opened TextScan

  /** `\(footprint\s+"([^"]+)"`, tried only at the start of the file. */
  const FootprintHead: Pattern := [Lit("(footprint"), Spaces, Quoted(true)]
  /** `\(descr\s+"([^"]*)"` */
  const DescrField: Pattern := [Lit("(descr"), Spaces, Quoted(false)]
  /** `\(tags\s+"([^"]*)"` */
  const TagsField: Pattern := [Lit("(tags"), Spaces, Quoted(false)]
  /** `\(pad\s+` */
  const PadToken: Pattern := [Lit("(pad"), Spaces]
  /** `^\t\(symbol\s+"([^"]+)"` under re.MULTILINE: a top-level symbol declaration. */
  const SymbolDecl: Pattern := [LineStart, Lit(SymbolKeyword), Spaces, Quoted(true)]
  const SymbolKeyword := "\t(symbol"
  /** `^\t\(symbol\s+"`: where the next top-level block begins. */
  const SymbolStart: Pattern := [LineStart, Lit(SymbolKeyword), Spaces, Lit("\"")]
  /** `\(property\s+"Description"\s+"([^"]*)"` */
  const DescriptionProp: Pattern := [Lit("(property"), Spaces, Lit("\"Description\""), Spaces, Quoted(false)]
  /** `\(property\s+"ki_keywords"\s+"([^"]*)"` */
  const KeywordsProp: Pattern := [Lit("(property"), Spaces, Lit("\"ki_keywords\""), Spaces, Quoted(false)]
  /** `\(pin\s+` */
  const PinToken: Pattern := [Lit("(pin"), Spaces]

  datatype FootprintMeta = FootprintMeta(name: string, description: string, tags: string, padCount: nat)

  datatype SymbolMeta = SymbolMeta(name: string, library: string, description: string, keywords: string, pinCount: nat)

  const EmptyFootprint := FootprintMeta("", "", "", 0)

  lemma PadTokenIsToken()
    ensures IsToken(PadToken) && Consuming(PadToken)
  {
    assert Consumes(PadToken[0]);
  }

  lemma PinTokenIsToken()
    ensures IsToken(PinToken) && Consuming(PinToken)
  {
    assert Consumes(PinToken[0]);
  }

  /** The group `([^"]+)` of a matched head or declaration is never empty. */
  lemma {:induction false} QuotedLastGroup(s: string, i: nat, p: Pattern, g: string)
    requires i <= |s| && p != [] && p[|p| - 1] == Quoted(true)
    requires forall k :: 0 <= k < |p| - 1 ==> !Captures(p[k])
    ensures MatchFrom(s, i, p, g).Some? ==> MatchFrom(s, i, p, g).value.group != []
    decreases |p|
  {
    if MatchFrom(s, i, p, g).Some? {
      if |p| == 1 {
        assert p[1..] == [];
      } else {
        match p[0]
        case LineStart => QuotedLastGroup(s, i, p[1..], g);
        case Lit(t) => QuotedLastGroup(s, i + |t|, p[1..], g);
        case Spaces => QuotedLastGroup(s, i + SpaceRun(s, i), p[1..], g);
        case NoCase(w) => QuotedLastGroup(s, i + |w|, p[1..], g);
        case Opt(w) => QuotedLastGroup(s, Step(s, i, p[0], g).value.end, p[1..], g);
      }
    }
  }

  lemma NonEmptyNameGroup(s: string, i: nat, p: Pattern)
    requires p == FootprintHead || p == SymbolDecl
    requires i <= |s|
    ensures MatchAt(s, i, p).Some? ==> MatchAt(s, i, p).value.group != []
  {
    QuotedLastGroup(s, i, p, []);
  }

  /** `_parse_kicad_mod`. */
  function ParseKicadMod(content: Option<string>): (r: FootprintMeta)
    ensures content.None? ==> r == EmptyFootprint
    ensures content.Some? ==> (r.name != [] <==> Matches(content.value, 0, FootprintHead))
    ensures content.Some? && MatchAt(content.value, 0, FootprintHead).Some? ==>
      r.name == MatchAt(content.value, 0, FootprintHead).value.group
    ensures content.Some? ==> r.padCount == CountFrom(content.value, PadToken, 0)
  {
    match content
    case None => EmptyFootprint
    case Some(s) =>
      var name := match MatchAt(s, 0, FootprintHead)
        case Some(m) => m.group
        case None => [];
      NonEmptyNameGroup(s, 0, FootprintHead);
      PadTokenIsToken();
      FindAllCountsTokens(s, PadToken, 0);
      FootprintMeta(name, FirstGroup(s, DescrField), FirstGroup(s, TagsField), |FindAll(s, PadToken, 0)|)
  }

  /** A field is the group of its leftmost match: a later duplicate never wins. */
  lemma {:induction false} FirstGroupIsLeftmost(s: string, p: Pattern, k: nat)
    requires Matches(s, k, p)
    requires forall j :: 0 <= j < k ==> !Matches(s, j, p)
    ensures FirstGroup(s, p) == MatchAt(s, k, p).value.group
  {
    var r := Search(s, p, 0);
  }

  lemma {:induction false} FirstGroupAbsent(s: string, p: Pattern)
    requires forall j :: 0 <= j <= |s| ==> !Matches(s, j, p)
    ensures FirstGroup(s, p) == []
  {
  }

  lemma ParseKicadModFirstDescription(s: string, k: nat)
    requires Matches(s, k, DescrField)
    requires forall j :: 0 <= j < k ==> !Matches(s, j, DescrField)
    ensures ParseKicadMod(Some(s)).description == MatchAt(s, k, DescrField).value.group
  {
    FirstGroupIsLeftmost(s, DescrField, k);
  }

  lemma ParseKicadModFirstTags(s: string, k: nat)
    requires Matches(s, k, TagsField)
    requires forall j :: 0 <= j < k ==> !Matches(s, j, TagsField)
    ensures ParseKicadMod(Some(s)).tags == MatchAt(s, k, TagsField).value.group
  {
    FirstGroupIsLeftmost(s, TagsField, k);
  }

  // -------------------------------------------------------------------
  // Symbol libraries
  // -------------------------------------------------------------------

  /** Number of decimal digits at the end of `s`. */
  function TrailingDigits(s: string): (n: nat)
    ensures n <= |s| && (n < |s| ==> !IsDigit(s[|s| - n - 1]))
    ensures forall j :: |s| - n <= j < |s| ==> IsDigit(s[j])
  {
    if s != [] && IsDigit(s[|s| - 1]) then 1 + TrailingDigits(s[..|s| - 1]) else 0
  }

  /** `_\d+_\d+` at the very end of `n`. */
  predicate UnitSuffix(n: string) {
    var k1 := TrailingDigits(n);
    0 < k1 < |n| && n[|n| - k1 - 1] == '_'
    && var m := n[..|n| - k1 - 1];
    var k2 := TrailingDigits(m);
    0 < k2 < |m| && m[|m| - k2 - 1] == '_'
  }

  /** `re.search(r"_\d+_\d+$", name)`: `$` also matches just before a final newline. */
  predicate IsSubUnitName(n: string) {
    UnitSuffix(n) || (n != [] && n[|n| - 1] == '\n' && UnitSuffix(n[..|n| - 1]))
  }

  predicate AllDigits(s: string) {
    forall j :: 0 <= j < |s| ==> IsDigit(s[j])
  }

  lemma {:induction false} TrailingDigitsAppend(a: string, d: string)
    requires AllDigits(d) && a != [] && !IsDigit(a[|a| - 1])
    ensures TrailingDigits(a + d) == |d|
    decreases |d|
  {
    if d != [] {
      assert (a + d)[..|a + d| - 1] == a + d[..|d| - 1];
      TrailingDigitsAppend(a, d[..|d| - 1]);
    } else {
      assert a + d == a;
    }
  }

  lemma UnitSuffixOf(a: string, u: string, v: string)
    requires u != [] && v != [] && AllDigits(u) && AllDigits(v)
    ensures UnitSuffix(a + "_" + u + "_" + v)
  {
    var n := a + "_" + u + "_" + v;
    TrailingDigitsAppend(a + "_" + u + "_", v);
    assert n == (a + "_" + u + "_") + v;
    var m := n[..|n| - |v| - 1];
    assert m == a + "_" + u;
    TrailingDigitsAppend(a + "_", u);
    assert m == (a + "_") + u;
  }

  lemma UnitSuffixParts(n: string) returns (a: string, u: string, v: string)
    requires UnitSuffix(n)
    ensures u != [] && v != [] && AllDigits(u) && AllDigits(v) && n == a + "_" + u + "_" + v
  {
    var k1 := TrailingDigits(n);
    var m := n[..|n| - k1 - 1];
    var k2 := TrailingDigits(m);
    a, u, v := m[..|m| - k2 - 1], m[|m| - k2..], n[|n| - k1..];
    assert m == a + "_" + u;
    assert n == m + "_" + v;
  }

  /** Exactly the names built as `<anything>_<digits>_<digits>` are unit suffixed. */
  lemma UnitSuffixIff(n: string)
    ensures UnitSuffix(n) <==>
      exists a: string, u: string, v: string ::
        u != [] && v != [] && AllDigits(u) && AllDigits(v) && n == a + "_" + u + "_" + v
  {
    if UnitSuffix(n) {
      var a, u, v := UnitSuffixParts(n);
    }
    if exists a: string, u: string, v: string ::
        u != [] && v != [] && AllDigits(u) && AllDigits(v) && n == a + "_" + u + "_" + v {
      var a: string, u: string, v: string :|
        u != [] && v != [] && AllDigits(u) && AllDigits(v) && n == a + "_" + u + "_" + v;
      UnitSuffixOf(a, u, v);
    }
  }

  /** `os.path.splitext(name)[0]`: drops the last extension, unless only dots precede it. */
  function FileStem(name: string): (stem: string)
    ensures |stem| <= |name| && stem == name[..|stem|]
  {
    match LastDot(name)
    case None => name
    case Some(d) => if forall j :: 0 <= j < d ==> name[j] == '.' then name else name[..d]
  }

  function LastDot(s: string): (r: Option<nat>)
    ensures r.Some? ==> r.value < |s| && s[r.value] == '.'
    ensures r.Some? ==> forall j :: r.value < j < |s| ==> s[j] != '.'
    ensures r.None? ==> forall j :: 0 <= j < |s| ==> s[j] != '.'
  {
    if s == [] then None
    else if s[|s| - 1] == '.' then Some(|s| - 1)
    else LastDot(s[..|s| - 1])
  }

  lemma LibraryOfSymFile(stem: string)
    requires stem != [] && stem[0] != '.'
    ensures FileStem(stem + ".kicad_sym") == stem
  {
    var name := stem + ".kicad_sym";
    assert name[|stem|] == '.';
    assert forall j :: |stem| < j < |name| ==> name[j] != '.';
    var d := LastDot(name);
    assert d.Some?;
    assert d.value >= |stem|;
    assert d == Some(|stem|);
    assert name[..|stem|] == stem;
  }

  /** Where the block of a declaration ends: the next top-level `\t(symbol "` line in the
      text after the declaration (the slice starts a line, as `re.search` on a slice
      sees it), or the end of the file. */
  function BlockEnd(s: string, after: nat): (end: nat)
    requires after <= |s|
    ensures after <= end <= |s|
    ensures forall j :: 0 <= j < end - after ==> !Matches(s[after..], j, SymbolStart)
    ensures end < |s| ==> Matches(s[after..], end - after, SymbolStart)
  {
    match Search(s[after..], SymbolStart, 0)
    case Some(k) => after + k
    case None => |s|
  }

  lemma {:induction false} SpaceRunSlice(s: string, a: nat, i: nat)
    requires a <= i <= |s|
    ensures SpaceRun(s[a..], i - a) == SpaceRun(s, i)
    decreases |s| - i
  {
    if i < |s| {
      assert s[a..][i - a] == s[i];
      SpaceRunSlice(s, a, i + 1);
    }
  }

  /** What a declaration match says about the text around it. */
  predicate DeclShape(s: string, q: nat) {
    q <= |s| && (q == 0 || s[q - 1] == '\n') && StartsWith(s[q..], SymbolKeyword)
    && var n := SpaceRun(s, q + |SymbolKeyword|);
    n > 0 && q + |SymbolKeyword| + n < |s| && s[q + |SymbolKeyword| + n] == '"'
  }

  lemma DeclHasShape(s: string, q: nat)
    requires Matches(s, q, SymbolDecl)
    ensures DeclShape(s, q)
  {
    var t := SymbolKeyword;
    assert MatchFrom(s, q, SymbolDecl[1..], []).Some?;
    var n := SpaceRun(s, q + |t|);
    assert SymbolDecl[1..][1..][1..] == [Quoted(true)];
    assert MatchFrom(s, q, SymbolDecl[1..], []) == MatchFrom(s, q + |t| + n, [Quoted(true)], []);
  }

  lemma ShapeStartsBlock(s: string, q: nat)
    requires DeclShape(s, q)
    ensures Matches(s, q, SymbolStart)
  {
    var t := SymbolKeyword;
    var i1 := q + |t|;
    var i2 := i1 + SpaceRun(s, i1);
    var p1, p2, p3 := SymbolStart[1..], SymbolStart[2..], SymbolStart[3..];
    assert p1[1..] == p2 && p2[1..] == p3 && p3 == [Lit("\"")] && p3[1..] == [];
    MatchStep(s, q, SymbolStart, [], Match(q, []));
    MatchStep(s, q, p1, [], Match(i1, []));
    MatchStep(s, i1, p2, [], Match(i2, []));
    assert StartsWith(s[i2..], "\"");
    MatchStep(s, i2, p3, [], Match(i2 + 1, []));
  }

  lemma {:induction false} ShapeInSuffix(s: string, a: nat, q: nat)
    requires a <= q && DeclShape(s, q)
    ensures DeclShape(s[a..], q - a)
  {
    var t := SymbolKeyword;
    var s', q' := s[a..], q - a;
    assert s'[q'..] == s[q..];
    SpaceRunSlice(s, a, q + |t|);
    var n := SpaceRun(s, q + |t|);
    assert s'[q' + |t| + n] == s[q + |t| + n];
    assert q' == 0 || s'[q' - 1] == s[q - 1];
  }

  /** A top-level declaration is also a block start, seen in any suffix of the text that
      begins at or before it. */
  lemma DeclIsBlockStart(s: string, a: nat, q: nat)
    requires a <= q <= |s| && Matches(s, q, SymbolDecl)
    ensures Matches(s[a..], q - a, SymbolStart)
  {
    DeclHasShape(s, q);
    ShapeInSuffix(s, a, q);
    ShapeStartsBlock(s[a..], q - a);
  }

  /** Span isolation: a symbol's block never reaches past the next top-level declaration,
      so no field of a later symbol can leak into an earlier one's record. */
  lemma BlockEndsAtNextDecl(s: string, pos: nat, q: nat)
    requires pos <= |s| && MatchAt(s, pos, SymbolDecl).Some?
    requires MatchAt(s, pos, SymbolDecl).value.end <= q <= |s| && Matches(s, q, SymbolDecl)
    ensures BlockEnd(s, MatchAt(s, pos, SymbolDecl).value.end) <= q
  {
    var a := MatchAt(s, pos, SymbolDecl).value.end;
    DeclIsBlockStart(s, a, q);
  }

  /** The record for the declaration matched at `pos`; none for a unit sub-symbol. The
      fields come from the block `s[pos..BlockEnd]` only. */
  function SymbolAt(s: string, library: string, pos: nat): (r: Option<SymbolMeta>)
    requires pos <= |s| && MatchAt(s, pos, SymbolDecl).Some?
    ensures r.None? <==> IsSubUnitName(MatchAt(s, pos, SymbolDecl).value.group)
    ensures r.Some? ==> r.value.name == MatchAt(s, pos, SymbolDecl).value.group && r.value.name != []
    ensures r.Some? ==> r.value.library == library
    ensures r.Some? ==>
      var block := s[pos..BlockEnd(s, MatchAt(s, pos, SymbolDecl).value.end)];
      r.value.pinCount == CountFrom(block, PinToken, 0)
        && r.value.description == FirstGroup(block, DescriptionProp)
        && r.value.keywords == FirstGroup(block, KeywordsProp)
  {
    var m := MatchAt(s, pos, SymbolDecl).value;
    NonEmptyNameGroup(s, pos, SymbolDecl);
    if IsSubUnitName(m.group) then None
    else
      var block := s[pos..BlockEnd(s, m.end)];
      PinTokenIsToken();
      FindAllCountsTokens(block, PinToken, 0);
      Some(SymbolMeta(m.group, library, FirstGroup(block, DescriptionProp),
                      FirstGroup(block, KeywordsProp), |FindAll(block, PinToken, 0)|))
  }

  predicate AllDecls(s: string, ps: seq<nat>) {
    forall k :: 0 <= k < |ps| ==> ps[k] <= |s| && Matches(s, ps[k], SymbolDecl)
  }

  // The values of a list of options, in order; the symbol records are those of the
  // declarations' optional records.

  function Somes<T>(os: seq<Option<T>>): seq<T>
    decreases |os|
  {
    if os == [] then [] else (if os[0].Some? then [os[0].value] else []) + Somes(os[1..])
  }

  function Nones<T>(os: seq<Option<T>>): nat
    decreases |os|
  {
    if os == [] then 0 else (if os[0].None? then 1 else 0) + Nones(os[1..])
  }

  lemma {:induction false} SomesCount<T>(os: seq<Option<T>>)
    ensures Nones(os) <= |os| && |Somes(os)| == |os| - Nones(os)
    decreases |os|
  {
    if os != [] {
      SomesCount(os[1..]);
    }
  }

  lemma {:induction false} SomesComplete<T>(os: seq<Option<T>>, k: nat)
    requires k < |os| && os[k].Some?
    ensures os[k].value in Somes(os)
    decreases |os|
  {
    if k > 0 {
      assert os[1..][k - 1] == os[k];
      SomesComplete(os[1..], k - 1);
    }
  }

  lemma {:induction false} SomesSound<T>(os: seq<Option<T>>, x: T)
    requires x in Somes(os)
    ensures exists k :: 0 <= k < |os| && os[k] == Some(x)
    decreases |os|
  {
    if !(os[0].Some? && os[0].value == x) {
      SomesSound(os[1..], x);
      var k :| 0 <= k < |os[1..]| && os[1..][k] == Some(x);
      assert os[k + 1] == Some(x);
    }
  }

  lemma {:induction false} SomesAppend<T>(os: seq<Option<T>>, qs: seq<Option<T>>)
    ensures Somes(os + qs) == Somes(os) + Somes(qs)
    decreases |os|
  {
    if os == [] {
      assert os + qs == qs;
    } else {
      assert (os + qs)[0] == os[0];
      assert (os + qs)[1..] == os[1..] + qs;
      SomesAppend(os[1..], qs);
    }
  }

  /** The optional record of each declaration at `ps`. */
  function Records(s: string, library: string, ps: seq<nat>): (os: seq<Option<SymbolMeta>>)
    requires AllDecls(s, ps)
    ensures |os| == |ps| && forall k :: 0 <= k < |ps| ==> os[k] == SymbolAt(s, library, ps[k])
    decreases |ps|
  {
    if ps == [] then [] else [SymbolAt(s, library, ps[0])] + Records(s, library, ps[1..])
  }

  /** How many of the declarations at `ps` are unit sub-symbols. */
  function SubUnits(s: string, ps: seq<nat>): (n: nat)
    requires AllDecls(s, ps)
    ensures n <= |ps|
  {
    if ps == [] then 0
    else (if IsSubUnitName(MatchAt(s, ps[0], SymbolDecl).value.group) then 1 else 0) + SubUnits(s, ps[1..])
  }

  lemma {:induction false} SubUnitsAreNones(s: string, library: string, ps: seq<nat>)
    requires AllDecls(s, ps)
    ensures Nones(Records(s, library, ps)) == SubUnits(s, ps)
    decreases |ps|
  {
    if ps != [] {
      var os := Records(s, library, ps);
      assert os[1..] == Records(s, library, ps[1..]);
      SubUnitsAreNones(s, library, ps[1..]);
    }
  }

  /** The records of the declarations at `ps`, in their order, sub-symbols skipped. */
  function SymbolsOf(s: string, library: string, ps: seq<nat>): (rs: seq<SymbolMeta>)
    requires AllDecls(s, ps)
    ensures |rs| == |ps| - SubUnits(s, ps)
    ensures forall r :: r in rs ==> r.library == library && r.name != [] && !IsSubUnitName(r.name)
  {
    var os := Records(s, library, ps);
    SomesCount(os);
    SubUnitsAreNones(s, library, ps);
    assert forall r :: r in Somes(os) ==> exists k :: 0 <= k < |os| && os[k] == Some(r) by {
      forall r | r in Somes(os) ensures exists k :: 0 <= k < |os| && os[k] == Some(r) {
        SomesSound(os, r);
      }
    }
    Somes(os)
  }

  /** Every declaration that is not a sub-symbol has its record among the records. */
  lemma SymbolsOfComplete(s: string, library: string, ps: seq<nat>, k: nat)
    requires AllDecls(s, ps) && k < |ps| && !IsSubUnitName(MatchAt(s, ps[k], SymbolDecl).value.group)
    ensures SymbolAt(s, library, ps[k]).value in SymbolsOf(s, library, ps)
  {
    SomesComplete(Records(s, library, ps), k);
  }

  /** Every record is that of one of the declarations. */
  lemma SymbolsOfSound(s: string, library: string, ps: seq<nat>, r: SymbolMeta)
    requires AllDecls(s, ps) && r in SymbolsOf(s, library, ps)
    ensures exists k :: 0 <= k < |ps| && SymbolAt(s, library, ps[k]) == Some(r)
  {
    SomesSound(Records(s, library, ps), r);
  }

  /** The records of two runs of declarations are those of the first run, then those of
      the second: the records keep the declaration order. */
  lemma SymbolsOfAppend(s: string, library: string, ps: seq<nat>, qs: seq<nat>)
    requires AllDecls(s, ps) && AllDecls(s, qs)
    ensures AllDecls(s, ps + qs)
    ensures SymbolsOf(s, library, ps + qs) == SymbolsOf(s, library, ps) + SymbolsOf(s, library, qs)
  {
    AllDeclsAppend(s, ps, qs);
    var os, qos, all := Records(s, library, ps), Records(s, library, qs), Records(s, library, ps + qs);
    forall k | 0 <= k < |all| ensures all[k] == (os + qos)[k] {
      if k < |ps| {
        assert (ps + qs)[k] == ps[k];
      } else {
        assert (ps + qs)[k] == qs[k - |ps|];
      }
    }
    assert all == os + qos;
    SomesAppend(os, qos);
  }

  lemma AllDeclsAppend(s: string, ps: seq<nat>, qs: seq<nat>)
    requires AllDecls(s, ps) && AllDecls(s, qs)
    ensures AllDecls(s, ps + qs)
  {
    forall k | 0 <= k < |ps + qs| ensures (ps + qs)[k] <= |s| && Matches(s, (ps + qs)[k], SymbolDecl) {
      if k < |ps| {
        assert (ps + qs)[k] == ps[k];
      } else {
        assert (ps + qs)[k] == qs[k - |ps|];
      }
    }
  }

  lemma SymbolDeclConsuming()
    ensures Consuming(SymbolDecl)
  {
    assert Consumes(SymbolDecl[1..][0]);
  }

  /** The positions of the top-level declarations `re.finditer` finds, in rising order. */
  function DeclsOf(s: string): (ps: seq<nat>)
    ensures AllDecls(s, ps)
    ensures forall k, l :: 0 <= k < l < |ps| ==> ps[k] < ps[l]
  {
    SymbolDeclConsuming();
    FindAll(s, SymbolDecl, 0)
  }

  /** `_parse_kicad_sym(path)` for a file whose base name is `fileName`. */
  function ParseKicadSym(fileName: string, content: Option<string>): (rs: seq<SymbolMeta>)
    ensures content.None? ==> rs == []
    ensures forall r :: r in rs ==> r.library == FileStem(fileName) && r.name != [] && !IsSubUnitName(r.name)
    ensures content.Some? ==> |rs| == |DeclsOf(content.value)| - SubUnits(content.value, DeclsOf(content.value))
  {
    match content
    case None => []
    case Some(s) => SymbolsOf(s, FileStem(fileName), DeclsOf(s))
  }

  /** A symbol file yields one record per declaration found that is not a unit
      sub-symbol, and nothing else. */
  lemma ParseKicadSymMembers(fileName: string, s: string)
    ensures forall k :: 0 <= k < |DeclsOf(s)| && !IsSubUnitName(MatchAt(s, DeclsOf(s)[k], SymbolDecl).value.group) ==>
      SymbolAt(s, FileStem(fileName), DeclsOf(s)[k]).value in ParseKicadSym(fileName, Some(s))
    ensures forall r :: r in ParseKicadSym(fileName, Some(s)) ==>
      exists k :: 0 <= k < |DeclsOf(s)| && SymbolAt(s, FileStem(fileName), DeclsOf(s)[k]) == Some(r)
  {
    var ps, library := DeclsOf(s), FileStem(fileName);
    forall k | 0 <= k < |ps| && !IsSubUnitName(MatchAt(s, ps[k], SymbolDecl).value.group)
      ensures SymbolAt(s, library, ps[k]).value in ParseKicadSym(fileName, Some(s))
    {
      SymbolsOfComplete(s, library, ps, k);
    }
    forall r | r in ParseKicadSym(fileName, Some(s))
      ensures exists k :: 0 <= k < |ps| && SymbolAt(s, library, ps[k]) == Some(r)
    {
      SymbolsOfSound(s, library, ps, r);
    }
  }
}

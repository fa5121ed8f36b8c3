/** Netlist extraction from the text of a KiCad schematic: the bracket-balanced
    S-expression extractor, component records built from `(symbol ...)` blocks, the
    net table, and the statistics over a netlist. */
module NetlistParser {
  import opened Wrappers
  import opened Strings
  import opened TextScan
  import ComponentUtils

  // ---------------------------------------------------------------------
  // Bracket depth and the end of an S-expression
  // ---------------------------------------------------------------------

  function Delta(c: char): int {
    if c == '(' then 1 else if c == ')' then -1 else 0
  }

  /** The change in bracket depth over a piece of text. */
  function Depth(t: string): int
    decreases |t|
  {
    if t == [] then 0 else Delta(t[0]) + Depth(t[1..])
  }

  lemma {:induction false} DepthAppend(a: string, b: string)
    ensures Depth(a + b) == Depth(a) + Depth(b)
    decreases |a|
  {
    if a != [] {
      assert (a + b)[0] == a[0] && (a + b)[1..] == a[1..] + b;
      DepthAppend(a[1..], b);
    } else {
      assert a + b == b;
    }
  }

  /** Reading `s[i..m]` from depth `depth`, its last character is a `)` that brings the
      depth back to 0: where the extractor stops. */
  predicate ClosesAt(s: string, i: nat, depth: int, m: nat)
    requires i <= m <= |s|
  {
    i < m && s[m - 1] == ')' && depth + Depth(s[i..m]) == 0
  }

  /** Where the extractor's loop, started at `i` with depth `depth`, stops: just after a
      `)` that brings the depth to 0, else at the end of the content. */
  function ExprEnd(s: string, i: nat, depth: int): (e: nat)
    requires i <= |s|
    ensures i <= e <= |s|
    decreases |s| - i
  {
    if i == |s| then |s|
    else if s[i] == ')' && depth - 1 == 0 then i + 1
    else ExprEnd(s, i + 1, depth + Delta(s[i]))
  }

  lemma DepthStep(s: string, i: nat, m: nat)
    requires i < m <= |s|
    ensures Depth(s[i..m]) == Delta(s[i]) + Depth(s[i + 1..m])
  {
    assert s[i..m][0] == s[i] && s[i..m][1..] == s[i + 1..m];
  }

  /** The extractor stops at the first closing point, or at the end of the content when
      there is none before it. */
  lemma {:induction false} ExprEndFirstClose(s: string, i: nat, depth: int)
    requires i <= |s|
    ensures forall m :: i < m < ExprEnd(s, i, depth) ==> !ClosesAt(s, i, depth, m)
    ensures ClosesAt(s, i, depth, ExprEnd(s, i, depth)) || ExprEnd(s, i, depth) == |s|
    decreases |s| - i
  {
    if i == |s| {
    } else if s[i] == ')' && depth - 1 == 0 {
      DepthStep(s, i, i + 1);
      assert s[i + 1..i + 1] == [];
    } else {
      var d := depth + Delta(s[i]);
      ExprEndFirstClose(s, i + 1, d);
      var e := ExprEnd(s, i, depth);
      forall m | i < m < e ensures !ClosesAt(s, i, depth, m) {
        DepthStep(s, i, m);
        if m > i + 1 {
          assert !ClosesAt(s, i + 1, d, m);
        } else {
          assert s[i + 1..m] == [];
        }
      }
      if e < |s| {
        DepthStep(s, i, e);
        assert ClosesAt(s, i + 1, d, e);
      }
    }
  }

  /** What the extractor returns for a match starting at `pos`. */
  function SExprAt(s: string, pos: nat): (r: string)
    requires pos <= |s|
    ensures StartsWith(s[pos..], r)
  {
    s[pos..ExprEnd(s, pos, 0)]
  }

  /** The extracted text is the shortest prefix of `s[pos..]` that ends with a `)` closing
      depth 0, or the whole rest of the content when no such prefix exists. */
  lemma SExprFirstClose(s: string, pos: nat)
    requires pos <= |s|
    ensures var r := SExprAt(s, pos);
      (pos + |r| < |s| ==> r != [] && r[|r| - 1] == ')' && Depth(r) == 0)
      && forall m :: 0 < m < |r| ==> !(r[m - 1] == ')' && Depth(r[..m]) == 0)
  {
    var r := SExprAt(s, pos);
    ExprEndFirstClose(s, pos, 0);
    forall m | 0 < m < |r| ensures !(r[m - 1] == ')' && Depth(r[..m]) == 0) {
      assert r[..m] == s[pos..pos + m];
      assert !ClosesAt(s, pos, 0, pos + m);
    }
  }

  /** Started on a `(`, every proper prefix of the extracted text is still open: the text
      is one balanced S-expression whenever it ends before the end of the content. */
  lemma {:induction false} SExprPrefixesOpen(s: string, pos: nat, m: nat)
    requires pos < |s| && s[pos] == '('
    requires 0 < m < |SExprAt(s, pos)|
    ensures Depth(SExprAt(s, pos)[..m]) > 0
    decreases m
  {
    var r := SExprAt(s, pos);
    SExprFirstClose(s, pos);
    if m == 1 {
      assert r[..1] == ['('];
      assert r[..1][1..] == [];
    } else {
      SExprPrefixesOpen(s, pos, m - 1);
      assert r[..m] == r[..m - 1] + [r[m - 1]];
      DepthAppend(r[..m - 1], [r[m - 1]]);
      assert Depth([r[m - 1]]) == Delta(r[m - 1]) by {
        assert [r[m - 1]][1..] == [];
      }
    }
  }

  /** The extracted texts, one per match of `p`, in order. */
  function ExprsOf(s: string, p: Pattern): (r: seq<string>)
    requires Consuming(p)
  {
    var ps := FindAll(s, p, 0);
    seq(|ps|, k requires 0 <= k < |ps| => SExprAt(s, ps[k]))
  }

  // ---------------------------------------------------------------------
  // Component records
  // ---------------------------------------------------------------------

  datatype Pin = Pin(num: string, name: string)

  /** The dictionary `_parse_component` builds. A key the source leaves out is `None`, an
      empty `properties` map or an empty `pins` list. The position's coordinates are float
      values that the model does not read; `hasPosition` says whether the key is present. */
  datatype Component = Component(
    libId: Option<string>,
    reference: Option<string>,
    value: Option<string>,
    footprint: Option<string>,
    properties: map<string, string>,
    hasPosition: bool,
    pins: seq<Pin>)

  /** The dictionary is empty, so `if component:` rejects it. */
  predicate IsEmpty(c: Component) {
    c.libId.None? && c.reference.None? && c.value.None? && c.footprint.None?
    && c.properties == map[] && !c.hasPosition && c.pins == []
  }

  /** `component.get("reference", "Unknown")`. */
  function RefOf(c: Component): string {
    c.reference.GetOr("Unknown")
  }

  const SymbolPattern: Pattern := [Lit("(symbol"), Spaces]
  const LibIdPattern: Pattern := [Lit("(lib_id"), Spaces, Quoted(true), Lit(")")]
  const PropHead: Pattern := [Lit("(property"), Spaces, Quoted(true)]
  const PropTail: Pattern := [Spaces, Quoted(true)]
  const PropertyPattern: Pattern := PropHead + PropTail
  const PinHead: Pattern := [Lit("(pin"), Spaces, Lit("(num"), Spaces, Quoted(true)]
  const PinTail: Pattern := [Lit(")"), Spaces, Lit("(name"), Spaces, Quoted(true), Lit(")")]
  const PinPattern: Pattern := PinHead + PinTail
  /** `\(at\s+N\s+N(\s+N)?\)` matches at a position exactly when one of these two does. */
  const AtTwo: Pattern := [Lit("(at"), Spaces, Number, Spaces, Number, Lit(")")]
  const AtThree: Pattern := [Lit("(at"), Spaces, Number, Spaces, Number, Spaces, Number, Lit(")")]

  lemma PatternsConsume()
    ensures Consuming(SymbolPattern) && Consuming(PropertyPattern) && Consuming(PinPattern)
  {
    assert Consumes(SymbolPattern[0]) && Consumes(PropertyPattern[0]) && Consumes(PinPattern[0]);
  }

  function PropertyPairs(e: string): seq<(string, string)> {
    PatternsConsume();
    GroupPairs(e, FindAll(e, PropertyPattern, 0), PropHead, PropTail)
  }

  /** The pin records of a list of (number, name) pairs. */
  function PinsFrom(pairs: seq<(string, string)>): (r: seq<Pin>)
    ensures |r| == |pairs|
    decreases |pairs|
  {
    if pairs == [] then []
    else PinsFrom(pairs[..|pairs| - 1]) + [Pin(pairs[|pairs| - 1].0, pairs[|pairs| - 1].1)]
  }

  function PinList(e: string): (r: seq<Pin>) {
    PatternsConsume();
    PinsFrom(GroupPairs(e, FindAll(e, PinPattern, 0), PinHead, PinTail))
  }

  /** The property names routed to their own keys. */
  predicate IsRouted(name: string) {
    name == "Reference" || name == "Value" || name == "Footprint"
  }

  /** One iteration of the property loop. */
  function Route(c: Component, prop: (string, string)): Component {
    var (name, value) := prop;
    if name == "Reference" then c.(reference := Some(value))
    else if name == "Value" then c.(value := Some(value))
    else if name == "Footprint" then c.(footprint := Some(value))
    else c.(properties := c.properties[name := value])
  }

  function RouteAll(c: Component, props: seq<(string, string)>): Component
    decreases |props|
  {
    if props == [] then c else Route(RouteAll(c, props[..|props| - 1]), props[|props| - 1])
  }

  lemma RouteAllSnoc(c: Component, props: seq<(string, string)>, prop: (string, string))
    ensures RouteAll(c, props + [prop]) == Route(RouteAll(c, props), prop)
  {
    assert (props + [prop])[..|props|] == props;
  }

  lemma PinsFromSnoc(pairs: seq<(string, string)>, pair: (string, string))
    ensures PinsFrom(pairs + [pair]) == PinsFrom(pairs) + [Pin(pair.0, pair.1)]
  {
    assert (pairs + [pair])[..|pairs|] == pairs;
  }

  /** The value of the last property called `name`. */
  function LastOf(props: seq<(string, string)>, name: string): (r: Option<string>)
    decreases |props|
  {
    if props == [] then None
    else if props[|props| - 1].0 == name then Some(props[|props| - 1].1)
    else LastOf(props[..|props| - 1], name)
  }

  function Or(a: Option<string>, b: Option<string>): Option<string> {
    if a.Some? then a else b
  }

  /** Property routing: each of Reference, Value and Footprint takes the value of its last
      occurrence; every other name lands in `properties` with its last value; nothing
      else changes. */
  lemma RouteAllLastWins(c: Component, props: seq<(string, string)>)
    ensures var r := RouteAll(c, props);
      r.reference == Or(LastOf(props, "Reference"), c.reference)
      && r.value == Or(LastOf(props, "Value"), c.value)
      && r.footprint == Or(LastOf(props, "Footprint"), c.footprint)
      && r.libId == c.libId && r.hasPosition == c.hasPosition && r.pins == c.pins
      && (forall k :: k in r.properties <==> k in c.properties || (!IsRouted(k) && LastOf(props, k).Some?))
      && (forall k :: k in r.properties ==>
            r.properties[k] == if !IsRouted(k) && LastOf(props, k).Some? then LastOf(props, k).value else c.properties[k])
  {
    RoutedFields(c, props);
    RoutedProperties(c, props);
  }

  /** The last element decides `LastOf` when it carries the name. */
  lemma LastOfStep(props: seq<(string, string)>, name: string)
    requires props != []
    ensures LastOf(props, name) ==
      if props[|props| - 1].0 == name then Some(props[|props| - 1].1) else LastOf(props[..|props| - 1], name)
  {
  }

  lemma {:induction false} RoutedFields(c: Component, props: seq<(string, string)>)
    ensures var r := RouteAll(c, props);
      r.reference == Or(LastOf(props, "Reference"), c.reference)
      && r.value == Or(LastOf(props, "Value"), c.value)
      && r.footprint == Or(LastOf(props, "Footprint"), c.footprint)
      && r.libId == c.libId && r.hasPosition == c.hasPosition && r.pins == c.pins
    decreases |props|
  {
    if props != [] {
      RoutedFields(c, props[..|props| - 1]);
      LastOfStep(props, "Reference");
      LastOfStep(props, "Value");
      LastOfStep(props, "Footprint");
    }
  }

  lemma {:induction false} RoutedProperties(c: Component, props: seq<(string, string)>)
    ensures var r := RouteAll(c, props);
      (forall k :: k in r.properties <==> k in c.properties || (!IsRouted(k) && LastOf(props, k).Some?))
      && (forall k :: k in r.properties ==>
            r.properties[k] == if !IsRouted(k) && LastOf(props, k).Some? then LastOf(props, k).value else c.properties[k])
    decreases |props|
  {
    if props != [] {
      var init := props[..|props| - 1];
      RoutedProperties(c, init);
      forall k ensures LastOf(props, k) == if props[|props| - 1].0 == k then Some(props[|props| - 1].1) else LastOf(init, k) {
        LastOfStep(props, k);
      }
    }
  }

  /** The record `_parse_component` returns for a symbol's text. */
  function ComponentOf(e: string): Component {
    var lib := match Search(e, LibIdPattern, 0)
      case Some(k) => Some(MatchAt(e, k, LibIdPattern).value.group)
      case None => None;
    var routed := RouteAll(Component(lib, None, None, None, map[], false, []), PropertyPairs(e));
    routed.(hasPosition := Search(e, AtThree, 0).Some? || Search(e, AtTwo, 0).Some?,
            pins := PinList(e))
  }

  /** The non-empty records of a list of symbol texts, in order. */
  function NonEmptyOf(exprs: seq<string>): (r: seq<Component>)
    ensures forall k :: 0 <= k < |r| ==> !IsEmpty(r[k])
    decreases |exprs|
  {
    if exprs == [] then []
    else
      var c := ComponentOf(exprs[|exprs| - 1]);
      NonEmptyOf(exprs[..|exprs| - 1]) + (if IsEmpty(c) then [] else [c])
  }

  /** `component_info` after storing each record under its reference, in order. */
  function Keyed(info: map<string, Component>, cs: seq<Component>): map<string, Component>
    decreases |cs|
  {
    if cs == [] then info
    else Keyed(info, cs[..|cs| - 1])[RefOf(cs[|cs| - 1]) := cs[|cs| - 1]]
  }

  /** `component_info` holds one entry per reference seen and no other new key. */
  lemma {:induction false} KeyedKeys(info: map<string, Component>, cs: seq<Component>)
    ensures forall k :: k in Keyed(info, cs) <==> k in info || exists j :: 0 <= j < |cs| && RefOf(cs[j]) == k
    decreases |cs|
  {
    if cs != [] {
      var n := |cs| - 1;
      var init := cs[..n];
      KeyedKeys(info, init);
      forall k ensures k in Keyed(info, cs) <==> k in info || exists j :: 0 <= j < |cs| && RefOf(cs[j]) == k {
        if k != RefOf(cs[n]) {
          if exists j :: 0 <= j < |cs| && RefOf(cs[j]) == k {
            var j :| 0 <= j < |cs| && RefOf(cs[j]) == k;
            assert j < n && init[j] == cs[j];
          }
          if exists j :: 0 <= j < n && RefOf(init[j]) == k {
            var j :| 0 <= j < n && RefOf(init[j]) == k;
            assert init[j] == cs[j];
          }
        }
      }
    }
  }

  /** The entry for a reference is the last record carrying it: a later component with the
      same reference replaces an earlier one. */
  lemma {:induction false} KeyedLastWins(info: map<string, Component>, cs: seq<Component>, j: nat)
    requires j < |cs|
    requires forall l :: j < l < |cs| ==> RefOf(cs[l]) != RefOf(cs[j])
    ensures RefOf(cs[j]) in Keyed(info, cs) && Keyed(info, cs)[RefOf(cs[j])] == cs[j]
    decreases |cs|
  {
    var n := |cs| - 1;
    if j < n {
      var init := cs[..n];
      assert init[j] == cs[j];
      forall l | j < l < n ensures RefOf(init[l]) != RefOf(init[j]) {
        assert init[l] == cs[l];
      }
      KeyedLastWins(info, init, j);
    }
  }

  // ---------------------------------------------------------------------
  // The net table
  // ---------------------------------------------------------------------

  predicate Distinct(xs: seq<string>) {
    forall i, j :: 0 <= i < j < |xs| ==> xs[i] != xs[j]
  }

  /** The key order of `nets` after adding each name not yet present. */
  function AddNew(acc: seq<string>, names: seq<string>): seq<string>
    decreases |names|
  {
    if names == [] then acc
    else
      var a := AddNew(acc, names[..|names| - 1]);
      if names[|names| - 1] in a then a else a + [names[|names| - 1]]
  }

  /** Adding names keeps the table's existing keys in front, stays free of duplicates, and
      ends up with exactly the old keys and the new names. */
  lemma {:induction false} AddNewKeeps(acc: seq<string>, names: seq<string>)
    ensures |acc| <= |AddNew(acc, names)| && AddNew(acc, names)[..|acc|] == acc
    ensures Distinct(acc) ==> Distinct(AddNew(acc, names))
    ensures forall x :: x in AddNew(acc, names) <==> x in acc || x in names
    decreases |names|
  {
    if names != [] {
      var init := names[..|names| - 1];
      AddNewKeeps(acc, init);
      var a := AddNew(acc, init);
      forall x ensures x in AddNew(acc, names) <==> x in acc || x in names {
        assert x in names <==> x in init || x == names[|names| - 1] by {
          assert names == init + [names[|names| - 1]];
        }
      }
      if names[|names| - 1] !in a {
        assert (a + [names[|names| - 1]])[..|acc|] == a[..|acc|];
      }
    }
  }

  // ---------------------------------------------------------------------
  // The parser object
  // ---------------------------------------------------------------------

  /** What `parse` returns, without the lists of labels, wires, junctions and power
      symbols. */
  datatype ParseResult = ParseResult(
    components: map<string, Component>,
    nets: seq<string>,
    componentCount: nat,
    netCount: nat)

  /** `SchematicParser` after its file was read. `nets` holds the keys of the source's net
      dictionary in insertion order; every value the source stores there is an empty list. */
  class SchematicParser {
    var content: string
    var components: seq<Component>
    var componentInfo: map<string, Component>
    var nets: seq<string>

    predicate Valid()
      reads this
    {
      Distinct(nets)
    }

    constructor(text: string)
      ensures content == text && components == [] && componentInfo == map[] && nets == []
      ensures Valid()
    {
      content := text;
      components := [];
      componentInfo := map[];
      nets := [];
    }

    /** `_extract_s_expressions`: one text per match of `p`, each read from the match
        start up to its closing bracket. */
    method ExtractSExpressions(p: Pattern) returns (r: seq<string>)
      requires Consuming(p)
      ensures r == ExprsOf(content, p)
    {
      var positions := FindAll(content, p, 0);
      r := [];
      var k := 0;
      while k < |positions|
        invariant 0 <= k <= |positions|
        invariant |r| == k && forall j :: 0 <= j < k ==> r[j] == SExprAt(content, positions[j])
      {
        var s := ReadExpr(positions[k]);
        r := r + [s];
        k := k + 1;
      }
    }

    /** The inner loop of `_extract_s_expressions`: copy characters from `pos`, tracking the
        bracket depth, up to the `)` that brings it back to 0. */
    method ReadExpr(pos: nat) returns (s: string)
      requires pos <= |content|
      ensures s == SExprAt(content, pos)
    {
      var current := pos;
      var depth := 0;
      s := [];
      while current < |content|
        invariant pos <= current <= |content|
        invariant s == content[pos..current]
        invariant ExprEnd(content, current, depth) == ExprEnd(content, pos, 0)
      {
        var ch := content[current];
        s := s + [ch];
        if ch == '(' {
          depth := depth + 1;
        } else if ch == ')' {
          depth := depth - 1;
          if depth == 0 {
            assert s == content[pos..current + 1];
            break;
          }
        }
        current := current + 1;
      }
    }

    /** `_parse_component`: the lib id, the properties routed by name, whether a position
        is present, and the pins, read from one symbol's text. */
    method ParseComponent(e: string) returns (c: Component)
      ensures c == ComponentOf(e)
    {
      var lib: Option<string> := None;
      var at := Search(e, LibIdPattern, 0);
      if at.Some? {
        lib := Some(MatchAt(e, at.value, LibIdPattern).value.group);
      }
      c := RouteProperties(e, Component(lib, None, None, None, map[], false, []));
      var hasPosition := Search(e, AtThree, 0).Some? || Search(e, AtTwo, 0).Some?;
      var pins := ReadPins(e);
      c := c.(hasPosition := hasPosition, pins := pins);
    }

    /** The property loop of `_parse_component`. */
    method RouteProperties(e: string, base: Component) returns (c: Component)
      ensures c == RouteAll(base, PropertyPairs(e))
    {
      PatternsConsume();
      c := base;
      var props := FindAll(e, PropertyPattern, 0);
      var k := 0;
      while k < |props|
        invariant 0 <= k <= |props|
        invariant c == RouteAll(base, GroupPairs(e, props[..k], PropHead, PropTail))
      {
        var prop := TwoGroups(e, props[k], PropHead, PropTail);
        GroupPairsStep(e, props, PropHead, PropTail, k);
        RouteAllSnoc(base, GroupPairs(e, props[..k], PropHead, PropTail), prop);
        c := Route(c, prop);
        k := k + 1;
      }
      assert props[..|props|] == props;
    }

    /** The pin loop of `_parse_component`. */
    method ReadPins(e: string) returns (pins: seq<Pin>)
      ensures pins == PinList(e)
    {
      PatternsConsume();
      var pinAt := FindAll(e, PinPattern, 0);
      pins := [];
      var k := 0;
      while k < |pinAt|
        invariant 0 <= k <= |pinAt|
        invariant pins == PinsFrom(GroupPairs(e, pinAt[..k], PinHead, PinTail))
      {
        var (num, name) := TwoGroups(e, pinAt[k], PinHead, PinTail);
        GroupPairsStep(e, pinAt, PinHead, PinTail, k);
        PinsFromSnoc(GroupPairs(e, pinAt[..k], PinHead, PinTail), (num, name));
        pins := pins + [Pin(num, name)];
        k := k + 1;
      }
      assert pinAt[..|pinAt|] == pinAt;
    }

    /** `_extract_components`: parse every `(symbol` block, keep the non-empty records and
        key them by reference, later ones replacing earlier ones. */
    method ExtractComponents()
      modifies this
      ensures content == old(content) && nets == old(nets)
      ensures components == old(components) + NonEmptyOf(ExprsOf(content, SymbolPattern))
      ensures componentInfo == Keyed(old(componentInfo), NonEmptyOf(ExprsOf(content, SymbolPattern)))
    {
      PatternsConsume();
      var symbols := ExtractSExpressions(SymbolPattern);
      var i := 0;
      while i < |symbols|
        invariant 0 <= i <= |symbols|
        invariant content == old(content) && nets == old(nets)
        invariant components == old(components) + NonEmptyOf(symbols[..i])
        invariant componentInfo == Keyed(old(componentInfo), NonEmptyOf(symbols[..i]))
      {
        AddComponent(symbols[i]);
        NonEmptyPrefixStep(symbols, i);
        KeyedPrefixStep(old(componentInfo), symbols, i);
        ghost var c := ComponentOf(symbols[i]);
        if !IsEmpty(c) {
          AppendAssoc(old(components), NonEmptyOf(symbols[..i]), [c]);
        }
        i := i + 1;
      }
      assert symbols[..|symbols|] == symbols;
    }

    /** One iteration of `_extract_components`: a non-empty record is appended and stored
        under its reference. */
    method AddComponent(e: string)
      modifies this
      ensures content == old(content) && nets == old(nets)
      ensures var c := ComponentOf(e);
        if IsEmpty(c) then components == old(components) && componentInfo == old(componentInfo)
        else components == old(components) + [c] && componentInfo == old(componentInfo)[RefOf(c) := c]
    {
      var c := ParseComponent(e);
      if !IsEmpty(c) {
        components := components + [c];
        componentInfo := componentInfo[RefOf(c) := c];
      }
    }

    /** `_build_netlist`: every global-label text, then every power-symbol type, becomes a
        net unless it is one already. */
    method BuildNetlist(globalLabels: seq<string>, powerTypes: seq<string>)
      requires Valid()
      modifies this
      ensures Valid()
      ensures content == old(content) && components == old(components) && componentInfo == old(componentInfo)
      ensures nets == AddNew(AddNew(old(nets), globalLabels), powerTypes)
    {
      var i := 0;
      while i < |globalLabels|
        invariant 0 <= i <= |globalLabels|
        invariant content == old(content) && components == old(components) && componentInfo == old(componentInfo)
        invariant nets == AddNew(old(nets), globalLabels[..i])
      {
        assert globalLabels[..i + 1][..i] == globalLabels[..i];
        if globalLabels[i] !in nets {
          nets := nets + [globalLabels[i]];
        }
        i := i + 1;
      }
      assert globalLabels[..|globalLabels|] == globalLabels;
      var afterLabels := nets;
      i := 0;
      while i < |powerTypes|
        invariant 0 <= i <= |powerTypes|
        invariant content == old(content) && components == old(components) && componentInfo == old(componentInfo)
        invariant nets == AddNew(afterLabels, powerTypes[..i])
      {
        assert powerTypes[..i + 1][..i] == powerTypes[..i];
        if powerTypes[i] !in nets {
          nets := nets + [powerTypes[i]];
        }
        i := i + 1;
      }
      assert powerTypes[..|powerTypes|] == powerTypes;
      AddNewKeeps(old(nets), globalLabels);
      AddNewKeeps(afterLabels, powerTypes);
    }

    /** `parse`: extract the components, build the net table, and report both with their
        sizes. The label and power-symbol texts the source reads from the content are
        given. */
    method Parse(globalLabels: seq<string>, powerTypes: seq<string>) returns (r: ParseResult)
      requires Valid()
      modifies this
      ensures Valid()
      ensures r.components == componentInfo && r.nets == nets
      ensures r.componentCount == |componentInfo| && r.netCount == |nets|
      ensures componentInfo == Keyed(old(componentInfo), NonEmptyOf(ExprsOf(old(content), SymbolPattern)))
      ensures nets == AddNew(AddNew(old(nets), globalLabels), powerTypes)
    {
      ExtractComponents();
      BuildNetlist(globalLabels, powerTypes);
      r := ParseResult(componentInfo, nets, |componentInfo|, |nets|);
    }
  }

  lemma NonEmptyPrefixStep(exprs: seq<string>, i: nat)
    requires i < |exprs|
    ensures NonEmptyOf(exprs[..i + 1])
      == NonEmptyOf(exprs[..i]) + (if IsEmpty(ComponentOf(exprs[i])) then [] else [ComponentOf(exprs[i])])
  {
    assert exprs[..i + 1][..i] == exprs[..i];
  }

  lemma KeyedPrefixStep(info: map<string, Component>, exprs: seq<string>, i: nat)
    requires i < |exprs|
    ensures var c := ComponentOf(exprs[i]);
      Keyed(info, NonEmptyOf(exprs[..i + 1]))
      == if IsEmpty(c) then Keyed(info, NonEmptyOf(exprs[..i])) else Keyed(info, NonEmptyOf(exprs[..i]))[RefOf(c) := c]
  {
    NonEmptyPrefixStep(exprs, i);
    var c := ComponentOf(exprs[i]);
    KeyedSnoc(info, NonEmptyOf(exprs[..i]), c, !IsEmpty(c));
  }

  /** Storing one more record, or none. */
  lemma KeyedSnoc(info: map<string, Component>, cs: seq<Component>, c: Component, keep: bool)
    ensures Keyed(info, cs + (if keep then [c] else [])) == if keep then Keyed(info, cs)[RefOf(c) := c] else Keyed(info, cs)
  {
    if keep {
      assert (cs + [c])[..|cs|] == cs;
    } else {
      assert cs + [] == cs;
    }
  }

  // ---------------------------------------------------------------------
  // extract_netlist
  // ---------------------------------------------------------------------

  /** The schematic file as `extract_netlist` finds it. */
  datatype FileState = Missing | Unreadable(message: string) | Readable(text: string)

  datatype NetlistResult = NetlistResult(
    error: Option<string>,
    components: map<string, Component>,
    nets: seq<string>,
    componentCount: nat,
    netCount: nat)

  /** `extract_netlist`: parse the file, or report the error with empty components and nets
      and zero counts. */
  method ExtractNetlist(path: string, file: FileState, globalLabels: seq<string>, powerTypes: seq<string>)
    returns (r: NetlistResult)
    ensures file.Missing? ==> r.error == Some("Schematic file not found: " + path)
    ensures file.Unreadable? ==> r.error == Some(file.message)
    ensures r.error.Some? ==> r.components == map[] && r.nets == [] && r.componentCount == 0 && r.netCount == 0
    ensures file.Readable? ==> (r.error.None?
      && r.components == Keyed(map[], NonEmptyOf(ExprsOf(file.text, SymbolPattern)))
      && r.nets == AddNew(AddNew([], globalLabels), powerTypes)
      && r.componentCount == |r.components| && r.netCount == |r.nets|)
  {
    match file
    case Missing =>
      r := NetlistResult(Some("Schematic file not found: " + path), map[], [], 0, 0);
    case Unreadable(message) =>
      r := NetlistResult(Some(message), map[], [], 0, 0);
    case Readable(text) =>
      var parser := new SchematicParser(text);
      var parsed := parser.Parse(globalLabels, powerTypes);
      r := NetlistResult(None, parsed.components, parsed.nets, parsed.componentCount, parsed.netCount);
  }

  // ---------------------------------------------------------------------
  // analyze_netlist
  // ---------------------------------------------------------------------

  /** The fields of a netlist dictionary `analyze_netlist` reads: the two counts when
      present, the component references, and each net's name with its number of pins. */
  datatype NetlistData = NetlistData(
    componentCount: Option<int>,
    netCount: Option<int>,
    componentRefs: seq<string>,
    nets: seq<(string, nat)>)

  datatype Analysis = Analysis(
    componentCount: int,
    netCount: int,
    componentTypes: map<string, nat>,
    powerNets: seq<string>,
    totalPinConnections: nat)

  const PowerNetPrefixes: seq<string> := ["VCC", "VDD", "GND", "+5V", "+3V3", "+12V"]

  predicate IsPowerNet(name: string) {
    exists p :: p in PowerNetPrefixes && StartsWith(name, p)
  }

  /** How many references have type `t`. */
  function CountType(refs: seq<string>, t: string): nat
    decreases |refs|
  {
    if refs == [] then 0
    else CountType(refs[..|refs| - 1], t) + (if ComponentUtils.TypeFromReference(refs[|refs| - 1]) == t then 1 else 0)
  }

  /** The counter after one reference: its type, when it has one, goes up by one. */
  function CountRef(counts: map<string, nat>, reference: string): map<string, nat> {
    var t := ComponentUtils.TypeFromReference(reference);
    if t == [] then counts
    else counts[t := (if t in counts then counts[t] else 0) + 1]
  }

  function TypeCounts(refs: seq<string>): map<string, nat>
    decreases |refs|
  {
    if refs == [] then map[] else CountRef(TypeCounts(refs[..|refs| - 1]), refs[|refs| - 1])
  }

  /** The type counter holds, for every non-empty type, the number of references of that
      type, and no other key. */
  lemma {:induction false} TypeCountsCount(refs: seq<string>)
    ensures forall t :: t in TypeCounts(refs) <==> t != [] && CountType(refs, t) > 0
    ensures forall t :: t in TypeCounts(refs) ==> TypeCounts(refs)[t] == CountType(refs, t)
    decreases |refs|
  {
    if refs != [] {
      TypeCountsCount(refs[..|refs| - 1]);
    }
  }

  function PowerNetsOf(nets: seq<(string, nat)>): (r: seq<string>)
    decreases |nets|
  {
    if nets == [] then []
    else PowerNetsOf(nets[..|nets| - 1]) + (if IsPowerNet(nets[|nets| - 1].0) then [nets[|nets| - 1].0] else [])
  }

  /** The power-net list is the names with a power prefix, each net in its own place. */
  lemma {:induction false} PowerNetsMembers(nets: seq<(string, nat)>)
    ensures forall n :: n in PowerNetsOf(nets) <==> IsPowerNet(n) && exists i :: 0 <= i < |nets| && nets[i].0 == n
    ensures |PowerNetsOf(nets)| <= |nets|
    decreases |nets|
  {
    if nets != [] {
      var init := nets[..|nets| - 1];
      PowerNetsMembers(init);
      forall n ensures n in PowerNetsOf(nets) <==> IsPowerNet(n) && exists i :: 0 <= i < |nets| && nets[i].0 == n {
        if IsPowerNet(n) && exists i :: 0 <= i < |nets| && nets[i].0 == n {
          var i :| 0 <= i < |nets| && nets[i].0 == n;
          if i < |init| {
            assert init[i] == nets[i];
          }
        }
        if n in PowerNetsOf(init) {
          var i :| 0 <= i < |init| && init[i].0 == n;
          assert nets[i] == init[i];
        }
      }
    }
  }

  function SumPins(nets: seq<(string, nat)>): nat
    decreases |nets|
  {
    if nets == [] then 0 else SumPins(nets[..|nets| - 1]) + nets[|nets| - 1].1
  }

  /** `total_pin_connections`: a net's pins count once each, so the total is at least any
      single net's. */
  lemma {:induction false} SumPinsBounds(nets: seq<(string, nat)>, i: nat)
    requires i < |nets|
    ensures nets[i].1 <= SumPins(nets)
    decreases |nets|
  {
    if i < |nets| - 1 {
      SumPinsBounds(nets[..|nets| - 1], i);
    }
  }

  /** `analyze_netlist`: the two counts (0 when absent), the type counter, the power nets in
      order, and the total number of pin connections. */
  method AnalyzeNetlist(data: NetlistData) returns (r: Analysis)
    ensures r.componentCount == data.componentCount.GetOr(0)
    ensures r.netCount == data.netCount.GetOr(0)
    ensures r.componentTypes == TypeCounts(data.componentRefs)
    ensures r.powerNets == PowerNetsOf(data.nets)
    ensures r.totalPinConnections == SumPins(data.nets)
  {
    var types := CountTypes(data.componentRefs);
    var power := CollectPowerNets(data.nets);
    r := Analysis(data.componentCount.GetOr(0), data.netCount.GetOr(0), types, power, SumPins(data.nets));
  }

  /** The loop over the component references of `analyze_netlist`. */
  method CountTypes(refs: seq<string>) returns (types: map<string, nat>)
    ensures types == TypeCounts(refs)
  {
    types := map[];
    var i := 0;
    while i < |refs|
      invariant 0 <= i <= |refs|
      invariant types == TypeCounts(refs[..i])
    {
      assert refs[..i + 1][..i] == refs[..i];
      var t := ComponentUtils.TypeFromReference(refs[i]);
      if t != [] {
        types := types[t := (if t in types then types[t] else 0) + 1];
      }
      i := i + 1;
    }
    assert refs[..|refs|] == refs;
  }

  /** The loop over the net names of `analyze_netlist`. */
  method CollectPowerNets(nets: seq<(string, nat)>) returns (power: seq<string>)
    ensures power == PowerNetsOf(nets)
  {
    power := [];
    var i := 0;
    while i < |nets|
      invariant 0 <= i <= |nets|
      invariant power == PowerNetsOf(nets[..i])
    {
      assert nets[..i + 1][..i] == nets[..i];
      if StartsWithPowerPrefix(nets[i].0) {
        power := power + [nets[i].0];
      }
      i := i + 1;
    }
    assert nets[..|nets|] == nets;
  }

  /** `any(net_name.startswith(prefix) for prefix in [...])`. */
  function StartsWithPowerPrefix(name: string): (r: bool)
    ensures r <==> IsPowerNet(name)
  {
    StartsWith(name, "VCC") || StartsWith(name, "VDD") || StartsWith(name, "GND")
    || StartsWith(name, "+5V") || StartsWith(name, "+3V3") || StartsWith(name, "+12V")
  }
}

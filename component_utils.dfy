/** Classification of schematic components from their reference designator, value and
    library id, and the 78xx/79xx reading of a regulator's output voltage. */
module ComponentUtils {
  import opened Wrappers
  import opened Strings
  import opened TextScan

  /** `get_component_type_from_reference`: the leading run of `[A-Za-z_]`, or "" when the
      reference does not start with one. */
  function TypeFromReference(reference: string): (r: string)
    ensures StartsWith(reference, r)
    ensures forall i :: 0 <= i < |r| ==> IsIdentLetter(r[i])
    ensures |r| < |reference| ==> !IsIdentLetter(reference[|r|])
  {
    LeadingRun(reference, IsIdentLetter)
  }

  /** A designator made of a letter prefix and a number has that prefix as its type. */
  lemma {:induction false} TypeOfDesignator(prefix: string, number: string)
    requires forall i :: 0 <= i < |prefix| ==> IsIdentLetter(prefix[i])
    requires number == [] || !IsIdentLetter(number[0])
    ensures TypeFromReference(prefix + number) == prefix
    decreases |prefix|
  {
    var s := prefix + number;
    if prefix != [] {
      assert s[0] == prefix[0] && s[1..] == prefix[1..] + number;
      TypeOfDesignator(prefix[1..], number);
      assert prefix == [prefix[0]] + prefix[1..];
    } else {
      assert s == number;
    }
  }

  // ---------------------------------------------------------------------
  // is_power_component
  // ---------------------------------------------------------------------

  /** The three fields `is_power_component` reads; a missing key reads as "". */
  datatype Part = Part(reference: Option<string>, value: Option<string>, libId: Option<string>)

  const PowerPrefixes: seq<string> := ["VR", "PS", "REG"]

  const PowerTerms: seq<string> := ["VCC", "VDD", "GND", "POWER", "PWR", "SUPPLY", "REGULATOR", "LDO"]

  /** A part-number pattern `word` followed by exactly `digits` digits, e.g. `LM\d{3}`. */
  datatype CodePattern = CodePattern(word: string, digits: nat)

  const RegulatorPatterns: seq<CodePattern> := [
    CodePattern("78", 2), CodePattern("79", 2), CodePattern("LM", 3),
    CodePattern("LM", 4), CodePattern("AMS", 4), CodePattern("MCP", 4)]

  /** The pattern matches at position `i`, letters compared without case. */
  predicate CodeAt(s: string, i: nat, c: CodePattern) {
    i + |c.word| + c.digits <= |s| && SameNoCase(s[i..i + |c.word|], c.word)
    && forall j :: i + |c.word| <= j < i + |c.word| + c.digits ==> IsDigit(s[j])
  }

  /** `re.search(pattern, s, re.IGNORECASE)` for a part-number pattern, from `from`. */
  function FindCode(s: string, c: CodePattern, from: nat): (r: Option<nat>)
    requires from <= |s|
    ensures r.Some? ==> from <= r.value <= |s| && CodeAt(s, r.value, c)
    ensures r.Some? ==> forall j :: from <= j < r.value ==> !CodeAt(s, j, c)
    ensures r.None? ==> forall j :: from <= j <= |s| ==> !CodeAt(s, j, c)
    decreases |s| - from
  {
    if CodeAt(s, from, c) then Some(from)
    else if from == |s| then None
    else FindCode(s, c, from + 1)
  }

  predicate HasCode(s: string, c: CodePattern) {
    FindCode(s, c, 0).Some?
  }

  predicate AnyPrefix(s: string, ps: seq<string>) {
    exists p :: p in ps && StartsWith(s, p)
  }

  predicate AnyTerm(value: string, libId: string, ts: seq<string>) {
    exists t :: t in ts && (Contains(value, t) || Contains(libId, t))
  }

  predicate AnyCode(value: string, cs: seq<CodePattern>) {
    exists c :: c in cs && HasCode(value, c)
  }

  function StartsWithAny(s: string, ps: seq<string>): (r: bool)
    ensures r <==> AnyPrefix(s, ps)
  {
    if ps == [] then false
    else StartsWith(s, ps[0]) || StartsWithAny(s, ps[1..])
  }

  function ContainsAny(value: string, libId: string, ts: seq<string>): (r: bool)
    ensures r <==> AnyTerm(value, libId, ts)
  {
    if ts == [] then false
    else Contains(value, ts[0]) || Contains(libId, ts[0]) || ContainsAny(value, libId, ts[1..])
  }

  function MatchesAnyCode(value: string, cs: seq<CodePattern>): (r: bool)
    ensures r <==> AnyCode(value, cs)
  {
    if cs == [] then false
    else HasCode(value, cs[0]) || MatchesAnyCode(value, cs[1..])
  }

  /** `is_power_component`: the reference starts with VR, PS or REG; or the upper-cased
      value or library id contains a power term; or the upper-cased value holds a
      regulator part number. */
  function IsPowerComponent(part: Part): (r: bool)
    ensures r <==> (AnyPrefix(part.reference.GetOr([]), PowerPrefixes)
      || AnyTerm(Upper(part.value.GetOr([])), Upper(part.libId.GetOr([])), PowerTerms)
      || AnyCode(Upper(part.value.GetOr([])), RegulatorPatterns))
  {
    var reference := part.reference.GetOr([]);
    var value := Upper(part.value.GetOr([]));
    var libId := Upper(part.libId.GetOr([]));
    StartsWithAny(reference, PowerPrefixes)
    || ContainsAny(value, libId, PowerTerms)
    || MatchesAnyCode(value, RegulatorPatterns)
  }

  /** `LM\d{4}` adds nothing to `LM\d{3}`: wherever the longer one matches, so does the
      shorter one. */
  lemma LongCodeSubsumed(s: string)
    ensures HasCode(s, CodePattern("LM", 4)) ==> HasCode(s, CodePattern("LM", 3))
  {
    var long := CodePattern("LM", 4);
    var short := CodePattern("LM", 3);
    if HasCode(s, long) {
      var k := FindCode(s, long, 0).value;
      assert CodeAt(s, k, short);
    }
  }

  // ---------------------------------------------------------------------
  // normalize_component_value
  // ---------------------------------------------------------------------

  /** What the resistance, capacitance and inductance readers produce: the normalised
      text when both a number and a unit were found. */
  datatype ValueReaders = ValueReaders(
    resistance: string -> Option<string>,
    capacitance: string -> Option<string>,
    inductance: string -> Option<string>)

  /** The reader `normalize_component_value` dispatches to for a component type. */
  function ReaderFor(componentType: string, readers: ValueReaders): Option<string -> Option<string>>
  {
    if componentType == "R" then Some(readers.resistance)
    else if componentType == "C" then Some(readers.capacitance)
    else if componentType == "L" then Some(readers.inductance)
    else None
  }

  /** `normalize_component_value`: the input comes back unchanged unless the type is R, C
      or L and that type's reader succeeds. */
  function NormalizeValue(value: string, componentType: string, readers: ValueReaders): (r: string)
    ensures componentType != "R" && componentType != "C" && componentType != "L" ==> r == value
    ensures componentType == "R" ==> r == readers.resistance(value).GetOr(value)
    ensures componentType == "C" ==> r == readers.capacitance(value).GetOr(value)
    ensures componentType == "L" ==> r == readers.inductance(value).GetOr(value)
  {
    match ReaderFor(componentType, readers)
    case None => value
    case Some(read) =>
      match read(value)
      case Some(text) => text
      case None => value
  }

  // ---------------------------------------------------------------------
  // extract_voltage_from_regulator, 78xx/79xx path
  // ---------------------------------------------------------------------

  const Series78 := CodePattern("78", 2)
  const Series79 := CodePattern("79", 2)

  predicate SeriesAt(s: string, i: nat) {
    CodeAt(s, i, Series78) || CodeAt(s, i, Series79)
  }

  /** `re.search(r"78(\d\d)|79(\d\d)", value)`: the leftmost position where either matches. */
  function FirstSeriesCode(s: string, from: nat): (r: Option<nat>)
    requires from <= |s|
    ensures r.Some? ==> from <= r.value && r.value + 4 <= |s| && SeriesAt(s, r.value)
    ensures r.Some? ==> forall j :: from <= j < r.value ==> !SeriesAt(s, j)
    ensures r.None? ==> forall j :: from <= j <= |s| ==> !SeriesAt(s, j)
    decreases |s| - from
  {
    if SeriesAt(s, from) then Some(from)
    else if from == |s| then None
    else FirstSeriesCode(s, from + 1)
  }

  /** The first step of `extract_voltage_from_regulator`: the two digits after the first
      78/79 series code, when they read as a number below 50. `None` means the function
      goes on to its decimal patterns and lookup table, which this model does not cover. */
  function SeriesVoltage(value: string): (r: Option<string>)
  {
    match FirstSeriesCode(value, 0)
    case None => None
    case Some(k) =>
      var v := DigitsValue(value[k + 2..k + 4]);
      if v < 50 then Some(NatText(v) + "V") else None
  }

  /** The two-digit text of a number below 100, as it appears in a part number. */
  function TwoDigits(v: nat): (t: string)
    requires v < 100
    ensures |t| == 2 && IsDigit(t[0]) && IsDigit(t[1])
  {
    [DigitChar(v / 10), DigitChar(v % 10)]
  }

  lemma TwoDigitsValue(v: nat)
    requires v < 100
    ensures DigitsValue(TwoDigits(v)) == v
  {
    var t := TwoDigits(v);
    assert t[..1] == [DigitChar(v / 10)] && t[..1][..0] == [];
    assert DigitsValue(t[..1]) == v / 10;
  }

  /** A series code starts with the digit 7. */
  lemma NotSeriesUnlessSeven(s: string, j: nat)
    requires j < |s| && s[j] != '7'
    ensures !SeriesAt(s, j)
  {
    if j + 2 <= |s| {
      assert s[j..j + 2][0] == s[j];
      assert LowerChar(s[j]) != '7';
      assert LowerChar("78"[0]) == '7' && LowerChar("79"[0]) == '7';
    }
  }

  /** No series code starts inside a prefix that holds no digit. */
  lemma NoSeriesInPrefix(prefix: string, s: string, j: nat)
    requires StartsWith(s, prefix) && j < |prefix|
    requires forall i :: 0 <= i < |prefix| ==> !IsDigit(prefix[i])
    ensures !SeriesAt(s, j)
  {
    assert s[j] == prefix[j];
    NotSeriesUnlessSeven(s, j);
  }

  /** A series code after a digit-free prefix is the first one found. */
  lemma FirstSeriesAfterPrefix(s: string, k: nat)
    requires k <= |s| && SeriesAt(s, k)
    requires forall i :: 0 <= i < k ==> !IsDigit(s[i])
    ensures FirstSeriesCode(s, 0) == Some(k)
  {
    forall j | 0 <= j < k ensures !SeriesAt(s, j) {
      NoSeriesInPrefix(s[..k], s, j);
    }
  }

  /** For a part number made of a digit-free prefix, a 78/79 series code and two digits,
      the reading is those two digits as volts when they are below 50. */
  lemma {:induction false} SeriesVoltageOf(prefix: string, series: string, v: nat, rest: string)
    requires series == "78" || series == "79"
    requires forall i :: 0 <= i < |prefix| ==> !IsDigit(prefix[i])
    requires v < 100
    ensures FirstSeriesCode(prefix + series + TwoDigits(v) + rest, 0) == Some(|prefix|)
    ensures SeriesVoltage(prefix + series + TwoDigits(v) + rest) == if v < 50 then Some(NatText(v) + "V") else None
  {
    var s := prefix + series + TwoDigits(v) + rest;
    var k := |prefix|;
    assert s[k..k + 2] == series;
    assert s[k + 2..k + 4] == TwoDigits(v);
    assert SeriesAt(s, k) by {
      assert s[k + 2] == TwoDigits(v)[0] && s[k + 3] == TwoDigits(v)[1];
    }
    assert forall i :: 0 <= i < k ==> s[i] == prefix[i];
    FirstSeriesAfterPrefix(s, k);
    TwoDigitsValue(v);
  }

  // ---------------------------------------------------------------------
  // The fixed-regulator lookup table, and the sign of the 79xx series
  // ---------------------------------------------------------------------

  /** The start of the table of fixed regulators that `extract_voltage_from_regulator`
      consults last, in its order. */
  const FixedRegulators: seq<(string, string)> := [
    ("LM7805", "5V"), ("LM7809", "9V"), ("LM7812", "12V"),
    ("LM7905", "-5V"), ("LM7912", "-12V")]

  /** As written, a negative 79xx regulator is reported with a positive voltage: the series
      path answers before the table's negative entry is ever consulted. */
  lemma NegativeSeriesLosesSign()
    ensures SeriesVoltage("LM7912") == Some("12V")
    ensures ("LM7912", "-12V") in FixedRegulators
  {
    PartLM79(12);
    assert "LM79" + TwoDigits(12) == "LM7912";
    SeriesVoltageOf("LM", "79", 12, "");
    assert NatText(12) == "12";
    assert "12" + "V" == "12V";
  }

  /** A part number "LM79" followed by two digits. */
  lemma PartLM79(v: nat)
    requires v < 100
    ensures "LM" + "79" + TwoDigits(v) + "" == "LM79" + TwoDigits(v)
    ensures forall i :: 0 <= i < |"LM"| ==> !IsDigit("LM"[i])
  {
  }

  /** The series reading with the sign the 79xx series carries. */
  function SignedSeriesVoltage(value: string): (r: Option<string>)
    ensures r.Some? <==> SeriesVoltage(value).Some?
    ensures r.Some? ==> (var k := FirstSeriesCode(value, 0).value;
      r.value == (if CodeAt(value, k, Series79) then "-" else "") + SeriesVoltage(value).value)
  {
    match FirstSeriesCode(value, 0)
    case None => None
    case Some(k) =>
      var v := DigitsValue(value[k + 2..k + 4]);
      if v < 50 then Some((if CodeAt(value, k, Series79) then "-" else "") + NatText(v) + "V") else None
  }

  /** For a digit-free prefix, the signed reading of a 79xx part is negative and that of a
      78xx part positive. */
  lemma {:induction false} SignedSeriesVoltageOf(prefix: string, series: string, v: nat, rest: string)
    requires series == "78" || series == "79"
    requires forall i :: 0 <= i < |prefix| ==> !IsDigit(prefix[i])
    requires v < 50
    ensures SignedSeriesVoltage(prefix + series + TwoDigits(v) + rest)
      == Some((if series == "79" then "-" else "") + NatText(v) + "V")
  {
    var s := prefix + series + TwoDigits(v) + rest;
    var k := |prefix|;
    SeriesVoltageOf(prefix, series, v, rest);
    assert s[k..k + 2] == series;
    assert s[k + 2..k + 4] == TwoDigits(v);
    TwoDigitsValue(v);
    var sign := if series == "79" then "-" else "";
    assert CodeAt(s, k, Series79) <==> series == "79" by {
      if series == "78" {
        assert s[k..k + 2][1] == '8';
      }
    }
    assert SignedSeriesVoltage(s) == Some(sign + NatText(v) + "V");
  }

  /** The signed reading agrees with the table's entry for LM7905. */
  lemma SignedReadsLM7905()
    ensures SignedSeriesVoltage("LM7905") == Some("-5V")
  {
    PartLM79(5);
    assert "LM79" + TwoDigits(5) == "LM7905";
    SignedSeriesVoltageOf("LM", "79", 5, "");
    assert NatText(5) == "5";
    assert "-" + "5" + "V" == "-5V";
  }

  /** The signed reading agrees with the table's entry for LM7912. */
  lemma SignedReadsLM7912()
    ensures SignedSeriesVoltage("LM7912") == Some("-12V")
  {
    PartLM79(12);
    assert "LM79" + TwoDigits(12) == "LM7912";
    SignedSeriesVoltageOf("LM", "79", 12, "");
    assert NatText(12) == "12";
    assert "-" + "12" + "V" == "-12V";
  }
}

/** The handful of regular expressions the library parsers use, written as explicit
    character scanners. A pattern is a sequence of atoms; each atom is matched
    greedily, which agrees with the regex engine for these patterns because every
    `\s+`, `\d+` and `[^"]*` is followed by a character outside its class, and every
    optional word is followed by `\s+`, which cannot match the word's letters. */
module TextScan {
  import opened Wrappers
  import opened Strings

  datatype Atom =
    | LineStart            // `^` under re.MULTILINE: start of text or just after "\n"
    | Lit(text: string)    // literal text, `\(` written as "("
    | Spaces               // `\s+`
    | Quoted(nonEmpty: bool) // `"([^"]+)"` when nonEmpty, `"([^"]*)"` otherwise
    | Digits               // `(\d+)`
    | Number               // `([\d\.-]+)`
    | NoCase(word: string) // literal text under re.IGNORECASE (ASCII letters)
    | Opt(word: string)    // `(?:word)?` under re.IGNORECASE: taken when present

  type Pattern = seq<Atom>

  /** Where a match ends and what its (single) capture group holds. */
  datatype Match = Match(end: nat, group: string)

  predicate Consumes(a: Atom) {
    a.Spaces? || a.Quoted? || a.Digits? || a.Number? || (a.Lit? && a.text != []) || (a.NoCase? && a.word != [])
  }

  /** The atom sets the capture group. */
  predicate Captures(a: Atom) {
    a.Quoted? || a.Digits? || a.Number?
  }

  /** A character of the class `[\d\.-]`. */
  predicate IsNumberChar(c: char) { IsDigit(c) || c == '.' || c == '-' }

  /** `t` reads as `w` when ASCII letters are compared without case. */
  predicate SameNoCase(t: string, w: string) {
    |t| == |w| && forall j :: 0 <= j < |t| ==> LowerChar(t[j]) == LowerChar(w[j])
  }

  /** The pattern cannot match the empty string. */
  predicate Consuming(p: Pattern) {
    p != [] && (Consumes(p[0]) || Consuming(p[1..]))
  }

  function SpaceRun(s: string, i: nat): (n: nat)
    requires i <= |s|
    ensures i + n <= |s| && (i + n < |s| ==> !IsSpace(s[i + n]))
    ensures forall j :: i <= j < i + n ==> IsSpace(s[j])
    decreases |s| - i
  {
    if i < |s| && IsSpace(s[i]) then 1 + SpaceRun(s, i + 1) else 0
  }

  function NonQuoteRun(s: string, i: nat): (n: nat)
    requires i <= |s|
    ensures i + n <= |s| && (i + n < |s| ==> s[i + n] == '"')
    ensures forall j :: i <= j < i + n ==> s[j] != '"'
    decreases |s| - i
  {
    if i < |s| && s[i] != '"' then 1 + NonQuoteRun(s, i + 1) else 0
  }

  function DigitRun(s: string, i: nat): (n: nat)
    requires i <= |s|
    ensures i + n <= |s| && (i + n < |s| ==> !IsDigit(s[i + n]))
    ensures forall j :: i <= j < i + n ==> IsDigit(s[j])
    decreases |s| - i
  {
    if i < |s| && IsDigit(s[i]) then 1 + DigitRun(s, i + 1) else 0
  }

  function NumberRun(s: string, i: nat): (n: nat)
    requires i <= |s|
    ensures i + n <= |s| && (i + n < |s| ==> !IsNumberChar(s[i + n]))
    ensures forall j :: i <= j < i + n ==> IsNumberChar(s[j])
    decreases |s| - i
  {
    if i < |s| && IsNumberChar(s[i]) then 1 + NumberRun(s, i + 1) else 0
  }

  /** One atom matched at position `i`: where it ends and the group it leaves behind. */
  function Step(s: string, i: nat, a: Atom, group: string): (r: Option<Match>)
    requires i <= |s|
    ensures r.Some? ==> i <= r.value.end <= |s|
    ensures r.Some? && Consumes(a) ==> i < r.value.end
  {
    match a
    case LineStart =>
      if i == 0 || s[i - 1] == '\n' then Some(Match(i, group)) else None
    case Lit(t) =>
      if StartsWith(s[i..], t) then Some(Match(i + |t|, group)) else None
    case Spaces =>
      var n := SpaceRun(s, i);
      if n == 0 then None else Some(Match(i + n, group))
    case Quoted(nonEmpty) =>
      if i < |s| && s[i] == '"' then
        var n := NonQuoteRun(s, i + 1);
        if (nonEmpty && n == 0) || i + 1 + n == |s| then None
        else Some(Match(i + n + 2, s[i + 1..i + 1 + n]))
      else None
    case Digits =>
      var n := DigitRun(s, i);
      if n == 0 then None else Some(Match(i + n, s[i..i + n]))
    case Number =>
      var n := NumberRun(s, i);
      if n == 0 then None else Some(Match(i + n, s[i..i + n]))
    case NoCase(w) =>
      if |w| <= |s| - i && SameNoCase(s[i..i + |w|], w) then Some(Match(i + |w|, group)) else None
    case Opt(w) =>
      if |w| <= |s| - i && SameNoCase(s[i..i + |w|], w) then Some(Match(i + |w|, group)) else Some(Match(i, group))
  }

  function MatchFrom(s: string, i: nat, p: Pattern, group: string): (r: Option<Match>)
    requires i <= |s|
    ensures r.Some? ==> i <= r.value.end <= |s|
    ensures r.Some? && Consuming(p) ==> i < r.value.end
    decreases |p|
  {
    if p == [] then Some(Match(i, group))
    else match Step(s, i, p[0], group)
      case None => None
      case Some(m) => MatchFrom(s, m.end, p[1..], m.group)
  }

  /** Matching a pattern whose first atom matches is matching the rest from where it ended. */
  lemma MatchStep(s: string, i: nat, p: Pattern, group: string, m: Match)
    requires i <= |s| && p != [] && Step(s, i, p[0], group) == Some(m)
    ensures m.end <= |s| && MatchFrom(s, i, p, group) == MatchFrom(s, m.end, p[1..], m.group)
  {
  }

  /** A single digit followed by a non-digit is a digit run of length one. */
  lemma DigitStep(s: string, i: nat, group: string)
    requires i + 1 < |s| && IsDigit(s[i]) && !IsDigit(s[i + 1])
    ensures Step(s, i, Digits, group) == Some(Match(i + 1, [s[i]]))
  {
    assert DigitRun(s, i + 1) == 0;
    assert s[i..i + 1] == [s[i]];
  }

  /** A single space followed by a non-space is a whitespace run of length one. */
  lemma SpaceStep(s: string, i: nat, group: string)
    requires i + 1 < |s| && IsSpace(s[i]) && !IsSpace(s[i + 1])
    ensures Step(s, i, Spaces, group) == Some(Match(i + 1, group))
  {
    assert SpaceRun(s, i + 1) == 0;
  }

  /** A word found verbatim is matched, required or optional, without regard to case. */
  lemma WordStep(s: string, i: nat, w: string, group: string)
    requires i + |w| <= |s| && s[i..i + |w|] == w
    ensures Step(s, i, NoCase(w), group) == Some(Match(i + |w|, group))
    ensures Step(s, i, Opt(w), group) == Some(Match(i + |w|, group))
  {
  }

  /** Continue a match of a first part with the rest of a pattern. */
  function ThenMatch(s: string, r: Option<Match>, q: Pattern): Option<Match>
    requires r.Some? ==> r.value.end <= |s|
  {
    match r
    case None => None
    case Some(m) => MatchFrom(s, m.end, q, m.group)
  }

  /** Matching a concatenation is matching its first part and then the rest from where the
      first part ended, with the group the first part left behind. */
  lemma {:induction false} MatchConcat(s: string, i: nat, p: Pattern, q: Pattern, group: string)
    requires i <= |s|
    ensures MatchFrom(s, i, p + q, group) == ThenMatch(s, MatchFrom(s, i, p, group), q)
    decreases |p|
  {
    if p == [] {
      assert p + q == q;
    } else {
      var pq := p + q;
      assert pq[0] == p[0] && pq[1..] == p[1..] + q;
      match Step(s, i, p[0], group)
      case None =>
      case Some(m) => MatchConcat(s, m.end, p[1..], q, m.group);
    }
  }

  /** The pattern matched with its start at position `i` (Python's `pattern.match(s, i)`). */
  function MatchAt(s: string, i: nat, p: Pattern): (r: Option<Match>)
    requires i <= |s|
    ensures r.Some? ==> i <= r.value.end <= |s|
    ensures r.Some? && Consuming(p) ==> i < r.value.end
  {
    MatchFrom(s, i, p, [])
  }

  predicate Matches(s: string, i: nat, p: Pattern) {
    i <= |s| && MatchAt(s, i, p).Some?
  }

  /** `re.search` starting at `from`: the leftmost position where the pattern matches. */
  function Search(s: string, p: Pattern, from: nat): (r: Option<nat>)
    requires from <= |s|
    ensures r.Some? ==> from <= r.value <= |s| && Matches(s, r.value, p)
    ensures r.Some? ==> forall j :: from <= j < r.value ==> !Matches(s, j, p)
    ensures r.None? ==> forall j :: from <= j <= |s| ==> !Matches(s, j, p)
    decreases |s| - from
  {
    if MatchAt(s, from, p).Some? then Some(from)
    else if from == |s| then None
    else Search(s, p, from + 1)
  }

  /** The capture group of the leftmost match, or "" when there is none: how the
      parsers read a field (`m = re.search(...); if m: field = m.group(1)`). */
  function FirstGroup(s: string, p: Pattern): string
  {
    match Search(s, p, 0)
    case Some(k) => MatchAt(s, k, p).value.group
    case None => []
  }

  /** `re.finditer` from `from`: the start of every match, each search resuming where
      the previous match ended. */
  function FindAll(s: string, p: Pattern, from: nat): (ps: seq<nat>)
    requires from <= |s| && Consuming(p)
    ensures forall k :: 0 <= k < |ps| ==> from <= ps[k] < |s| && Matches(s, ps[k], p)
    ensures forall k, l :: 0 <= k < l < |ps| ==> ps[k] < ps[l]
    decreases |s| - from
  {
    match Search(s, p, from)
    case None => []
    case Some(k) =>
      var e := MatchAt(s, k, p).value.end;
      [k] + FindAll(s, p, e)
  }

  /** Reference definition for counting: the number of positions in [from, |s|) at which
      the pattern matches, position by position, ignoring overlaps. */
  function CountFrom(s: string, p: Pattern, from: nat): nat
    requires from <= |s|
    decreases |s| - from
  {
    if from == |s| then 0
    else (if Matches(s, from, p) then 1 else 0) + CountFrom(s, p, from + 1)
  }

  lemma {:induction false} CountFromSkip(s: string, p: Pattern, a: nat, b: nat)
    requires a <= b <= |s|
    requires forall j :: a <= j < b ==> !Matches(s, j, p)
    ensures CountFrom(s, p, a) == CountFrom(s, p, b)
    decreases b - a
  {
    if a < b {
      assert !Matches(s, a, p);
      CountFromSkip(s, p, a + 1, b);
    }
  }

  /** A token pattern `\(word\s+`: an opening parenthesis that its match never
      contains again, followed by whitespace. */
  predicate IsToken(p: Pattern) {
    |p| == 2 && p[0].Lit? && p[1] == Spaces && p[0].text != [] && p[0].text[0] == '('
    && forall j :: 1 <= j < |p[0].text| ==> p[0].text[j] != '(' && !IsSpace(p[0].text[j])
  }

  /** A match of a token pattern is the literal followed by the whole whitespace run. */
  lemma TokenMatchShape(s: string, i: nat, p: Pattern)
    requires IsToken(p) && i <= |s| && MatchAt(s, i, p).Some?
    ensures StartsWith(s[i..], p[0].text) && s[i] == '('
    ensures forall j :: i < j < MatchAt(s, i, p).value.end ==> s[j] != '('
  {
    var t := p[0].text;
    assert StartsWith(s[i..], t);
    assert s[i] == s[i..][0] == t[0];
    var n := SpaceRun(s, i + |t|);
    assert p[1..][1..] == [];
    assert MatchFrom(s, i + |t|, p[1..], []) == MatchFrom(s, i + |t| + n, [], []);
    forall j | i < j < i + |t| ensures s[j] != '(' {
      assert s[j] == s[i..][j - i] == t[j - i];
    }
  }

  /** No token match starts strictly inside another one. */
  lemma TokenNoOverlap(s: string, p: Pattern, k: nat, j: nat)
    requires IsToken(p) && k <= |s| && MatchAt(s, k, p).Some?
    requires k < j < MatchAt(s, k, p).value.end
    ensures !Matches(s, j, p)
  {
    TokenMatchShape(s, k, p);
    if Matches(s, j, p) {
      TokenMatchShape(s, j, p);
    }
  }

  /** Across one token match the positional count drops by exactly one. */
  lemma CountAcrossToken(s: string, p: Pattern, from: nat, k: nat)
    requires from <= k <= |s| && IsToken(p) && MatchAt(s, k, p).Some?
    requires forall j :: from <= j < k ==> !Matches(s, j, p)
    ensures CountFrom(s, p, from) == 1 + CountFrom(s, p, MatchAt(s, k, p).value.end)
  {
    CountFromSkip(s, p, from, k);
    assert CountFrom(s, p, k) == 1 + CountFrom(s, p, k + 1);
    SkipToken(s, p, k);
  }

  /** Inside a token match the positional count does not change. */
  lemma SkipToken(s: string, p: Pattern, k: nat)
    requires k <= |s| && IsToken(p) && MatchAt(s, k, p).Some?
    ensures k < MatchAt(s, k, p).value.end
    ensures CountFrom(s, p, k + 1) == CountFrom(s, p, MatchAt(s, k, p).value.end)
  {
    var e := MatchAt(s, k, p).value.end;
    assert Consumes(p[0]);
    forall j | k + 1 <= j < e ensures !Matches(s, j, p) {
      TokenNoOverlap(s, p, k, j);
    }
    CountFromSkip(s, p, k + 1, e);
  }

  /** Token matches cannot overlap, so `finditer` finds every position where one starts:
      its length is the positional count. */
  lemma {:induction false} FindAllCountsTokens(s: string, p: Pattern, from: nat)
    requires from <= |s| && IsToken(p)
    ensures |FindAll(s, p, from)| == CountFrom(s, p, from)
    decreases |s| - from
  {
    assert Consumes(p[0]);
    match Search(s, p, from)
    case None =>
      CountFromSkip(s, p, from, |s|);
    case Some(k) =>
      var e := MatchAt(s, k, p).value.end;
      assert |FindAll(s, p, from)| == 1 + |FindAll(s, p, e)|;
      CountAcrossToken(s, p, from, k);
      FindAllCountsTokens(s, p, e);
  }

  /** Every capture of the pattern is a `(\d+)`. */
  predicate DigitCaptures(p: Pattern) {
    forall k :: 0 <= k < |p| && Captures(p[k]) ==> p[k].Digits?
  }

  predicate AllDigits(t: string) {
    forall j :: 0 <= j < |t| ==> IsDigit(t[j])
  }

  /** A pattern whose only captures are `(\d+)` leaves a group of digits behind. */
  lemma {:induction false} DigitGroup(s: string, i: nat, p: Pattern, group: string)
    requires i <= |s| && DigitCaptures(p) && AllDigits(group)
    requires MatchFrom(s, i, p, group).Some?
    ensures AllDigits(MatchFrom(s, i, p, group).value.group)
    decreases |p|
  {
    if p != [] {
      var m := Step(s, i, p[0], group).value;
      assert AllDigits(m.group) by {
        if p[0].Digits? {
          var n := DigitRun(s, i);
          assert m.group == s[i..i + n];
        } else {
          assert !Captures(p[0]);
        }
      }
      assert DigitCaptures(p[1..]) by {
        forall k | 0 <= k < |p[1..]| && Captures(p[1..][k]) ensures p[1..][k].Digits? {
          assert p[1..][k] == p[k + 1];
        }
      }
      DigitGroup(s, m.end, p[1..], m.group);
    }
  }

  /** The two groups of a two-group pattern written as `head + tail`, each ending in its
      own capture. */
  function TwoGroups(s: string, pos: nat, head: Pattern, tail: Pattern): (string, string)
    requires pos <= |s| && MatchAt(s, pos, head + tail).Some?
  {
    MatchConcat(s, pos, head, tail, []);
    (MatchAt(s, pos, head).value.group, MatchAt(s, pos, head + tail).value.group)
  }

  predicate AllMatch(s: string, ps: seq<nat>, p: Pattern) {
    forall k :: 0 <= k < |ps| ==> Matches(s, ps[k], p)
  }

  /** The (group 1, group 2) pairs of the matches starting at `ps`. */
  function GroupPairs(s: string, ps: seq<nat>, head: Pattern, tail: Pattern): (r: seq<(string, string)>)
    requires AllMatch(s, ps, head + tail)
    ensures |r| == |ps|
    decreases |ps|
  {
    if ps == [] then []
    else GroupPairs(s, ps[..|ps| - 1], head, tail) + [TwoGroups(s, ps[|ps| - 1], head, tail)]
  }

  /** One more match position adds its pair at the end. */
  lemma GroupPairsStep(s: string, ps: seq<nat>, head: Pattern, tail: Pattern, i: nat)
    requires AllMatch(s, ps, head + tail) && i < |ps|
    ensures AllMatch(s, ps[..i], head + tail) && AllMatch(s, ps[..i + 1], head + tail)
    ensures GroupPairs(s, ps[..i + 1], head, tail) == GroupPairs(s, ps[..i], head, tail) + [TwoGroups(s, ps[i], head, tail)]
  {
    assert ps[..i + 1][..i] == ps[..i];
  }
}

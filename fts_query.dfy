/** The full-text query builder shared by both indexes, and, as its partner, a reader of
    the FTS5 expressions it produces: a sequence of string tokens separated by single
    spaces, where `""` inside a string stands for one `"` and a `*` after the closing
    quote makes the token a prefix query. */
module FtsQuery {
  import opened Wrappers
  import opened Strings

  /** `term.replace('"', '""')` */
  function Escape(t: string): string
  {
    if t == [] then [] else (if t[0] == '"' then "\"\"" else [t[0]]) + Escape(t[1..])
  }

  /** One search term of an expression, and whether it is matched as a prefix. */
  datatype Term = Term(text: string, prefix: bool)

  function Token(t: Term): string {
    "\"" + Escape(t.text) + "\"" + (if t.prefix then "*" else "")
  }

  function Tokens(ts: seq<Term>): (r: seq<string>)
    ensures |r| == |ts| && forall i :: 0 <= i < |ts| ==> r[i] == Token(ts[i])
  {
    seq(|ts|, i requires 0 <= i < |ts| => Token(ts[i]))
  }

  /** The terms `_build_fts_query` asks for: every word of the query, only the last one
      as a prefix. */
  function QueryTerms(words: seq<string>): (ts: seq<Term>)
    ensures |ts| == |words|
    ensures forall i :: 0 <= i < |words| ==> ts[i] == Term(words[i], i == |words| - 1)
  {
    seq(|words|, i requires 0 <= i < |words| => Term(words[i], i == |words| - 1))
  }

  /** `_build_fts_query(query)`; `query.strip().split()` is `Words(query)`, since `split()`
      already drops the whitespace around the words. */
  function BuildFtsQuery(query: string): string
  {
    Join(Tokens(QueryTerms(Words(query))), " ")
  }

  /** Reads the inside of a string token up to its closing quote, `""` standing for `"`;
      returns the text and what follows the closing quote. */
  function ReadQuoted(s: string): (r: Option<(string, string)>)
    ensures r.Some? ==> |r.value.1| < |s|
    decreases |s|
  {
    if s == [] then None
    else if s[0] == '"' then
      if |s| >= 2 && s[1] == '"' then
        match ReadQuoted(s[2..])
        case Some((t, rest)) => Some(("\"" + t, rest))
        case None => None
      else Some(([], s[1..]))
    else
      match ReadQuoted(s[1..])
      case Some((t, rest)) => Some(([s[0]] + t, rest))
      case None => None
  }

  /** Reads an expression of space-separated string tokens, each with an optional `*`. */
  function ParseQuery(s: string): Option<seq<Term>>
    decreases |s|
  {
    if s == [] || s[0] != '"' then None
    else match ReadQuoted(s[1..])
      case None => None
      case Some((t, rest)) =>
        var prefix := rest != [] && rest[0] == '*';
        var after := if prefix then rest[1..] else rest;
        if after == [] then Some([Term(t, prefix)])
        else if after[0] != ' ' then None
        else match ParseQuery(after[1..])
          case None => None
          case Some(ts) => Some([Term(t, prefix)] + ts)
  }

  /** Un-doubling the quotes of an escaped term gives the term back. */
  lemma {:induction false} ReadEscaped(t: string, rest: string)
    requires rest == [] || rest[0] != '"'
    ensures ReadQuoted(Escape(t) + "\"" + rest) == Some((t, rest))
    decreases |t|
  {
    if t == [] {
      assert Escape(t) + "\"" + rest == "\"" + rest;
      assert ("\"" + rest)[1..] == rest;
    } else {
      ReadEscaped(t[1..], rest);
      ReadEscapedStep(t, rest);
    }
  }

  /** One character of the term: a quote is read back from its doubled form. */
  lemma ReadEscapedStep(t: string, rest: string)
    requires t != [] && ReadQuoted(Escape(t[1..]) + "\"" + rest) == Some((t[1..], rest))
    ensures ReadQuoted(Escape(t) + "\"" + rest) == Some((t, rest))
  {
    var tail := Escape(t[1..]) + "\"" + rest;
    var head := if t[0] == '"' then "\"\"" else [t[0]];
    assert Escape(t) == head + Escape(t[1..]);
    AppendAssoc(head, Escape(t[1..]), "\"");
    AppendAssoc(head, Escape(t[1..]) + "\"", rest);
    if t[0] == '"' {
      ReadDoubledQuote(tail, t[1..], rest);
      assert "\"" + t[1..] == t;
    } else {
      ReadPlainChar(t[0], tail, t[1..], rest);
      assert [t[0]] + t[1..] == t;
    }
  }

  lemma ReadDoubledQuote(tail: string, u: string, rest: string)
    requires ReadQuoted(tail) == Some((u, rest))
    ensures ReadQuoted("\"\"" + tail) == Some(("\"" + u, rest))
  {
    var s := "\"\"" + tail;
    assert s[0] == '"' && s[1] == '"' && s[2..] == tail;
  }

  lemma ReadPlainChar(c: char, tail: string, u: string, rest: string)
    requires c != '"' && ReadQuoted(tail) == Some((u, rest))
    ensures ReadQuoted([c] + tail) == Some(([c] + u, rest))
  {
    var s := [c] + tail;
    assert s[0] == c && s[1..] == tail;
  }

  /** Any non-empty list of terms is read back from its expression. */
  lemma {:induction false} ParseJoinedTokens(ts: seq<Term>)
    requires ts != []
    ensures ParseQuery(Join(Tokens(ts), " ")) == Some(ts)
    decreases |ts|
  {
    var t := ts[0];
    assert Tokens(ts)[0] == Token(t) && Tokens(ts)[1..] == Tokens(ts[1..]);
    if |ts| > 1 {
      var tail := Join(Tokens(ts[1..]), " ");
      assert Join(Tokens(ts), " ") == Token(t) + (" " + tail);
      ParseToken(t, " " + tail);
      assert (" " + tail)[1..] == tail;
      ParseJoinedTokens(ts[1..]);
      assert [t] + ts[1..] == ts;
    } else {
      assert Join(Tokens(ts), " ") == Token(t) + [];
      ParseToken(t, []);
      assert ts == [t];
    }
  }

  /** One token followed by nothing, or by a space and what comes after it. */
  lemma ParseToken(t: Term, more: string)
    requires more == [] || more[0] == ' '
    ensures more == [] ==> ParseQuery(Token(t) + more) == Some([t])
    ensures more != [] && ParseQuery(more[1..]).None? ==> ParseQuery(Token(t) + more).None?
    ensures more != [] && ParseQuery(more[1..]).Some? ==>
      ParseQuery(Token(t) + more) == Some([t] + ParseQuery(more[1..]).value)
  {
    var rest := (if t.prefix then "*" else "") + more;
    TokenShape(t, more);
    ReadEscaped(t.text, rest);
    ParseAfterQuoted(Token(t) + more, t, more);
  }

  lemma TokenShape(t: Term, more: string)
    ensures var s := Token(t) + more;
      s != [] && s[0] == '"' && s[1..] == Escape(t.text) + "\"" + ((if t.prefix then "*" else "") + more)
  {
    var s := Token(t) + more;
    assert s == "\"" + (Escape(t.text) + "\"" + ((if t.prefix then "*" else "") + more));
  }

  /** The token's string has been read: its `*`, if any, and the rest of the expression. */
  lemma ParseAfterQuoted(s: string, t: Term, more: string)
    requires more == [] || more[0] == ' '
    requires s != [] && s[0] == '"'
    requires ReadQuoted(s[1..]) == Some((t.text, (if t.prefix then "*" else "") + more))
    ensures more == [] ==> ParseQuery(s) == Some([t])
    ensures more != [] && ParseQuery(more[1..]).None? ==> ParseQuery(s).None?
    ensures more != [] && ParseQuery(more[1..]).Some? ==> ParseQuery(s) == Some([t] + ParseQuery(more[1..]).value)
  {
    var rest := (if t.prefix then "*" else "") + more;
    if t.prefix { assert rest[1..] == more; } else { assert rest == more; }
    assert (rest != [] && rest[0] == '*') <==> t.prefix;
    assert Term(t.text, t.prefix) == t;
  }

  /** `_build_fts_query` emits one quoted token per whitespace-separated word, in order and
      separated by single spaces, only the last one carrying `*`; reading the expression
      back un-doubles the quotes and recovers every word. */
  lemma BuildFtsQueryRoundTrip(query: string)
    requires !IsBlank(query)
    ensures ParseQuery(BuildFtsQuery(query)) == Some(QueryTerms(Words(query)))
  {
    WordsEmptyIffBlank(query);
    ParseJoinedTokens(QueryTerms(Words(query)));
  }

  /** The words of the query, read back from the expression, are the words of the query. */
  lemma BuildFtsQueryWords(query: string, i: nat)
    requires !IsBlank(query) && i < |Words(query)|
    ensures ParseQuery(BuildFtsQuery(query)).Some?
    ensures var ts := ParseQuery(BuildFtsQuery(query)).value;
      |ts| == |Words(query)| && ts[i].text == Words(query)[i] && (ts[i].prefix <==> i == |ts| - 1)
  {
    BuildFtsQueryRoundTrip(query);
  }
}

/**
  escapeHtml of frontend-web/compute-js/src/index.js: five global replacements, one after the other.
 */
module EscapeHtml {
  import opened Options

  /** str.replace(/c/g, by) for a single character c */
  function Replace(s: string, c: char, entity: string): string {
    if s == "" then "" else (if s[0] == c then entity else [s[0]]) + Replace(s[1..], c, entity)
  }

  function Escape(s: string): string {
    Replace(Replace(Replace(Replace(Replace(s, '&', "&amp;"), '<', "&lt;"), '>', "&gt;"), '"', "&quot;"),
            '\'', "&#039;")
  }

  /** null, undefined and the empty string give the empty string. */
  method EscapeText(str: Option<string>) returns (escaped: string)
    ensures escaped == if str.None? then "" else Simultaneous(str.value)
  {
    if str.None? || str.value == "" { return ""; }
    EscapeIsSimultaneous(str.value);
    escaped := Replace(str.value, '&', "&amp;");
    escaped := Replace(escaped, '<', "&lt;");
    escaped := Replace(escaped, '>', "&gt;");
    escaped := Replace(escaped, '"', "&quot;");
    escaped := Replace(escaped, '\'', "&#039;");
  }

  function Entity(c: char): string {
    match c
    case '&' => "&amp;"
    case '<' => "&lt;"
    case '>' => "&gt;"
    case '"' => "&quot;"
    case '\'' => "&#039;"
    case _ => [c]
  }

  /** Every character is replaced on its own, all at once. */
  function Simultaneous(s: string): string {
    if s == "" then "" else Entity(s[0]) + Simultaneous(s[1..])
  }

  lemma {:induction false} ReplaceFirst(s: string, c: char, entity: string)
    ensures Replace("", c, entity) == ""
    ensures s != "" ==> Replace(s, c, entity) == (if s[0] == c then entity else [s[0]]) + Replace(s[1..], c, entity)
  {
  }

  lemma {:induction false} ReplaceConcat(s: string, t: string, c: char, entity: string)
    ensures Replace(s + t, c, entity) == Replace(s, c, entity) + Replace(t, c, entity)
  {
    hide Replace;
    ReplaceFirst(s, c, entity);
    if s == "" {
      assert s + t == t && "" + Replace(t, c, entity) == Replace(t, c, entity);
    } else {
      ReplaceConcat(s[1..], t, c, entity);
      ReplaceFirst(s + t, c, entity);
      assert (s + t)[1..] == s[1..] + t;
    }
  }

  lemma {:induction false} ReplaceAbsent(s: string, c: char, entity: string)
    requires c !in s
    ensures Replace(s, c, entity) == s
  {
    if s != "" { ReplaceAbsent(s[1..], c, entity); }
  }

  lemma {:induction false} ReplaceOne(c: char, entity: string)
    ensures Replace([c], c, entity) == entity
  {
    assert [c][1..] == "" && entity + "" == entity;
  }

  lemma {:induction false} EscapeConcat(s: string, t: string)
    ensures Escape(s + t) == Escape(s) + Escape(t)
  {
    var s1, t1 := Replace(s, '&', "&amp;"), Replace(t, '&', "&amp;");
    var s2, t2 := Replace(s1, '<', "&lt;"), Replace(t1, '<', "&lt;");
    var s3, t3 := Replace(s2, '>', "&gt;"), Replace(t2, '>', "&gt;");
    var s4, t4 := Replace(s3, '"', "&quot;"), Replace(t3, '"', "&quot;");
    hide Replace;
    ReplaceConcat(s, t, '&', "&amp;");
    ReplaceConcat(s1, t1, '<', "&lt;");
    ReplaceConcat(s2, t2, '>', "&gt;");
    ReplaceConcat(s3, t3, '"', "&quot;");
    ReplaceConcat(s4, t4, '\'', "&#039;");
  }

  lemma {:induction false} EscapeChar(c: char)
    ensures Escape([c]) == Entity(c)
  {
    hide Replace;
    var s1 := Replace([c], '&', "&amp;");
    if c == '&' { ReplaceOne(c, "&amp;"); } else { ReplaceAbsent([c], '&', "&amp;"); }
    var s2 := Replace(s1, '<', "&lt;");
    if c == '<' { ReplaceOne(c, "&lt;"); } else { ReplaceAbsent(s1, '<', "&lt;"); }
    var s3 := Replace(s2, '>', "&gt;");
    if c == '>' { ReplaceOne(c, "&gt;"); } else { ReplaceAbsent(s2, '>', "&gt;"); }
    var s4 := Replace(s3, '"', "&quot;");
    if c == '"' { ReplaceOne(c, "&quot;"); } else { ReplaceAbsent(s3, '"', "&quot;"); }
    if c == '\'' { ReplaceOne(c, "&#039;"); } else { ReplaceAbsent(s4, '\'', "&#039;"); }
  }

  /** What each character becomes */
  lemma {:induction false} EscapedCharacters()
    ensures Escape("&") == "&amp;" && Escape("<") == "&lt;" && Escape(">") == "&gt;"
    ensures Escape("\"") == "&quot;" && Escape("'") == "&#039;"
    ensures forall c: char | c !in "&<>\"'" :: Escape([c]) == [c]
  {
    hide Escape;
    EscapeChar('&');
    EscapeChar('<');
    EscapeChar('>');
    EscapeChar('"');
    EscapeChar('\'');
    forall c: char | c !in "&<>\"'" ensures Escape([c]) == [c] { EscapeChar(c); }
  }

  /** The five replacements in sequence are one replacement of all characters at once: the ampersand goes first, so
      no entity is escaped again. */
  lemma {:induction false} EscapeIsSimultaneous(s: string)
    ensures Escape(s) == Simultaneous(s)
  {
    if s != "" {
      EscapeConcat([s[0]], s[1..]);
      EscapeChar(s[0]);
      hide Escape;
      EscapeIsSimultaneous(s[1..]);
      assert [s[0]] + s[1..] == s;
    }
  }

  /** None of the four delimiters is left. */
  lemma {:induction false} NoRawDelimiters(s: string)
    ensures forall c | c in Simultaneous(s) :: c != '<' && c != '>' && c != '"' && c != '\''
  {
    if s != "" { NoRawDelimiters(s[1..]); }
  }

  // ----- Reading it back -----

  predicate Starts(s: string, prefix: string) {
    |prefix| <= |s| && s[..|prefix|] == prefix
  }

  /** What an HTML parser reads: the five references, and every other character as it is */
  function Unescape(s: string): string {
    if s == "" then ""
    else if Starts(s, "&amp;") then "&" + Unescape(s[5..])
    else if Starts(s, "&lt;") then "<" + Unescape(s[4..])
    else if Starts(s, "&gt;") then ">" + Unescape(s[4..])
    else if Starts(s, "&quot;") then "\"" + Unescape(s[6..])
    else if Starts(s, "&#039;") then "'" + Unescape(s[6..])
    else [s[0]] + Unescape(s[1..])
  }

  lemma {:induction false} StartsAt(s: string, prefix: string, k: nat)
    requires k < |prefix| && k < |s| && s[k] != prefix[k]
    ensures !Starts(s, prefix)
  {
    if |prefix| <= |s| { assert s[..|prefix|][k] == s[k]; }
  }

  lemma {:induction false} UnescapeEntity(c: char, rest: string)
    ensures Unescape(Entity(c) + rest) == [c] + Unescape(rest)
  {
    var e := Entity(c);
    var s := e + rest;
    assert s[|e|..] == rest && s[..|e|] == e && s[0] == e[0];
    if |e| > 1 {
      assert Starts(s, e) && s[1] == e[1];
      if c != '&' { StartsAt(s, "&amp;", 1); }
      if c != '<' { StartsAt(s, "&lt;", 1); }
      if c != '>' { StartsAt(s, "&gt;", 1); }
      if c != '"' { StartsAt(s, "&quot;", 1); }
      hide Starts;
    } else {
      StartsAt(s, "&amp;", 0);
      StartsAt(s, "&lt;", 0);
      StartsAt(s, "&gt;", 0);
      StartsAt(s, "&quot;", 0);
      StartsAt(s, "&#039;", 0);
      hide Starts;
    }
  }

  /** The text can be read back, so different texts have different escapes. */
  lemma {:induction false} RoundTrip(s: string)
    ensures Unescape(Escape(s)) == s
  {
    EscapeIsSimultaneous(s);
    hide Escape;
    if s != "" {
      RoundTrip(s[1..]);
      EscapeIsSimultaneous(s[1..]);
      UnescapeEntity(s[0], Simultaneous(s[1..]));
      assert [s[0]] + s[1..] == s;
    }
  }

  lemma {:induction false} EscapeInjective(s: string, t: string)
    requires Escape(s) == Escape(t)
    ensures s == t
  {
    hide *;
    RoundTrip(s);
    RoundTrip(t);
  }
}

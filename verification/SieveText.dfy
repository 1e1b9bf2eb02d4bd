/** The two escaping layers of generated Sieve scripts: quoted strings (section
    2.4.2 of RFC 5228) and :matches keys (section 2.7.1). */
module SieveText {
  import opened Text

  function ReplaceChar(x: char, c: char, with: string): string {
    if x == c then with else [x]
  }

  /** strings.ReplaceAll with a one-character pattern. */
  function ReplaceAll(s: string, c: char, with: string): string {
    if s == "" then "" else ReplaceChar(s[0], c, with) + ReplaceAll(s[1..], c, with)
  }

  lemma {:induction false} ReplaceAppend(a: string, b: string, c: char, with: string)
    ensures ReplaceAll(a + b, c, with) == ReplaceAll(a, c, with) + ReplaceAll(b, c, with)
  {
    hide ReplaceChar;
    if a == "" {
      assert a + b == b;
    } else {
      var ab := a + b;
      assert ab[0] == a[0] && ab[1..] == a[1..] + b;
      ReplaceAppend(a[1..], b, c, with);
    }
  }

  lemma ReplaceOne(x: char, c: char, with: string)
    ensures ReplaceAll([x], c, with) == if x == c then with else [x]
  {
    assert [x][1..] == "";
  }

  // ---------- quoted strings ----------

  function QuoteBody(s: string): string {
    ReplaceAll(ReplaceAll(s, '\\', "\\\\"), '"', "\\\"")
  }

  function Quote(s: string): string {
    "\"" + QuoteBody(s) + "\""
  }

  /** Both replacements, character by character. */
  function QuoteChar(c: char): string {
    if c == '\\' then "\\\\" else if c == '"' then "\\\"" else [c]
  }

  lemma QuoteCons(s: string)
    requires s != ""
    ensures QuoteBody(s) == QuoteChar(s[0]) + QuoteBody(s[1..])
  {
    var c := s[0];
    var head := if c == '\\' then "\\\\" else [c];
    ReplaceAppend(head, ReplaceAll(s[1..], '\\', "\\\\"), '"', "\\\"");
    if c == '\\' {
      ReplaceAppend("\\", "\\", '"', "\\\"");
      ReplaceOne('\\', '"', "\\\"");
      assert "\\\\" == "\\" + "\\";
    } else {
      ReplaceOne(c, '"', "\\\"");
    }
  }

  /** The string scanner, entered after the opening quote: a backslash stands for
      the character after it, an unescaped quote ends the string. Gives the value
      and what follows the closing quote. */
  function ScanString(s: string): (r: Option<(string, string)>)
    ensures r.Some? ==> |r.value.1| < |s|
  {
    if s == "" then None
    else if s[0] == '"' then Some(("", s[1..]))
    else
      var (c, rest) := if s[0] == '\\' && |s| > 1 then (s[1], s[2..]) else (s[0], s[1..]);
      var more := ScanString(rest);
      if more == None then None else Some(([c] + more.value.0, more.value.1))
  }

  /** A quoted string reads back as exactly the original, and the scanner stops at
      its closing quote, whatever follows. */
  lemma {:induction false} QuoteReadsBack(s: string, rest: string)
    ensures ScanString(QuoteBody(s) + "\"" + rest) == Some((s, rest))
  {
    var text := QuoteBody(s) + "\"" + rest;
    if s == "" {
      assert text == "\"" + rest;
    } else {
      QuoteReadsBack(s[1..], rest);
      QuoteCons(s);
      var tail := QuoteBody(s[1..]) + "\"" + rest;
      hide QuoteBody;
      assert text == QuoteChar(s[0]) + tail;
      assert text[|QuoteChar(s[0])|..] == tail;
      assert s == [s[0]] + s[1..];
    }
  }

  // ---------- :matches keys ----------

  function GlobEscape(s: string): string {
    ReplaceAll(ReplaceAll(ReplaceAll(s, '\\', "\\\\"), '*', "\\*"), '?', "\\?")
  }

  function EscapeChar(c: char): string {
    if c == '\\' || c == '*' || c == '?' then ['\\', c] else [c]
  }

  function EscapeEach(s: string): string {
    if s == "" then "" else EscapeChar(s[0]) + EscapeEach(s[1..])
  }

  lemma ReplaceNothing(c: char, with: string)
    ensures ReplaceAll("", c, with) == ""
  {}

  lemma ReplaceTwo(x: char, y: char, c: char, with: string)
    requires x != c && y != c
    ensures ReplaceAll([x, y], c, with) == [x, y]
  {
    ReplaceAppend([x], [y], c, with);
    ReplaceOne(x, c, with);
    ReplaceOne(y, c, with);
    assert [x] + [y] == [x, y];
  }

  /** The three replacements in sequence never touch each other's output. */
  lemma {:induction false} GlobEscapeIsEach(s: string)
    ensures GlobEscape(s) == EscapeEach(s)
  {
    if s == "" {
      ReplaceNothing('\\', "\\\\");
      ReplaceNothing('*', "\\*");
      ReplaceNothing('?', "\\?");
    } else {
      GlobEscapeIsEach(s[1..]);
      var c := s[0];
      var t1 := ReplaceAll(s[1..], '\\', "\\\\");
      var t2 := ReplaceAll(t1, '*', "\\*");
      var h1 := if c == '\\' then ['\\', '\\'] else [c];
      var h2 := if c == '*' then ['\\', '*'] else h1;
      assert "\\\\" == ['\\', '\\'] && "\\*" == ['\\', '*'] && "\\?" == ['\\', '?'];
      ReplaceAppend(h1, t1, '*', "\\*");
      ReplaceAppend(h2, t2, '?', "\\?");
      ReplaceOne(c, '*', "\\*");
      ReplaceOne(c, '?', "\\?");
      ReplaceTwo('\\', '\\', '*', "\\*");
      ReplaceTwo('\\', '\\', '?', "\\?");
      ReplaceTwo('\\', '*', '?', "\\?");
    }
  }

  datatype GlobTok = Star | Any | Lit(c: char)

  function GlobTokens(glob: string): seq<GlobTok> {
    if glob == "" then []
    else if glob[0] == '*' then [Star] + GlobTokens(glob[1..])
    else if glob[0] == '?' then [Any] + GlobTokens(glob[1..])
    else if glob[0] == '\\' && |glob| > 1 then [Lit(glob[1])] + GlobTokens(glob[2..])
    else [Lit(glob[0])] + GlobTokens(glob[1..])
  }

  predicate GlobMatch(toks: seq<GlobTok>, s: string)
    decreases |toks| + |s|
  {
    if toks == [] then s == ""
    else match toks[0]
      case Star => GlobMatch(toks[1..], s) || (s != "" && GlobMatch(toks, s[1..]))
      case Any => s != "" && GlobMatch(toks[1..], s[1..])
      case Lit(c) => s != "" && s[0] == c && GlobMatch(toks[1..], s[1..])
  }

  function Literals(s: string): seq<GlobTok> {
    seq(|s|, i requires 0 <= i < |s| => Lit(s[i]))
  }

  lemma TokenOf(c: char, tail: string)
    ensures GlobTokens(EscapeChar(c) + tail) == [Lit(c)] + GlobTokens(tail)
  {
    var all := EscapeChar(c) + tail;
    assert all[|EscapeChar(c)|..] == tail;
  }

  lemma {:induction false} EscapedTokens(v: string, rest: string)
    ensures GlobTokens(GlobEscape(v) + rest) == Literals(v) + GlobTokens(rest)
  {
    GlobEscapeIsEach(v);
    hide GlobEscape;
    if v == "" {
      assert EscapeEach(v) + rest == rest && Literals(v) == [];
    } else {
      EscapedTokens(v[1..], rest);
      GlobEscapeIsEach(v[1..]);
      var head, tail := EscapeChar(v[0]), EscapeEach(v[1..]) + rest;
      assert EscapeEach(v) + rest == head + tail;
      TokenOf(v[0], tail);
      hide GlobTokens, EscapeEach, EscapeChar;
      assert Literals(v) == [Lit(v[0])] + Literals(v[1..]);
    }
  }

  lemma {:induction false} StarMatchesAll(s: string)
    ensures GlobMatch([Star], s)
  {
    if s == "" {
      assert GlobMatch([Star][1..], s);
    } else {
      StarMatchesAll(s[1..]);
    }
  }

  lemma PrefixCons(s: string, v: string)
    requires s != "" && v != ""
    ensures HasPrefix(s, v) <==> s[0] == v[0] && HasPrefix(s[1..], v[1..])
  {
    assert s == [s[0]] + s[1..] && v == [v[0]] + v[1..];
    if |v| <= |s| {
      assert s[..|v|] == [s[0]] + s[1..][..|v| - 1];
    }
  }

  lemma {:induction false} LiteralsThen(v: string, toks: seq<GlobTok>, s: string)
    ensures GlobMatch(Literals(v) + toks, s) <==> HasPrefix(s, v) && GlobMatch(toks, s[|v|..])
  {
    var all := Literals(v) + toks;
    if v == "" {
      assert all == toks && s[0..] == s;
    } else {
      assert all[0] == Lit(v[0]) && all[1..] == Literals(v[1..]) + toks;
      if s != "" {
        LiteralsThen(v[1..], toks, s[1..]);
        PrefixCons(s, v);
        if |v| <= |s| {
          assert s[1..][|v| - 1..] == s[|v|..];
        }
      }
    }
  }

  lemma LiteralsExactly(v: string, s: string)
    ensures GlobMatch(Literals(v), s) <==> s == v
  {
    LiteralsThen(v, [], s);
    assert Literals(v) + [] == Literals(v);
    if HasPrefix(s, v) {
      assert s == v + s[|v|..];
    }
  }

  /** escape(v) followed by a star matches exactly the strings v is a prefix of. */
  lemma PrefixKey(v: string, s: string)
    ensures GlobMatch(GlobTokens(GlobEscape(v) + "*"), s) <==> HasPrefix(s, v)
  {
    EscapedTokens(v, "*");
    hide GlobEscape;
    assert GlobTokens("*") == [Star] + GlobTokens("*"[1..]) == [Star];
    LiteralsThen(v, [Star], s);
    if HasPrefix(s, v) {
      StarMatchesAll(s[|v|..]);
    }
  }

  lemma {:induction false} StarThen(v: string, s: string)
    ensures GlobMatch([Star] + Literals(v), s) <==> HasSuffix(s, v)
  {
    var toks := [Star] + Literals(v);
    assert toks[1..] == Literals(v);
    LiteralsExactly(v, s);
    if s != "" {
      StarThen(v, s[1..]);
      if HasSuffix(s[1..], v) {
        assert s[1..][|s[1..]| - |v|..] == s[|s| - |v|..];
      }
      if HasSuffix(s, v) && s != v {
        assert s[0..] == s && |v| < |s|;
        assert s[1..][|s[1..]| - |v|..] == s[|s| - |v|..];
      }
    }
    if s == v {
      assert s[0..] == s;
    }
  }

  /** A star followed by escape(v) matches exactly the strings v is a suffix of. */
  lemma SuffixKey(v: string, s: string)
    ensures GlobMatch(GlobTokens("*" + GlobEscape(v)), s) <==> HasSuffix(s, v)
  {
    EscapedTokens(v, "");
    hide GlobEscape;
    assert GlobEscape(v) + "" == GlobEscape(v);
    assert ("*" + GlobEscape(v))[1..] == GlobEscape(v);
    assert Literals(v) + GlobTokens("") == Literals(v);
    StarThen(v, s);
  }

  /** Case folding and escaping commute. */
  lemma {:induction false} LowerEscape(v: string)
    ensures Lower(GlobEscape(v)) == GlobEscape(Lower(v))
  {
    GlobEscapeIsEach(v);
    GlobEscapeIsEach(Lower(v));
    LowerEscapeEach(v);
  }

  lemma {:induction false} LowerEscapeEach(v: string)
    ensures Lower(EscapeEach(v)) == EscapeEach(Lower(v))
  {
    if v != "" {
      LowerEscapeEach(v[1..]);
      assert Lower(v)[1..] == Lower(v[1..]);
      assert Lower(EscapeChar(v[0])) == EscapeChar(LowerChar(v[0]));
      assert Lower(EscapeChar(v[0]) + EscapeEach(v[1..])) == Lower(EscapeChar(v[0])) + Lower(EscapeEach(v[1..]));
    }
  }
}

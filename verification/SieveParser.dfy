/** The Sieve parser that delivery uses, as far as generated scripts need it:
    commands, tags, strings, string lists and test lists. Comments, numbers and
    multi-line strings, which the generator never writes, are rejected. */
module SieveParser {
  import opened Text
  import opened SieveText

  datatype Value =
    | Bare(word: string)
    | Str(v: string)
    | Tag(name: string)
    | List(vs: seq<string>)
    | Tests(tests: seq<seq<Value>>)

  datatype Command = Command(name: string, tag: string, args: seq<Value>, block: Option<seq<Command>>)

  predicate IsAlpha(c: char) {
    'a' <= c <= 'z' || 'A' <= c <= 'Z'
  }

  predicate IsWordChar(c: char) {
    IsAlpha(c) || IsDigit(c) || c == '_'
  }

  predicate IsBlank(c: char) {
    c == ' ' || c == '\t' || c == '\r' || c == '\n'
  }

  function Skip(s: string): (r: string)
    ensures |r| <= |s| && (r != "" ==> !IsBlank(r[0]))
  {
    if s != "" && IsBlank(s[0]) then Skip(s[1..]) else s
  }

  /** The longest word at the front, and the rest. */
  function Word(s: string): (r: (string, string))
    ensures |r.0| + |r.1| == |s|
  {
    if s != "" && IsWordChar(s[0]) then
      var (w, rest) := Word(s[1..]);
      ([s[0]] + w, rest)
    else ("", s)
  }

  /** The elements of a string list, entered after its opening bracket. */
  function ParseStrings(s: string): (r: Option<(seq<string>, string)>)
    ensures r.Some? ==> |r.value.1| < |s|
    decreases |s|
  {
    var s1 := Skip(s);
    if s1 == "" then None
    else if s1[0] == ']' then Some(([], s1[1..]))
    else if s1[0] != '"' then None
    else
      var str := ScanString(s1[1..]);
      if str == None then None
      else
        var after := Skip(str.value.1);
        var more := ParseStrings(if after != "" && after[0] == ',' then after[1..] else after);
        if more == None then None else Some(([str.value.0] + more.value.0, more.value.1))
  }

  function ParseArg(s: string): (r: Option<(Value, string)>)
    requires s != ""
    ensures r.Some? ==> |r.value.1| < |s|
    decreases |s|, 0
  {
    if s[0] == ':' then
      var (w, rest) := Word(s[1..]);
      if w == "" then None else Some((Tag(w), rest))
    else if s[0] == '"' then
      var str := ScanString(s[1..]);
      if str == None then None else Some((Str(str.value.0), str.value.1))
    else if s[0] == '(' then
      var tests := ParseTests(s[1..], true);
      if tests == None then None else Some((Tests(tests.value.0), tests.value.1))
    else if s[0] == '[' then
      var strs := ParseStrings(s[1..]);
      if strs == None then None else Some((List(strs.value.0), strs.value.1))
    else if !IsAlpha(s[0]) then None
    else
      var (w, rest) := Word(s);
      if Lower(w) == "text" && rest != "" && rest[0] == ':' then None else Some((Bare(w), rest))
  }

  /** Arguments up to the character that ends them: a comma or closing
      parenthesis in a test list, a semicolon or brace after a command. */
  function ParseArgs(s: string, inTest: bool): (r: Option<(seq<Value>, string)>)
    ensures r.Some? ==> |r.value.1| <= |s| && r.value.1 != "" && IsEnd(r.value.1[0], inTest)
    ensures r.Some? && s != "" && IsAlpha(s[0]) ==> |r.value.1| < |s|
    decreases |s|, 1
  {
    var s1 := Skip(s);
    if s1 == "" then None
    else if IsEnd(s1[0], inTest) then Some(([], s1))
    else if inTest && s1[0] in {';', '{', '}'} then None
    else
      var arg := ParseArg(s1);
      if arg == None then None
      else
        var more := ParseArgs(arg.value.1, inTest);
        if more == None then None else Some(([arg.value.0] + more.value.0, more.value.1))
  }

  predicate IsEnd(c: char, inTest: bool) {
    if inTest then c == ',' || c == ')' else c == ';' || c == '{'
  }

  /** The tests of a test list up to its closing parenthesis; needTest says that
      a parenthesis here would leave a test missing. */
  function ParseTests(s: string, needTest: bool): (r: Option<(seq<seq<Value>>, string)>)
    ensures r.Some? ==> |r.value.1| < |s|
    decreases |s|, 2
  {
    var s1 := Skip(s);
    if s1 == "" then None
    else if s1[0] == ')' then if needTest then None else Some(([], s1[1..]))
    else if !IsAlpha(s1[0]) then None
    else
      var test := ParseArgs(s1, true);
      if test == None then None
      else
        var rest := test.value.1;
        var more := if rest[0] == ',' then ParseTests(rest[1..], true) else ParseTests(rest, false);
        if more == None then None else Some(([test.value.0] + more.value.0, more.value.1))
  }

  /** Only if and elsif take a test, that is, a bare word, as an argument. */
  predicate ArgsAllowed(name: string, args: seq<Value>) {
    name == "if" || name == "elsif" || forall i :: 0 <= i < |args| ==> !args[i].Bare?
  }

  function ParseCommand(s: string): (r: Option<(Command, string)>)
    requires s != ""
    ensures r.Some? ==> |r.value.1| < |s|
    decreases |s|, 3
  {
    if !IsAlpha(s[0]) then None
    else
      var (w, r0) := Word(s);
      var r1 := Skip(r0);
      var tagged := r1 != "" && r1[0] == ':';
      var (tag, r2) := if tagged then Word(r1[1..]) else ("", r1);
      if tagged && tag == "" then None
      else
        var args := ParseArgs(r2, false);
        if args == None || !ArgsAllowed(Lower(w), args.value.0) then None
        else
          var rest := args.value.1;
          if rest[0] == ';' then Some((Command(Lower(w), tag, args.value.0, None), rest[1..]))
          else
            var block := ParseBlock(rest[1..]);
            if block == None then None
            else
              var after := block.value.1;
              Some((Command(Lower(w), tag, args.value.0, Some(block.value.0)),
                    if after != "" && after[0] == ';' then after[1..] else after))
  }

  /** The commands of a block, entered after its opening brace. */
  function ParseBlock(s: string): (r: Option<(seq<Command>, string)>)
    ensures r.Some? ==> |r.value.1| < |s|
    decreases |s|, 4
  {
    var s1 := Skip(s);
    if s1 == "" then None
    else if s1[0] == '}' then Some(([], s1[1..]))
    else
      var cmd := ParseCommand(s1);
      if cmd == None then None
      else
        var more := ParseBlock(cmd.value.1);
        if more == None then None else Some(([cmd.value.0] + more.value.0, more.value.1))
  }

  function ParseScript(s: string): Option<seq<Command>>
    decreases |s|
  {
    var s1 := Skip(s);
    if s1 == "" then Some([])
    else
      var cmd := ParseCommand(s1);
      if cmd == None then None
      else
        var more := ParseScript(cmd.value.1);
        if more == None then None else Some([cmd.value.0] + more.value)
  }

  // ---------- printing ----------

  function QuoteList(vs: seq<string>): string {
    if vs == [] then ""
    else if |vs| == 1 then Quote(vs[0])
    else Quote(vs[0]) + ", " + QuoteList(vs[1..])
  }

  function PrintValue(v: Value): string {
    match v
    case Bare(w) => w
    case Str(s) => Quote(s)
    case Tag(n) => ":" + n
    case List(vs) => "[" + QuoteList(vs) + "]"
    case Tests(_) => ""
  }

  function PrintArgs(args: seq<Value>): string {
    if args == [] then ""
    else if |args| == 1 then PrintValue(args[0])
    else PrintValue(args[0]) + " " + PrintArgs(args[1..])
  }

  function PrintTests(ts: seq<seq<Value>>): string {
    if ts == [] then ""
    else if |ts| == 1 then PrintArgs(ts[0])
    else PrintArgs(ts[0]) + ", " + PrintTests(ts[1..])
  }

  predicate IsWord(w: string) {
    w != "" && IsAlpha(w[0]) && forall i :: 0 <= i < |w| ==> IsWordChar(w[i])
  }

  /** A value the generator writes. */
  predicate Simple(v: Value) {
    match v
    case Bare(w) => IsWord(w) && Lower(w) != "text"
    case Tag(n) => IsWord(n)
    case Str(_) => true
    case List(vs) => vs != []
    case Tests(_) => false
  }

  predicate SimpleArgs(args: seq<Value>) {
    args != [] && forall i :: 0 <= i < |args| ==> Simple(args[i])
  }

  /** Text that cannot continue a word. */
  predicate EndsWord(rest: string) {
    rest == "" || !IsWordChar(rest[0])
  }

  lemma {:induction false} WordOf(w: string, rest: string)
    requires (forall i :: 0 <= i < |w| ==> IsWordChar(w[i])) && EndsWord(rest)
    ensures Word(w + rest) == (w, rest)
  {
    hide IsWordChar;
    if w == "" {
      assert w + rest == rest;
    } else {
      WordOf(w[1..], rest);
      assert (w + rest)[1..] == w[1..] + rest;
      assert w == [w[0]] + w[1..];
    }
  }

  lemma ScanQuoted(v: string, rest: string)
    ensures (Quote(v) + rest)[0] == '"' && ScanString((Quote(v) + rest)[1..]) == Some((v, rest))
  {
    QuoteReadsBack(v, rest);
    hide QuoteBody, ScanString;
    assert (Quote(v) + rest)[1..] == QuoteBody(v) + "\"" + rest;
  }

  lemma StringsStep(v: string, after: string)
    ensures ParseStrings(Quote(v) + after) ==
              var a := Skip(after);
              var more := ParseStrings(if a != "" && a[0] == ',' then a[1..] else a);
              if more == None then None else Some(([v] + more.value.0, more.value.1))
  {
    ScanQuoted(v, after);
    hide Quote, ScanString;
    var text := Quote(v) + after;
    assert Skip(text) == text;
  }

  lemma StringsEnd(rest: string)
    ensures ParseStrings("]" + rest) == Some(([], rest))
  {
    assert ("]" + rest)[1..] == rest;
  }

  lemma {:induction false} ParseQuoteList(vs: seq<string>, rest: string)
    requires vs != []
    ensures ParseStrings(QuoteList(vs) + "]" + rest) == Some((vs, rest))
  {
    hide Quote, ParseStrings;
    var v := vs[0];
    if |vs| == 1 {
      assert QuoteList(vs) + "]" + rest == Quote(v) + ("]" + rest);
      StringsStep(v, "]" + rest);
      StringsEnd(rest);
      assert vs == [v] + [];
    } else {
      var tail := QuoteList(vs[1..]) + "]" + rest;
      assert QuoteList(vs) + "]" + rest == Quote(v) + (", " + tail);
      StringsStep(v, ", " + tail);
      ParseQuoteList(vs[1..], rest);
      assert (", " + tail)[1..] == " " + tail;
      SpaceStrings(tail);
      assert vs == [v] + vs[1..];
    }
  }

  lemma SkipSpaceChar(c: char, s: string)
    requires IsBlank(c)
    ensures Skip([c] + s) == Skip(s)
  {
    assert ([c] + s)[1..] == s;
  }

  lemma SpaceStrings(s: string)
    ensures ParseStrings(" " + s) == ParseStrings(s)
  {
    SkipSpaceChar(' ', s);
    hide ScanString, Skip;
  }

  lemma ParseBare(w: string, rest: string)
    requires IsWord(w) && Lower(w) != "text" && EndsWord(rest)
    ensures ParseArg(w + rest) == Some((Bare(w), rest))
  {
    WordOf(w, rest);
    hide Word, Lower;
    assert (w + rest)[0] == w[0];
  }

  lemma ParseTag(n: string, rest: string)
    requires IsWord(n) && EndsWord(rest)
    ensures ParseArg(":" + n + rest) == Some((Tag(n), rest))
  {
    WordOf(n, rest);
    assert (":" + n + rest)[1..] == n + rest;
    hide Word;
  }

  lemma ParseStr(s: string, rest: string)
    ensures ParseArg(Quote(s) + rest) == Some((Str(s), rest))
  {
    ScanQuoted(s, rest);
    hide ScanString, Quote;
  }

  lemma ParseList(vs: seq<string>, rest: string)
    requires vs != []
    ensures ParseArg("[" + QuoteList(vs) + "]" + rest) == Some((List(vs), rest))
  {
    ParseQuoteList(vs, rest);
    hide ParseStrings, QuoteList;
    assert ("[" + QuoteList(vs) + "]" + rest)[1..] == QuoteList(vs) + "]" + rest;
  }

  lemma ParseValue(v: Value, rest: string)
    requires Simple(v) && EndsWord(rest)
    ensures ParseArg(PrintValue(v) + rest) == Some((v, rest))
  {
    match v
    case Bare(w) => ParseBare(w, rest);
    case Tag(n) => ParseTag(n, rest);
    case Str(s) => ParseStr(s, rest);
    case List(vs) => ParseList(vs, rest);
  }

  /** No printed value starts with white space or with a character that ends
      an argument list. */
  lemma ValueStart(v: Value)
    requires Simple(v)
    ensures PrintValue(v) != ""
    ensures var c := PrintValue(v)[0];
            !IsBlank(c) && c !in {';', '{', '}', ',', ')'} && (v.Bare? ==> IsAlpha(c))
  {
    hide Lower;
  }

  /** One step of the argument loop over a printed value. */
  lemma ArgsStep(v: Value, rest: string, inTest: bool)
    requires Simple(v) && EndsWord(rest)
    ensures ParseArgs(PrintValue(v) + rest, inTest) ==
              var more := ParseArgs(rest, inTest);
              if more == None then None else Some(([v] + more.value.0, more.value.1))
  {
    ValueStart(v);
    ParseValue(v, rest);
    hide PrintValue, ParseArg, Simple;
    var text := PrintValue(v) + rest;
    assert text[0] == PrintValue(v)[0];
    assert Skip(text) == text;
  }

  lemma ArgsSpace(s: string, inTest: bool)
    ensures ParseArgs(" " + s, inTest) == ParseArgs(s, inTest)
  {
    SkipSpaceChar(' ', s);
    hide ParseArg, Skip;
  }

  lemma ArgsEnd(rest: string, inTest: bool)
    requires rest != "" && IsEnd(rest[0], inTest)
    ensures ParseArgs(rest, inTest) == Some(([], rest))
  {
    hide ParseArg;
  }

  /** A printed argument list reads back, up to the character that ends it. */
  lemma {:induction false} ParsePrintedArgs(args: seq<Value>, rest: string, inTest: bool)
    requires SimpleArgs(args) && rest != "" && IsEnd(rest[0], inTest)
    ensures ParseArgs(PrintArgs(args) + rest, inTest) == Some((args, rest))
  {
    hide PrintValue, ParseArgs, Simple;
    var v := args[0];
    if |args| == 1 {
      ArgsStep(v, rest, inTest);
      ArgsEnd(rest, inTest);
      assert args == [v] + [];
    } else {
      var tail := PrintArgs(args[1..]) + rest;
      assert PrintArgs(args) + rest == PrintValue(v) + (" " + tail);
      ArgsStep(v, " " + tail, inTest);
      ArgsSpace(tail, inTest);
      ParsePrintedArgs(args[1..], rest, inTest);
      assert args == [v] + args[1..];
    }
  }

  // ---------- test lists ----------

  /** One test of the kind the generator puts into a list: a bare name, then
      simple arguments. */
  predicate SimpleTest(args: seq<Value>) {
    SimpleArgs(args) && args[0].Bare?
  }

  predicate SimpleTests(ts: seq<seq<Value>>) {
    ts != [] && forall i :: 0 <= i < |ts| ==> SimpleTest(ts[i])
  }

  lemma TestStart(args: seq<Value>)
    requires SimpleTest(args)
    ensures PrintArgs(args) != "" && IsAlpha(PrintArgs(args)[0])
  {
    ValueStart(args[0]);
    hide PrintValue, Simple;
    if |args| > 1 {
      assert PrintArgs(args)[0] == PrintValue(args[0])[0];
    }
  }

  lemma TestsStep(args: seq<Value>, rest: string, needTest: bool)
    requires SimpleTest(args) && rest != "" && IsEnd(rest[0], true)
    ensures ParseTests(PrintArgs(args) + rest, needTest) ==
              var more := if rest[0] == ',' then ParseTests(rest[1..], true) else ParseTests(rest, false);
              if more == None then None else Some(([args] + more.value.0, more.value.1))
  {
    TestStart(args);
    ParsePrintedArgs(args, rest, true);
    hide PrintArgs, ParseArgs, SimpleTest;
    var text := PrintArgs(args) + rest;
    assert text[0] == PrintArgs(args)[0];
    assert Skip(text) == text;
  }

  lemma TestsSpace(s: string, needTest: bool)
    ensures ParseTests(" " + s, needTest) == ParseTests(s, needTest)
  {
    SkipSpaceChar(' ', s);
    hide ParseArgs, Skip;
  }

  lemma TestsEnd(rest: string)
    ensures ParseTests(")" + rest, false) == Some(([], rest))
  {
    hide ParseArgs;
    assert (")" + rest)[1..] == rest;
  }

  lemma {:induction false} ParsePrintedTests(ts: seq<seq<Value>>, rest: string, needTest: bool)
    requires SimpleTests(ts)
    ensures ParseTests(PrintTests(ts) + ")" + rest, needTest) == Some((ts, rest))
  {
    hide PrintArgs, ParseTests, SimpleTest;
    var t := ts[0];
    if |ts| == 1 {
      assert PrintTests(ts) + ")" + rest == PrintArgs(t) + (")" + rest);
      TestsStep(t, ")" + rest, needTest);
      TestsEnd(rest);
      assert ts == [t] + [];
    } else {
      var tail := PrintTests(ts[1..]) + ")" + rest;
      assert PrintTests(ts) + ")" + rest == PrintArgs(t) + (", " + tail);
      TestsStep(t, ", " + tail, needTest);
      assert (", " + tail)[1..] == " " + tail;
      TestsSpace(tail, true);
      ParsePrintedTests(ts[1..], rest, true);
      assert ts == [t] + ts[1..];
    }
  }
}

/** The webmail filter compiler: filters become the text of a Sieve script. */
module SieveCompiler {
  import opened Text
  import opened SieveText
  import opened SieveParser
  import opened SieveScript
  import opened SieveRun

  datatype Condition = Condition(field: string, operator: string, value: string, headerName: string)

  datatype FilterAction = FilterAction(kind: string, target: string, forwardTo: string)

  /** A missing filter is a disabled one. */
  datatype Filter = Filter(enabled: bool, matchAll: bool, conditions: seq<Condition>, actions: seq<FilterAction>)

  // ---------- conditions ----------

  /** The match type and key of a condition, if they can be expressed. */
  function MatchKey(w: World, c: Condition): Option<(string, string)> {
    var key :=
      if c.operator == "contains" then Some(("contains", c.value))
      else if c.operator == "equals" then Some(("is", c.value))
      else if c.operator == "startsWith" then Some(("matches", GlobEscape(c.value) + "*"))
      else if c.operator == "endsWith" then Some(("matches", "*" + GlobEscape(c.value)))
      else if c.operator == "matches" && w.regexOk(c.value) then Some(("regex", c.value))
      else None;
    if c.value == "" || key == None then None
    else if (key.value.0 == "matches" || key.value.0 == "regex") && |key.value.1| > MAX_PATTERN then None
    else key
  }

  /** The field-name syntax: printable ASCII but colon, at least one character. */
  predicate HeaderName(s: string) {
    s != "" && forall i :: 0 <= i < |s| ==> '!' <= s[i] <= '~' && s[i] != ':'
  }

  predicate OnAddress(c: Condition, m: string) {
    (c.field == "from" || c.field == "to") && (m == "is" || m == "matches")
  }

  /** The Sieve test of a condition, "" when it cannot be expressed. */
  function ConditionText(w: World, c: Condition): string {
    var mk := MatchKey(w, c);
    if mk == None then ""
    else
      var (m, key) := mk.value;
      var test := if OnAddress(c, m) then "address :all" else "header";
      if c.field == "from" then test + " " + (":" + m) + " \"from\" " + Quote(key)
      else if c.field == "to" then test + " " + (":" + m) + " [\"to\", \"cc\"] " + Quote(key)
      else if c.field == "subject" then "header " + (":" + m) + " \"subject\" " + Quote(key)
      else if c.field == "header" then
        if HeaderName(c.headerName) then "header " + (":" + m) + " " + Quote(c.headerName) + " " + Quote(key) else ""
      else if c.field == "body" then "body :text " + (":" + m) + " " + Quote(key)
      else ""
  }

  predicate Expressible(w: World, c: Condition) {
    && MatchKey(w, c).Some?
    && (c.field in {"from", "to", "subject", "body"} || (c.field == "header" && HeaderName(c.headerName)))
  }

  /** The same test as an argument sequence. */
  function ConditionArgs(w: World, c: Condition): seq<Value>
    requires Expressible(w, c)
  {
    var (m, key) := MatchKey(w, c).value;
    if c.field == "body" then [Bare("body"), Tag("text"), Tag(m), Str(key)]
    else if OnAddress(c, m) then [Bare("address"), Tag("all"), Tag(m), Names(c), Str(key)]
    else [Bare("header"), Tag(m), Names(c), Str(key)]
  }

  function Names(c: Condition): Value {
    if c.field == "to" then List(["to", "cc"])
    else if c.field == "header" then Str(c.headerName)
    else Str(c.field)
  }

  lemma QuotePlain(s: string)
    requires '\\' !in s && '"' !in s
    ensures Quote(s) == "\"" + s + "\""
  {
    ReplaceAbsent(s, '\\', "\\\\");
    ReplaceAbsent(s, '"', "\\\"");
  }

  lemma {:induction false} ReplaceAbsent(s: string, c: char, with: string)
    requires c !in s
    ensures ReplaceAll(s, c, with) == s
  {
    if s != "" {
      ReplaceAbsent(s[1..], c, with);
      assert s == [s[0]] + s[1..];
    }
  }

  lemma FieldNamesQuote()
    ensures Quote("from") == "\"from\"" && Quote("to") == "\"to\"" && Quote("cc") == "\"cc\"" && Quote("subject") == "\"subject\""
  {
    hide Quote;
    QuotePlain("from");
    QuotePlain("to");
    QuotePlain("cc");
    QuotePlain("subject");
  }

  lemma PrintTwo(a: Value, b: Value)
    ensures PrintArgs([a, b]) == PrintValue(a) + " " + PrintValue(b)
  {
    assert [a, b][1..] == [b];
    hide PrintValue;
  }

  lemma PrintFour(a: Value, b: Value, c: Value, d: Value)
    ensures PrintArgs([a, b, c, d]) == PrintValue(a) + " " + (PrintValue(b) + " " + (PrintValue(c) + " " + PrintValue(d)))
  {
    assert [a, b, c, d][1..] == [b, c, d];
    assert [b, c, d][1..] == [c, d];
    PrintTwo(c, d);
    hide PrintValue;
  }

  lemma PrintFive(a: Value, b: Value, c: Value, d: Value, e: Value)
    ensures PrintArgs([a, b, c, d, e]) == PrintValue(a) + " " + (PrintValue(b) + " " + (PrintValue(c) + " " + (PrintValue(d) + " " + PrintValue(e))))
  {
    assert [a, b, c, d, e][1..] == [b, c, d, e];
    PrintFour(b, c, d, e);
    hide PrintValue;
  }

  lemma NamesText(c: Condition)
    requires c.field in {"from", "to", "subject", "header"}
    ensures PrintValue(Names(c)) == if c.field == "from" then "\"from\"" else if c.field == "to" then "[\"to\", \"cc\"]"
                                    else if c.field == "subject" then "\"subject\"" else Quote(c.headerName)
    ensures Simple(Names(c))
  {
    FieldNamesQuote();
    hide Quote;
    if c.field == "to" {
      assert QuoteList(["to", "cc"]) == Quote("to") + ", " + QuoteList(["to", "cc"][1..]);
      assert QuoteList(["to", "cc"][1..]) == Quote("cc");
    }
  }

  predicate MatchType(m: string) {
    m == "is" || m == "contains" || m == "matches" || m == "regex"
  }

  lemma TestWords(m: string)
    requires MatchType(m)
    ensures Simple(Bare("body")) && Simple(Bare("header")) && Simple(Bare("address"))
    ensures Simple(Tag("text")) && Simple(Tag("all")) && Simple(Tag(m))
  {}

  /** The generated text of a condition is the printed form of its arguments. */
  lemma ConditionTextIs(w: World, c: Condition)
    ensures !Expressible(w, c) ==> ConditionText(w, c) == ""
    ensures Expressible(w, c) ==> SimpleTest(ConditionArgs(w, c)) && ConditionText(w, c) == PrintArgs(ConditionArgs(w, c))
  {
    if Expressible(w, c) {
      var (m, key) := MatchKey(w, c).value;
      assert MatchType(m);
      TestWords(m);
      ConditionShape(w, c, m, key);
    }
  }

  lemma HeaderText(m: string, names: Value, key: string)
    ensures PrintArgs([Bare("header"), Tag(m), names, Str(key)]) == "header" + " " + (":" + m) + " " + PrintValue(names) + " " + Quote(key)
  {
    PrintFour(Bare("header"), Tag(m), names, Str(key));
    hide PrintArgs, Quote;
    var n := PrintValue(names);
    assert "header" + " " + (":" + m) + " " + n + " " + Quote(key) == "header" + " " + (":" + m + " " + (n + " " + Quote(key)));
  }

  lemma AddressText(m: string, names: Value, key: string)
    ensures PrintArgs([Bare("address"), Tag("all"), Tag(m), names, Str(key)])
            == "address :all" + " " + (":" + m) + " " + PrintValue(names) + " " + Quote(key)
  {
    PrintFive(Bare("address"), Tag("all"), Tag(m), names, Str(key));
    hide PrintArgs, Quote;
    var n := PrintValue(names);
    assert "address" + " " + (":all" + " " + (":" + m + " " + (n + " " + Quote(key))))
        == "address :all" + " " + (":" + m) + " " + n + " " + Quote(key);
  }

  lemma BodyText(m: string, key: string)
    ensures PrintArgs([Bare("body"), Tag("text"), Tag(m), Str(key)]) == "body :text " + (":" + m) + " " + Quote(key)
  {
    PrintFour(Bare("body"), Tag("text"), Tag(m), Str(key));
    hide PrintArgs, Quote;
    assert "body" + " " + (":text" + " " + (":" + m + " " + Quote(key))) == "body :text " + (":" + m) + " " + Quote(key);
  }

  lemma Spacing(test: string, m: string, names: string, key: string)
    ensures test + " " + m + (" " + names + " ") + key == test + " " + m + " " + names + " " + key
    ensures "header" + " " + m == "header " + m
  {}

  lemma NameLiterals()
    ensures " " + "\"from\"" + " " == " \"from\" "
    ensures " " + "[\"to\", \"cc\"]" + " " == " [\"to\", \"cc\"] "
    ensures " " + "\"subject\"" + " " == " \"subject\" "
  {}

  lemma ConditionShape(w: World, c: Condition, m: string, key: string)
    requires Expressible(w, c) && MatchKey(w, c) == Some((m, key)) && MatchType(m)
    requires Simple(Bare("body")) && Simple(Bare("header")) && Simple(Bare("address"))
    requires Simple(Tag("text")) && Simple(Tag("all")) && Simple(Tag(m))
    ensures SimpleTest(ConditionArgs(w, c)) && ConditionText(w, c) == PrintArgs(ConditionArgs(w, c))
  {
    hide MatchKey, Quote, HeaderName, Lower, PrintArgs, IsWord;
    if c.field == "body" {
      BodyText(m, key);
    } else {
      NamesText(c);
      NameLiterals();
      var test := if OnAddress(c, m) then "address :all" else "header";
      HeaderText(m, Names(c), key);
      AddressText(m, Names(c), key);
      Spacing(test, ":" + m, PrintValue(Names(c)), Quote(key));
    }
  }

  // ---------- the test of a filter ----------

  function TestsOf(w: World, cs: seq<Condition>): seq<seq<Value>> {
    if cs == [] then []
    else (if Expressible(w, cs[0]) then [ConditionArgs(w, cs[0])] else []) + TestsOf(w, cs[1..])
  }

  /** The test of a filter: under matchAll every condition must be expressible. */
  function TestOf(w: World, f: Filter): Option<TestExpr> {
    var ts := TestsOf(w, f.conditions);
    if ts == [] || (f.matchAll && |ts| != |f.conditions|) then None
    else if |ts| == 1 then Some(One(ts[0]))
    else Some(Many(if f.matchAll then "allof" else "anyof", ts))
  }

  function Texts(ts: seq<seq<Value>>): seq<string> {
    seq(|ts|, i requires 0 <= i < |ts| => PrintArgs(ts[i]))
  }

  lemma {:induction false} JoinTexts(ts: seq<seq<Value>>)
    ensures Join(Texts(ts), ", ") == PrintTests(ts)
  {
    hide PrintArgs;
    if |ts| > 1 {
      JoinTexts(ts[1..]);
      assert Texts(ts)[1..] == Texts(ts[1..]);
    }
  }

  lemma {:induction false} TestsSimple(w: World, cs: seq<Condition>)
    ensures TestsOf(w, cs) != [] ==> SimpleTests(TestsOf(w, cs))
    ensures |TestsOf(w, cs)| <= |cs|
  {
    if cs != [] {
      TestsSimple(w, cs[1..]);
      ConditionTextIs(w, cs[0]);
      hide Expressible, ConditionArgs, SimpleTest;
    }
  }

  lemma OpWords()
    ensures IsWord("allof") && IsWord("anyof") && Lower("allof") == "allof" && Lower("anyof") == "anyof"
  {}

  lemma TestSimple(w: World, f: Filter)
    requires TestOf(w, f).Some?
    ensures SimpleExpr(TestOf(w, f).value) && PrintTest(TestOf(w, f).value) != ""
  {
    TestsSimple(w, f.conditions);
    OpWords();
    hide TestsOf, SimpleTest, PrintTest, IsWord, Lower;
    TestTextStart(TestOf(w, f).value);
  }

  method FilterSieveTest(w: World, f: Filter) returns (text: string)
    ensures text == if TestOf(w, f) == None then "" else PrintTest(TestOf(w, f).value)
  {
    hide ConditionText, ConditionArgs, Expressible, PrintArgs, SimpleTest;
    var tests: seq<string> := [];
    var i := 0;
    while i < |f.conditions|
      invariant 0 <= i <= |f.conditions|
      invariant tests + Texts(TestsOf(w, f.conditions[i..])) == Texts(TestsOf(w, f.conditions))
    {
      var t := ConditionText(w, f.conditions[i]);
      ConditionTextIs(w, f.conditions[i]);
      NextTest(w, f.conditions[i..]);
      assert f.conditions[i..][1..] == f.conditions[i + 1..];
      if t != "" {
        tests := tests + [t];
      }
      i := i + 1;
    }
    ghost var ts := TestsOf(w, f.conditions);
    assert tests == Texts(ts);
    JoinTexts(ts);
    if |tests| == 0 || (f.matchAll && |tests| != |f.conditions|) {
      return "";
    }
    if |tests| == 1 {
      return tests[0];
    }
    var op := if f.matchAll then "allof" else "anyof";
    text := op + "(" + Join(tests, ", ") + ")";
  }

  lemma NextTest(w: World, cs: seq<Condition>)
    requires cs != []
    ensures ConditionText(w, cs[0]) == "" ==> TestsOf(w, cs) == TestsOf(w, cs[1..])
    ensures ConditionText(w, cs[0]) != "" ==> Texts(TestsOf(w, cs)) == [ConditionText(w, cs[0])] + Texts(TestsOf(w, cs[1..]))
  {
    ConditionTextIs(w, cs[0]);
    hide ConditionText, ConditionArgs, Expressible, PrintArgs, SimpleTest;
    if Expressible(w, cs[0]) {
      TestStart(ConditionArgs(w, cs[0]));
      TextsCons(ConditionArgs(w, cs[0]), TestsOf(w, cs[1..]));
    }
  }

  lemma TextsCons(t: seq<Value>, ts: seq<seq<Value>>)
    ensures Texts([t] + ts) == [PrintArgs(t)] + Texts(ts)
  {
    hide PrintArgs;
  }

  // ---------- actions ----------

  predicate ValidFolder(name: string) {
    TrimSpace(name) != "" && |name| <= 255 && forall i :: 0 <= i < |name| ==> name[i] >= ' ' && name[i] != '\U{7f}'
  }

  /** Where a forward goes: a bare address with an at sign. */
  function ForwardAddress(w: World, a: FilterAction): Option<string> {
    var parsed := w.address(a.forwardTo);
    if parsed == None || parsed.value.0 != "" || '@' !in parsed.value.1 then None else Some(parsed.value.1)
  }

  predicate IsFlag(a: FilterAction) {
    a.kind == "markRead" || a.kind == "flag"
  }

  /** The Sieve command of an action, "" when it cannot be expressed. */
  function ActionText(w: World, a: FilterAction): string {
    if a.kind == "markRead" then "addflag \"\\\\Seen\";"
    else if a.kind == "flag" then "addflag \"\\\\Flagged\";"
    else if a.kind == "move" then
      if EqualFold(a.target, "INBOX") then "keep;"
      else if !ValidFolder(a.target) then ""
      else "fileinto " + Quote(a.target) + ";"
    else if a.kind == "copy" then
      if EqualFold(a.target, "INBOX") || !ValidFolder(a.target) then ""
      else "fileinto :copy " + Quote(a.target) + ";"
    else if a.kind == "delete" then "fileinto \"Trash\";"
    else if a.kind == "markSpam" then "fileinto \"Junk\";"
    else if a.kind == "forward" && ForwardAddress(w, a).Some? then "redirect :copy " + Quote(ForwardAddress(w, a).value) + ";"
    else ""
  }

  function Plain(name: string, s: string): Command {
    Command(name, "", [Str(s)], None)
  }

  function Copying(name: string, s: string): Command {
    Command(name, "copy", [Str(s)], None)
  }

  function ActionCommand(w: World, a: FilterAction): Option<Command> {
    if a.kind == "markRead" then Some(Plain("addflag", "\\Seen"))
    else if a.kind == "flag" then Some(Plain("addflag", "\\Flagged"))
    else if a.kind == "move" then
      if EqualFold(a.target, "INBOX") then Some(Command("keep", "", [], None))
      else if !ValidFolder(a.target) then None
      else Some(Plain("fileinto", a.target))
    else if a.kind == "copy" then
      if EqualFold(a.target, "INBOX") || !ValidFolder(a.target) then None
      else Some(Copying("fileinto", a.target))
    else if a.kind == "delete" then Some(Plain("fileinto", "Trash"))
    else if a.kind == "markSpam" then Some(Plain("fileinto", "Junk"))
    else if a.kind == "forward" && ForwardAddress(w, a).Some? then Some(Copying("redirect", ForwardAddress(w, a).value))
    else None
  }

  lemma CommandWords()
    ensures IsWord("addflag") && IsWord("keep") && IsWord("fileinto") && IsWord("redirect") && IsWord("copy") && IsWord("require")
  {}

  lemma CommandNamesLower()
    ensures Lower("addflag") == "addflag" && Lower("keep") == "keep" && Lower("fileinto") == "fileinto"
    ensures Lower("redirect") == "redirect" && Lower("require") == "require"
  {}

  lemma PlainText(name: string, s: string)
    ensures PrintCommand(Plain(name, s)) == name + " " + Quote(s) + ";"
    ensures PrintCommand(Copying(name, s)) == name + " :copy " + Quote(s) + ";"
  {
    hide Quote;
    assert PrintArgs([Str(s)]) == Quote(s);
    assert name + " :copy" + (" " + Quote(s)) + ";" == name + " :copy " + Quote(s) + ";";
  }

  /** The one place where generated text holds a backslash of its own. */
  lemma FlagTexts()
    ensures Quote("\\Seen") == "\"\\\\Seen\"" && Quote("\\Flagged") == "\"\\\\Flagged\""
    ensures Quote("Trash") == "\"Trash\"" && Quote("Junk") == "\"Junk\""
  {
    hide Quote;
    BackslashQuote("Seen");
    BackslashQuote("Flagged");
    QuotePlain("Trash");
    QuotePlain("Junk");
    FlagLiterals();
  }

  lemma FlagLiterals()
    ensures "\\" + "Seen" == "\\Seen" && "\\" + "Flagged" == "\\Flagged"
    ensures "\"" + ("\\\\" + "Seen") + "\"" == "\"\\\\Seen\"" && "\"" + ("\\\\" + "Flagged") + "\"" == "\"\\\\Flagged\""
    ensures "\"" + "Trash" + "\"" == "\"Trash\"" && "\"" + "Junk" + "\"" == "\"Junk\""
  {}

  lemma BackslashQuote(s: string)
    requires '\\' !in s && '"' !in s
    ensures Quote("\\" + s) == "\"" + ("\\\\" + s) + "\""
  {
    QuotePlain(s);
    QuoteCons("\\" + s);
    hide QuoteBody;
    assert ("\\" + s)[1..] == s;
    assert Quote(s)[1..|Quote(s)| - 1] == QuoteBody(s);
    assert ("\"" + s + "\"")[1..|s| + 1] == s;
  }

  lemma FlagCommandTexts()
    ensures "addflag" + " " + "\"\\\\Seen\"" + ";" == "addflag \"\\\\Seen\";"
    ensures "addflag" + " " + "\"\\\\Flagged\"" + ";" == "addflag \"\\\\Flagged\";"
    ensures "fileinto" + " " + "\"Trash\"" + ";" == "fileinto \"Trash\";"
    ensures "fileinto" + " " + "\"Junk\"" + ";" == "fileinto \"Junk\";"
  {}

  lemma SpaceTexts(q: string)
    ensures "fileinto" + " " + q + ";" == "fileinto " + q + ";"
    ensures "fileinto" + " :copy " + q + ";" == "fileinto :copy " + q + ";"
    ensures "redirect" + " :copy " + q + ";" == "redirect :copy " + q + ";"
  {}

  lemma KeepText()
    ensures PrintCommand(Command("keep", "", [], None)) == "keep;"
  {}

  /** The generated text of an action is the printed form of its command. */
  lemma ActionTextIs(w: World, a: FilterAction)
    ensures ActionCommand(w, a) == None ==> ActionText(w, a) == ""
    ensures ActionCommand(w, a).Some? ==> ActionText(w, a) == PrintCommand(ActionCommand(w, a).value) && ActionText(w, a) != ""
  {
    FlagTexts();
    FlagCommandTexts();
    KeepText();
    hide Quote, ValidFolder, EqualFold, ForwardAddress, PrintCommand;
    var c := ActionCommand(w, a);
    if c.Some? {
      var name, s := c.value.name, if c.value.args == [] then "" else c.value.args[0].v;
      PlainText(name, s);
      SpaceTexts(Quote(s));
    }
  }

  lemma ActionSimple(w: World, a: FilterAction)
    requires ActionCommand(w, a).Some?
    ensures SimpleCommand(ActionCommand(w, a).value)
  {
    CommandWords();
    CommandNamesLower();
    hide ValidFolder, EqualFold, ForwardAddress, IsWord, Lower;
  }

  // ---------- rules ----------

  /** The commands of the actions that set flags, or of those that do not. */
  function CommandsOf(w: World, actions: seq<FilterAction>, flag: bool): seq<Command> {
    if actions == [] then []
    else (if IsFlag(actions[0]) == flag && ActionCommand(w, actions[0]).Some? then [ActionCommand(w, actions[0]).value] else [])
         + CommandsOf(w, actions[1..], flag)
  }

  function RuleOf(w: World, f: Filter, flag: bool): seq<Rule> {
    if !f.enabled || TestOf(w, f) == None || CommandsOf(w, f.actions, flag) == [] then []
    else [Rule(TestOf(w, f).value, CommandsOf(w, f.actions, flag))]
  }

  function RulesOf(w: World, fs: seq<Filter>, flag: bool): seq<Rule> {
    if fs == [] then [] else RuleOf(w, fs[0], flag) + RulesOf(w, fs[1..], flag)
  }

  const EXTENSIONS: seq<string> := ["fileinto", "copy", "imap4flags", "body", "regex"]
  const REQUIRE: Command := Command("require", "", [List(EXTENSIONS)], None)
  const REQUIRE_TEXT := "require [" + "\"fileinto\", " + "\"copy\", " + "\"imap4flags\", " + "\"body\", " + "\"regex\"" + "];"

  /** The script: every flag rule before every folder rule, "" without rules. */
  function ScriptText(w: World, fs: seq<Filter>): string {
    var rules := RulesOf(w, fs, true) + RulesOf(w, fs, false);
    if rules == [] then "" else REQUIRE_TEXT + "\n" + PrintRules(rules)
  }

  lemma ExtensionQuotes()
    ensures Quote("fileinto") == "\"fileinto\"" && Quote("copy") == "\"copy\"" && Quote("imap4flags") == "\"imap4flags\""
    ensures Quote("body") == "\"body\"" && Quote("regex") == "\"regex\""
  {
    hide Quote;
    QuotePlain("fileinto");
    QuotePlain("copy");
    QuotePlain("imap4flags");
    QuotePlain("body");
    QuotePlain("regex");
  }

  lemma QuoteListCons(v: string, vs: seq<string>)
    requires vs != []
    ensures QuoteList([v] + vs) == Quote(v) + ", " + QuoteList(vs)
  {
    hide Quote;
    assert ([v] + vs)[1..] == vs;
  }

  lemma ExtensionList()
    ensures QuoteList(EXTENSIONS)
            == Quote("fileinto") + ", " + (Quote("copy") + ", " + (Quote("imap4flags") + ", " + (Quote("body") + ", " + Quote("regex"))))
  {
    hide Quote;
    QuoteListCons("body", ["regex"]);
    QuoteListCons("imap4flags", ["body", "regex"]);
    QuoteListCons("copy", ["imap4flags", "body", "regex"]);
    QuoteListCons("fileinto", ["copy", "imap4flags", "body", "regex"]);
    assert ["body"] + ["regex"] == ["body", "regex"];
    assert ["imap4flags"] + ["body", "regex"] == ["imap4flags", "body", "regex"];
    assert ["copy"] + ["imap4flags", "body", "regex"] == ["copy", "imap4flags", "body", "regex"];
    assert ["fileinto"] + ["copy", "imap4flags", "body", "regex"] == EXTENSIONS;
  }

  lemma RequireSimple()
    ensures SimpleCommand(REQUIRE)
  {
    hide Quote, QuoteList, IsWord, Lower;
    CommandWords();
    CommandNamesLower();
  }

  lemma RequireText()
    ensures PrintCommand(REQUIRE) == REQUIRE_TEXT && SimpleCommand(REQUIRE)
  {
    hide Quote, QuoteList, SimpleCommand;
    RequireSimple();
    ExtensionQuotes();
    ExtensionList();
    RequireLiteral();
    assert PrintArgs(REQUIRE.args) == "[" + QuoteList(EXTENSIONS) + "]";
    assert "require" + "" == "require";
  }

  lemma RequirePieces()
    ensures "\"fileinto\"" + ", " == "\"fileinto\", " && "\"copy\"" + ", " == "\"copy\", "
    ensures "\"imap4flags\"" + ", " == "\"imap4flags\", " && "\"body\"" + ", " == "\"body\", "
    ensures "require" + " " + "[" == "require [" && "]" + ";" == "];"
  {}

  lemma Regroup(a: string, b: string, c: string, d: string, e: string)
    ensures "require" + (" " + ("[" + (a + (b + (c + (d + e)))) + "]")) + ";" == "require" + " " + "[" + a + b + c + d + e + ("]" + ";")
  {}

  lemma RequireLiteral()
    ensures "require" + (" " + ("[" + ("\"fileinto\"" + ", " + ("\"copy\"" + ", " + ("\"imap4flags\"" + ", " + ("\"body\"" + ", " + "\"regex\"")))) + "]")) + ";"
            == REQUIRE_TEXT
  {
    RequirePieces();
    Regroup("\"fileinto\", ", "\"copy\", ", "\"imap4flags\", ", "\"body\", ", "\"regex\"");
  }

  // ---------- the loops of the compiler ----------

  function CommandTexts(cs: seq<Command>): seq<string> {
    seq(|cs|, i requires 0 <= i < |cs| => PrintCommand(cs[i]))
  }

  lemma {:induction false} JoinCommands(cs: seq<Command>)
    ensures Join(CommandTexts(cs), "\n  ") == PrintCommands(cs)
  {
    hide PrintCommand;
    if |cs| > 1 {
      JoinCommands(cs[1..]);
      assert CommandTexts(cs)[1..] == CommandTexts(cs[1..]);
    }
  }

  lemma NextCommand(w: World, actions: seq<FilterAction>, flag: bool)
    requires actions != []
    ensures var a := actions[0];
            var rest := CommandTexts(CommandsOf(w, actions[1..], flag));
            CommandTexts(CommandsOf(w, actions, flag)) == if ActionText(w, a) != "" && IsFlag(a) == flag then [ActionText(w, a)] + rest else rest
  {
    ActionTextIs(w, actions[0]);
    hide ActionText, ActionCommand, IsFlag, PrintCommand;
    if ActionCommand(w, actions[0]).Some? {
      CommandTextsCons(ActionCommand(w, actions[0]).value, CommandsOf(w, actions[1..], flag));
    }
  }

  lemma CommandTextsCons(c: Command, cs: seq<Command>)
    ensures CommandTexts([c] + cs) == [PrintCommand(c)] + CommandTexts(cs)
  {
    hide PrintCommand;
  }

  /** Taking one more command over to the front keeps the whole. */
  lemma NextCommandAt(w: World, actions: seq<FilterAction>, i: nat, flag: bool, front: seq<string>)
    requires i < |actions|
    ensures var cmd := ActionText(w, actions[i]);
            var more := if cmd != "" && IsFlag(actions[i]) == flag then front + [cmd] else front;
            front + CommandTexts(CommandsOf(w, actions[i..], flag)) == more + CommandTexts(CommandsOf(w, actions[i + 1..], flag))
  {
    hide ActionText, CommandTexts, CommandsOf, IsFlag;
    NextCommand(w, actions[i..], flag);
    assert actions[i..][1..] == actions[i + 1..];
  }

  lemma NoCommands(w: World, flag: bool)
    ensures CommandTexts(CommandsOf(w, [], flag)) == []
  {}

  method ActionCommands(w: World, actions: seq<FilterAction>) returns (flags: seq<string>, folders: seq<string>)
    ensures flags == CommandTexts(CommandsOf(w, actions, true))
    ensures folders == CommandTexts(CommandsOf(w, actions, false))
  {
    hide ActionText, CommandTexts, CommandsOf, IsFlag;
    flags, folders := [], [];
    assert actions[0..] == actions;
    var i := 0;
    while i < |actions|
      invariant 0 <= i <= |actions|
      invariant flags + CommandTexts(CommandsOf(w, actions[i..], true)) == CommandTexts(CommandsOf(w, actions, true))
      invariant folders + CommandTexts(CommandsOf(w, actions[i..], false)) == CommandTexts(CommandsOf(w, actions, false))
    {
      var cmd := ActionText(w, actions[i]);
      NextCommandAt(w, actions, i, true, flags);
      NextCommandAt(w, actions, i, false, folders);
      if cmd == "" {
      } else if IsFlag(actions[i]) {
        flags := flags + [cmd];
      } else {
        folders := folders + [cmd];
      }
      i := i + 1;
    }
    NoCommands(w, true);
    NoCommands(w, false);
    assert actions[|actions|..] == [];
  }

  function SieveIf(test: string, cmds: seq<string>): string {
    "if " + test + " {\n  " + Join(cmds, "\n  ") + "\n}\n"
  }

  function RuleTexts(rs: seq<Rule>): seq<string> {
    seq(|rs|, i requires 0 <= i < |rs| => PrintRule(rs[i]))
  }

  lemma RuleTextIs(t: TestExpr, cs: seq<Command>)
    ensures SieveIf(PrintTest(t), CommandTexts(cs)) == PrintRule(Rule(t, cs))
  {
    JoinCommands(cs);
    hide PrintTest, CommandTexts, Join, PrintCommands;
  }

  lemma NextRule(w: World, fs: seq<Filter>, flag: bool)
    requires fs != []
    ensures RuleTexts(RulesOf(w, fs, flag)) == RuleTexts(RuleOf(w, fs[0], flag)) + RuleTexts(RulesOf(w, fs[1..], flag))
  {
    hide RuleOf, PrintRule;
  }

  lemma {:induction false} RulesConcat(rs: seq<Rule>, upto: nat)
    requires upto < |rs|
    ensures PrintRules(rs[..upto + 1]) == PrintRules(rs[..upto]) + PrintRule(rs[upto])
  {
    hide PrintRule;
    if upto == 0 {
      assert rs[..1][1..] == [];
    } else {
      RulesConcat(rs[1..], upto - 1);
      assert rs[..upto + 1][1..] == rs[1..][..upto] && rs[..upto][1..] == rs[1..][..upto - 1];
    }
  }

  method CollectRules(w: World, fs: seq<Filter>) returns (flagRules: seq<string>, folderRules: seq<string>)
    ensures flagRules == RuleTexts(RulesOf(w, fs, true)) && folderRules == RuleTexts(RulesOf(w, fs, false))
  {
    hide RuleOf, RuleTexts;
    flagRules, folderRules := [], [];
    var i := 0;
    while i < |fs|
      invariant 0 <= i <= |fs|
      invariant flagRules + RuleTexts(RulesOf(w, fs[i..], true)) == RuleTexts(RulesOf(w, fs, true))
      invariant folderRules + RuleTexts(RulesOf(w, fs[i..], false)) == RuleTexts(RulesOf(w, fs, false))
    {
      var flagRule, folderRule := FilterRules(w, fs[i]);
      NextRuleAt(w, fs, i, true);
      NextRuleAt(w, fs, i, false);
      flagRules := flagRules + flagRule;
      folderRules := folderRules + folderRule;
      i := i + 1;
    }
    assert fs[i..] == [];
    NoRuleTexts();
  }

  lemma NoRuleTexts()
    ensures RuleTexts([]) == []
  {}

  lemma NextRuleAt(w: World, fs: seq<Filter>, i: nat, flag: bool)
    requires i < |fs|
    ensures RuleTexts(RulesOf(w, fs[i..], flag)) == RuleTexts(RuleOf(w, fs[i], flag)) + RuleTexts(RulesOf(w, fs[i + 1..], flag))
  {
    hide RuleOf, PrintRule;
    NextRule(w, fs[i..], flag);
    assert fs[i..][1..] == fs[i + 1..];
  }

  method FiltersToSieve(w: World, fs: seq<Filter>) returns (text: string)
    ensures text == ScriptText(w, fs)
  {
    hide RulesOf, PrintRule;
    var flagRules, folderRules := CollectRules(w, fs);
    if |flagRules| == 0 && |folderRules| == 0 {
      return "";
    }
    ghost var rules := RulesOf(w, fs, true) + RulesOf(w, fs, false);
    var all := flagRules + folderRules;
    text := REQUIRE_TEXT + "\n";
    var i := 0;
    while i < |all|
      invariant 0 <= i <= |all|
      invariant text == REQUIRE_TEXT + "\n" + PrintRules(rules[..i])
    {
      RulesConcat(rules, i);
      assert all[i] == PrintRule(rules[i]);
      text := text + all[i];
      i := i + 1;
    }
    assert rules[..|all|] == rules;
  }

  /** One pass of the loop over the filters: at most one rule of each kind. */
  method FilterRules(w: World, f: Filter) returns (flagRule: seq<string>, folderRule: seq<string>)
    ensures flagRule == RuleTexts(RuleOf(w, f, true)) && folderRule == RuleTexts(RuleOf(w, f, false))
  {
    hide PrintRule, PrintTest, SieveIf;
    flagRule, folderRule := [], [];
    if !f.enabled {
      return;
    }
    var test := FilterSieveTest(w, f);
    if TestOf(w, f).Some? {
      TestSimple(w, f);
    }
    hide TestOf;
    if test == "" {
      return;
    }
    var flagCmds, folderCmds := ActionCommands(w, f.actions);
    hide CommandsOf, PrintCommand;
    if |flagCmds| > 0 {
      flagRule := [SieveIf(test, flagCmds)];
      RuleTextIs(TestOf(w, f).value, CommandsOf(w, f.actions, true));
    }
    if |folderCmds| > 0 {
      folderRule := [SieveIf(test, folderCmds)];
      RuleTextIs(TestOf(w, f).value, CommandsOf(w, f.actions, false));
    }
  }

  // ---------- the script reads back ----------

  lemma {:induction false} CommandsSimple(w: World, actions: seq<FilterAction>, flag: bool)
    ensures CommandsOf(w, actions, flag) != [] ==> SimpleCommands(CommandsOf(w, actions, flag))
  {
    if actions != [] {
      CommandsSimple(w, actions[1..], flag);
      if ActionCommand(w, actions[0]).Some? {
        ActionSimple(w, actions[0]);
      }
      hide ActionCommand, SimpleCommand;
    }
  }

  lemma {:induction false} RulesSimple(w: World, fs: seq<Filter>, flag: bool)
    ensures forall i :: 0 <= i < |RulesOf(w, fs, flag)| ==> SimpleRule(RulesOf(w, fs, flag)[i])
  {
    if fs != [] {
      RulesSimple(w, fs[1..], flag);
      if TestOf(w, fs[0]).Some? {
        TestSimple(w, fs[0]);
      }
      CommandsSimple(w, fs[0].actions, flag);
      hide TestOf, CommandsOf, SimpleExpr, SimpleCommands;
    }
  }

  /** What the delivery parser reads from a generated script. */
  lemma ScriptParses(w: World, fs: seq<Filter>)
    requires ScriptText(w, fs) != ""
    ensures ParseScript(ScriptText(w, fs)) == Some([REQUIRE] + RuleCommands(RulesOf(w, fs, true) + RulesOf(w, fs, false)))
  {
    RulesSimple(w, fs, true);
    RulesSimple(w, fs, false);
    RequireText();
    hide RulesOf, SimpleRule, PrintRules, RuleCommands, PrintCommand, SimpleCommand, ParseScript;
    ScriptReadsBack(REQUIRE, RulesOf(w, fs, true) + RulesOf(w, fs, false));
  }
}

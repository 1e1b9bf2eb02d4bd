/** The shape of a generated script: one require line, then one if-rule per
    entry, printed and read back by the parser. */
module SieveScript {
  import opened Text
  import opened SieveText
  import opened SieveParser

  datatype TestExpr = One(args: seq<Value>) | Many(op: string, tests: seq<seq<Value>>)

  datatype Rule = Rule(test: TestExpr, cmds: seq<Command>)

  function TestArgs(t: TestExpr): seq<Value> {
    match t
    case One(args) => args
    case Many(op, tests) => [Bare(op), Tests(tests)]
  }

  function PrintTest(t: TestExpr): string {
    match t
    case One(args) => PrintArgs(args)
    case Many(op, tests) => op + "(" + PrintTests(tests) + ")"
  }

  predicate SimpleExpr(t: TestExpr) {
    match t
    case One(args) => SimpleTest(args)
    case Many(op, tests) => IsWord(op) && Lower(op) != "text" && SimpleTests(tests)
  }

  /** What follows a command name: an optional tag, then the arguments. */
  function Tail(tag: string, args: seq<Value>): string {
    (if tag == "" then "" else " :" + tag) + (if args == [] then "" else " " + PrintArgs(args)) + ";"
  }

  function PrintCommand(c: Command): string {
    c.name + Tail(c.tag, c.args)
  }

  /** A command without a block, as the generator writes it. */
  predicate SimpleCommand(c: Command) {
    && IsWord(c.name) && Lower(c.name) == c.name
    && (c.tag == "" || IsWord(c.tag))
    && c.block == None
    && (forall i :: 0 <= i < |c.args| ==> Simple(c.args[i]) && !c.args[i].Bare? && (c.tag == "" ==> !c.args[i].Tag?))
  }

  predicate SimpleCommands(cs: seq<Command>) {
    cs != [] && forall i :: 0 <= i < |cs| ==> SimpleCommand(cs[i])
  }

  function PrintCommands(cs: seq<Command>): string {
    if cs == [] then ""
    else if |cs| == 1 then PrintCommand(cs[0])
    else PrintCommand(cs[0]) + "\n  " + PrintCommands(cs[1..])
  }

  function PrintRule(r: Rule): string {
    "if " + PrintTest(r.test) + " {\n  " + PrintCommands(r.cmds) + "\n}\n"
  }

  function RuleCommand(r: Rule): Command {
    Command("if", "", TestArgs(r.test), Some(r.cmds))
  }

  function PrintRules(rs: seq<Rule>): string {
    if rs == [] then "" else PrintRule(rs[0]) + PrintRules(rs[1..])
  }

  function RuleCommands(rs: seq<Rule>): seq<Command> {
    seq(|rs|, i requires 0 <= i < |rs| => RuleCommand(rs[i]))
  }

  predicate SimpleRule(r: Rule) {
    SimpleExpr(r.test) && SimpleCommands(r.cmds)
  }

  // ---------- commands ----------

  /** The parser's step after the command name. */
  function ReadTail(r0: string): Option<(string, seq<Value>, string)> {
    var r1 := Skip(r0);
    var tagged := r1 != "" && r1[0] == ':';
    var (tag, r2) := if tagged then Word(r1[1..]) else ("", r1);
    if tagged && tag == "" then None
    else
      var args := ParseArgs(r2, false);
      if args == None then None else Some((tag, args.value.0, args.value.1))
  }

  function FinishCommand(name: string, tag: string, args: seq<Value>, rest: string): Option<(Command, string)>
    requires rest != ""
  {
    if !ArgsAllowed(name, args) then None
    else if rest[0] == ';' then Some((Command(name, tag, args, None), rest[1..]))
    else
      var block := ParseBlock(rest[1..]);
      if block == None then None
      else
        var after := block.value.1;
        Some((Command(name, tag, args, Some(block.value.0)),
              if after != "" && after[0] == ';' then after[1..] else after))
  }

  lemma CommandSteps(w: string, r0: string)
    requires IsWord(w) && EndsWord(r0)
    ensures ReadTail(r0) == None ==> ParseCommand(w + r0) == None
    ensures ReadTail(r0).Some? ==>
              var (tag, args, rest) := ReadTail(r0).value;
              rest != "" && ParseCommand(w + r0) == FinishCommand(Lower(w), tag, args, rest)
  {
    WordOf(w, r0);
    hide Word, Skip, ParseArgs, ParseBlock, Lower, ArgsAllowed;
    assert (w + r0)[0] == w[0];
  }

  lemma ReadArgs(args: seq<Value>, rest: string)
    requires args == [] || SimpleArgs(args)
    requires rest != "" && IsEnd(rest[0], false)
    ensures ParseArgs(Spaced(args) + rest, false) == Some((args, rest))
  {
    if args == [] {
      assert "" + rest == rest;
      ArgsEnd(rest, false);
    } else {
      ParsePrintedArgs(args, rest, false);
      ArgsSpace(PrintArgs(args) + rest, false);
      assert " " + PrintArgs(args) + rest == " " + (PrintArgs(args) + rest);
    }
  }

  lemma SkipSpaceThen(c: char, s: string)
    requires !IsBlank(c)
    ensures Skip(" " + ([c] + s)) == [c] + s && Skip([c] + s) == [c] + s
  {
    SkipSpaceChar(' ', [c] + s);
  }

  lemma TaggedRest(tag: string, more: string, args: seq<Value>, rest: string)
    requires IsWord(tag) && EndsWord(more) && ParseArgs(more, false) == Some((args, rest))
    ensures ReadTail(" " + ([':'] + (tag + more))) == Some((tag, args, rest))
  {
    hide ParseArgs;
    SkipSpaceThen(':', tag + more);
    WordOf(tag, more);
    hide Skip, Word;
    assert ([':'] + (tag + more))[1..] == tag + more;
  }

  lemma UntaggedRest(c: char, s: string, args: seq<Value>, rest: string)
    requires !IsBlank(c) && c != ':' && ParseArgs([c] + s, false) == Some((args, rest))
    ensures ReadTail(" " + ([c] + s)) == Some(("", args, rest))
  {
    hide ParseArgs;
    SkipSpaceThen(c, s);
    hide Skip, Word;
  }

  function Spaced(args: seq<Value>): string {
    if args == [] then "" else " " + PrintArgs(args)
  }

  lemma TaggedText(tag: string, spaced: string, rest: string)
    ensures " :" + tag + spaced + ";" + rest == " " + ([':'] + (tag + (spaced + (";" + rest))))
  {}

  lemma ReadTagged(tag: string, args: seq<Value>, rest: string)
    requires IsWord(tag) && (args == [] || SimpleArgs(args))
    ensures ReadTail(" :" + tag + Spaced(args) + ";" + rest) == Some((tag, args, ";" + rest))
  {
    ReadArgs(args, ";" + rest);
    SpacedEnds(args, rest);
    hide PrintArgs, Simple, ParseArgs, ReadTail, Spaced;
    TaggedRest(tag, Spaced(args) + (";" + rest), args, ";" + rest);
    TaggedText(tag, Spaced(args), rest);
  }

  lemma SpacedEnds(args: seq<Value>, rest: string)
    ensures EndsWord(Spaced(args) + (";" + rest))
  {}

  lemma ArgsStart(args: seq<Value>)
    requires SimpleArgs(args)
    ensures PrintArgs(args) != "" && PrintArgs(args)[0] == PrintValue(args[0])[0] && !IsBlank(PrintArgs(args)[0])
  {
    ValueStart(args[0]);
    hide PrintValue, Simple;
  }

  lemma NotTagStart(v: Value)
    requires Simple(v) && !v.Tag?
    ensures PrintValue(v) != "" && PrintValue(v)[0] != ':'
  {
    hide Lower;
  }

  lemma HeadText(text: string, rest: string)
    requires text != ""
    ensures text + rest == [text[0]] + (text[1..] + rest) && " " + text + rest == " " + ([text[0]] + (text[1..] + rest))
  {}

  lemma ReadUntagged(args: seq<Value>, rest: string)
    requires SimpleArgs(args) && !args[0].Tag?
    requires rest != "" && IsEnd(rest[0], false)
    ensures ReadTail(" " + PrintArgs(args) + rest) == Some(("", args, rest))
  {
    ParsePrintedArgs(args, rest, false);
    ArgsStart(args);
    NotTagStart(args[0]);
    hide PrintArgs, PrintValue, SimpleArgs, Lower, ParseArgs, ReadTail;
    HeadText(PrintArgs(args), rest);
    UntaggedRest(PrintArgs(args)[0], PrintArgs(args)[1..] + rest, args, rest);
  }

  lemma ReadNothing(rest: string)
    requires rest != "" && rest[0] == ';'
    ensures ReadTail(rest) == Some(("", [], rest))
  {
    ArgsEnd(rest, false);
    hide ParseArgs, Word;
  }

  lemma ReadPrintedTail(c: Command, rest: string)
    requires SimpleCommand(c)
    ensures ReadTail(Tail(c.tag, c.args) + rest) == Some((c.tag, c.args, ";" + rest))
  {
    hide Simple, PrintArgs, ReadTail;
    var r0 := Tail(c.tag, c.args) + rest;
    if c.tag != "" {
      ReadTagged(c.tag, c.args, rest);
      assert r0 == " :" + c.tag + Spaced(c.args) + ";" + rest;
    } else if c.args == [] {
      ReadNothing(";" + rest);
      assert r0 == ";" + rest;
    } else {
      ReadUntagged(c.args, ";" + rest);
      assert r0 == " " + PrintArgs(c.args) + (";" + rest);
    }
  }

  lemma CommandText(c: Command, rest: string)
    ensures PrintCommand(c) + rest == c.name + (Tail(c.tag, c.args) + rest)
  {
    hide PrintArgs;
  }

  lemma FinishSimple(c: Command, rest: string)
    requires SimpleCommand(c)
    ensures FinishCommand(c.name, c.tag, c.args, ";" + rest) == Some((c, rest))
  {
    hide Simple, ParseBlock;
    assert (";" + rest)[1..] == rest;
  }

  lemma ParseSimpleCommand(c: Command, rest: string)
    requires SimpleCommand(c)
    ensures ParseCommand(PrintCommand(c) + rest) == Some((c, rest))
  {
    ReadPrintedTail(c, rest);
    CommandText(c, rest);
    FinishSimple(c, rest);
    TailEnds(c.tag, c.args, rest);
    hide Simple, Tail, PrintCommand, ReadTail, ParseCommand, FinishCommand;
    CommandSteps(c.name, Tail(c.tag, c.args) + rest);
  }

  lemma TailEnds(tag: string, args: seq<Value>, rest: string)
    ensures EndsWord(Tail(tag, args) + rest)
  {
    hide PrintArgs;
  }

  lemma CommandStart(c: Command)
    requires SimpleCommand(c)
    ensures PrintCommand(c) != "" && IsAlpha(PrintCommand(c)[0])
  {
    hide Simple, PrintArgs;
    assert PrintCommand(c)[0] == c.name[0];
  }

  // ---------- blocks ----------

  lemma BlockSkip(s: string, t: string)
    requires Skip(s) == Skip(t)
    ensures ParseBlock(s) == ParseBlock(t)
  {
    hide ParseCommand, Skip;
  }

  lemma BlockStep(c: Command, rest: string)
    requires SimpleCommand(c)
    ensures ParseBlock(PrintCommand(c) + rest) ==
              var more := ParseBlock(rest);
              if more == None then None else Some(([c] + more.value.0, more.value.1))
  {
    CommandStart(c);
    ParseSimpleCommand(c, rest);
    hide PrintCommand, ParseCommand, SimpleCommand;
    var text := PrintCommand(c) + rest;
    assert text[0] == PrintCommand(c)[0];
    assert Skip(text) == text;
  }

  lemma BlockEnd(rest: string)
    ensures ParseBlock("\n}" + rest) == Some(([], rest))
  {
    SkipSpaceChar('\n', "}" + rest);
    assert "\n}" + rest == ['\n'] + ("}" + rest);
    assert Skip("}" + rest) == "}" + rest;
    hide ParseCommand, Skip;
    assert ("}" + rest)[1..] == rest;
  }

  lemma Indent(s: string)
    ensures Skip("\n  " + s) == Skip(s)
  {
    SkipSpaceChar('\n', "  " + s);
    SkipSpaceChar(' ', " " + s);
    SkipSpaceChar(' ', s);
    assert "\n  " + s == ['\n'] + ("  " + s);
    assert "  " + s == [' '] + (" " + s);
    assert " " + s == [' '] + s;
  }

  lemma {:induction false} ParsePrintedBlock(cs: seq<Command>, rest: string)
    requires SimpleCommands(cs)
    ensures ParseBlock(PrintCommands(cs) + "\n}" + rest) == Some((cs, rest))
  {
    hide PrintCommand, ParseBlock, SimpleCommand;
    var c := cs[0];
    if |cs| == 1 {
      assert PrintCommands(cs) + "\n}" + rest == PrintCommand(c) + ("\n}" + rest);
      BlockStep(c, "\n}" + rest);
      BlockEnd(rest);
      assert cs == [c] + [];
    } else {
      var tail := PrintCommands(cs[1..]) + "\n}" + rest;
      assert PrintCommands(cs) + "\n}" + rest == PrintCommand(c) + ("\n  " + tail);
      BlockStep(c, "\n  " + tail);
      Indent(tail);
      BlockSkip("\n  " + tail, tail);
      ParsePrintedBlock(cs[1..], rest);
      assert cs == [c] + cs[1..];
    }
  }

  // ---------- rules ----------

  lemma ParenArg(ts: seq<seq<Value>>, rest: string)
    requires SimpleTests(ts)
    ensures ParseArg("(" + PrintTests(ts) + ")" + rest) == Some((Tests(ts), rest))
  {
    ParsePrintedTests(ts, rest, true);
    hide PrintTests, ParseTests, SimpleTests;
    assert ("(" + PrintTests(ts) + ")" + rest)[1..] == PrintTests(ts) + ")" + rest;
  }

  lemma ParenArgs(ts: seq<seq<Value>>, rest: string)
    requires SimpleTests(ts) && rest != "" && rest[0] == '{'
    ensures ParseArgs("(" + PrintTests(ts) + ")" + (" " + rest), false) == Some(([Tests(ts)], rest))
  {
    ParenArg(ts, " " + rest);
    ArgsEnd(rest, false);
    ArgsSpace(rest, false);
    hide PrintTests, SimpleTests;
    var text := "(" + PrintTests(ts) + ")" + (" " + rest);
    OneArg(text, Tests(ts), " " + rest, rest);
  }

  lemma OneArg(text: string, v: Value, after: string, rest: string)
    requires text != "" && text[0] == '(' && ParseArg(text) == Some((v, after)) && ParseArgs(after, false) == Some(([], rest))
    ensures ParseArgs(text, false) == Some(([v], rest))
  {
    hide ParseArg;
    assert Skip(text) == text;
    assert [v] + [] == [v];
  }

  /** The test of a rule reads back as its argument sequence. */
  lemma ParsePrintedTest(t: TestExpr, rest: string)
    requires SimpleExpr(t) && rest != "" && rest[0] == '{'
    ensures ParseArgs(PrintTest(t) + (" " + rest), false) == Some((TestArgs(t), rest))
  {
    match t
    case One(args) => ParsePrintedArgsSpaced(args, rest);
    case Many(op, ts) => ParsePrintedMany(op, ts, rest);
  }

  lemma ParsePrintedMany(op: string, ts: seq<seq<Value>>, rest: string)
    requires SimpleExpr(Many(op, ts)) && rest != "" && rest[0] == '{'
    ensures ParseArgs(PrintTest(Many(op, ts)) + (" " + rest), false) == Some((TestArgs(Many(op, ts)), rest))
  {
    ParenArgs(ts, rest);
    hide PrintTests, ParseArgs, SimpleTests, Lower;
    var more := "(" + PrintTests(ts) + ")" + (" " + rest);
    assert PrintTest(Many(op, ts)) + (" " + rest) == op + more;
    assert PrintValue(Bare(op)) == op;
    ArgsStep(Bare(op), more, false);
    assert [Bare(op)] + [Tests(ts)] == TestArgs(Many(op, ts));
  }

  lemma {:induction false} ParsePrintedArgsSpaced(args: seq<Value>, rest: string)
    requires SimpleArgs(args) && rest != "" && IsEnd(rest[0], false)
    ensures ParseArgs(PrintArgs(args) + (" " + rest), false) == Some((args, rest))
  {
    hide PrintValue, ParseArgs, Simple;
    var v := args[0];
    if |args| == 1 {
      ArgsStep(v, " " + rest, false);
      ArgsSpace(rest, false);
      ArgsEnd(rest, false);
      assert args == [v] + [];
    } else {
      var tail := PrintArgs(args[1..]) + (" " + rest);
      assert PrintArgs(args) + (" " + rest) == PrintValue(v) + (" " + tail);
      ArgsStep(v, " " + tail, false);
      ArgsSpace(tail, false);
      ParsePrintedArgsSpaced(args[1..], rest);
      assert args == [v] + args[1..];
    }
  }

  lemma TestTextStart(t: TestExpr)
    requires SimpleExpr(t)
    ensures PrintTest(t) != "" && IsAlpha(PrintTest(t)[0])
  {
    match t
    case One(args) => TestStart(args);
    case Many(op, ts) =>
      hide PrintTests, SimpleTests, Lower;
      assert PrintTest(t)[0] == op[0];
  }

  lemma ReadTest(t: TestExpr, rest: string)
    requires SimpleExpr(t) && rest != "" && rest[0] == '{'
    ensures ReadTail(" " + PrintTest(t) + (" " + rest)) == Some(("", TestArgs(t), rest))
  {
    TestTextStart(t);
    ParsePrintedTest(t, rest);
    hide PrintTest, ParseArgs, SimpleExpr, TestArgs, ReadTail;
    HeadText(PrintTest(t), " " + rest);
    UntaggedRest(PrintTest(t)[0], PrintTest(t)[1..] + (" " + rest), TestArgs(t), rest);
  }

  lemma IfIsWord()
    ensures IsWord("if") && Lower("if") == "if"
  {}

  lemma ParseIndentedBlock(cs: seq<Command>, rest: string)
    requires SimpleCommands(cs)
    ensures ParseBlock("\n  " + (PrintCommands(cs) + "\n}" + rest)) == Some((cs, rest))
  {
    ParsePrintedBlock(cs, rest);
    hide PrintCommands, ParseBlock, SimpleCommands;
    Indent(PrintCommands(cs) + "\n}" + rest);
    BlockSkip("\n  " + (PrintCommands(cs) + "\n}" + rest), PrintCommands(cs) + "\n}" + rest);
  }

  lemma FinishIf(args: seq<Value>, body: string, cs: seq<Command>, rest: string)
    requires ParseBlock(body) == Some((cs, "\n" + rest))
    ensures FinishCommand("if", "", args, "{" + body) == Some((Command("if", "", args, Some(cs)), "\n" + rest))
  {
    hide ParseBlock;
    assert ("{" + body)[1..] == body;
  }

  lemma ParsePrintedRule(r: Rule, rest: string)
    requires SimpleRule(r)
    ensures ParseCommand(PrintRule(r) + rest) == Some((RuleCommand(r), "\n" + rest))
  {
    IfIsWord();
    hide PrintCommands, PrintTest, SimpleExpr, SimpleCommands, TestArgs, ReadTail, ParseCommand, ParseBlock, Lower, FinishCommand;
    var body := "\n  " + (PrintCommands(r.cmds) + "\n}" + ("\n" + rest));
    ReadTest(r.test, "{" + body);
    ParseIndentedBlock(r.cmds, "\n" + rest);
    FinishIf(TestArgs(r.test), body, r.cmds, rest);
    var r0 := " " + PrintTest(r.test) + (" " + ("{" + body));
    assert PrintRule(r) + rest == "if" + r0;
    CommandSteps("if", r0);
  }

  // ---------- scripts ----------

  lemma ScriptSkip(s: string, t: string)
    requires Skip(s) == Skip(t)
    ensures ParseScript(s) == ParseScript(t)
  {
    hide ParseCommand, Skip;
  }

  lemma ScriptStep(s: string, c: Command, rest: string)
    requires s != "" && !IsBlank(s[0]) && ParseCommand(s) == Some((c, "\n" + rest))
    ensures ParseScript(s) == var more := ParseScript(rest);
                              if more == None then None else Some([c] + more.value)
  {
    SkipSpaceChar('\n', rest);
    ScriptSkip("\n" + rest, rest);
    hide ParseCommand;
    assert Skip(s) == s;
  }

  lemma {:induction false} ParsePrintedRules(rs: seq<Rule>)
    requires forall i :: 0 <= i < |rs| ==> SimpleRule(rs[i])
    ensures ParseScript(PrintRules(rs)) == Some(RuleCommands(rs))
  {
    hide PrintRule, SimpleRule, ParseCommand, RuleCommand;
    if rs == [] {
      assert RuleCommands(rs) == [];
    } else {
      var rest := PrintRules(rs[1..]);
      ParsePrintedRules(rs[1..]);
      ParsePrintedRule(rs[0], rest);
      RuleStart(rs[0]);
      var s := PrintRule(rs[0]) + rest;
      assert s[0] == PrintRule(rs[0])[0];
      ScriptStep(s, RuleCommand(rs[0]), rest);
      assert RuleCommands(rs) == [RuleCommand(rs[0])] + RuleCommands(rs[1..]);
    }
  }

  lemma RuleStart(r: Rule)
    ensures PrintRule(r) != "" && PrintRule(r)[0] == 'i'
  {
    hide PrintTest, PrintCommands;
  }

  /** A script of a require command and rules reads back as exactly those. */
  lemma ScriptReadsBack(require: Command, rs: seq<Rule>)
    requires SimpleCommand(require) && forall i :: 0 <= i < |rs| ==> SimpleRule(rs[i])
    ensures ParseScript(PrintCommand(require) + "\n" + PrintRules(rs)) == Some([require] + RuleCommands(rs))
  {
    hide PrintCommand, PrintRules, SimpleRule, SimpleCommand, RuleCommands, ParseCommand, ParseScript;
    ParsePrintedRules(rs);
    ParseSimpleCommand(require, "\n" + PrintRules(rs));
    CommandStart(require);
    var s := PrintCommand(require) + ("\n" + PrintRules(rs));
    assert s == PrintCommand(require) + "\n" + PrintRules(rs);
    assert s[0] == PrintCommand(require)[0];
    ScriptStep(s, require, PrintRules(rs));
  }
}

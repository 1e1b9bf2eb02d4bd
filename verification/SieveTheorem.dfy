/** Meaning preservation of the filter compiler, down to the text: what delivery
    parses, compiles and runs is what the filters ask for. */
module SieveTheorem {
  import opened Text
  import opened SieveText
  import opened SieveParser
  import opened SieveScript
  import opened SieveRun
  import opened SieveCompiler
  import opened SieveMeaning

  // ---------- typed arguments ----------

  predicate NoTags(pos: seq<Value>) {
    forall i :: 0 <= i < |pos| ==> !pos[i].Tag?
  }

  lemma TypedOne(m: string, pos: seq<Value>, known: set<string>)
    requires Lower(m) == m && m in known && NoTags(pos)
    ensures Typed([Tag(m)] + pos, known) == Some(([m], pos))
  {
    var args := [Tag(m)] + pos;
    assert args[1..] == pos;
    assert LeadingTags(pos) == ([], pos);
    assert [m] + [] == [m];
    hide Lower;
    assert LeadingTags(args) == ([m], pos);
  }

  lemma TypedTwo(a: string, m: string, pos: seq<Value>, known: set<string>)
    requires Lower(a) == a && Lower(m) == m && a in known && m in known && a != m && NoTags(pos)
    ensures Typed([Tag(a), Tag(m)] + pos, known) == Some(([a, m], pos))
  {
    var args := [Tag(a), Tag(m)] + pos;
    assert args[1..] == [Tag(m)] + pos;
    assert args[1..][1..] == pos;
    hide Lower;
    assert LeadingTags(pos) == ([], pos);
    assert [m] + [] == [m];
    assert LeadingTags(args[1..]) == ([m], pos);
    assert [a] + [m] == [a, m];
  }

  lemma {:induction false} OneOfOnly(choices: seq<string>, tags: seq<string>, d: string, k: nat)
    requires k < |choices| && choices[k] in tags
    requires forall i :: 0 <= i < |choices| && i != k ==> choices[i] !in tags
    ensures OneOf(choices, tags, d) == Some(choices[k])
  {
    if k != 0 {
      OneOfOnly(choices[1..], tags, d, k - 1);
    }
  }

  lemma MatchWords(m: string)
    requires MatchType(m)
    ensures Lower(m) == m && m in SetOf(MATCH_TYPES) && m != "all" && m != "text"
  {
    assert MATCH_TYPES[0] == "is" && MATCH_TYPES[1] == "contains" && MATCH_TYPES[2] == "matches" && MATCH_TYPES[3] == "regex";
  }

  lemma OneMatch(tags: seq<string>, m: string)
    requires MatchType(m) && m in tags
    requires forall i :: 0 <= i < |tags| ==> tags[i] == m || tags[i] == "all" || tags[i] == "text"
    ensures OneOf(MATCH_TYPES, tags, "is") == Some(m)
  {
    MatchWords(m);
    var k := if m == "is" then 0 else if m == "contains" then 1 else if m == "matches" then 2 else 3;
    OneOfOnly(MATCH_TYPES, tags, "is", k);
    hide OneOf, Lower;
  }

  lemma OnePart(m: string)
    requires MatchType(m)
    ensures OneOf(PARTS, ["all", m], "all") == Some("all")
  {
    OneOfOnly(PARTS, ["all", m], "all", 2);
    hide OneOf;
  }

  lemma OneMode(m: string)
    requires MatchType(m)
    ensures OneOf(MODES, ["text", m], "text") == Some("text")
  {
    OneOfOnly(MODES, ["text", m], "text", 1);
    hide OneOf;
  }

  const EXTS: set<string> := SetOf(EXTENSIONS)

  lemma Extended()
    ensures "fileinto" in EXTS && "copy" in EXTS && "imap4flags" in EXTS && "body" in EXTS && "regex" in EXTS
    ensures EXTS <= SUPPORTED
  {
    assert EXTENSIONS[0] == "fileinto" && EXTENSIONS[1] == "copy" && EXTENSIONS[2] == "imap4flags";
    assert EXTENSIONS[3] == "body" && EXTENSIONS[4] == "regex";
  }

  // ---------- conditions ----------

  lemma EscapeLength(v: string)
    ensures |v| <= |GlobEscape(v)|
  {
    GlobEscapeIsEach(v);
    EachLength(v);
  }

  lemma {:induction false} EachLength(v: string)
    ensures |v| <= |EscapeEach(v)|
  {
    if v != "" {
      EachLength(v[1..]);
    }
  }

  /** The key is short enough for the compiler exactly when the value is. */
  lemma KeyLength(w: World, c: Condition)
    requires MatchKey(w, c).Some?
    ensures var (m, key) := MatchKey(w, c).value;
            && MatchType(m) && KeysOk(w, m, [key])
            && (|key| <= MAX_STRING <==> |c.value| <= MAX_STRING)
  {
    EscapeLength(c.value);
    hide GlobEscape;
  }

  function LeafOf(w: World, c: Condition): Leaf
    requires Expressible(w, c)
  {
    var (m, key) := MatchKey(w, c).value;
    if c.field == "body" then BodyTest("text", m, [key])
    else if OnAddress(c, m) then AddressTest(Strings(Names(c)), "all", m, [key])
    else HeaderTest(Strings(Names(c)), m, [key])
  }

  lemma MatchBuilt(w: World, tags: seq<string>, m: string, key: string)
    requires MatchType(m) && m in tags && KeysOk(w, m, [key])
    requires forall i :: 0 <= i < |tags| ==> tags[i] == m || tags[i] == "all" || tags[i] == "text"
    ensures BuildMatch(w, EXTS, tags, [key]) == Some(m)
  {
    OneMatch(tags, m);
    Extended();
    hide OneOf, KeysOk;
  }

  lemma HeaderBuilt(w: World, m: string, names: Value, key: string)
    requires MatchType(m) && KeysOk(w, m, [key]) && !names.Tag?
    ensures BuildHeader(w, EXTS, [Tag(m)] + [names, Str(key)])
            == if IsStringList(names) && |key| <= MAX_STRING then Some(HeaderTest(Strings(names), m, [key])) else None
  {
    MatchWords(m);
    TypedOne(m, [names, Str(key)], SetOf(MATCH_TYPES));
    MatchBuilt(w, [m], m, key);
    hide Typed, BuildMatch, KeysOk, SetOf, Lower;
    var pos := [names, Str(key)];
    assert pos[0] == names && pos[1] == Str(key);
  }

  lemma AddressBuilt(w: World, m: string, names: Value, key: string)
    requires MatchType(m) && KeysOk(w, m, [key]) && !names.Tag?
    ensures BuildAddress(w, EXTS, [Tag("all"), Tag(m)] + [names, Str(key)])
            == if IsStringList(names) && |key| <= MAX_STRING then Some(AddressTest(Strings(names), "all", m, [key])) else None
  {
    MatchWords(m);
    AllAndText();
    TypedTwo("all", m, [names, Str(key)], SetOf(MATCH_TYPES) + SetOf(PARTS));
    MatchBuilt(w, ["all", m], m, key);
    OnePart(m);
    hide Typed, BuildMatch, KeysOk, SetOf, OneOf, Lower;
    var pos := [names, Str(key)];
    assert pos[0] == names && pos[1] == Str(key);
  }

  lemma BodyBuilt(w: World, m: string, key: string)
    requires MatchType(m) && KeysOk(w, m, [key])
    ensures BuildBody(w, EXTS, [Tag("text"), Tag(m)] + [Str(key)])
            == if |key| <= MAX_STRING then Some(BodyTest("text", m, [key])) else None
  {
    MatchWords(m);
    AllAndText();
    Extended();
    TypedTwo("text", m, [Str(key)], SetOf(MATCH_TYPES) + SetOf(MODES));
    MatchBuilt(w, ["text", m], m, key);
    OneMode(m);
    hide Typed, BuildMatch, KeysOk, SetOf, OneOf, Lower;
    var pos := [Str(key)];
    assert pos[0] == Str(key);
  }

  lemma AllAndText()
    ensures Lower("all") == "all" && Lower("text") == "text"
    ensures "all" in SetOf(PARTS) && "text" in SetOf(MODES)
  {
    assert PARTS[2] == "all" && MODES[1] == "text";
  }

  lemma TestNames()
    ensures Lower("header") == "header" && Lower("address") == "address" && Lower("body") == "body"
  {}

  lemma NamesFit(c: Condition)
    requires c.field in {"from", "to", "subject", "header"}
    ensures IsStringList(Names(c)) <==> (c.field == "header" ==> |c.headerName| <= MAX_STRING)
  {
    if c.field == "to" {
      assert |["to", "cc"][0]| == 2 && |["to", "cc"][1]| == 2;
    }
  }

  /** A generated condition compiles to its test exactly when it fits. */
  lemma LeafBuilt(w: World, c: Condition)
    requires Expressible(w, c)
    ensures BuildLeaf(w, EXTS, ConditionArgs(w, c)) == if ConditionFits(c) then Some(LeafOf(w, c)) else None
  {
    KeyLength(w, c);
    TestNames();
    var (m, key) := MatchKey(w, c).value;
    hide MatchKey, KeysOk, BuildHeader, BuildAddress, BuildBody, Lower, HeaderName, IsStringList;
    var args := ConditionArgs(w, c);
    if c.field == "body" {
      BodyBuilt(w, m, key);
      assert args[1..] == [Tag("text"), Tag(m)] + [Str(key)];
    } else {
      NamesFit(c);
      if OnAddress(c, m) {
        AddressBuilt(w, m, Names(c), key);
        assert args[1..] == [Tag("all"), Tag(m)] + [Names(c), Str(key)];
      } else {
        HeaderBuilt(w, m, Names(c), key);
        assert args[1..] == [Tag(m)] + [Names(c), Str(key)];
      }
    }
  }

  lemma LowerStar(k: string)
    ensures Lower(k + "*") == Lower(k) + "*" && Lower("*" + k) == "*" + Lower(k)
  {}

  /** The key of a condition matches exactly the values the condition asks for. */
  lemma KeyMeans(w: World, c: Condition, v: string)
    requires MatchKey(w, c).Some?
    ensures MatchOne(w, MatchKey(w, c).value.0, v, MatchKey(w, c).value.1) <==> ValueMatches(w, c, v)
  {
    LowerEscape(c.value);
    LowerStar(GlobEscape(c.value));
    PrefixKey(Lower(c.value), Lower(v));
    SuffixKey(Lower(c.value), Lower(v));
    hide GlobEscape, GlobTokens, GlobMatch, Lower, HasPrefix, HasSuffix, Contains;
  }

  lemma KeyValues(w: World, c: Condition, values: seq<string>)
    requires MatchKey(w, c).Some?
    ensures var (m, key) := MatchKey(w, c).value;
            MatchValues(w, m, values, [key]) <==> exists i :: 0 <= i < |values| && ValueMatches(w, c, values[i])
  {
    var (m, key) := MatchKey(w, c).value;
    forall v ensures MatchOne(w, m, v, key) <==> ValueMatches(w, c, v) {
      KeyMeans(w, c, v);
    }
    hide MatchOne, ValueMatches, MatchKey;
    if i :| 0 <= i < |values| && ValueMatches(w, c, values[i]) {
      assert MatchOne(w, m, values[i], [key][0]);
    }
  }

  lemma LeafMeans(w: World, msg: Message, c: Condition)
    requires Expressible(w, c)
    ensures LeafHolds(w, msg, LeafOf(w, c)) <==> ConditionHolds(w, msg, c)
  {
    KeyValues(w, c, Values(msg, c));
    KeyOperator(w, c);
    hide MatchValues, ValueMatches, MatchKey, HeaderName;
  }

  lemma KeyOperator(w: World, c: Condition)
    requires MatchKey(w, c).Some?
    ensures var m := MatchKey(w, c).value.0;
            m == "is" || m == "matches" <==> c.operator in {"equals", "startsWith", "endsWith"}
  {
    hide GlobEscape;
  }

  // ---------- tests ----------

  function LeavesOf(w: World, cs: seq<Condition>): seq<Leaf> {
    if cs == [] then [] else (if Expressible(w, cs[0]) then [LeafOf(w, cs[0])] else []) + LeavesOf(w, cs[1..])
  }

  predicate AllFit(w: World, cs: seq<Condition>) {
    forall i :: 0 <= i < |cs| && Expressible(w, cs[i]) ==> ConditionFits(cs[i])
  }

  lemma {:induction false} LeavesBuilt(w: World, cs: seq<Condition>)
    ensures BuildLeaves(w, EXTS, TestsOf(w, cs)) == if AllFit(w, cs) then Some(LeavesOf(w, cs)) else None
    ensures |LeavesOf(w, cs)| == |TestsOf(w, cs)|
  {
    hide ConditionArgs, LeafOf, BuildLeaf, ConditionFits, AllFit, Expressible;
    if cs == [] {
      NoneToFit(w);
    } else {
      LeavesBuilt(w, cs[1..]);
      AllFitCons(w, cs);
      var more := TestsOf(w, cs[1..]);
      if Expressible(w, cs[0]) {
        LeafBuilt(w, cs[0]);
        LeavesStep(w, ConditionArgs(w, cs[0]), more);
      } else {
        assert TestsOf(w, cs) == more && LeavesOf(w, cs) == LeavesOf(w, cs[1..]);
      }
    }
  }

  lemma NoneToFit(w: World)
    ensures AllFit(w, [])
  {}

  lemma LeavesStep(w: World, t: seq<Value>, ts: seq<seq<Value>>)
    ensures BuildLeaves(w, EXTS, [t] + ts) ==
              var first, more := BuildLeaf(w, EXTS, t), BuildLeaves(w, EXTS, ts);
              if first == None || more == None then None else Some([first.value] + more.value)
  {
    hide BuildLeaf;
    assert ([t] + ts)[1..] == ts;
  }

  lemma AllFitCons(w: World, cs: seq<Condition>)
    requires cs != []
    ensures AllFit(w, cs) <==> (Expressible(w, cs[0]) ==> ConditionFits(cs[0])) && AllFit(w, cs[1..])
  {
    hide Expressible, ConditionFits;
    assert forall i :: 1 <= i < |cs| ==> cs[i] == cs[1..][i - 1];
  }

  predicate AllHold(w: World, msg: Message, cs: seq<Condition>) {
    forall i :: 0 <= i < |cs| && Expressible(w, cs[i]) ==> ConditionHolds(w, msg, cs[i])
  }

  predicate SomeHold(w: World, msg: Message, cs: seq<Condition>) {
    exists i :: 0 <= i < |cs| && Expressible(w, cs[i]) && ConditionHolds(w, msg, cs[i])
  }

  lemma HoldCons(w: World, msg: Message, cs: seq<Condition>)
    requires cs != []
    ensures AllHold(w, msg, cs) <==> (Expressible(w, cs[0]) ==> ConditionHolds(w, msg, cs[0])) && AllHold(w, msg, cs[1..])
    ensures SomeHold(w, msg, cs) <==> (Expressible(w, cs[0]) && ConditionHolds(w, msg, cs[0])) || SomeHold(w, msg, cs[1..])
  {
    hide Expressible, ConditionHolds;
    assert forall i :: 1 <= i < |cs| ==> cs[i] == cs[1..][i - 1];
    if SomeHold(w, msg, cs[1..]) {
      var i :| 0 <= i < |cs[1..]| && Expressible(w, cs[1..][i]) && ConditionHolds(w, msg, cs[1..][i]);
      assert cs[i + 1] == cs[1..][i];
    }
  }

  predicate AllLeaves(w: World, msg: Message, ls: seq<Leaf>) {
    forall i :: 0 <= i < |ls| ==> LeafHolds(w, msg, ls[i])
  }

  predicate SomeLeaf(w: World, msg: Message, ls: seq<Leaf>) {
    exists i :: 0 <= i < |ls| && LeafHolds(w, msg, ls[i])
  }

  lemma LeafCons(w: World, msg: Message, l: Leaf, ls: seq<Leaf>)
    ensures AllLeaves(w, msg, [l] + ls) <==> LeafHolds(w, msg, l) && AllLeaves(w, msg, ls)
    ensures SomeLeaf(w, msg, [l] + ls) <==> LeafHolds(w, msg, l) || SomeLeaf(w, msg, ls)
  {
    hide LeafHolds;
    var all := [l] + ls;
    assert forall i :: 1 <= i < |all| ==> all[i] == ls[i - 1];
    assert all[0] == l;
    if SomeLeaf(w, msg, ls) {
      var i :| 0 <= i < |ls| && LeafHolds(w, msg, ls[i]);
      assert all[i + 1] == ls[i];
    }
    if AllLeaves(w, msg, all) {
      forall i | 0 <= i < |ls| ensures LeafHolds(w, msg, ls[i]) {
        assert all[i + 1] == ls[i];
      }
    }
  }

  lemma {:induction false} LeavesMean(w: World, msg: Message, cs: seq<Condition>)
    ensures AllLeaves(w, msg, LeavesOf(w, cs)) <==> AllHold(w, msg, cs)
    ensures SomeLeaf(w, msg, LeavesOf(w, cs)) <==> SomeHold(w, msg, cs)
  {
    hide Expressible, ConditionHolds, LeafOf, LeafHolds;
    if cs != [] {
      LeavesMean(w, msg, cs[1..]);
      HoldCons(w, msg, cs);
      hide AllHold, SomeHold;
      if Expressible(w, cs[0]) {
        LeafMeans(w, msg, cs[0]);
        LeafCons(w, msg, LeafOf(w, cs[0]), LeavesOf(w, cs[1..]));
        hide AllLeaves, SomeLeaf;
      } else {
        assert LeavesOf(w, cs) == LeavesOf(w, cs[1..]);
      }
    }
  }

  function CheckOf(w: World, f: Filter): Check
    requires TestOf(w, f).Some? && |LeavesOf(w, f.conditions)| == |TestsOf(w, f.conditions)|
  {
    var ls := LeavesOf(w, f.conditions);
    if |ls| == 1 then Just(ls[0]) else if f.matchAll then AllOf(ls) else AnyOf(ls)
  }

  lemma OneLeafBuilt(w: World, t: seq<Value>)
    ensures BuildLeaves(w, EXTS, [t]) == var l := BuildLeaf(w, EXTS, t); if l == None then None else Some([l.value])
  {
    hide BuildLeaf;
    LeavesStep(w, t, []);
    assert [t] + [] == [t];
    var l := BuildLeaf(w, EXTS, t);
    if l.Some? {
      assert [l.value] + [] == [l.value];
    }
  }

  lemma {:induction false} LeafTest(w: World, cs: seq<Condition>, i: nat)
    requires i < |TestsOf(w, cs)|
    ensures var t := TestsOf(w, cs)[i];
            t != [] && t[0].Bare? && Lower(t[0].word) != "allof" && Lower(t[0].word) != "anyof"
  {
    TestNames();
    hide Lower, Expressible;
    if Expressible(w, cs[0]) {
      if i > 0 {
        LeafTest(w, cs[1..], i - 1);
      }
    } else {
      LeafTest(w, cs[1..], i);
    }
  }

  /** The test of a filter compiles to its check exactly when it fits. */
  lemma TestBuilt(w: World, f: Filter)
    requires TestOf(w, f).Some?
    ensures |LeavesOf(w, f.conditions)| == |TestsOf(w, f.conditions)|
    ensures BuildTest(w, EXTS, TestArgs(TestOf(w, f).value)) == if TestFits(w, f) then Some(CheckOf(w, f)) else None
  {
    LeavesBuilt(w, f.conditions);
    OpWords();
    var ts := TestsOf(w, f.conditions);
    if |ts| == 1 {
      LeafTest(w, f.conditions, 0);
      OneLeafBuilt(w, ts[0]);
      assert ts == [ts[0]];
    }
    hide TestsOf, LeavesOf, BuildLeaves, BuildLeaf, Expressible, ConditionFits, Lower, IsWord;
  }

  lemma CheckMeans(w: World, msg: Message, f: Filter)
    requires f.enabled && TestOf(w, f).Some? && |LeavesOf(w, f.conditions)| == |TestsOf(w, f.conditions)|
    ensures CheckHolds(w, msg, CheckOf(w, f)) <==> Fires(w, msg, f)
  {
    LeavesMean(w, msg, f.conditions);
    TestsCount(w, f.conditions);
    hide TestsOf, LeavesOf, Expressible, ConditionHolds, LeafHolds;
    var ls := LeavesOf(w, f.conditions);
    assert |ls| == 1 ==> (AllLeaves(w, msg, ls) <==> LeafHolds(w, msg, ls[0])) && (SomeLeaf(w, msg, ls) <==> LeafHolds(w, msg, ls[0]));
  }

  // ---------- commands ----------

  function OpOf(w: World, a: FilterAction): Option<Op> {
    if a.kind == "markRead" then Some(AddFlag(["\\Seen"]))
    else if a.kind == "flag" then Some(AddFlag(["\\Flagged"]))
    else if a.kind == "move" then
      if EqualFold(a.target, "INBOX") then Some(Keep)
      else if !ValidFolder(a.target) then None
      else Some(FileInto(a.target, false))
    else if a.kind == "copy" then
      if EqualFold(a.target, "INBOX") || !ValidFolder(a.target) then None
      else Some(FileInto(a.target, true))
    else if a.kind == "delete" then Some(FileInto("Trash", false))
    else if a.kind == "markSpam" then Some(FileInto("Junk", false))
    else if a.kind == "forward" && ForwardAddress(w, a).Some? then Some(Redirect(ForwardAddress(w, a).value, true))
    else None
  }

  lemma PlainBuilt(w: World, name: string, s: string)
    requires name == "fileinto" || name == "addflag"
    ensures CompileCommand(w, EXTS, Plain(name, s)) ==
              if |s| > MAX_STRING then None else if name == "fileinto" then Some(FileInto(s, false)) else Some(AddFlag([s]))
  {
    Extended();
    var args := FullArgs(Plain(name, s));
    assert args == [Str(s)];
    assert LeadingTags([Str(s)]) == ([], [Str(s)]);
    hide SetOf;
  }

  lemma CopyingBuilt(w: World, name: string, s: string)
    requires name == "fileinto" || name == "redirect"
    ensures CompileCommand(w, EXTS, Copying(name, s)) ==
              if |s| > MAX_STRING || (name == "redirect" && w.address(s) == None) then None
              else if name == "fileinto" then Some(FileInto(s, true)) else Some(Redirect(s, true))
  {
    Extended();
    CopyLower();
    TypedOne("copy", [Str(s)], {"copy"});
    var args := FullArgs(Copying(name, s));
    assert args == [Tag("copy")] + [Str(s)];
    hide SetOf, Typed, Lower;
    var pos := [Str(s)];
    assert pos[0] == Str(s) && "copy" in ["copy"];
  }

  lemma CopyLower()
    ensures Lower("copy") == "copy"
  {}

  /** An action's command compiles to its operation exactly when it fits. */
  lemma ActionBuilt(w: World, a: FilterAction)
    requires ActionCommand(w, a).Some?
    ensures OpOf(w, a).Some?
    ensures CompileCommand(w, EXTS, ActionCommand(w, a).value) == if ActionFits(w, a) then OpOf(w, a) else None
  {
    hide CompileCommand, ForwardAddress, EqualFold;
    var c := ActionCommand(w, a).value;
    if c.args == [] {
      KeepBuilt(w);
    } else if c.tag == "" {
      PlainBuilt(w, c.name, c.args[0].v);
    } else {
      CopyingBuilt(w, c.name, c.args[0].v);
    }
  }

  lemma KeepBuilt(w: World)
    ensures CompileCommand(w, EXTS, Command("keep", "", [], None)) == Some(Keep)
  {
    assert FullArgs(Command("keep", "", [], None)) == [];
  }

  function OpsOf(w: World, actions: seq<FilterAction>, flag: bool): seq<Op> {
    if actions == [] then []
    else (if IsFlag(actions[0]) == flag && OpOf(w, actions[0]).Some? then [OpOf(w, actions[0]).value] else [])
         + OpsOf(w, actions[1..], flag)
  }

  predicate ActionsFit(w: World, actions: seq<FilterAction>) {
    forall i :: 0 <= i < |actions| ==> ActionFits(w, actions[i])
  }

  lemma CommandsStep(w: World, c: Command, cs: seq<Command>)
    ensures CompileCommands(w, EXTS, [c] + cs) ==
              var first, more := CompileCommand(w, EXTS, c), CompileCommands(w, EXTS, cs);
              if first == None || more == None then None else Some([first.value] + more.value)
  {
    hide CompileCommand;
    assert ([c] + cs)[1..] == cs;
  }

  lemma SameExpressed(w: World, a: FilterAction)
    ensures ActionCommand(w, a).Some? <==> OpOf(w, a).Some?
    ensures IsFlag(a) || ActionCommand(w, a) == None ==> ActionFits(w, a)
  {
    hide ForwardAddress, EqualFold, ValidFolder;
  }

  lemma {:induction false} CommandsBuilt(w: World, actions: seq<FilterAction>, flag: bool)
    ensures CompileCommands(w, EXTS, CommandsOf(w, actions, flag))
            == if flag || ActionsFit(w, actions) then Some(OpsOf(w, actions, flag)) else None
    ensures CommandsOf(w, actions, flag) == [] <==> OpsOf(w, actions, flag) == []
  {
    hide ActionCommand, OpOf, ActionFits, CompileCommand, IsFlag;
    if actions != [] {
      var a := actions[0];
      CommandsBuilt(w, actions[1..], flag);
      ActionsFitCons(w, actions);
      SameExpressed(w, a);
      hide ActionsFit;
      if IsFlag(a) == flag && ActionCommand(w, a).Some? {
        ActionBuilt(w, a);
        CommandsStep(w, ActionCommand(w, a).value, CommandsOf(w, actions[1..], flag));
      } else {
        assert CommandsOf(w, actions, flag) == CommandsOf(w, actions[1..], flag);
        assert OpsOf(w, actions, flag) == OpsOf(w, actions[1..], flag);
      }
    }
  }

  lemma ActionsFitCons(w: World, actions: seq<FilterAction>)
    requires actions != []
    ensures ActionsFit(w, actions) <==> ActionFits(w, actions[0]) && ActionsFit(w, actions[1..])
  {
    hide ActionFits;
    assert forall i :: 1 <= i < |actions| ==> actions[i] == actions[1..][i - 1];
  }

  // ---------- rules ----------

  predicate RuleFits(w: World, f: Filter, flag: bool) {
    RuleOf(w, f, flag) != [] ==> TestFits(w, f) && (flag || ActionsFit(w, f.actions))
  }

  function ItemOf(w: World, f: Filter, flag: bool): seq<Item> {
    if RuleOf(w, f, flag) == [] || |LeavesOf(w, f.conditions)| != |TestsOf(w, f.conditions)| then []
    else [When(CheckOf(w, f), OpsOf(w, f.actions, flag))]
  }

  function ItemsOf(w: World, fs: seq<Filter>, flag: bool): seq<Item> {
    if fs == [] then [] else ItemOf(w, fs[0], flag) + ItemsOf(w, fs[1..], flag)
  }

  lemma RuleBuilt(w: World, f: Filter, flag: bool)
    requires RuleOf(w, f, flag) != []
    ensures |ItemOf(w, f, flag)| == 1
    ensures CompileItem(w, EXTS, RuleCommand(RuleOf(w, f, flag)[0])) == if RuleFits(w, f, flag) then Some(ItemOf(w, f, flag)[0]) else None
  {
    TestBuilt(w, f);
    CommandsBuilt(w, f.actions, flag);
    hide TestOf, CommandsOf, OpsOf, TestFits, ActionsFit, BuildTest, CompileCommands, CheckOf, LeavesOf, TestsOf;
    var c := RuleCommand(RuleOf(w, f, flag)[0]);
    assert FullArgs(c) == c.args;
  }

  lemma ItemsStep(w: World, c: Command, cs: seq<Command>)
    ensures CompileItems(w, EXTS, [c] + cs) ==
              var first, more := CompileItem(w, EXTS, c), CompileItems(w, EXTS, cs);
              if first == None || more == None then None else Some([first.value] + more.value)
  {
    hide CompileItem;
    assert ([c] + cs)[1..] == cs;
  }

  predicate RulesFit(w: World, fs: seq<Filter>, flag: bool) {
    forall i :: 0 <= i < |fs| ==> RuleFits(w, fs[i], flag)
  }

  lemma RulesFitCons(w: World, fs: seq<Filter>, flag: bool)
    requires fs != []
    ensures RulesFit(w, fs, flag) <==> RuleFits(w, fs[0], flag) && RulesFit(w, fs[1..], flag)
  {
    hide RuleFits;
    assert forall i :: 1 <= i < |fs| ==> fs[i] == fs[1..][i - 1];
  }

  lemma RuleCommandsCons(r: Rule, rs: seq<Rule>)
    ensures RuleCommands([r] + rs) == [RuleCommand(r)] + RuleCommands(rs)
  {
    hide RuleCommand;
  }

  lemma {:induction false} ItemsBuilt(w: World, fs: seq<Filter>, flag: bool)
    ensures CompileItems(w, EXTS, RuleCommands(RulesOf(w, fs, flag))) == if RulesFit(w, fs, flag) then Some(ItemsOf(w, fs, flag)) else None
  {
    hide RuleOf, ItemOf, CompileItem, RuleCommand, RuleFits;
    if fs == [] {
      assert RuleCommands([]) == [];
    } else {
      ItemsBuilt(w, fs[1..], flag);
      RulesFitCons(w, fs, flag);
      hide RulesFit;
      var rs := RulesOf(w, fs[1..], flag);
      OneRule(w, fs[0], flag);
      if RuleOf(w, fs[0], flag) == [] {
        assert RulesOf(w, fs, flag) == rs && ItemsOf(w, fs, flag) == ItemsOf(w, fs[1..], flag);
      } else {
        var r := RuleOf(w, fs[0], flag)[0];
        assert RuleOf(w, fs[0], flag) == [r];
        RuleBuilt(w, fs[0], flag);
        RuleCommandsCons(r, rs);
        ItemsStep(w, RuleCommand(r), RuleCommands(rs));
        assert ItemOf(w, fs[0], flag) == [ItemOf(w, fs[0], flag)[0]];
      }
    }
  }

  lemma OneRule(w: World, f: Filter, flag: bool)
    ensures |RuleOf(w, f, flag)| <= 1
    ensures RuleOf(w, f, flag) == [] ==> ItemOf(w, f, flag) == [] && RuleFits(w, f, flag)
  {
    hide TestOf, CommandsOf;
  }

  lemma {:induction false} ItemsAppend(w: World, a: seq<Command>, b: seq<Command>)
    ensures CompileItems(w, EXTS, a + b) ==
              var first, more := CompileItems(w, EXTS, a), CompileItems(w, EXTS, b);
              if first == None || more == None then None else Some(first.value + more.value)
  {
    hide CompileItem;
    if a == [] {
      assert a + b == b;
      var more := CompileItems(w, EXTS, b);
      if more.Some? {
        assert [] + more.value == more.value;
      }
    } else {
      ItemsAppend(w, a[1..], b);
      assert a + b == [a[0]] + (a[1..] + b) && a == [a[0]] + a[1..];
      ItemsStep(w, a[0], a[1..] + b);
      ItemsStep(w, a[0], a[1..]);
      hide CompileItems;
      var x, y, z := CompileItem(w, EXTS, a[0]), CompileItems(w, EXTS, a[1..]), CompileItems(w, EXTS, b);
      if x.Some? && y.Some? && z.Some? {
        assert [x.value] + y.value + z.value == [x.value] + (y.value + z.value);
      }
    }
  }

  lemma {:induction false} FolderCommandsFit(w: World, actions: seq<FilterAction>)
    requires CommandsOf(w, actions, false) == []
    ensures ActionsFit(w, actions)
  {
    hide ActionCommand, ActionFits, IsFlag;
    if actions != [] {
      SameExpressed(w, actions[0]);
      FolderCommandsFit(w, actions[1..]);
      ActionsFitCons(w, actions);
    }
  }

  lemma FitsBoth(w: World, f: Filter)
    ensures FilterFits(w, f) <==> RuleFits(w, f, true) && RuleFits(w, f, false)
  {
    if CommandsOf(w, f.actions, false) == [] {
      FolderCommandsFit(w, f.actions);
    }
    hide TestOf, CommandsOf, TestFits, ActionFits;
  }

  lemma ScriptFits(w: World, fs: seq<Filter>)
    ensures (forall i :: 0 <= i < |fs| ==> FilterFits(w, fs[i])) <==> RulesFit(w, fs, true) && RulesFit(w, fs, false)
  {
    forall i | 0 <= i < |fs| ensures FilterFits(w, fs[i]) <==> RuleFits(w, fs[i], true) && RuleFits(w, fs[i], false) {
      FitsBoth(w, fs[i]);
    }
    hide FilterFits, RuleFits;
  }

  lemma {:induction false} RequiresRead(cs: seq<Command>)
    requires cs == [] || cs[0].name != "require"
    ensures Requires([REQUIRE] + cs) == Some((EXTS, cs))
  {
    Extended();
    var all := [REQUIRE] + cs;
    assert all[1..] == cs && all[0] == REQUIRE;
    assert FullArgs(REQUIRE) == [List(EXTENSIONS)];
    assert Required([List(EXTENSIONS)]) == Some(EXTENSIONS) by {
      assert [List(EXTENSIONS)][1..] == [];
      assert EXTENSIONS + [] == EXTENSIONS;
    }
    assert EXTS + {} == EXTS;
    hide SetOf;
  }

  lemma CompileRead(w: World, source: string, cs: seq<Command>)
    requires ParseScript(source) == Some([REQUIRE] + cs) && (cs == [] || cs[0].name != "require")
    ensures Compile(w, source) == if |source| > MAX_SCRIPT then None else CompileItems(w, EXTS, cs)
  {
    RequiresRead(cs);
    hide ParseScript, Requires, CompileItems, SetOf;
  }

  lemma RuleCommandsAppend(a: seq<Rule>, b: seq<Rule>)
    ensures RuleCommands(a + b) == RuleCommands(a) + RuleCommands(b)
    ensures RuleCommands(a) == [] || RuleCommands(a)[0].name == "if"
  {}

  /** A generated script compiles exactly when every filter in it fits. */
  lemma ScriptCompiles(w: World, fs: seq<Filter>)
    requires ScriptText(w, fs) != ""
    ensures Compile(w, ScriptText(w, fs)) == if Fits(w, fs) then Some(ItemsOf(w, fs, true) + ItemsOf(w, fs, false)) else None
  {
    ScriptParses(w, fs);
    hide ScriptText, RulesOf, RuleCommands, ItemsOf, RulesFit, CompileItems, ParseScript, Compile, FilterFits;
    ScriptFits(w, fs);
    ItemsBuilt(w, fs, true);
    ItemsBuilt(w, fs, false);
    var a, b := RulesOf(w, fs, true), RulesOf(w, fs, false);
    ItemsAppend(w, RuleCommands(a), RuleCommands(b));
    RuleCommandsAppend(a, b);
    RuleCommandsAppend(a + b, []);
    CompileRead(w, ScriptText(w, fs), RuleCommands(a + b));
  }

  // ---------- runs ----------

  lemma {:induction false} OpsAppend(w: World, a: seq<FilterAction>, b: seq<FilterAction>, flag: bool)
    ensures OpsOf(w, a + b, flag) == OpsOf(w, a, flag) + OpsOf(w, b, flag)
  {
    hide OpOf, IsFlag;
    if a == [] {
      assert a + b == b;
    } else {
      assert (a + b)[1..] == a[1..] + b;
      OpsAppend(w, a[1..], b, flag);
    }
  }

  lemma ItemRuns(w: World, msg: Message, st: State, f: Filter, flag: bool)
    ensures RunItems(w, msg, st, ItemOf(w, f, flag)) == if Fires(w, msg, f) then RunOps(w, st, OpsOf(w, f.actions, flag)) else st
  {
    CommandsBuilt(w, f.actions, flag);
    if RuleOf(w, f, flag) == [] {
      OneRule(w, f, flag);
      hide CommandsOf, OpsOf, TestOf;
    } else {
      RuleBuilt(w, f, flag);
      CheckMeans(w, msg, f);
      hide CommandsOf, OpsOf, TestOf, CheckOf, CheckHolds, Fires, RunOps, LeavesOf, TestsOf, RuleOf;
      var item := When(CheckOf(w, f), OpsOf(w, f.actions, flag));
      assert ItemOf(w, f, flag) == [item];
      assert [item][1..] == [];
    }
  }

  /** The rules of one kind do what the actions of that kind of all firing
      filters do, one after the other. */
  lemma {:induction false} ItemsRun(w: World, msg: Message, st: State, fs: seq<Filter>, flag: bool)
    ensures RunItems(w, msg, st, ItemsOf(w, fs, flag)) == RunOps(w, st, OpsOf(w, Fired(w, msg, fs), flag))
    decreases fs
  {
    hide Fires, ItemOf;
    if fs != [] {
      var f := fs[0];
      ItemRuns(w, msg, st, f, flag);
      var acts := if Fires(w, msg, f) then f.actions else [];
      var mid := RunOps(w, st, OpsOf(w, acts, flag));
      ItemsRun(w, msg, mid, fs[1..], flag);
      RunItemsAppend(w, msg, st, ItemOf(w, f, flag), ItemsOf(w, fs[1..], flag));
      OpsAppend(w, acts, Fired(w, msg, fs[1..]), flag);
      RunOpsAppend(w, st, OpsOf(w, acts, flag), OpsOf(w, Fired(w, msg, fs[1..]), flag));
    }
  }

  lemma AddFlagsCons(flags: seq<string>, name: string, names: seq<string>)
    ensures AddFlags(flags, [name] + names) == AddFlags(AddFlags(flags, [name]), names)
  {
    assert ([name] + names)[1..] == names;
    assert [name][1..] == [];
  }

  /** The flag rules only collect flags. */
  lemma {:induction false} FlagRun(w: World, flags: seq<string>, acts: seq<FilterAction>)
    ensures RunOps(w, State(flags, [], []), OpsOf(w, acts, true)) == State(AddFlags(flags, FlagNames(acts)), [], [])
    decreases acts
  {
    if acts != [] {
      var a := acts[0];
      if IsFlag(a) {
        var name := if a.kind == "markRead" then "\\Seen" else "\\Flagged";
        assert OpsOf(w, acts, true) == [AddFlag([name])] + OpsOf(w, acts[1..], true);
        assert FlagNames(acts) == [name] + FlagNames(acts[1..]);
        FlagRun(w, AddFlags(flags, [name]), acts[1..]);
        AddFlagsCons(flags, name, FlagNames(acts[1..]));
        hide AddFlags, OpOf;
        assert ([AddFlag([name])] + OpsOf(w, acts[1..], true))[1..] == OpsOf(w, acts[1..], true);
      } else {
        assert OpsOf(w, acts, true) == OpsOf(w, acts[1..], true);
        assert FlagNames(acts) == FlagNames(acts[1..]);
        FlagRun(w, flags, acts[1..]);
      }
    }
  }

  lemma SystemFolders()
    ensures Usable("Trash") && Usable("Junk")
  {
    FolderUsable("Trash");
    FolderUsable("Junk");
  }

  lemma FolderUsable(s: string)
    requires s != "" && s != "." && s != ".." && '/' !in s && '\\' !in s
    requires forall i :: 0 <= i < |s| ==> s[i] >= ' ' && s[i] != '\U{7f}'
    ensures Usable(s)
  {
    ReplaceAbsent(s, '\\', "/");
    SplitNone(s, '/');
    hide ReplaceAll, Split;
  }

  lemma TrimmedEmpty(s: string)
    requires s == ""
    ensures TrimSpace(s) == ""
  {}

  /** One operation that is not a flag does what the action promises. */
  lemma StepDelivers(w: World, st: State, a: FilterAction)
    requires !IsFlag(a) && OpOf(w, a).Some?
    ensures var ds := Delivery(w, st.flags, st.sent, a);
            Step(w, st, OpOf(w, a).value) == State(st.flags, st.sent + Addresses(ds), st.actions + ds)
  {
    SystemFolders();
    if a.target == "" {
      TrimmedEmpty(a.target);
    }
    hide Usable, EqualFold, TrimSpace, Holds;
    var ds := Delivery(w, st.flags, st.sent, a);
    if ds != [] {
      assert ds[1..] == [];
    }
    assert st.sent + [] == st.sent && st.actions + [] == st.actions;
  }

  lemma NoDelivery(w: World, flags: seq<string>, sent: seq<string>, a: FilterAction)
    requires IsFlag(a) || OpOf(w, a) == None
    ensures Delivery(w, flags, sent, a) == []
  {
    hide EqualFold, ValidFolder, Holds;
  }

  lemma {:induction false} AddressesAppend(a: seq<Action>, b: seq<Action>)
    ensures Addresses(a + b) == Addresses(a) + Addresses(b)
  {
    if a == [] {
      assert a + b == b;
    } else {
      assert (a + b)[1..] == a[1..] + b;
      AddressesAppend(a[1..], b);
    }
  }

  lemma NoFolderRun(w: World, st: State)
    ensures Deliveries(w, st.flags, st.sent, []) == [] && RunOps(w, st, OpsOf(w, [], false)) == st
    ensures State(st.flags, st.sent + [], st.actions + []) == st
  {}

  lemma Regrouped(st: State, first: seq<Action>, rest: seq<Action>)
    ensures st.sent + Addresses(first) + Addresses(rest) == st.sent + Addresses(first + rest)
    ensures st.actions + first + rest == st.actions + (first + rest)
  {
    AddressesAppend(first, rest);
  }

  /** The folder rules deliver, every time under the flags they start with. */
  lemma {:induction false} FolderRun(w: World, st: State, acts: seq<FilterAction>)
    ensures var ds := Deliveries(w, st.flags, st.sent, acts);
            RunOps(w, st, OpsOf(w, acts, false)) == State(st.flags, st.sent + Addresses(ds), st.actions + ds)
    decreases acts
  {
    hide OpsOf, Delivery, RunOps, Deliveries;
    if acts == [] {
      NoFolderRun(w, st);
    } else {
      var first := Delivery(w, st.flags, st.sent, acts[0]);
      var next := State(st.flags, st.sent + Addresses(first), st.actions + first);
      FolderRun(w, next, acts[1..]);
      FolderStep(w, st, acts, next);
      DeliveriesCons(w, st.flags, st.sent, acts);
      Regrouped(st, first, Deliveries(w, st.flags, next.sent, acts[1..]));
    }
  }

  lemma DeliveriesCons(w: World, flags: seq<string>, sent: seq<string>, acts: seq<FilterAction>)
    requires acts != []
    ensures var first := Delivery(w, flags, sent, acts[0]);
            Deliveries(w, flags, sent, acts) == first + Deliveries(w, flags, sent + Addresses(first), acts[1..])
  {
    hide Delivery, Addresses;
  }

  lemma FolderStep(w: World, st: State, acts: seq<FilterAction>, next: State)
    requires acts != []
    requires var first := Delivery(w, st.flags, st.sent, acts[0]);
             next == State(st.flags, st.sent + Addresses(first), st.actions + first)
    ensures RunOps(w, st, OpsOf(w, acts, false)) == RunOps(w, next, OpsOf(w, acts[1..], false))
  {
    var a, rest := acts[0], OpsOf(w, acts[1..], false);
    if IsFlag(a) || OpOf(w, a) == None {
      NoDelivery(w, st.flags, st.sent, a);
      hide OpOf, Delivery, IsFlag, RunOps;
      assert OpsOf(w, acts, false) == rest;
      assert st.sent + [] == st.sent && st.actions + [] == st.actions;
      assert next == st;
    } else {
      StepDelivers(w, st, a);
      hide OpOf, Delivery, IsFlag, Step;
      var op := OpOf(w, a).value;
      assert OpsOf(w, acts, false) == [op] + rest;
      assert ([op] + rest)[1..] == rest;
    }
  }

  // ---------- work ----------

  lemma {:induction false} TriedIs(w: World, c: Condition, values: seq<string>)
    requires MatchKey(w, c).Some?
    ensures var (m, key) := MatchKey(w, c).value;
            Tried(w, m, values, [key]) == ValuesTried(w, c, values)
  {
    var (m, key) := MatchKey(w, c).value;
    if values != [] {
      TriedIs(w, c, values[1..]);
      KeyMeans(w, c, values[0]);
      hide MatchKey, MatchOne, ValueMatches;
      OneValue(w, m, values[0], key);
      assert values[..1] == [values[0]];
    }
  }

  lemma OneValue(w: World, m: string, v: string, key: string)
    ensures MatchValues(w, m, [v], [key]) <==> MatchOne(w, m, v, key)
    ensures KeysTried(w, m, v, [key]) == 1
  {
    hide MatchOne;
    assert [key][1..] == [];
    if MatchOne(w, m, v, key) {
      assert MatchOne(w, m, [v][0], [key][0]);
    }
  }

  lemma LeafWorkIs(w: World, msg: Message, c: Condition)
    requires Expressible(w, c)
    ensures LeafWork(w, msg, LeafOf(w, c)) == ConditionWork(w, msg, c)
  {
    TriedIs(w, c, Values(msg, c));
    KeyOperator(w, c);
    hide Tried, ValuesTried, MatchKey, HeaderName;
  }

  lemma {:induction false} LeavesWorkIs(w: World, msg: Message, cs: seq<Condition>, decides: bool)
    ensures LeavesWork(w, msg, LeavesOf(w, cs), decides) == ConditionsWork(w, msg, cs, decides)
  {
    hide Expressible, ConditionHolds, LeafOf, LeafHolds, LeafWork, ConditionWork;
    if cs != [] {
      LeavesWorkIs(w, msg, cs[1..], decides);
      var rest := LeavesOf(w, cs[1..]);
      if Expressible(w, cs[0]) {
        LeafMeans(w, msg, cs[0]);
        LeafWorkIs(w, msg, cs[0]);
        assert ([LeafOf(w, cs[0])] + rest)[1..] == rest;
      } else {
        assert LeavesOf(w, cs) == rest;
      }
    }
  }

  lemma OneLeafWork(w: World, msg: Message, l: Leaf, decides: bool)
    ensures LeavesWork(w, msg, [l], decides) == LeafWork(w, msg, l)
  {
    hide LeafWork, LeafHolds;
    assert [l][1..] == [];
  }

  lemma CheckWorkIs(w: World, msg: Message, f: Filter)
    requires TestOf(w, f).Some? && |LeavesOf(w, f.conditions)| == |TestsOf(w, f.conditions)|
    ensures CheckWork(w, msg, CheckOf(w, f)) == TestWork(w, msg, f)
  {
    LeavesWorkIs(w, msg, f.conditions, !f.matchAll);
    var ls := LeavesOf(w, f.conditions);
    if |ls| == 1 {
      OneLeafWork(w, msg, ls[0], !f.matchAll);
      assert ls == [ls[0]];
    }
    hide LeavesOf, TestsOf, ConditionsWork, LeavesWork, LeafWork;
  }

  lemma {:induction false} SameCount(w: World, actions: seq<FilterAction>, flag: bool)
    ensures |OpsOf(w, actions, flag)| == |CommandsOf(w, actions, flag)|
  {
    hide ActionCommand, OpOf, IsFlag;
    if actions != [] {
      SameCount(w, actions[1..], flag);
      SameExpressed(w, actions[0]);
    }
  }

  lemma ItemWorkIs(w: World, msg: Message, f: Filter, flag: bool)
    ensures ItemsWork(w, msg, ItemOf(w, f, flag)) == RuleWork(w, msg, f, flag)
  {
    if RuleOf(w, f, flag) == [] {
      OneRule(w, f, flag);
      hide RuleOf;
    } else {
      RuleBuilt(w, f, flag);
      CheckMeans(w, msg, f);
      CheckWorkIs(w, msg, f);
      SameCount(w, f.actions, flag);
      hide CommandsOf, OpsOf, TestOf, CheckOf, CheckHolds, Fires, CheckWork, TestWork, LeavesOf, TestsOf, RuleOf;
      var item := When(CheckOf(w, f), OpsOf(w, f.actions, flag));
      assert ItemOf(w, f, flag) == [item];
      assert [item][1..] == [];
    }
  }

  lemma {:induction false} ItemsWorkIs(w: World, msg: Message, fs: seq<Filter>, flag: bool)
    ensures ItemsWork(w, msg, ItemsOf(w, fs, flag)) == RulesWork(w, msg, fs, flag)
  {
    hide ItemOf, RuleWork, ItemWork;
    if fs != [] {
      ItemsWorkIs(w, msg, fs[1..], flag);
      ItemWorkIs(w, msg, fs[0], flag);
      ItemsWorkAppend(w, msg, ItemOf(w, fs[0], flag), ItemsOf(w, fs[1..], flag));
    }
  }

  // ---------- where the message goes ----------

  predicate AllCopies(ds: seq<Action>) {
    forall i :: 0 <= i < |ds| ==> IsCopy(ds[i])
  }

  lemma AllCopiesAppend(a: seq<Action>, b: seq<Action>)
    ensures AllCopies(a + b) <==> AllCopies(a) && AllCopies(b)
  {
    hide IsCopy;
    assert forall i :: 0 <= i < |a| ==> (a + b)[i] == a[i];
    assert forall i :: 0 <= i < |b| ==> (a + b)[|a| + i] == b[i];
    if AllCopies(a + b) {
      forall i | 0 <= i < |b| ensures IsCopy(b[i]) {
        assert IsCopy((a + b)[|a| + i]);
      }
    }
  }

  lemma DeliverySettles(w: World, flags: seq<string>, sent: seq<string>, a: FilterAction)
    ensures AllCopies(Delivery(w, flags, sent, a)) <==> !Settles(a)
  {
    hide EqualFold, ValidFolder, Holds, Forwards, Usable;
    var ds := Delivery(w, flags, sent, a);
    if Settles(a) {
      assert !IsCopy(ds[0]);
    }
  }

  /** Only an action that settles where the message goes cancels the implicit keep. */
  lemma {:induction false} CopiesIff(w: World, flags: seq<string>, sent: seq<string>, acts: seq<FilterAction>)
    ensures AllCopies(Deliveries(w, flags, sent, acts)) <==> !Settled(acts)
    decreases acts
  {
    hide Settles, Delivery, IsCopy;
    if acts != [] {
      var first := Delivery(w, flags, sent, acts[0]);
      var rest := Deliveries(w, flags, sent + Addresses(first), acts[1..]);
      CopiesIff(w, flags, sent + Addresses(first), acts[1..]);
      DeliverySettles(w, flags, sent, acts[0]);
      DeliveriesCons(w, flags, sent, acts);
      AllCopiesAppend(first, rest);
      hide AllCopies, Deliveries;
      assert forall i :: 1 <= i < |acts| ==> acts[i] == acts[1..][i - 1];
    }
  }

  lemma FinishIs(st: State, settled: bool)
    requires AllCopies(st.actions) <==> !settled
    ensures Finish(st) == st.actions + if settled then [] else [Kept(st.flags)]
  {
    hide IsCopy;
  }

  // ---------- the theorem ----------

  /** What the rules of a filter list leave behind. */
  lemma RulesRun(w: World, msg: Message, fs: seq<Filter>)
    ensures var items := ItemsOf(w, fs, true) + ItemsOf(w, fs, false);
            var st := RunItems(w, msg, State([], [], []), items);
            && st.actions == Delivered(w, msg, fs) && Finish(st) == Expected(w, msg, fs)
            && ItemsWork(w, msg, items) == RulesWork(w, msg, fs, true) + RulesWork(w, msg, fs, false)
  {
    hide ItemsOf, Deliveries, AddFlags, RunOps, OpsOf, Fired, ItemsWork, RulesWork, RunItems, Finish, Settled;
    var acts := Fired(w, msg, fs);
    var flags := AddFlags([], FlagNames(acts));
    var st := State([], [], []);
    CopiesIff(w, flags, [], acts);
    RunItemsAppend(w, msg, st, ItemsOf(w, fs, true), ItemsOf(w, fs, false));
    ItemsRun(w, msg, st, fs, true);
    FlagRun(w, [], acts);
    ItemsRun(w, msg, State(flags, [], []), fs, false);
    FolderRun(w, State(flags, [], []), acts);
    var ds := Deliveries(w, flags, [], acts);
    assert [] + ds == ds;
    FinishIs(RunItems(w, msg, st, ItemsOf(w, fs, true) + ItemsOf(w, fs, false)), Settled(acts));
    ItemsWorkAppend(w, msg, ItemsOf(w, fs, true), ItemsOf(w, fs, false));
    ItemsWorkIs(w, msg, fs, true);
    ItemsWorkIs(w, msg, fs, false);
  }

  /** For every filter list that yields a script and every message: delivery
      parses, compiles and runs the text to exactly the expected outcome, if and
      only if every filter fits and the message is bearable. Otherwise nothing of
      the script applies. */
  lemma MeaningPreserved(w: World, msg: Message, fs: seq<Filter>)
    requires ScriptText(w, fs) != ""
    ensures Run(w, msg, ScriptText(w, fs)) == if Fits(w, fs) && Bearable(w, msg, fs) then Some(Expected(w, msg, fs)) else None
  {
    ScriptCompiles(w, fs);
    RulesRun(w, msg, fs);
    hide ScriptText, Compile, Fits, ItemsOf, Delivered, Expected, RunItems, ItemsWork, RulesWork, Allowed, Finish;
  }

  /** Without a script nothing is lost: no message would have been treated
      differently from a plain delivery. */
  lemma NoScriptNoEffect(w: World, msg: Message, fs: seq<Filter>)
    requires ScriptText(w, fs) == ""
    ensures Expected(w, msg, fs) == [Kept([])]
  {
    EmptyRules(w, fs);
    var acts := Fired(w, msg, fs);
    NothingFires(w, msg, fs, true);
    NothingFires(w, msg, fs, false);
    FlagRun(w, [], acts);
    FolderRun(w, State([], [], []), acts);
    hide OpsOf, Fired, Deliveries, AddFlags, Settled;
    CopiesIff(w, [], [], acts);
    var ds := Deliveries(w, [], [], acts);
    assert [] + ds == ds;
  }

  lemma EmptyRules(w: World, fs: seq<Filter>)
    requires ScriptText(w, fs) == ""
    ensures RulesOf(w, fs, true) == [] && RulesOf(w, fs, false) == []
  {
    hide RulesOf, PrintRules;
  }

  lemma {:induction false} NothingFires(w: World, msg: Message, fs: seq<Filter>, flag: bool)
    requires RulesOf(w, fs, flag) == []
    ensures OpsOf(w, Fired(w, msg, fs), flag) == []
  {
    if fs != [] {
      NothingFires(w, msg, fs[1..], flag);
      var acts := if Fires(w, msg, fs[0]) then fs[0].actions else [];
      OpsAppend(w, acts, Fired(w, msg, fs[1..]), flag);
      CommandsBuilt(w, fs[0].actions, flag);
      hide CommandsOf, OpsOf, TestOf;
      assert RuleOf(w, fs[0], flag) == [];
      if !Fires(w, msg, fs[0]) {
        NoOps(w, flag);
      }
    }
  }

  lemma NoOps(w: World, flag: bool)
    ensures OpsOf(w, [], flag) == []
  {}

  // ---------- consequences ----------

  predicate FlagName(s: string) {
    s == "\\Seen" || s == "\\Flagged"
  }

  lemma FlagNamesDiffer(a: string, b: string)
    requires FlagName(a) && FlagName(b)
    ensures EqualFold(a, b) <==> a == b
  {
    assert |"\\Seen"| == 5 && |"\\Flagged"| == 8;
  }

  lemma HoldsFlag(flags: seq<string>, x: string)
    requires FlagName(x) && forall i :: 0 <= i < |flags| ==> FlagName(flags[i])
    ensures Holds(flags, x) <==> x in flags
  {
    forall i | 0 <= i < |flags| ensures EqualFold(flags[i], x) <==> flags[i] == x {
      FlagNamesDiffer(flags[i], x);
    }
    hide EqualFold, FlagName;
    if x in flags {
      var i :| 0 <= i < |flags| && flags[i] == x;
      assert EqualFold(flags[i], x);
    }
  }

  lemma {:induction false} AddedFlags(flags: seq<string>, names: seq<string>, x: string)
    requires forall i :: 0 <= i < |flags| ==> FlagName(flags[i])
    requires forall i :: 0 <= i < |names| ==> FlagName(names[i])
    ensures x in AddFlags(flags, names) <==> x in flags || x in names
    decreases names
  {
    hide FlagName, Holds;
    if names != [] {
      HoldsFlag(flags, names[0]);
      AddedFlags(if Holds(flags, names[0]) then flags else flags + [names[0]], names[1..], x);
      assert x in names <==> x == names[0] || x in names[1..];
    }
  }

  lemma {:induction false} NamesOfFlags(acts: seq<FilterAction>)
    ensures forall i :: 0 <= i < |FlagNames(acts)| ==> FlagName(FlagNames(acts)[i])
    ensures "\\Seen" in FlagNames(acts) <==> exists i :: 0 <= i < |acts| && acts[i].kind == "markRead"
    ensures "\\Flagged" in FlagNames(acts) <==> exists i :: 0 <= i < |acts| && acts[i].kind == "flag"
  {
    if acts != [] {
      NamesOfFlags(acts[1..]);
      assert forall i :: 1 <= i < |acts| ==> acts[i] == acts[1..][i - 1];
      assert "\\Seen" != "\\Flagged" by { assert |"\\Seen"| != |"\\Flagged"|; }
    }
  }

  /** The flags of a delivery are exactly those some firing filter asked for. */
  lemma FlagsExactly(w: World, msg: Message, fs: seq<Filter>)
    ensures var acts, flags := Fired(w, msg, fs), AddFlags([], FlagNames(Fired(w, msg, fs)));
            && ("\\Seen" in flags <==> exists i :: 0 <= i < |acts| && acts[i].kind == "markRead")
            && ("\\Flagged" in flags <==> exists i :: 0 <= i < |acts| && acts[i].kind == "flag")
  {
    var acts := Fired(w, msg, fs);
    NamesOfFlags(acts);
    hide Fired, AddFlags, FlagName, FlagNames;
    AddedFlags([], FlagNames(acts), "\\Seen");
    AddedFlags([], FlagNames(acts), "\\Flagged");
  }

  lemma {:induction false} DeliveryFlags(w: World, flags: seq<string>, sent: seq<string>, acts: seq<FilterAction>, i: nat)
    requires i < |Deliveries(w, flags, sent, acts)| && !Deliveries(w, flags, sent, acts)[i].Sent?
    ensures Deliveries(w, flags, sent, acts)[i].flags == flags
    decreases acts
  {
    var first := Delivery(w, flags, sent, acts[0]);
    DeliveriesCons(w, flags, sent, acts);
    if i < |first| {
      hide EqualFold, ValidFolder, Holds, Forwards;
    } else {
      hide Delivery;
      DeliveryFlags(w, flags, sent + Addresses(first), acts[1..], i - |first|);
    }
  }

  /** Wherever a run files or keeps the message, it carries the flags of every firing
      filter, also of filters that come later. */
  lemma SameFlagsEverywhere(w: World, msg: Message, fs: seq<Filter>, out: seq<Action>, i: nat)
    requires ScriptText(w, fs) != "" && Run(w, msg, ScriptText(w, fs)) == Some(out) && i < |out| && !out[i].Sent?
    ensures out[i].flags == AddFlags([], FlagNames(Fired(w, msg, fs)))
  {
    MeaningPreserved(w, msg, fs);
    var acts := Fired(w, msg, fs);
    var flags := AddFlags([], FlagNames(acts));
    hide Run, ScriptText, Fits, Bearable, AddFlags, FlagNames, Fired, Deliveries;
    var ds := Deliveries(w, flags, [], acts);
    if i < |ds| {
      DeliveryFlags(w, flags, [], acts, i);
    }
  }

  function ForwardCount(acts: seq<FilterAction>): nat {
    if acts == [] then 0 else (if acts[0].kind == "forward" then 1 else 0) + ForwardCount(acts[1..])
  }

  lemma {:induction false} DeliveriesSmall(w: World, flags: seq<string>, sent: seq<string>, acts: seq<FilterAction>)
    ensures var ds := Deliveries(w, flags, sent, acts);
            |ds| <= |acts| && |Addresses(ds)| <= ForwardCount(acts)
    decreases acts
  {
    if acts != [] {
      var first := Delivery(w, flags, sent, acts[0]);
      DeliveriesSmall(w, flags, sent + Addresses(first), acts[1..]);
      DeliveriesCons(w, flags, sent, acts);
      AddressesAppend(first, Deliveries(w, flags, sent + Addresses(first), acts[1..]));
      OneDelivery(w, flags, sent, acts[0]);
      hide Delivery, Deliveries, Addresses;
    }
  }

  lemma OneDelivery(w: World, flags: seq<string>, sent: seq<string>, a: FilterAction)
    ensures var ds := Delivery(w, flags, sent, a);
            |ds| <= 1 && |Addresses(ds)| <= if a.kind == "forward" then 1 else 0
  {
    hide EqualFold, ValidFolder, Holds, Forwards, Usable;
    var ds := Delivery(w, flags, sent, a);
    if ds != [] {
      assert ds[1..] == [];
    }
  }

  /** Whatever the message, a run is not refused for its actions when the firing
      filters have at most 256 of them, at most 16 forwards among these. */
  lemma FewActionsAllowed(w: World, msg: Message, fs: seq<Filter>)
    requires |Fired(w, msg, fs)| <= MAX_ACTIONS && ForwardCount(Fired(w, msg, fs)) <= MAX_REDIRECTS
    ensures Allowed(Delivered(w, msg, fs))
  {
    hide Fired, Deliveries, ForwardCount, AddFlags;
    var acts := Fired(w, msg, fs);
    DeliveriesSmall(w, AddFlags([], FlagNames(acts)), [], acts);
  }

  // ---------- filters that are stored but not applied ----------

  /** The k-th of a series of addresses: a@x, aa@x, aaa@x and so on. */
  function Local(k: nat): string {
    seq(k + 1, _ => 'a') + "@x"
  }

  function Forwarders(n: nat): seq<FilterAction> {
    seq(n, k requires 0 <= k < n => FilterAction("forward", "", Local(k)))
  }

  /** Forwards every mail with an a in its subject to seventeen addresses. */
  function ManyForwards(): Filter {
    Filter(true, false, [Condition("subject", "contains", "a", "")], Forwarders(17))
  }

  predicate PlainLocals(w: World) {
    forall k: nat :: k < 17 ==> w.address(Local(k)) == Some(("", Local(k)))
  }

  lemma LocalsDiffer(j: nat, k: nat)
    ensures '@' in Local(k) && |Local(k)| == k + 3 && (EqualFold(Local(j), Local(k)) ==> j == k)
  {
    assert Local(k)[k + 1] == '@';
  }

  lemma LocalForwards(w: World, k: nat)
    requires PlainLocals(w) && k < 17
    ensures var a := FilterAction("forward", "", Local(k));
            ForwardAddress(w, a) == Some(Local(k)) && Forwards(w, a) == Some(Local(k)) && ActionFits(w, a)
  {
    LocalsDiffer(k, k);
    assert w.address(Local(k)) == Some(("", Local(k)));
    hide Local, PlainLocals;
  }

  function Locals(n: nat): seq<string> {
    seq(n, k requires 0 <= k < n => Local(k))
  }

  lemma NotSentYet(k: nat)
    ensures !Holds(Locals(k), Local(k))
  {
    forall j | 0 <= j < k ensures !EqualFold(Locals(k)[j], Local(k)) {
      LocalsDiffer(j, k);
    }
    hide Local, EqualFold;
  }

  lemma {:induction false} AllForwarded(w: World, flags: seq<string>, k: nat)
    requires PlainLocals(w) && k <= 17
    ensures |Addresses(Deliveries(w, flags, Locals(k), Forwarders(17)[k..]))| == 17 - k
    decreases 17 - k
  {
    hide Local, PlainLocals;
    var acts := Forwarders(17)[k..];
    if k < 17 {
      AllForwarded(w, flags, k + 1);
      LocalForwards(w, k);
      NotSentYet(k);
      hide ForwardAddress, Forwards, Holds;
      var first := Delivery(w, flags, Locals(k), acts[0]);
      assert first == [Sent(Local(k), true)];
      assert [Sent(Local(k), true)][1..] == [];
      assert Addresses(first) == [Local(k)];
      assert Locals(k) + [Local(k)] == Locals(k + 1);
      assert acts[1..] == Forwarders(17)[k + 1..];
      DeliveriesCons(w, flags, Locals(k), acts);
      AddressesAppend(first, Deliveries(w, flags, Locals(k + 1), acts[1..]));
      hide Delivery, Deliveries;
    } else {
      assert acts == [];
    }
  }

  lemma ForwardersFit(w: World)
    requires PlainLocals(w)
    ensures var f := ManyForwards();
            && Received(w, f) && TestOf(w, f).Some? && RuleOf(w, f, false) != []
            && forall i :: 0 <= i < |f.actions| ==> ActionFits(w, f.actions[i])
  {
    var f := ManyForwards();
    forall k | 0 <= k < 17 ensures ActionFits(w, f.actions[k]) && ActionCommand(w, f.actions[k]).Some? && ReceivedAction(w, f.actions[k]) {
      LocalForwards(w, k);
      ActionTextIs(w, f.actions[k]);
      hide Local, ForwardAddress, PlainLocals;
    }
    hide Local, PlainLocals, ActionFits;
    SubjectCondition(w);
    assert f.conditions == [f.conditions[0]];
    SomeCommand(w, f.actions, 0);
    hide CommandsOf;
  }

  lemma SubjectCondition(w: World)
    ensures var c := Condition("subject", "contains", "a", "");
            Expressible(w, c) && ReceivedCondition(w, c) && ConditionFits(c) && |TestsOf(w, [c])| == 1
  {
    var c := Condition("subject", "contains", "a", "");
    assert Expressible(w, c);
    ConditionTextIs(w, c);
    TestStart(ConditionArgs(w, c));
    assert [c][1..] == [];
    hide ConditionText, ConditionArgs, PrintArgs, SimpleTest;
  }

  /** A filter the server stores and the Sieve compiler accepts, and that never takes
      effect: whenever it fires the run is refused, and with it every other filter. */
  lemma SeventeenForwards(w: World, msg: Message)
    requires PlainLocals(w) && Fires(w, msg, ManyForwards())
    ensures Received(w, ManyForwards()) && FilterFits(w, ManyForwards())
    ensures |Addresses(Delivered(w, msg, [ManyForwards()]))| == 17
    ensures Run(w, msg, ScriptText(w, [ManyForwards()])) == None
  {
    var f := ManyForwards();
    ForwardersFit(w);
    SubjectCondition(w);
    assert FilterFits(w, f) by {
      ReceivedTestFits(w, f);
      hide Received, ActionFits, Expressible;
    }
    OnlyFired(w, msg, f);
    var flags := AddFlags([], FlagNames(f.actions));
    AllForwarded(w, flags, 0);
    assert Locals(0) == [] && Forwarders(17)[0..] == f.actions;
    NotEmptyScript(w, f);
    MeaningPreserved(w, msg, [f]);
    hide Run, ScriptText, Fits, Fires, Fired, Deliveries, FlagNames, PlainLocals, Received, FilterFits;
  }

  lemma OnlyFired(w: World, msg: Message, f: Filter)
    requires Fires(w, msg, f)
    ensures Fired(w, msg, [f]) == f.actions
  {
    hide Fires;
    assert [f][1..] == [];
    assert f.actions + [] == f.actions;
  }

  lemma NotEmptyScript(w: World, f: Filter)
    requires RuleOf(w, f, true) + RuleOf(w, f, false) != []
    ensures ScriptText(w, [f]) != ""
  {
    hide RuleOf, PrintRules;
    assert [f][1..] == [];
  }

  /** Marks mails as read that have a field with a very long name. */
  function LongFilter(): Filter {
    Filter(true, false, [Condition("header", "contains", "a", seq(MAX_STRING + 1, _ => 'a'))], [FilterAction("markRead", "", "")])
  }

  lemma LongFilterShape(w: World)
    ensures var c := LongFilter().conditions[0];
            Expressible(w, c) && ReceivedCondition(w, c) && !ConditionFits(c)
  {
    var c := LongFilter().conditions[0];
    assert HeaderName(c.headerName) && Expressible(w, c);
    ConditionTextIs(w, c);
    TestStart(ConditionArgs(w, c));
    hide ConditionText, ConditionArgs, PrintArgs, SimpleTest;
  }

  lemma LongFilterRule(w: World)
    ensures Received(w, LongFilter()) && RuleOf(w, LongFilter(), true) != [] && !TestFits(w, LongFilter())
  {
    var f := LongFilter();
    LongFilterShape(w);
    TestsCount(w, f.conditions);
    hide ConditionFits, ConditionArgs, Expressible, ReceivedCondition;
    assert ActionCommand(w, f.actions[0]).Some? && IsFlag(f.actions[0]);
    assert !ConditionFitsAt(w, f, 0);
  }

  predicate ConditionFitsAt(w: World, f: Filter, i: nat)
    requires i < |f.conditions|
  {
    Expressible(w, f.conditions[i]) ==> ConditionFits(f.conditions[i])
  }

  /** A stored filter after which no filter list is applied to any message: the Sieve
      compiler finds its header name too long and refuses the whole script. */
  lemma LongConditionStopsAll(w: World, msg: Message, fs: seq<Filter>)
    ensures Received(w, LongFilter())
    ensures ScriptText(w, [LongFilter()] + fs) != "" && Run(w, msg, ScriptText(w, [LongFilter()] + fs)) == None
  {
    LongFilterRule(w);
    var all := [LongFilter()] + fs;
    hide LongFilter, RuleOf, TestFits, PrintRules, Run, ActionFits, Received, Bearable;
    assert all[0] == LongFilter();
    assert RulesOf(w, all, true) != [];
    assert ScriptText(w, all) != "";
    MeaningPreserved(w, msg, all);
    assert !FilterFits(w, all[0]);
  }

  /** The same happens with a forward address whose bare form does not parse. */
  lemma ForwardStopsAll(w: World, msg: Message, fs: seq<Filter>, k: nat, j: nat)
    requires k < |fs| && fs[k].enabled && TestOf(w, fs[k]).Some? && j < |fs[k].actions|
    requires var a := fs[k].actions[j];
             a.kind == "forward" && ForwardAddress(w, a).Some? && w.address(ForwardAddress(w, a).value) == None
    requires ScriptText(w, fs) != ""
    ensures Run(w, msg, ScriptText(w, fs)) == None
  {
    MeaningPreserved(w, msg, fs);
    hide Run, ScriptText, TestOf, Bearable;
    var a := fs[k].actions[j];
    assert ActionCommand(w, a).Some? && !IsFlag(a);
    assert !ActionFits(w, a);
    hide ActionFits, ActionCommand, IsFlag;
    SomeCommand(w, fs[k].actions, j);
    assert !FilterFits(w, fs[k]);
  }

  lemma {:induction false} SomeCommand(w: World, actions: seq<FilterAction>, j: nat)
    requires j < |actions| && ActionCommand(w, actions[j]).Some? && !IsFlag(actions[j])
    ensures CommandsOf(w, actions, false) != []
  {
    hide ActionCommand, IsFlag;
    if j > 0 {
      SomeCommand(w, actions[1..], j - 1);
    }
  }
}

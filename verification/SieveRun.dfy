/** Compiling and running a parsed script at delivery. Modelled are the header,
    address and body tests, flat allof and anyof, and the commands keep, fileinto,
    redirect and addflag; any other test or command makes Compile fail here. */
module SieveRun {
  import opened Sequences
  import opened Text
  import opened SieveText
  import opened SieveParser

  /** Regular expressions and address parsing: address gives the display name and
      the bare address. */
  datatype World = World(regexOk: string -> bool, regexMatch: (string, string) -> bool,
                         address: string -> Option<(string, string)>)

  /** What the tests can see of a message: header values by names, addresses by
      header names and address part, decoded bodies by mode. */
  datatype Message = Message(headers: seq<string> -> seq<string>,
                             addresses: (seq<string>, string) -> seq<string>,
                             bodies: string -> seq<string>)

  const MAX_SCRIPT := 1024 * 1024
  const MAX_PATTERN := 1024
  const MAX_STRING := 4096 * 16
  const MAX_LIST := 1000
  const MAX_REGEX_INPUT := 256 * 1024
  const MAX_ACTIONS := 256
  const MAX_REDIRECTS := 16
  const MAX_OPS := 200000

  datatype Leaf =
    | HeaderTest(names: seq<string>, match_: string, keys: seq<string>)
    | AddressTest(names: seq<string>, part: string, match_: string, keys: seq<string>)
    | BodyTest(mode: string, match_: string, keys: seq<string>)

  datatype Check = Just(leaf: Leaf) | AllOf(leaves: seq<Leaf>) | AnyOf(leaves: seq<Leaf>)

  datatype Op = Keep | FileInto(folder: string, copy: bool) | Redirect(to: string, copy: bool) | AddFlag(names: seq<string>)

  datatype Item = When(check: Check, ops: seq<Op>) | Do(op: Op)

  // ---------- typing of arguments ----------

  function LeadingTags(args: seq<Value>): (r: (seq<string>, seq<Value>))
    ensures |r.1| <= |args|
  {
    if args != [] && args[0].Tag? then
      var (tags, rest) := LeadingTags(args[1..]);
      ([Lower(args[0].name)] + tags, rest)
    else ([], args)
  }

  /** Tags first, known and not repeated, then positional arguments only. */
  function Typed(args: seq<Value>, known: set<string>): Option<(seq<string>, seq<Value>)> {
    var (tags, pos) := LeadingTags(args);
    if Distinct(tags) && (forall i :: 0 <= i < |tags| ==> tags[i] in known)
       && (forall i :: 0 <= i < |pos| ==> !pos[i].Tag?)
    then Some((tags, pos))
    else None
  }

  predicate IsString(v: Value) {
    v.Str? && |v.v| <= MAX_STRING
  }

  predicate IsStringList(v: Value) {
    IsString(v) || (v.List? && |v.vs| <= MAX_LIST && forall i :: 0 <= i < |v.vs| ==> |v.vs[i]| <= MAX_STRING)
  }

  function Strings(v: Value): seq<string> {
    match v
    case Str(s) => [s]
    case List(vs) => vs
    case _ => []
  }

  const MATCH_TYPES: seq<string> := ["is", "contains", "matches", "regex"]
  const PARTS: seq<string> := ["localpart", "domain", "all"]
  const MODES: seq<string> := ["raw", "text"]

  /** The one of choices that tags holds, the default when none, None when several. */
  function OneOf(choices: seq<string>, tags: seq<string>, default: string): Option<string> {
    if choices == [] then Some(default)
    else
      var more := OneOf(choices[1..], tags, default);
      if choices[0] !in tags then more
      else if forall i :: 1 <= i < |choices| ==> choices[i] !in tags then Some(choices[0])
      else None
  }

  function SetOf(s: seq<string>): set<string> {
    set i | 0 <= i < |s| :: s[i]
  }

  predicate KeysOk(w: World, match_: string, keys: seq<string>) {
    && ((match_ == "matches" || match_ == "regex") ==> forall i :: 0 <= i < |keys| ==> |keys[i]| <= MAX_PATTERN)
    && (match_ == "regex" ==> forall i :: 0 <= i < |keys| ==> w.regexOk(keys[i]))
  }

  function BuildMatch(w: World, exts: set<string>, tags: seq<string>, keys: seq<string>): Option<string> {
    var m := OneOf(MATCH_TYPES, tags, "is");
    if m == None || ("regex" in tags && "regex" !in exts) || !KeysOk(w, m.value, keys) then None else m
  }

  function BuildLeaf(w: World, exts: set<string>, args: seq<Value>): Option<Leaf> {
    if args == [] || !args[0].Bare? then None
    else
      var name := Lower(args[0].word);
      if name == "header" then BuildHeader(w, exts, args[1..])
      else if name == "address" then BuildAddress(w, exts, args[1..])
      else if name == "body" then BuildBody(w, exts, args[1..])
      else None
  }

  function BuildHeader(w: World, exts: set<string>, args: seq<Value>): Option<Leaf> {
    var typed := Typed(args, SetOf(MATCH_TYPES));
    if typed == None then None
    else
      var (tags, pos) := typed.value;
      if |pos| != 2 || !IsStringList(pos[0]) || !IsStringList(pos[1]) then None
      else
        var keys := Strings(pos[1]);
        var m := BuildMatch(w, exts, tags, keys);
        if m == None then None else Some(HeaderTest(Strings(pos[0]), m.value, keys))
  }

  function BuildAddress(w: World, exts: set<string>, args: seq<Value>): Option<Leaf> {
    var typed := Typed(args, SetOf(MATCH_TYPES) + SetOf(PARTS));
    if typed == None then None
    else
      var (tags, pos) := typed.value;
      if |pos| != 2 || !IsStringList(pos[0]) || !IsStringList(pos[1]) then None
      else
        var keys := Strings(pos[1]);
        var m, part := BuildMatch(w, exts, tags, keys), OneOf(PARTS, tags, "all");
        if m == None || part == None then None else Some(AddressTest(Strings(pos[0]), part.value, m.value, keys))
  }

  function BuildBody(w: World, exts: set<string>, args: seq<Value>): Option<Leaf> {
    var typed := Typed(args, SetOf(MATCH_TYPES) + SetOf(MODES));
    if typed == None || "body" !in exts then None
    else
      var (tags, pos) := typed.value;
      if |pos| != 1 || !IsStringList(pos[0]) then None
      else
        var keys := Strings(pos[0]);
        var m, mode := BuildMatch(w, exts, tags, keys), OneOf(MODES, tags, "text");
        if m == None || mode == None then None else Some(BodyTest(mode.value, m.value, keys))
  }

  function BuildLeaves(w: World, exts: set<string>, tests: seq<seq<Value>>): Option<seq<Leaf>> {
    if tests == [] then Some([])
    else
      var first, more := BuildLeaf(w, exts, tests[0]), BuildLeaves(w, exts, tests[1..]);
      if first == None || more == None then None else Some([first.value] + more.value)
  }

  function BuildTest(w: World, exts: set<string>, args: seq<Value>): Option<Check> {
    if args != [] && args[0].Bare? && (Lower(args[0].word) == "allof" || Lower(args[0].word) == "anyof") then
      if |args| != 2 || !args[1].Tests? || args[1].tests == [] || |args[1].tests| > MAX_LIST then None
      else
        var leaves := BuildLeaves(w, exts, args[1].tests);
        if leaves == None then None
        else if Lower(args[0].word) == "allof" then Some(AllOf(leaves.value)) else Some(AnyOf(leaves.value))
    else
      var leaf := BuildLeaf(w, exts, args);
      if leaf == None then None else Some(Just(leaf.value))
  }

  // ---------- commands ----------

  /** The arguments with the tag the parser set aside back in front. */
  function FullArgs(c: Command): seq<Value> {
    (if c.tag == "" then [] else [Tag(c.tag)]) + c.args
  }

  function CompileCommand(w: World, exts: set<string>, c: Command): Option<Op> {
    if c.block.Some? then None
    else if c.name == "keep" then if FullArgs(c) == [] then Some(Keep) else None
    else if c.name == "fileinto" || c.name == "redirect" then
      var typed := Typed(FullArgs(c), {"copy"});
      if typed == None then None
      else
        var (tags, pos) := typed.value;
        if |pos| != 1 || !IsString(pos[0]) || ("copy" in tags && "copy" !in exts) then None
        else if c.name == "fileinto" then
          if "fileinto" in exts then Some(FileInto(pos[0].v, "copy" in tags)) else None
        else if w.address(pos[0].v).Some? then Some(Redirect(pos[0].v, "copy" in tags)) else None
    else if c.name == "addflag" then
      var typed := Typed(FullArgs(c), {});
      if typed == None || |typed.value.1| != 1 || !IsStringList(typed.value.1[0]) || "imap4flags" !in exts then None
      else Some(AddFlag(Strings(typed.value.1[0])))
    else None
  }

  function CompileCommands(w: World, exts: set<string>, cs: seq<Command>): Option<seq<Op>> {
    if cs == [] then Some([])
    else
      var first, more := CompileCommand(w, exts, cs[0]), CompileCommands(w, exts, cs[1..]);
      if first == None || more == None then None else Some([first.value] + more.value)
  }

  function CompileItem(w: World, exts: set<string>, c: Command): Option<Item> {
    if c.name == "if" then
      var test := BuildTest(w, exts, FullArgs(c));
      if test == None || c.block == None then None
      else
        var ops := CompileCommands(w, exts, c.block.value);
        if ops == None then None else Some(When(test.value, ops.value))
    else
      var op := CompileCommand(w, exts, c);
      if op == None then None else Some(Do(op.value))
  }

  function CompileItems(w: World, exts: set<string>, cs: seq<Command>): Option<seq<Item>> {
    if cs == [] then Some([])
    else
      var first, more := CompileItem(w, exts, cs[0]), CompileItems(w, exts, cs[1..]);
      if first == None || more == None then None else Some([first.value] + more.value)
  }

  const SUPPORTED: set<string> := {"fileinto", "reject", "vacation", "vacation-seconds", "envelope", "body", "relational", "regex",
                                   "imap4flags", "copy", "mailbox", "comparator-i;octet", "comparator-i;ascii-casemap",
                                   "comparator-i;ascii-numeric"}

  function Required(args: seq<Value>): Option<seq<string>> {
    if args == [] then Some([])
    else
      var more := Required(args[1..]);
      if more == None || !(args[0].Str? || args[0].List?) then None else Some(Strings(args[0]) + more.value)
  }

  /** The extensions of the leading require commands, and the commands after them. */
  function Requires(cs: seq<Command>): Option<(set<string>, seq<Command>)> {
    if cs == [] || cs[0].name != "require" then Some(({}, cs))
    else
      var exts, more := Required(FullArgs(cs[0])), Requires(cs[1..]);
      if cs[0].block.Some? || exts == None || exts.value == [] || !(SetOf(exts.value) <= SUPPORTED) || more == None then None
      else Some((SetOf(exts.value) + more.value.0, more.value.1))
  }

  /** A script compiles as a whole or not at all. */
  function Compile(w: World, source: string): Option<seq<Item>> {
    if |source| > MAX_SCRIPT then None
    else
      var cs := ParseScript(source);
      if cs == None then None
      else
        var head := Requires(cs.value);
        if head == None then None else CompileItems(w, head.value.0, head.value.1)
  }

  // ---------- evaluation ----------

  predicate Contains(s: string, sub: string) {
    exists i :: 0 <= i <= |s| && HasPrefix(s[i..], sub)
  }

  /** The i;ascii-casemap comparison of one value with one key. */
  predicate MatchOne(w: World, match_: string, v: string, k: string) {
    if match_ == "is" then Lower(v) == Lower(k)
    else if match_ == "contains" then Contains(Lower(v), Lower(k))
    else if match_ == "matches" then GlobMatch(GlobTokens(Lower(k)), Lower(v))
    else w.regexMatch("(?i)" + k, RegexInput(v))
  }

  /** A regular expression sees the first 256 KiB of a value. */
  function RegexInput(v: string): string {
    if |v| > MAX_REGEX_INPUT then v[..MAX_REGEX_INPUT] else v
  }

  predicate MatchValues(w: World, match_: string, values: seq<string>, keys: seq<string>) {
    exists i, j :: 0 <= i < |values| && 0 <= j < |keys| && MatchOne(w, match_, values[i], keys[j])
  }

  predicate LeafHolds(w: World, msg: Message, leaf: Leaf) {
    match leaf
    case HeaderTest(names, m, keys) => MatchValues(w, m, msg.headers(names), keys)
    case AddressTest(names, part, m, keys) => MatchValues(w, m, msg.addresses(names, part), keys)
    case BodyTest(mode, m, keys) => MatchValues(w, m, msg.bodies(mode), keys)
  }

  predicate CheckHolds(w: World, msg: Message, check: Check) {
    match check
    case Just(leaf) => LeafHolds(w, msg, leaf)
    case AllOf(ls) => forall i :: 0 <= i < |ls| ==> LeafHolds(w, msg, ls[i])
    case AnyOf(ls) => exists i :: 0 <= i < |ls| && LeafHolds(w, msg, ls[i])
  }

  // ---------- operations ----------

  /** The comparisons of one value with keys, up to the first match. */
  function KeysTried(w: World, match_: string, v: string, keys: seq<string>): nat {
    if keys == [] then 0 else 1 + if MatchOne(w, match_, v, keys[0]) then 0 else KeysTried(w, match_, v, keys[1..])
  }

  function Tried(w: World, match_: string, values: seq<string>, keys: seq<string>): nat {
    if values == [] then 0
    else
      KeysTried(w, match_, values[0], keys)
      + if MatchValues(w, match_, values[..1], keys) then 0 else Tried(w, match_, values[1..], keys)
  }

  /** One operation for the test itself and one for each comparison. */
  function LeafWork(w: World, msg: Message, leaf: Leaf): nat {
    1 + match leaf
        case HeaderTest(names, m, keys) => Tried(w, m, msg.headers(names), keys)
        case AddressTest(names, part, m, keys) => Tried(w, m, msg.addresses(names, part), keys)
        case BodyTest(mode, m, keys) => Tried(w, m, msg.bodies(mode), keys)
  }

  /** The tests of a list are tried until one has the value that decides. */
  function LeavesWork(w: World, msg: Message, ls: seq<Leaf>, decides: bool): nat {
    if ls == [] then 0
    else LeafWork(w, msg, ls[0]) + if LeafHolds(w, msg, ls[0]) == decides then 0 else LeavesWork(w, msg, ls[1..], decides)
  }

  function CheckWork(w: World, msg: Message, check: Check): nat {
    match check
    case Just(leaf) => LeafWork(w, msg, leaf)
    case AllOf(ls) => 1 + LeavesWork(w, msg, ls, false)
    case AnyOf(ls) => 1 + LeavesWork(w, msg, ls, true)
  }

  /** The operations a run is charged for; one more than the limit ends it. */
  function ItemWork(w: World, msg: Message, item: Item): nat {
    match item
    case When(check, ops) => CheckWork(w, msg, check) + if CheckHolds(w, msg, check) then |ops| else 0
    case Do(_) => 1
  }

  function ItemsWork(w: World, msg: Message, items: seq<Item>): nat {
    if items == [] then 0 else ItemWork(w, msg, items[0]) + ItemsWork(w, msg, items[1..])
  }

  // ---------- actions ----------

  datatype Action = Kept(flags: seq<string>) | Filed(folder: string, copy: bool, flags: seq<string>) | Sent(to: string, copy: bool)

  /** The interpreter's state: the internal flags variable, the addresses already
      redirected to, and the actions so far. */
  datatype State = State(flags: seq<string>, sent: seq<string>, actions: seq<Action>)

  predicate Holds(names: seq<string>, name: string) {
    exists i :: 0 <= i < |names| && EqualFold(names[i], name)
  }

  function AddFlags(flags: seq<string>, names: seq<string>): seq<string>
    decreases names
  {
    if names == [] then flags
    else AddFlags(if Holds(flags, names[0]) then flags else flags + [names[0]], names[1..])
  }

  /** A mailbox name fileinto accepts: relative, without control characters and
      without . or .. segments. */
  predicate Usable(folder: string) {
    && !HasPrefix(folder, "/") && !HasPrefix(folder, "\\")
    && (forall i :: 0 <= i < |folder| ==> folder[i] >= ' ' && folder[i] != '\U{7f}')
    && (forall seg :: seg in Split(ReplaceAll(folder, '\\', "/"), '/') ==> seg != "." && seg != "..")
  }

  function Step(w: World, st: State, op: Op): State {
    match op
    case Keep => st.(actions := st.actions + [Kept(st.flags)])
    case FileInto(folder, copy) =>
      if folder == "" then st
      else if !Usable(folder) then st.(actions := st.actions + [Kept(st.flags)])
      else st.(actions := st.actions + [Filed(folder, copy, st.flags)])
    case Redirect(to, copy) =>
      var parsed := w.address(to);
      if to == "" || parsed == None || Holds(st.sent, parsed.value.1) then st
      else st.(sent := st.sent + [parsed.value.1], actions := st.actions + [Sent(parsed.value.1, copy)])
    case AddFlag(names) => st.(flags := AddFlags(st.flags, names))
  }

  function RunOps(w: World, st: State, ops: seq<Op>): State
    decreases ops
  {
    if ops == [] then st else RunOps(w, Step(w, st, ops[0]), ops[1..])
  }

  function RunItem(w: World, msg: Message, st: State, item: Item): State {
    match item
    case When(check, ops) => if CheckHolds(w, msg, check) then RunOps(w, st, ops) else st
    case Do(op) => Step(w, st, op)
  }

  function RunItems(w: World, msg: Message, st: State, items: seq<Item>): State
    decreases items
  {
    if items == [] then st else RunItems(w, msg, RunItem(w, msg, st, items[0]), items[1..])
  }

  predicate IsCopy(a: Action) {
    !a.Kept? && a.copy
  }

  /** The implicit keep, with the final flags, unless some action cancels it:
      :copy actions do not. */
  function Finish(st: State): seq<Action> {
    if forall i :: 0 <= i < |st.actions| ==> IsCopy(st.actions[i]) then st.actions + [Kept(st.flags)] else st.actions
  }

  /** keepWithCopies, and the plain keep of a script without actions. */
  method KeepWithCopies(all: seq<Action>, flags: seq<string>) returns (out: seq<Action>)
    ensures forall sent :: out == Finish(State(flags, sent, all))
  {
    for i := 0 to |all|
      invariant forall j :: 0 <= j < i ==> IsCopy(all[j])
    {
      match all[i] {
        case Filed(_, copy, _) =>
          if !copy {
            return all;
          }
        case Sent(_, copy) =>
          if !copy {
            return all;
          }
        case Kept(_) => return all;
      }
    }
    out := all + [Kept(flags)];
  }

  function Addresses(actions: seq<Action>): seq<string> {
    if actions == [] then []
    else (if actions[0].Sent? then [actions[0].to] else []) + Addresses(actions[1..])
  }

  /** checkActions, applied before the implicit keep. */
  predicate Allowed(actions: seq<Action>) {
    |actions| <= MAX_ACTIONS && |Addresses(actions)| <= MAX_REDIRECTS
  }

  /** Running a script at delivery. None when it does not compile, is charged for
      too many operations, or asks for too many actions: then nothing it did counts
      and the message is kept as if there were no script. */
  function Run(w: World, msg: Message, source: string): Option<seq<Action>> {
    var items := Compile(w, source);
    if items == None || ItemsWork(w, msg, items.value) > MAX_OPS then None
    else
      var st := RunItems(w, msg, State([], [], []), items.value);
      if Allowed(st.actions) then Some(Finish(st)) else None
  }

  lemma {:induction false} ItemsWorkAppend(w: World, msg: Message, a: seq<Item>, b: seq<Item>)
    ensures ItemsWork(w, msg, a + b) == ItemsWork(w, msg, a) + ItemsWork(w, msg, b)
  {
    hide ItemWork;
    if a == [] {
      assert a + b == b;
    } else {
      assert (a + b)[1..] == a[1..] + b;
      ItemsWorkAppend(w, msg, a[1..], b);
    }
  }

  /** Runs compose over concatenation, so a rule list can be split anywhere. */
  lemma {:induction false} RunOpsAppend(w: World, st: State, a: seq<Op>, b: seq<Op>)
    ensures RunOps(w, st, a + b) == RunOps(w, RunOps(w, st, a), b)
    decreases a
  {
    hide Step;
    if a == [] {
      assert a + b == b;
    } else {
      assert (a + b)[1..] == a[1..] + b;
      RunOpsAppend(w, Step(w, st, a[0]), a[1..], b);
    }
  }

  lemma {:induction false} RunItemsAppend(w: World, msg: Message, st: State, a: seq<Item>, b: seq<Item>)
    ensures RunItems(w, msg, st, a + b) == RunItems(w, msg, RunItems(w, msg, st, a), b)
    decreases a
  {
    hide RunItem;
    if a == [] {
      assert a + b == b;
    } else {
      assert (a + b)[1..] == a[1..] + b;
      RunItemsAppend(w, msg, RunItem(w, msg, st, a[0]), a[1..], b);
    }
  }
}

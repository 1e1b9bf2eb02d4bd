/** What a generated script does at delivery, stated on the filters themselves. */
module SieveMeaning {
  import opened Text
  import opened SieveText
  import opened SieveParser
  import opened SieveScript
  import opened SieveRun
  import opened SieveCompiler

  // ---------- the meaning of conditions ----------

  /** The values a condition looks at: whole-value operators on From and To
      compare the addresses, the others the header text. */
  function Values(msg: Message, c: Condition): seq<string> {
    var whole := c.operator in {"equals", "startsWith", "endsWith"};
    if c.field == "from" then if whole then msg.addresses(["from"], "all") else msg.headers(["from"])
    else if c.field == "to" then if whole then msg.addresses(["to", "cc"], "all") else msg.headers(["to", "cc"])
    else if c.field == "subject" then msg.headers(["subject"])
    else if c.field == "header" then msg.headers([c.headerName])
    else if c.field == "body" then msg.bodies("text")
    else []
  }

  predicate ValueMatches(w: World, c: Condition, v: string) {
    if c.operator == "contains" then Contains(Lower(v), Lower(c.value))
    else if c.operator == "equals" then Lower(v) == Lower(c.value)
    else if c.operator == "startsWith" then HasPrefix(Lower(v), Lower(c.value))
    else if c.operator == "endsWith" then HasSuffix(Lower(v), Lower(c.value))
    else w.regexMatch("(?i)" + c.value, RegexInput(v))
  }

  predicate ConditionHolds(w: World, msg: Message, c: Condition) {
    exists i :: 0 <= i < |Values(msg, c)| && ValueMatches(w, c, Values(msg, c)[i])
  }

  /** The filter is enabled, its test could be written, and the conditions that
      were written hold: all of them, or one of them. */
  predicate Fires(w: World, msg: Message, f: Filter) {
    && f.enabled && TestOf(w, f).Some?
    && if f.matchAll then forall i :: 0 <= i < |f.conditions| ==> ConditionHolds(w, msg, f.conditions[i])
       else exists i :: 0 <= i < |f.conditions| && Expressible(w, f.conditions[i]) && ConditionHolds(w, msg, f.conditions[i])
  }

  /** What the user asked for, with any meaning at all for the conditions that
      cannot be expressed. */
  predicate Asked(w: World, msg: Message, f: Filter, other: Condition -> bool) {
    var holds := (c: Condition) => if Expressible(w, c) then ConditionHolds(w, msg, c) else other(c);
    f.enabled && if f.matchAll then forall i :: 0 <= i < |f.conditions| ==> holds(f.conditions[i])
                 else exists i :: 0 <= i < |f.conditions| && holds(f.conditions[i])
  }

  lemma {:induction false} TestsCount(w: World, cs: seq<Condition>)
    ensures |TestsOf(w, cs)| <= |cs|
    ensures |TestsOf(w, cs)| == |cs| <==> forall i :: 0 <= i < |cs| ==> Expressible(w, cs[i])
    ensures TestsOf(w, cs) == [] <==> forall i :: 0 <= i < |cs| ==> !Expressible(w, cs[i])
  {
    hide Expressible, ConditionArgs;
    if cs != [] {
      TestsCount(w, cs[1..]);
      assert forall i :: 1 <= i < |cs| ==> cs[i] == cs[1..][i - 1];
    }
  }

  /** Dropping a condition never widens a filter, whatever it would have meant. */
  lemma NoWidening(w: World, msg: Message, f: Filter, other: Condition -> bool)
    requires Fires(w, msg, f)
    ensures Asked(w, msg, f, other)
  {
    TestsCount(w, f.conditions);
    hide Expressible, ConditionHolds, TestsOf;
  }

  /** And nothing is lost when every condition can be expressed. */
  lemma ExactWhenExpressible(w: World, msg: Message, f: Filter, other: Condition -> bool)
    requires f.conditions != [] && forall i :: 0 <= i < |f.conditions| ==> Expressible(w, f.conditions[i])
    ensures Fires(w, msg, f) <==> Asked(w, msg, f, other)
  {
    TestsCount(w, f.conditions);
    hide Expressible, ConditionHolds, TestsOf;
  }

  // ---------- the meaning of actions ----------

  /** Every action of every firing filter, in filter order. */
  function Fired(w: World, msg: Message, fs: seq<Filter>): seq<FilterAction> {
    if fs == [] then [] else (if Fires(w, msg, fs[0]) then fs[0].actions else []) + Fired(w, msg, fs[1..])
  }

  function FlagNames(acts: seq<FilterAction>): seq<string> {
    if acts == [] then []
    else (if acts[0].kind == "markRead" then ["\\Seen"] else if acts[0].kind == "flag" then ["\\Flagged"] else [])
         + FlagNames(acts[1..])
  }

  function FiledOrKept(folder: string, copy: bool, flags: seq<string>): Action {
    if Usable(folder) then Filed(folder, copy, flags) else Kept(flags)
  }

  /** What an action does with the message, given the flags and the addresses
      already forwarded to. */
  function Delivery(w: World, flags: seq<string>, sent: seq<string>, a: FilterAction): seq<Action> {
    if a.kind == "move" && EqualFold(a.target, "INBOX") then [Kept(flags)]
    else if a.kind == "move" && ValidFolder(a.target) then [FiledOrKept(a.target, false, flags)]
    else if a.kind == "copy" && !EqualFold(a.target, "INBOX") && ValidFolder(a.target) then [FiledOrKept(a.target, true, flags)]
    else if a.kind == "delete" then [Filed("Trash", false, flags)]
    else if a.kind == "markSpam" then [Filed("Junk", false, flags)]
    else if a.kind == "forward" && Forwards(w, a).Some? && !Holds(sent, Forwards(w, a).value)
    then [Sent(Forwards(w, a).value, true)]
    else []
  }

  /** The address a forward is finally sent to: the parsed form of the parsed form. */
  function Forwards(w: World, a: FilterAction): Option<string> {
    if ForwardAddress(w, a) == None || w.address(ForwardAddress(w, a).value) == None then None
    else Some(w.address(ForwardAddress(w, a).value).value.1)
  }

  function Deliveries(w: World, flags: seq<string>, sent: seq<string>, acts: seq<FilterAction>): seq<Action>
    decreases acts
  {
    if acts == [] then []
    else
      var first := Delivery(w, flags, sent, acts[0]);
      first + Deliveries(w, flags, sent + Addresses(first), acts[1..])
  }

  /** The deliveries for a message, each with the flags of all firing filters. */
  function Delivered(w: World, msg: Message, fs: seq<Filter>): seq<Action> {
    var acts := Fired(w, msg, fs);
    Deliveries(w, AddFlags([], FlagNames(acts)), [], acts)
  }

  /** The action settles where the message itself goes: a move, a delete, a mark as spam,
      or a copy into a folder that cannot be used, which stays in the inbox instead. */
  predicate Settles(a: FilterAction) {
    || (a.kind == "move" && (EqualFold(a.target, "INBOX") || ValidFolder(a.target)))
    || a.kind == "delete" || a.kind == "markSpam"
    || (a.kind == "copy" && !EqualFold(a.target, "INBOX") && ValidFolder(a.target) && !Usable(a.target))
  }

  predicate Settled(acts: seq<FilterAction>) {
    exists i :: 0 <= i < |acts| && Settles(acts[i])
  }

  /** The outcome for a message: the deliveries, and the message in the inbox unless some
      action settles where it goes. */
  function Expected(w: World, msg: Message, fs: seq<Filter>): seq<Action> {
    var acts := Fired(w, msg, fs);
    Delivered(w, msg, fs) + if Settled(acts) then [] else [Kept(AddFlags([], FlagNames(acts)))]
  }

  // ---------- the work of a script ----------

  function ValuesTried(w: World, c: Condition, values: seq<string>): nat {
    if values == [] then 0 else 1 + if ValueMatches(w, c, values[0]) then 0 else ValuesTried(w, c, values[1..])
  }

  function ConditionWork(w: World, msg: Message, c: Condition): nat {
    1 + ValuesTried(w, c, Values(msg, c))
  }

  /** The expressible conditions are tried until one decides. */
  function ConditionsWork(w: World, msg: Message, cs: seq<Condition>, decides: bool): nat {
    if cs == [] then 0
    else if !Expressible(w, cs[0]) then ConditionsWork(w, msg, cs[1..], decides)
    else
      ConditionWork(w, msg, cs[0])
      + if ConditionHolds(w, msg, cs[0]) == decides then 0 else ConditionsWork(w, msg, cs[1..], decides)
  }

  function TestWork(w: World, msg: Message, f: Filter): nat {
    (if |TestsOf(w, f.conditions)| == 1 then 0 else 1) + ConditionsWork(w, msg, f.conditions, !f.matchAll)
  }

  /** The flag commands, or the folder commands, of one filter. */
  function RuleWork(w: World, msg: Message, f: Filter, flag: bool): nat {
    if RuleOf(w, f, flag) == [] then 0
    else TestWork(w, msg, f) + if Fires(w, msg, f) then |CommandsOf(w, f.actions, flag)| else 0
  }

  function RulesWork(w: World, msg: Message, fs: seq<Filter>, flag: bool): nat {
    if fs == [] then 0 else RuleWork(w, msg, fs[0], flag) + RulesWork(w, msg, fs[1..], flag)
  }

  /** The message does not cost too many operations and does not get too many
      deliveries or forwards. */
  predicate Bearable(w: World, msg: Message, fs: seq<Filter>) {
    && RulesWork(w, msg, fs, true) + RulesWork(w, msg, fs, false) <= MAX_OPS
    && Allowed(Delivered(w, msg, fs))
  }

  // ---------- what the Sieve compiler accepts ----------

  predicate ConditionFits(c: Condition) {
    |c.value| <= MAX_STRING && (c.field == "header" ==> |c.headerName| <= MAX_STRING)
  }

  predicate TestFits(w: World, f: Filter) {
    && |TestsOf(w, f.conditions)| <= MAX_LIST
    && forall i :: 0 <= i < |f.conditions| && Expressible(w, f.conditions[i]) ==> ConditionFits(f.conditions[i])
  }

  /** A forward address must parse again after it was reduced to its bare form. */
  predicate ActionFits(w: World, a: FilterAction) {
    a.kind == "forward" && ForwardAddress(w, a).Some? ==>
      |ForwardAddress(w, a).value| <= MAX_STRING && w.address(ForwardAddress(w, a).value).Some?
  }

  predicate FilterFits(w: World, f: Filter) {
    RuleOf(w, f, true) + RuleOf(w, f, false) != [] ==>
      TestFits(w, f) && forall i :: 0 <= i < |f.actions| ==> ActionFits(w, f.actions[i])
  }

  predicate Fits(w: World, fs: seq<Filter>) {
    |ScriptText(w, fs)| <= MAX_SCRIPT && forall i :: 0 <= i < |fs| ==> FilterFits(w, fs[i])
  }

  // ---------- what the server stores ----------

  predicate ReceivedCondition(w: World, c: Condition) {
    && 0 < |c.value| <= 1000
    && (c.field in {"from", "to", "subject", "body"} || (c.field == "header" && HeaderName(c.headerName)))
    && c.operator in {"contains", "equals", "startsWith", "endsWith", "matches"}
    && ConditionText(w, c) != ""
  }

  predicate ReceivedAction(w: World, a: FilterAction) {
    || a.kind in {"markRead", "flag", "delete", "markSpam"}
    || (a.kind in {"move", "copy"} && ValidFolder(a.target))
    || (a.kind == "forward" && ActionText(w, a) != "")
  }

  /** A filter that passes the checks of a create or update request. */
  predicate Received(w: World, f: Filter) {
    && 0 < |f.conditions| <= 50 && 0 < |f.actions| <= 20
    && (forall i :: 0 <= i < |f.conditions| ==> ReceivedCondition(w, f.conditions[i]))
    && (forall i :: 0 <= i < |f.actions| ==> ReceivedAction(w, f.actions[i]))
  }

  /** For a stored filter only a header name can be too long for the Sieve compiler. */
  lemma ReceivedTestFits(w: World, f: Filter)
    requires Received(w, f)
    ensures TestFits(w, f) <==>
            forall i :: 0 <= i < |f.conditions| && f.conditions[i].field == "header" ==> |f.conditions[i].headerName| <= MAX_STRING
  {
    TestsCount(w, f.conditions);
    forall i | 0 <= i < |f.conditions| ensures Expressible(w, f.conditions[i]) && |f.conditions[i].value| <= 1000 {
      assert ReceivedCondition(w, f.conditions[i]);
      ConditionTextIs(w, f.conditions[i]);
    }
    hide Expressible, ReceivedCondition, ReceivedAction, TestsOf;
  }
}

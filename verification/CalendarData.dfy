/** The structural check of a stored calendar object (section 5.3.2.1 of RFC 4791):
    a stack machine over unfolded lines, against the component trees of RFC 5545. */
module CalendarData {
  import opened Text

  // ---------- lines ----------

  function UpperChar(c: char): char {
    if 'a' <= c <= 'z' then c - 'a' + 'A' else c
  }

  function Upper(s: string): (r: string)
    ensures |r| == |s| && forall i :: 0 <= i < |s| ==> r[i] == UpperChar(s[i])
  {
    seq(|s|, i requires 0 <= i < |s| => UpperChar(s[i]))
  }

  /** Joins one raw line onto the lines so far: line endings go, blank lines are
      dropped, and a leading space or tab continues the previous line. */
  function Unfold(out: seq<string>, raw: string): seq<string> {
    var line := TrimSuffix(raw, "\r");
    if line == "" then out
    else if (line[0] == ' ' || line[0] == '\t') && out != [] then out[|out| - 1 := out[|out| - 1] + line[1..]]
    else out + [line]
  }

  function UnfoldAll(out: seq<string>, raws: seq<string>): seq<string>
    decreases raws
  {
    if raws == [] then out else UnfoldAll(Unfold(out, raws[0]), raws[1..])
  }

  method UnfoldLines(s: string) returns (out: seq<string>)
    ensures out == UnfoldAll([], Split(s, '\n'))
  {
    hide TrimSuffix;
    out := [];
    var raws := Split(s, '\n');
    for i := 0 to |raws|
      invariant UnfoldAll(out, raws[i..]) == UnfoldAll([], raws)
    {
      assert raws[i..][1..] == raws[i + 1..];
      var line := TrimSuffix(raws[i], "\r");
      if line == "" {
      } else if (line[0] == ' ' || line[0] == '\t') && |out| > 0 {
        out := out[|out| - 1 := out[|out| - 1] + line[1..]];
      } else {
        out := out + [line];
      }
    }
  }

  /** A line in pieces, as it is folded for transport. */
  datatype Pieces = Pieces(first: string, more: seq<string>)

  function Whole(first: string, more: seq<string>): string
    decreases more
  {
    if more == [] then first else Whole(first + more[0], more[1..])
  }

  function Wholes(lines: seq<Pieces>): seq<string> {
    if lines == [] then [] else [Whole(lines[0].first, lines[0].more)] + Wholes(lines[1..])
  }

  /** Each further piece on a line of its own, after a space. */
  function Continuations(more: seq<string>): seq<string> {
    if more == [] then [] else [" " + more[0] + "\r"] + Continuations(more[1..])
  }

  function FoldLines(lines: seq<Pieces>): seq<string> {
    if lines == [] then []
    else [lines[0].first + "\r"] + Continuations(lines[0].more) + FoldLines(lines[1..])
  }

  /** Folded lines, each ended by CRLF. */
  function FoldedText(lines: seq<Pieces>): string {
    Join(FoldLines(lines) + [""], "\n")
  }

  /** A piece holds no line feed; the first is not empty and starts with no white space. */
  predicate Foldable(p: Pieces) {
    && p.first != "" && p.first[0] != ' ' && p.first[0] != '\t' && '\n' !in p.first
    && forall i :: 0 <= i < |p.more| ==> '\n' !in p.more[i]
  }

  lemma UnfoldContinuation(out: seq<string>, last: string, piece: string)
    ensures Unfold(out + [last], " " + piece + "\r") == out + [last + piece]
  {
    var raw := " " + piece + "\r";
    assert raw[..|raw| - 1] == " " + piece && raw[|raw| - 1..] == "\r";
    var line := " " + piece;
    assert line[0] == ' ' && line[1..] == piece;
    var all := out + [last];
    assert all[|all| - 1 := last + piece] == out + [last + piece];
  }

  lemma UnfoldFirst(out: seq<string>, first: string)
    requires first != "" && first[0] != ' ' && first[0] != '\t'
    ensures Unfold(out, first + "\r") == out + [first]
  {
    var raw := first + "\r";
    assert raw[..|raw| - 1] == first && raw[|raw| - 1..] == "\r";
  }

  lemma UnfoldStep(out: seq<string>, raw: string, rest: seq<string>)
    ensures UnfoldAll(out, [raw] + rest) == UnfoldAll(Unfold(out, raw), rest)
  {
    hide Unfold;
    assert ([raw] + rest)[1..] == rest;
  }

  lemma {:induction false} UnfoldMore(out: seq<string>, first: string, more: seq<string>, rest: seq<string>)
    ensures UnfoldAll(out + [first], Continuations(more) + rest) == UnfoldAll(out + [Whole(first, more)], rest)
    decreases more
  {
    hide Unfold, UnfoldAll;
    if more == [] {
      assert [] + rest == rest;
    } else {
      var raw, others := " " + more[0] + "\r", Continuations(more[1..]) + rest;
      assert Continuations(more) + rest == [raw] + others;
      UnfoldStep(out + [first], raw, others);
      UnfoldContinuation(out, first, more[0]);
      UnfoldMore(out, first + more[0], more[1..], rest);
    }
  }

  lemma UnfoldLine(out: seq<string>, p: Pieces, rest: seq<string>)
    requires Foldable(p)
    ensures UnfoldAll(out, [p.first + "\r"] + (Continuations(p.more) + rest)) == UnfoldAll(out + [Whole(p.first, p.more)], rest)
  {
    hide Unfold, UnfoldAll, Continuations, Whole;
    UnfoldStep(out, p.first + "\r", Continuations(p.more) + rest);
    UnfoldFirst(out, p.first);
    UnfoldMore(out, p.first, p.more, rest);
  }

  lemma FoldLinesStep(lines: seq<Pieces>)
    requires lines != []
    ensures FoldLines(lines) + [""] == [lines[0].first + "\r"] + (Continuations(lines[0].more) + (FoldLines(lines[1..]) + [""]))
  {
    hide Continuations;
  }

  lemma {:induction false} UnfoldFolded(out: seq<string>, lines: seq<Pieces>)
    requires forall k :: 0 <= k < |lines| ==> Foldable(lines[k])
    ensures UnfoldAll(out, FoldLines(lines) + [""]) == out + Wholes(lines)
    decreases lines
  {
    hide Unfold, UnfoldAll, Continuations, Whole, Foldable;
    if lines == [] {
      UnfoldEnd(out);
    } else {
      var w := Whole(lines[0].first, lines[0].more);
      FoldLinesStep(lines);
      UnfoldLine(out, lines[0], FoldLines(lines[1..]) + [""]);
      UnfoldFolded(out + [w], lines[1..]);
      assert out + [w] + Wholes(lines[1..]) == out + Wholes(lines);
    }
  }

  lemma UnfoldEnd(out: seq<string>)
    ensures UnfoldAll(out, FoldLines([]) + [""]) == out + Wholes([])
  {
    assert FoldLines([]) + [""] == [""] + [];
    UnfoldStep(out, "", []);
  }

  lemma {:induction false} ContinuationsPlain(more: seq<string>)
    requires forall i :: 0 <= i < |more| ==> '\n' !in more[i]
    ensures forall i :: 0 <= i < |Continuations(more)| ==> '\n' !in Continuations(more)[i]
  {
    if more != [] {
      ContinuationsPlain(more[1..]);
    }
  }

  lemma {:induction false} FoldedPlain(lines: seq<Pieces>)
    requires forall k :: 0 <= k < |lines| ==> Foldable(lines[k])
    ensures forall i :: 0 <= i < |FoldLines(lines)| ==> '\n' !in FoldLines(lines)[i]
  {
    if lines != [] {
      assert Foldable(lines[0]);
      ContinuationsPlain(lines[0].more);
      FoldedPlain(lines[1..]);
    }
  }

  /** Wherever lines are folded for transport, unfolding gives them back. */
  lemma UnfoldFold(lines: seq<Pieces>)
    requires forall k :: 0 <= k < |lines| ==> Foldable(lines[k])
    ensures UnfoldAll([], Split(FoldedText(lines), '\n')) == Wholes(lines)
  {
    hide UnfoldAll, FoldLines, Wholes, Foldable;
    FoldedPlain(lines);
    SplitJoin(FoldLines(lines) + [""], '\n');
    UnfoldFolded([], lines);
    assert [] + Wholes(lines) == Wholes(lines);
  }

  datatype Kind = Open(name: string) | Close(name: string) | Property

  function KindOf(line: string): Kind {
    var up := Upper(line);
    if HasPrefix(up, "BEGIN:") then Open(TrimSpace(up[6..]))
    else if HasPrefix(up, "END:") then Close(TrimSpace(up[4..]))
    else Property
  }

  /** The first colon outside quotes, -1 without one. */
  function NameEnd(line: string, from: nat, inQuote: bool): (r: int)
    requires from <= |line|
    ensures -1 <= r < |line|
    decreases |line| - from
  {
    if from == |line| then -1
    else if line[from] == '"' then NameEnd(line, from + 1, !inQuote)
    else if line[from] == ':' && !inQuote then from
    else NameEnd(line, from + 1, inQuote)
  }

  /** An odd number of quotes stands before position k. */
  predicate Quoted(line: string, k: nat)
    requires k <= |line|
  {
    k > 0 && (if line[k - 1] == '"' then !Quoted(line, k - 1) else Quoted(line, k - 1))
  }

  predicate Separates(line: string, k: nat)
    requires k < |line|
  {
    line[k] == ':' && !Quoted(line, k)
  }

  /** The colon found separates, and none before it does. */
  lemma {:induction false} NameEndIs(line: string, from: nat)
    requires from <= |line|
    ensures var r := NameEnd(line, from, Quoted(line, from));
            && (r >= 0 ==> from <= r && Separates(line, r))
            && (forall k :: from <= k < (if r >= 0 then r else |line|) ==> !Separates(line, k))
    decreases |line| - from
  {
    if from < |line| {
      NameEndIs(line, from + 1);
    }
  }

  /** NAME;PARAM=V:value, the name in upper case. */
  datatype PropLine = PropLine(name: string, params: string, value: string)

  function PropOf(line: string): Option<PropLine> {
    var colon := NameEnd(line, 0, false);
    if colon < 0 then None
    else
      var head, value := line[..colon], line[colon + 1..];
      var semi := IndexOf(head, ';');
      if semi >= 0 then Some(PropLine(Upper(TrimSpace(head[..semi])), head[semi + 1..], value))
      else Some(PropLine(Upper(TrimSpace(head)), "", value))
  }

  method SplitPropLine(line: string) returns (prop: Option<PropLine>)
    ensures prop == PropOf(line)
  {
    hide TrimSpace, Upper, IndexOf;
    var inQuote := false;
    var i := 0;
    while i < |line| && (line[i] != ':' || inQuote)
      invariant 0 <= i <= |line|
      invariant NameEnd(line, i, inQuote) == NameEnd(line, 0, false)
    {
      if line[i] == '"' {
        inQuote := !inQuote;
      }
      i := i + 1;
    }
    if i == |line| {
      return None;
    }
    var head, value := line[..i], line[i + 1..];
    var semi := IndexOf(head, ';');
    if semi >= 0 {
      prop := Some(PropLine(Upper(TrimSpace(head[..semi])), head[semi + 1..], value));
    } else {
      prop := Some(PropLine(Upper(TrimSpace(head)), "", value));
    }
  }

  /** Only a line without a colon outside quotes is no property line. */
  lemma NoProp(line: string)
    ensures PropOf(line) == None <==> forall k :: 0 <= k < |line| ==> !Separates(line, k)
  {
    hide TrimSpace, Upper, IndexOf;
    NameEndIs(line, 0);
  }

  /** Every quote is closed and every colon quoted. */
  predicate Closed(head: string) {
    !Quoted(head, |head|) && forall k :: 0 <= k < |head| ==> !Separates(head, k)
  }

  lemma {:induction false} QuotedPrefix(head: string, more: string, k: nat)
    requires k <= |head|
    ensures Quoted(head + more, k) == Quoted(head, k)
  {
    if k > 0 {
      QuotedPrefix(head, more, k - 1);
    }
  }

  lemma HeadEnds(head: string, value: string)
    requires Closed(head)
    ensures NameEnd(head + ":" + value, 0, false) == |head|
  {
    var line := head + ":" + value;
    assert line == head + (":" + value) && line[|head|] == ':';
    forall k | 0 <= k <= |head| ensures Quoted(line, k) == Quoted(head, k) {
      QuotedPrefix(head, ":" + value, k);
    }
    hide Quoted;
    assert Separates(line, |head|);
    forall k | 0 <= k < |head| ensures !Separates(line, k) {
      assert !Separates(head, k);
    }
    NameEndIs(line, 0);
    assert !Quoted(line, 0);
  }

  /** Splitting a printed property line gives back its name, parameters and value. */
  lemma SplitPrinted(name: string, params: string, value: string)
    requires ';' !in name && Closed(name + ";" + params)
    ensures PropOf(name + ";" + params + ":" + value) == Some(PropLine(Upper(TrimSpace(name)), params, value))
  {
    hide TrimSpace, Upper, IndexOf, Closed, NameEnd;
    var head := name + ";" + params;
    var line := head + ":" + value;
    HeadEnds(head, value);
    assert line[..|head|] == head && line[|head| + 1..] == value;
    IndexOfAt(name, ';', params);
    assert head[..|name|] == name && head[|name| + 1..] == params;
  }

  /** The value of a UID line, trimmed. */
  function UidOf(line: string): Option<string> {
    var prop := PropOf(line);
    if prop.Some? && prop.value.name == "UID" then Some(TrimSpace(prop.value.value)) else None
  }

  // ---------- component trees ----------

  /** What stands inside a component: property lines and whole components. */
  datatype Forest =
    | Empty
    | LineThen(line: string, rest: Forest)
    | ComponentThen(open: string, inner: Forest, close: string, rest: Forest)

  function Flatten(f: Forest): seq<string> {
    match f
    case Empty => []
    case LineThen(line, rest) => [line] + Flatten(rest)
    case ComponentThen(open, inner, close, rest) => [open] + Flatten(inner) + [close] + Flatten(rest)
  }

  /** Begin and end lines agree on a non-empty name, everywhere. */
  predicate WellFormed(f: Forest) {
    match f
    case Empty => true
    case LineThen(line, rest) => KindOf(line) == Property && WellFormed(rest)
    case ComponentThen(open, inner, close, rest) =>
      && KindOf(open).Open? && KindOf(open).name != "" && KindOf(close) == Close(KindOf(open).name)
      && WellFormed(inner) && WellFormed(rest)
  }

  predicate IsCalendarComponent(name: string) {
    name in {"VEVENT", "VTODO", "VJOURNAL", "VFREEBUSY"}
  }

  predicate HasUid(name: string) {
    name in {"VEVENT", "VTODO", "VJOURNAL"}
  }

  function UidList(line: string): seq<string> {
    var u := UidOf(line);
    if u == None then [] else [u.value]
  }

  /** The UIDs on a component's own lines. */
  function OwnUids(f: Forest): seq<string> {
    match f
    case Empty => []
    case LineThen(line, rest) => UidList(line) + OwnUids(rest)
    case ComponentThen(_, _, _, rest) => OwnUids(rest)
  }

  /** The calendar components directly inside, and the UIDs they carry. */
  function Components(f: Forest): nat
    requires WellFormed(f)
  {
    match f
    case Empty => 0
    case LineThen(_, rest) => Components(rest)
    case ComponentThen(open, _, _, rest) => (if IsCalendarComponent(KindOf(open).name) then 1 else 0) + Components(rest)
  }

  function Uids(f: Forest): seq<string>
    requires WellFormed(f)
  {
    match f
    case Empty => []
    case LineThen(_, rest) => Uids(rest)
    case ComponentThen(open, inner, _, rest) => (if HasUid(KindOf(open).name) then OwnUids(inner) else []) + Uids(rest)
  }

  predicate OneUid(uids: seq<string>) {
    uids != [] && uids[0] != "" && forall i :: 0 <= i < |uids| ==> uids[i] == uids[0]
  }

  predicate RootLines(lines: seq<string>) {
    |lines| >= 2 && EqualFold(lines[0], "BEGIN:VCALENDAR") && EqualFold(lines[|lines| - 1], "END:VCALENDAR")
  }

  /** The lines are one component tree with inner below the root. */
  predicate IsCalendar(lines: seq<string>, inner: Forest) {
    && RootLines(lines) && lines == [lines[0]] + Flatten(inner) + [lines[|lines| - 1]]
    && WellFormed(inner) && Components(inner) > 0 && OneUid(Uids(inner))
  }

  // ---------- the stack machine ----------

  /** What a run over lines counts: calendar components and UID values. */
  datatype Tally = Tally(comps: nat, uids: seq<string>)

  function Plus(a: Tally, b: Tally): Tally {
    Tally(a.comps + b.comps, a.uids + b.uids)
  }

  /** What one line adds, below the given open components. */
  function Adds(line: string, stack: seq<string>): Tally {
    match KindOf(line)
    case Open(name) => Tally(if |stack| == 1 && IsCalendarComponent(name) then 1 else 0, [])
    case Close(_) => Tally(0, [])
    case Property => Tally(0, if |stack| == 2 && HasUid(stack[1]) then UidList(line) else [])
  }

  /** The stack after one line, None when the line cannot stand here. */
  function Push(line: string, stack: seq<string>, first: bool, last: bool): Option<seq<string>> {
    match KindOf(line)
    case Open(name) => if name == "" || (stack == [] && !first) then None else Some(stack + [name])
    case Close(name) =>
      if stack == [] || stack[|stack| - 1] != name || (|stack| == 1 && !last) then None else Some(stack[..|stack| - 1])
    case Property => Some(stack)
  }

  function Scan(lines: seq<string>, stack: seq<string>, first: bool): Option<Tally>
    decreases lines
  {
    if lines == [] then if stack == [] then Some(Tally(0, [])) else None
    else
      var next := Push(lines[0], stack, first, |lines| == 1);
      if next == None then None
      else
        var more := Scan(lines[1..], next.value, false);
        if more == None then None else Some(Plus(Adds(lines[0], stack), more.value))
  }

  predicate Accepts(lines: seq<string>) {
    RootLines(lines) &&
    var t := Scan(lines, [], true);
    t.Some? && t.value.comps > 0 && OneUid(t.value.uids)
  }

  // ---------- trees are accepted ----------

  /** What a forest counts below the given open components. */
  function Count(f: Forest, stack: seq<string>): Tally
    requires WellFormed(f)
    decreases f
  {
    match f
    case Empty => Tally(0, [])
    case LineThen(line, rest) => Plus(Adds(line, stack), Count(rest, stack))
    case ComponentThen(open, inner, close, rest) =>
      Plus(Adds(open, stack), Plus(Count(inner, stack + [KindOf(open).name]), Count(rest, stack)))
  }

  function Then(t: Tally, more: Option<Tally>): Option<Tally> {
    if more == None then None else Some(Plus(t, more.value))
  }

  lemma PlusLaws(a: Tally, b: Tally, c: Tally)
    ensures Plus(Plus(a, b), c) == Plus(a, Plus(b, c))
    ensures Plus(Tally(0, []), a) == a
  {
    assert a.uids + b.uids + c.uids == a.uids + (b.uids + c.uids);
  }

  lemma ThenThen(a: Tally, b: Tally, m: Option<Tally>)
    ensures Then(a, Then(b, m)) == Then(Plus(a, b), m)
  {
    if m.Some? {
      PlusLaws(a, b, m.value);
    }
  }

  lemma NothingThen(m: Option<Tally>)
    ensures Then(Tally(0, []), m) == m
  {
    if m.Some? {
      PlusLaws(m.value, m.value, m.value);
    }
  }

  lemma ScanStep(line: string, rest: seq<string>, stack: seq<string>)
    ensures Scan([line] + rest, stack, false) ==
              var next := Push(line, stack, false, rest == []);
              if next == None then None else Then(Adds(line, stack), Scan(rest, next.value, false))
  {
    hide Push, Adds;
    assert ([line] + rest)[1..] == rest;
  }

  /** The machine runs through the lines of a forest and leaves its stack as it was. */
  lemma {:induction false} ScanForest(f: Forest, stack: seq<string>, rest: seq<string>)
    requires WellFormed(f) && stack != []
    ensures Scan(Flatten(f) + rest, stack, false) == Then(Count(f, stack), Scan(rest, stack, false))
    decreases f, 1
  {
    hide Scan, KindOf, Plus, Then, Adds;
    match f
    case Empty =>
      NothingThen(Scan(rest, stack, false));
      assert [] + rest == rest;
    case LineThen(line, more) =>
      ScanForest(more, stack, rest);
      assert Flatten(f) + rest == [line] + (Flatten(more) + rest);
      ScanStep(line, Flatten(more) + rest, stack);
      ThenThen(Adds(line, stack), Count(more, stack), Scan(rest, stack, false));
    case ComponentThen(open, inner, close, more) =>
      ScanComponent(f, stack, rest);
  }

  lemma {:induction false} ScanComponent(f: Forest, stack: seq<string>, rest: seq<string>)
    requires WellFormed(f) && f.ComponentThen? && stack != []
    ensures Scan(Flatten(f) + rest, stack, false) == Then(Count(f, stack), Scan(rest, stack, false))
    decreases f, 0
  {
    hide Scan, KindOf, Plus, Then;
    var ComponentThen(open, inner, close, more) := f;
    var name := KindOf(open).name;
    var deeper := stack + [name];
    assert deeper[..|deeper| - 1] == stack && deeper != [];
    var tail := Flatten(more) + rest;
    var body := Flatten(inner) + ([close] + tail);
    assert Flatten(f) + rest == [open] + body;
    ScanStep(open, body, stack);
    ScanForest(inner, deeper, [close] + tail);
    ScanStep(close, tail, deeper);
    assert Adds(close, deeper) == Tally(0, []);
    NothingThen(Scan(tail, stack, false));
    ScanForest(more, stack, rest);
    hide Adds;
    ThenThen(Count(inner, deeper), Count(more, stack), Scan(rest, stack, false));
    ThenThen(Adds(open, stack), Plus(Count(inner, deeper), Count(more, stack)), Scan(rest, stack, false));
  }

  lemma AddsNothing(line: string, stack: seq<string>)
    requires |stack| >= 2 && (KindOf(line).Open? || |stack| >= 3)
    ensures Adds(line, stack) == Tally(0, [])
  {
    hide KindOf, UidList;
  }

  lemma PlusNothing(a: Tally)
    ensures Plus(Tally(0, []), a) == a
  {}

  lemma {:induction false} CountDeep(f: Forest, stack: seq<string>)
    requires WellFormed(f) && |stack| >= 3
    ensures Count(f, stack) == Tally(0, [])
    decreases f
  {
    hide KindOf, Adds, Plus;
    PlusNothing(Tally(0, []));
    match f
    case Empty =>
    case LineThen(line, rest) =>
      AddsNothing(line, stack);
      CountDeep(rest, stack);
    case ComponentThen(open, inner, _, rest) =>
      AddsNothing(open, stack);
      CountDeep(inner, stack + [KindOf(open).name]);
      CountDeep(rest, stack);
  }

  lemma {:induction false} CountOwn(f: Forest, stack: seq<string>)
    requires WellFormed(f) && |stack| == 2
    ensures Count(f, stack) == Tally(0, if HasUid(stack[1]) then OwnUids(f) else [])
    decreases f
  {
    hide KindOf, Adds, Plus, UidList, HasUid;
    match f
    case Empty =>
    case LineThen(line, rest) =>
      CountOwn(rest, stack);
      AddsOwn(line, stack, OwnUids(rest));
    case ComponentThen(open, inner, _, rest) =>
      AddsNothing(open, stack);
      CountDeep(inner, stack + [KindOf(open).name]);
      CountOwn(rest, stack);
      PlusNothing(Count(rest, stack));
  }

  lemma AddsOwn(line: string, stack: seq<string>, uids: seq<string>)
    requires |stack| == 2 && KindOf(line) == Property
    ensures Plus(Adds(line, stack), Tally(0, if HasUid(stack[1]) then uids else []))
            == Tally(0, if HasUid(stack[1]) then UidList(line) + uids else [])
  {
    hide KindOf, UidList, HasUid;
  }

  lemma AddsRoot(line: string, root: string)
    ensures KindOf(line) == Property ==> Adds(line, [root]) == Tally(0, [])
    ensures KindOf(line).Open? ==> Adds(line, [root]) == Tally(if IsCalendarComponent(KindOf(line).name) then 1 else 0, [])
  {
    hide KindOf, UidList, IsCalendarComponent;
  }

  lemma PlusRoot(n: nat, own: seq<string>, comps: nat, uids: seq<string>)
    ensures Plus(Tally(n, []), Plus(Tally(0, own), Tally(comps, uids))) == Tally(n + comps, own + uids)
  {
    assert [] + (own + uids) == own + uids;
  }

  /** Below the root the machine counts exactly what the tree holds at depth two. */
  lemma {:induction false} CountRoot(f: Forest, root: string)
    requires WellFormed(f)
    ensures Count(f, [root]) == Tally(Components(f), Uids(f))
    decreases f
  {
    hide KindOf, Adds, UidList, HasUid, IsCalendarComponent, Plus, OwnUids;
    match f
    case Empty =>
    case LineThen(line, rest) =>
      CountRoot(rest, root);
      AddsRoot(line, root);
      PlusNothing(Count(rest, [root]));
    case ComponentThen(open, inner, _, rest) =>
      var name := KindOf(open).name;
      assert [root] + [name] == [root, name];
      CountOwn(inner, [root, name]);
      CountRoot(rest, root);
      AddsRoot(open, root);
      PlusRoot(if IsCalendarComponent(name) then 1 else 0, if HasUid(name) then OwnUids(inner) else [], Components(rest), Uids(rest));
  }

  // ---------- accepted lines are trees ----------

  /** A run that ends well from open components splits into the forest inside the
      innermost one, its end line, and a run from the components around it. */
  lemma {:induction false} Decompose(lines: seq<string>, stack: seq<string>) returns (f: Forest, close: string, rest: seq<string>)
    requires stack != [] && Scan(lines, stack, false).Some?
    ensures WellFormed(f) && lines == Flatten(f) + ([close] + rest)
    ensures KindOf(close) == Close(stack[|stack| - 1])
    ensures Scan(rest, stack[..|stack| - 1], false).Some? && (|stack| == 1 ==> rest == [])
    decreases |lines|
  {
    hide KindOf, Scan, Adds, Plus;
    NotDone(lines, stack);
    var line, more := lines[0], lines[1..];
    assert lines == [line] + more;
    ScanStep(line, more, stack);
    match KindOf(line)
    case Property =>
      var inner: Forest;
      inner, close, rest := Decompose(more, stack);
      f := LineThen(line, inner);
      JoinLine(line, Flatten(inner), [close] + rest);
    case Close(name) =>
      f, close, rest := Empty, line, more;
    case Open(name) =>
      var deeper := stack + [name];
      assert deeper[..|deeper| - 1] == stack && deeper[|deeper| - 1] == name;
      var inner, end, after := Decompose(more, deeper);
      var outer: Forest;
      outer, close, rest := Decompose(after, stack);
      f := ComponentThen(line, inner, end, outer);
      JoinComponent(line, Flatten(inner), end, Flatten(outer), [close] + rest);
  }

  lemma NotDone(lines: seq<string>, stack: seq<string>)
    requires stack != [] && Scan(lines, stack, false).Some?
    ensures lines != []
  {}

  lemma JoinLine(line: string, a: seq<string>, b: seq<string>)
    ensures [line] + (a + b) == [line] + a + b
  {}

  lemma JoinComponent(open: string, a: seq<string>, close: string, b: seq<string>, c: seq<string>)
    ensures [open] + (a + ([close] + (b + c))) == [open] + a + [close] + b + c
  {}

  lemma RootKinds(lines: seq<string>)
    requires RootLines(lines)
    ensures KindOf(lines[0]) == Open("VCALENDAR") && KindOf(lines[|lines| - 1]) == Close("VCALENDAR")
  {
    UpperOfFold(lines[0], "BEGIN:VCALENDAR");
    UpperOfFold(lines[|lines| - 1], "END:VCALENDAR");
    RootLiterals();
    hide Upper, TrimSpace;
  }

  lemma RootLiterals()
    ensures Upper("BEGIN:VCALENDAR") == "BEGIN:VCALENDAR" && Upper("END:VCALENDAR") == "END:VCALENDAR"
    ensures HasPrefix("BEGIN:VCALENDAR", "BEGIN:") && "BEGIN:VCALENDAR"[6..] == "VCALENDAR"
    ensures !HasPrefix("END:VCALENDAR", "BEGIN:") && HasPrefix("END:VCALENDAR", "END:") && "END:VCALENDAR"[4..] == "VCALENDAR"
    ensures TrimSpace("VCALENDAR") == "VCALENDAR"
  {
    assert "END:VCALENDAR"[0] == 'E' && "BEGIN:"[0] == 'B';
  }

  lemma UpperOfFold(a: string, b: string)
    requires EqualFold(a, b)
    ensures Upper(a) == Upper(b)
  {
    forall i | 0 <= i < |a| ensures UpperChar(a[i]) == UpperChar(b[i]) {
      assert Lower(a)[i] == Lower(b)[i];
    }
  }

  lemma ScanRoot(lines: seq<string>)
    requires RootLines(lines)
    ensures Scan(lines, [], true) == Scan(lines[1..], ["VCALENDAR"], false)
  {
    RootKinds(lines);
    NothingThen(Scan(lines[1..], ["VCALENDAR"], false));
    hide KindOf;
    assert [] + ["VCALENDAR"] == ["VCALENDAR"];
  }

  /** The run below the root, over a forest and the last line. */
  lemma RunBelowRoot(inner: Forest, close: string)
    requires WellFormed(inner) && KindOf(close) == Close("VCALENDAR")
    ensures Scan(Flatten(inner) + [close], ["VCALENDAR"], false) == Some(Tally(Components(inner), Uids(inner)))
  {
    hide KindOf, Count, Flatten, Uids, Components, Scan;
    ScanForest(inner, ["VCALENDAR"], [close]);
    LastLine(close);
    CountRoot(inner, "VCALENDAR");
    assert Uids(inner) + [] == Uids(inner);
  }

  lemma TreeAccepted(lines: seq<string>, inner: Forest)
    requires IsCalendar(lines, inner)
    ensures Accepts(lines)
  {
    RootKinds(lines);
    ScanRoot(lines);
    hide KindOf, Flatten, Uids, Components, OneUid, WellFormed, Scan, EqualFold;
    AfterFirst(lines, Flatten(inner));
    RunBelowRoot(inner, lines[|lines| - 1]);
  }

  lemma AfterFirst(lines: seq<string>, middle: seq<string>)
    requires |lines| >= 2 && lines == [lines[0]] + middle + [lines[|lines| - 1]]
    ensures lines[1..] == middle + [lines[|lines| - 1]]
  {}

  lemma LastLine(close: string)
    requires KindOf(close) == Close("VCALENDAR")
    ensures Scan([close], ["VCALENDAR"], false) == Some(Tally(0, []))
  {
    hide KindOf;
    ScanStep(close, [], ["VCALENDAR"]);
    assert [close] + [] == [close];
    assert ["VCALENDAR"][..0] == [];
    NothingThen(Some(Tally(0, [])));
  }

  lemma AcceptedTree(lines: seq<string>) returns (inner: Forest)
    requires Accepts(lines)
    ensures IsCalendar(lines, inner)
  {
    ScanRoot(lines);
    hide KindOf, Count, Flatten, Uids, Components, RootLines, OneUid, WellFormed, Scan;
    var close, rest;
    inner, close, rest := Decompose(lines[1..], ["VCALENDAR"]);
    assert [close] + [] == [close];
    RunBelowRoot(inner, close);
    Ends(lines, Flatten(inner), close);
  }

  lemma Ends(lines: seq<string>, middle: seq<string>, close: string)
    requires lines != [] && lines[1..] == middle + [close]
    ensures lines == [lines[0]] + middle + [lines[|lines| - 1]]
  {
    assert close == lines[1..][|middle|];
    assert lines == [lines[0]] + lines[1..];
  }

  /** The machine accepts exactly the lines of calendar trees. */
  lemma AcceptsIff(lines: seq<string>)
    ensures Accepts(lines) <==> exists inner :: IsCalendar(lines, inner)
  {
    if Accepts(lines) {
      var inner := AcceptedTree(lines);
    }
    if inner :| IsCalendar(lines, inner) {
      TreeAccepted(lines, inner);
    }
  }

  // ---------- the check as it runs ----------

  /** What the loop has left to see, given the UID values it has accepted. */
  predicate Finishes(lines: seq<string>, stack: seq<string>, first: bool, comps: nat, uids: seq<string>) {
    var t := Scan(lines, stack, first);
    t.Some? && comps + t.value.comps > 0 && OneUid(uids + t.value.uids)
  }

  /** validateCalendarData: true exactly for the lines of a calendar tree. */
  method ValidateCalendarData(ics: string) returns (valid: bool)
    ensures valid <==> exists inner :: IsCalendar(UnfoldAll([], Split(ics, '\n')), inner)
  {
    var lines := UnfoldLines(ics);
    AcceptsIff(lines);
    hide IsCalendar, UnfoldAll;
    valid := CheckLines(lines);
  }

  method CheckLines(lines: seq<string>) returns (valid: bool)
    ensures valid <==> Accepts(lines)
  {
    if !RootLines(lines) {
      return false;
    }
    hide RootLines, Scan, KindOf, PropOf, TrimSpace, IsCalendarComponent, HasUid, Finishes, Accepts;
    var stack: seq<string> := [];
    var comps: nat := 0;
    var uid := "";
    ghost var uids: seq<string> := [];
    FinishesStart(lines);
    for i := 0 to |lines|
      invariant Finishes(lines[i..], stack, i == 0, comps, uids) <==> Accepts(lines)
      invariant AllAre(uids, uid)
    {
      var line, kind := lines[i], KindOf(lines[i]);
      FinishesStep(lines[i..], stack, i == 0, comps, uids);
      assert lines[i..][1..] == lines[i + 1..] && |lines[i..]| == |lines| - i;
      assert uids + [] == uids;
      if kind.Open? {
        if kind.name == "" || (|stack| == 0 && i != 0) {
          return false;
        }
        stack := stack + [kind.name];
        if |stack| == 2 && IsCalendarComponent(kind.name) {
          comps := comps + 1;
        }
      } else if kind.Close? {
        if |stack| == 0 || stack[|stack| - 1] != kind.name {
          return false;
        }
        stack := stack[..|stack| - 1];
        if |stack| == 0 && i != |lines| - 1 {
          return false;
        }
      } else if |stack| == 2 && HasUid(stack[1]) {
        var prop := SplitPropLine(line);
        if prop.Some? && prop.value.name == "UID" {
          var v := TrimSpace(prop.value.value);
          if v == "" || (uid != "" && v != uid) {
            Mismatch(uids, uid, v, lines[i + 1..], stack, comps);
            return false;
          }
          Extend(uids, uid, v);
          uid := v;
          uids := uids + [v];
        }
      }
    }
    FinishesEnd(lines[|lines|..], stack, |lines| == 0, comps, uids, uid);
    valid := |stack| == 0 && comps > 0 && uid != "";
  }

  /** uid is the one value seen so far, or empty before the first. */
  predicate AllAre(uids: seq<string>, uid: string) {
    (uids == [] <==> uid == "") && forall i :: 0 <= i < |uids| ==> uids[i] == uid
  }

  lemma FinishesStart(lines: seq<string>)
    requires RootLines(lines)
    ensures Finishes(lines[0..], [], true, 0, []) <==> Accepts(lines)
  {
    assert lines[0..] == lines;
    var t := Scan(lines, [], true);
    if t.Some? {
      assert [] + t.value.uids == t.value.uids;
    }
  }

  lemma FinishesStep(lines: seq<string>, stack: seq<string>, first: bool, comps: nat, uids: seq<string>)
    requires lines != []
    ensures var next := Push(lines[0], stack, first, |lines| == 1);
            var added := Adds(lines[0], stack);
            Finishes(lines, stack, first, comps, uids) <==>
            next.Some? && Finishes(lines[1..], next.value, false, comps + added.comps, uids + added.uids)
  {
    hide Push, Adds, OneUid;
    var next := Push(lines[0], stack, first, |lines| == 1);
    var added := Adds(lines[0], stack);
    if next.Some? {
      var more := Scan(lines[1..], next.value, false);
      if more.Some? {
        assert uids + added.uids + more.value.uids == uids + (added.uids + more.value.uids);
      }
    }
  }

  lemma FinishesEnd(lines: seq<string>, stack: seq<string>, first: bool, comps: nat, uids: seq<string>, uid: string)
    requires lines == [] && AllAre(uids, uid)
    ensures Finishes(lines, stack, first, comps, uids) <==> stack == [] && comps > 0 && uid != ""
  {
    assert uids + [] == uids;
  }

  lemma Extend(uids: seq<string>, uid: string, v: string)
    requires AllAre(uids, uid) && v != "" && (uid == "" || v == uid)
    ensures AllAre(uids + [v], v)
  {}

  lemma Mismatch(uids: seq<string>, uid: string, v: string, lines: seq<string>, stack: seq<string>, comps: nat)
    requires AllAre(uids, uid) && (v == "" || (uid != "" && v != uid))
    ensures !Finishes(lines, stack, false, comps, uids + [v])
  {
    var t := Scan(lines, stack, false);
    if t.Some? {
      var all := uids + [v] + t.value.uids;
      assert all[|uids|] == v && (uids != [] ==> all[0] == uid);
    }
  }

  // ---------- what is accepted, by example ----------

  function OneComponent(name: string, uid: string): Forest {
    ComponentThen("BEGIN:" + name, LineThen("UID:" + uid, Empty), "END:" + name, Empty)
  }

  function TwoComponents(name: string, uid: string, other: string): Forest {
    ComponentThen("BEGIN:" + name, LineThen("UID:" + uid, Empty), "END:" + name, OneComponent(name, other))
  }

  function InCalendar(inner: Forest): seq<string> {
    ["BEGIN:VCALENDAR"] + Flatten(inner) + ["END:VCALENDAR"]
  }

  predicate PlainName(name: string) {
    name != "" && NoSpace(name) && Upper(name) == name
  }

  lemma KindWords()
    ensures Upper("BEGIN:") == "BEGIN:" && Upper("END:") == "END:"
  {}

  lemma PlainTrimmed(name: string)
    requires PlainName(name)
    ensures TrimSpace(name) == name && Upper(name) == name
  {
    hide TrimSpace;
    TrimSpaceNone(name);
  }

  lemma NotBegin(name: string)
    ensures !HasPrefix("END:" + name, "BEGIN:")
  {
    var e := "END:" + name;
    assert e[0] == 'E' && "BEGIN:"[0] == 'B';
    assert |e| >= 6 ==> e[..6][0] == 'E';
  }

  lemma Behind(word: string, name: string)
    ensures HasPrefix(word + name, word) && (word + name)[|word|..] == name
  {
    assert (word + name)[..|word|] == word;
  }

  lemma BeginKind(name: string)
    requires PlainName(name)
    ensures KindOf("BEGIN:" + name) == Open(name)
  {
    hide PlainName, Upper, TrimSpace, HasPrefix;
    PlainTrimmed(name);
    UpperConcat("BEGIN:", name);
    KindWords();
    Behind("BEGIN:", name);
  }

  lemma EndKind(name: string)
    requires PlainName(name)
    ensures KindOf("END:" + name) == Close(name)
  {
    hide PlainName, Upper, TrimSpace, HasPrefix;
    PlainTrimmed(name);
    UpperConcat("END:", name);
    KindWords();
    NotBegin(name);
    Behind("END:", name);
  }

  lemma ComponentKinds(name: string)
    requires PlainName(name)
    ensures KindOf("BEGIN:" + name) == Open(name) && KindOf("END:" + name) == Close(name)
  {
    hide *;
    BeginKind(name);
    EndKind(name);
  }

  lemma UpperConcat(a: string, b: string)
    ensures Upper(a + b) == Upper(a) + Upper(b)
  {}

  lemma UidLine(uid: string)
    requires NoSpace(uid)
    ensures KindOf("UID:" + uid) == Property && UidOf("UID:" + uid) == Some(uid)
  {
    var line := "UID:" + uid;
    assert Closed("UID");
    HeadEnds("UID", uid);
    assert line == "UID" + ":" + uid && line[..3] == "UID" && line[4..] == uid;
    assert ';' !in "UID";
    TrimSpaceNone("UID");
    TrimSpaceNone(uid);
    assert Upper("UID") == "UID";
    assert Upper(line)[0] == 'U' && "BEGIN:"[0] == 'B' && "END:"[0] == 'E';
    assert !HasPrefix(Upper(line), "BEGIN:") && !HasPrefix(Upper(line), "END:");
    hide Upper, TrimSpace, NameEnd, Closed;
  }

  lemma FlattenRoot(inner: Forest)
    ensures RootLines(InCalendar(inner)) && InCalendar(inner)[1..] == Flatten(inner) + ["END:VCALENDAR"]
  {
    var lines := InCalendar(inner);
    assert lines[0] == "BEGIN:VCALENDAR" && lines[|lines| - 1] == "END:VCALENDAR";
  }

  /** What the machine says of a well-formed forest in a calendar. */
  lemma InCalendarIff(inner: Forest)
    requires WellFormed(inner)
    ensures Accepts(InCalendar(inner)) <==> Components(inner) > 0 && OneUid(Uids(inner))
  {
    var lines := InCalendar(inner);
    FlattenRoot(inner);
    RootKinds(lines);
    ScanRoot(lines);
    assert lines[|lines| - 1] == "END:VCALENDAR";
    RunBelowRoot(inner, "END:VCALENDAR");
    hide Scan, KindOf, Flatten, Uids, Components, OneUid, WellFormed, InCalendar, RootLines;
  }

  lemma OneComponentIs(name: string, uid: string)
    requires PlainName(name) && NoSpace(uid)
    ensures WellFormed(OneComponent(name, uid))
    ensures Components(OneComponent(name, uid)) == if IsCalendarComponent(name) then 1 else 0
    ensures Uids(OneComponent(name, uid)) == if HasUid(name) then [uid] else []
  {
    ComponentKinds(name);
    UidLine(uid);
    hide KindOf, UidOf, IsCalendarComponent, HasUid;
    var f := OneComponent(name, uid);
    assert WellFormed(LineThen("UID:" + uid, Empty));
    assert OwnUids(LineThen("UID:" + uid, Empty)) == [uid] + [] == [uid];
    assert f.rest == Empty;
  }

  /** An event, a task or a journal entry with a UID is a calendar object; free-busy data
      has none, and other components do not count (section 5.3.2.1 of RFC 4791). */
  lemma OneComponentAccepted(name: string, uid: string)
    requires PlainName(name) && NoSpace(uid)
    ensures Accepts(InCalendar(OneComponent(name, uid))) <==> name in {"VEVENT", "VTODO", "VJOURNAL"} && uid != ""
  {
    OneComponentIs(name, uid);
    InCalendarIff(OneComponent(name, uid));
    hide Accepts, InCalendar, WellFormed, Components, Uids, PlainName, NoSpace;
  }

  /** Two components of a kind are one object if and only if they have the same UID. */
  lemma SameUidRequired(name: string, uid: string, other: string)
    requires PlainName(name) && NoSpace(uid) && NoSpace(other) && name in {"VEVENT", "VTODO", "VJOURNAL"}
    ensures Accepts(InCalendar(TwoComponents(name, uid, other))) <==> uid == other && uid != ""
  {
    hide Accepts, InCalendar, WellFormed, Components, Uids, PlainName, NoSpace;
    var f := TwoComponents(name, uid, other);
    TwoComponentsAre(name, uid, other);
    InCalendarIff(f);
    assert OneUid([uid, other]) <==> uid == other && uid != "" by {
      assert [uid, other][0] == uid && [uid, other][1] == other;
    }
  }

  lemma TwoComponentsAre(name: string, uid: string, other: string)
    requires PlainName(name) && NoSpace(uid) && NoSpace(other) && IsCalendarComponent(name) && HasUid(name)
    ensures var f := TwoComponents(name, uid, other); WellFormed(f) && Components(f) == 2 && Uids(f) == [uid, other]
  {
    ComponentKinds(name);
    UidLine(uid);
    OneComponentIs(name, other);
    hide KindOf, UidOf, IsCalendarComponent, HasUid, PlainName, NoSpace;
    var f := TwoComponents(name, uid, other);
    var own := LineThen("UID:" + uid, Empty);
    assert WellFormed(own);
    assert OwnUids(own) == [uid] + [] == [uid];
    assert f.inner == own && f.rest == OneComponent(name, other);
    assert [uid] + [other] == [uid, other];
  }
}

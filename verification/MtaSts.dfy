/** MTA-STS (RFC 8461): policy files, MX patterns, and the policy cache that keeps a
    fetched policy in force while DNS or HTTPS fail. Times are in seconds. */
module MtaSts {
  import opened Text
  import opened TagList

  datatype Policy = Policy(version: string, mode: string, mx: seq<string>, maxAge: int, raw: string)

  const MIN_AGE := 86400
  const MAX_AGE := 31557600

  // ---------- policy files ----------

  /** The fields read so far, and whether a max_age was seen. */
  datatype Fields = Fields(version: string, mode: string, mx: seq<string>, maxAge: int, seen: bool)

  /** The key and the value of a line; blank lines, comments and lines without a key have none. */
  function FieldOf(raw: string): Option<(string, string)> {
    var line := TrimSpace(raw);
    var idx := IndexOf(line, ':');
    if line == "" || HasPrefix(line, "#") || idx <= 0 then None
    else Some((Lower(TrimSpace(line[..idx])), TrimSpace(line[idx + 1..])))
  }

  /** One line of a policy file: None for a max_age that is no number. */
  function ReadLine(f: Fields, raw: string): Option<Fields> {
    var field := FieldOf(raw);
    if field == None then Some(f)
    else
      var (key, value) := field.value;
      if key == "version" then Some(f.(version := value))
      else if key == "mode" then Some(f.(mode := Lower(value)))
      else if key == "max_age" then
        var n := Atoi(value);
        if n == None then None else Some(f.(maxAge := n.value, seen := true))
      else if key == "mx" then Some(f.(mx := f.mx + [value]))
      else Some(f)
  }

  function ReadLines(f: Fields, lines: seq<string>): Option<Fields>
    decreases lines
  {
    if lines == [] then Some(f)
    else
      var next := ReadLine(f, lines[0]);
      if next == None then None else ReadLines(next.value, lines[1..])
  }

  function Clamp(age: int): (r: int)
    ensures MIN_AGE <= r <= MAX_AGE && (MIN_AGE <= age <= MAX_AGE ==> r == age)
  {
    if age < MIN_AGE then MIN_AGE else if age > MAX_AGE then MAX_AGE else age
  }

  predicate Acceptable(f: Fields) {
    && f.version == "STSv1" && f.mode in {"enforce", "testing", "none"}
    && (f.mode == "none" || f.mx != []) && f.seen
  }

  function ParsePolicy(text: string): (r: Option<Policy>)
    ensures r.Some? ==>
              && r.value.version == "STSv1" && r.value.mode in {"enforce", "testing", "none"}
              && 86400 <= r.value.maxAge <= 31557600 && (r.value.mode == "none" || r.value.mx != [])
              && r.value.raw == text
  {
    var f := ReadLines(Fields("", "", [], 0, false), Split(text, '\n'));
    if f == None || !Acceptable(f.value) then None
    else Some(Policy(f.value.version, f.value.mode, f.value.mx, Clamp(f.value.maxAge), text))
  }

  method ParseMTASTSPolicy(text: string) returns (policy: Option<Policy>)
    ensures policy == ParsePolicy(text)
  {
    hide TrimSpace, Lower, Atoi;
    var lines := Split(text, '\n');
    var f := Fields("", "", [], 0, false);
    for i := 0 to |lines|
      invariant ReadLines(f, lines[i..]) == ReadLines(Fields("", "", [], 0, false), lines)
    {
      assert lines[i..][1..] == lines[i + 1..];
      var line := TrimSpace(lines[i]);
      var idx := IndexOf(line, ':');
      if line != "" && !HasPrefix(line, "#") && idx > 0 {
        var key, value := Lower(TrimSpace(line[..idx])), TrimSpace(line[idx + 1..]);
        if key == "version" {
          f := f.(version := value);
        } else if key == "mode" {
          f := f.(mode := Lower(value));
        } else if key == "max_age" {
          var n := Atoi(value);
          if n == None {
            return None;
          }
          f := f.(maxAge := n.value, seen := true);
        } else if key == "mx" {
          f := f.(mx := f.mx + [value]);
        }
      }
    }
    if !Acceptable(f) {
      return None;
    }
    policy := Some(Policy(f.version, f.mode, f.mx, Clamp(f.maxAge), text));
  }

  /** The values a file gives for a key, in the order of its lines. */
  function Values(key: string, lines: seq<string>): seq<string> {
    if lines == [] then []
    else
      var field := FieldOf(lines[0]);
      (if field.Some? && field.value.0 == key then [field.value.1] else []) + Values(key, lines[1..])
  }

  function LastOr(values: seq<string>, absent: string): string {
    if values == [] then absent else values[|values| - 1]
  }

  predicate Numeric(values: seq<string>) {
    forall i :: 0 <= i < |values| ==> Atoi(values[i]).Some?
  }

  /** The fields after lines that give these values. */
  function Gather(f: Fields, versions: seq<string>, modes: seq<string>, ages: seq<string>, mx: seq<string>): Option<Fields> {
    if !Numeric(ages) then None
    else Some(Fields(LastOr(versions, f.version), if modes == [] then f.mode else Lower(LastOr(modes, "")),
                     f.mx + mx, if ages == [] then f.maxAge else Atoi(LastOr(ages, "")).value, f.seen || ages != []))
  }

  function Gathered(f: Fields, lines: seq<string>): Option<Fields> {
    Gather(f, Values("version", lines), Values("mode", lines), Values("max_age", lines), Values("mx", lines))
  }

  lemma FourKeys()
    ensures "version" != "mode" && "version" != "max_age" && "version" != "mx" && "mode" != "max_age" && "mode" != "mx" && "max_age" != "mx"
  {
    assert |"version"| == 7 && |"mode"| == 4 && |"mx"| == 2 && "version"[0] == 'v' && "max_age"[0] == 'm' && |"max_age"| == 7;
  }

  lemma NumericCons(v: string, rest: seq<string>)
    ensures Numeric([v] + rest) <==> Atoi(v).Some? && Numeric(rest)
  {
    hide Atoi;
    var all := [v] + rest;
    if Numeric(all) {
      assert forall i :: 0 <= i < |rest| ==> rest[i] == all[i + 1];
      assert Atoi(all[0]).Some?;
    }
  }

  lemma ValuesStep(key: string, lines: seq<string>)
    requires lines != []
    ensures Values(key, lines) ==
            if FieldOf(lines[0]).Some? && FieldOf(lines[0]).value.0 == key
            then [FieldOf(lines[0]).value.1] + Values(key, lines[1..]) else Values(key, lines[1..])
  {
    hide FieldOf;
  }

  lemma GatherCons(f: Fields, v: string, versions: seq<string>, modes: seq<string>, ages: seq<string>, mx: seq<string>)
    ensures Gather(f, [v] + versions, modes, ages, mx) == Gather(f.(version := v), versions, modes, ages, mx)
    ensures Gather(f, versions, [v] + modes, ages, mx) == Gather(f.(mode := Lower(v)), versions, modes, ages, mx)
    ensures Gather(f, versions, modes, ages, [v] + mx) == Gather(f.(mx := f.mx + [v]), versions, modes, ages, mx)
  {
    hide Atoi, Lower, Numeric;
    assert f.mx + ([v] + mx) == (f.mx + [v]) + mx;
  }

  lemma GatherAge(f: Fields, v: string, versions: seq<string>, modes: seq<string>, ages: seq<string>, mx: seq<string>)
    ensures Gather(f, versions, modes, [v] + ages, mx) ==
            if Atoi(v) == None then None else Gather(f.(maxAge := Atoi(v).value, seen := true), versions, modes, ages, mx)
  {
    NumericCons(v, ages);
    hide Atoi, Lower, Numeric;
  }

  lemma GatherStep(f: Fields, lines: seq<string>)
    requires lines != []
    ensures Gathered(f, lines) ==
            var next := ReadLine(f, lines[0]);
            if next == None then None else Gathered(next.value, lines[1..])
  {
    hide FieldOf, Atoi, Lower, Values, Gather;
    FourKeys();
    ValuesStep("version", lines);
    ValuesStep("mode", lines);
    ValuesStep("max_age", lines);
    ValuesStep("mx", lines);
    var field, rest := FieldOf(lines[0]), lines[1..];
    var versions, modes, ages, mx := Values("version", rest), Values("mode", rest), Values("max_age", rest), Values("mx", rest);
    if field.Some? {
      GatherCons(f, field.value.1, versions, modes, ages, mx);
      GatherAge(f, field.value.1, versions, modes, ages, mx);
    }
  }

  lemma {:induction false} ReadLinesIs(f: Fields, lines: seq<string>)
    ensures ReadLines(f, lines) == Gathered(f, lines)
    decreases lines
  {
    hide ReadLine, Atoi, Lower, FieldOf;
    if lines == [] {
      assert f.mx + [] == f.mx;
    } else {
      GatherStep(f, lines);
      var next := ReadLine(f, lines[0]);
      hide Gathered;
      if next.Some? {
        ReadLinesIs(next.value, lines[1..]);
      }
    }
  }

  /** A file is accepted if and only if its last version is STSv1, its last mode is one of
      three, an mx is given unless the mode is none, and it gives a max_age and every
      max_age is a number. The policy has all mx values in order and the last max_age,
      clamped. */
  lemma PolicyIs(text: string)
    ensures var lines := Split(text, '\n');
            var ages, mode := Values("max_age", lines), Lower(LastOr(Values("mode", lines), ""));
            ParsePolicy(text) ==
            if && LastOr(Values("version", lines), "") == "STSv1"
               && mode in {"enforce", "testing", "none"}
               && (mode == "none" || Values("mx", lines) != [])
               && ages != [] && Numeric(ages)
            then Some(Policy("STSv1", mode, Values("mx", lines), Clamp(Atoi(LastOr(ages, "")).value), text))
            else None
  {
    var lines := Split(text, '\n');
    var f := Fields("", "", [], 0, false);
    ReadLinesIs(f, lines);
    assert Lower("") == "";
    hide ReadLines, Values, Atoi, Lower, Split;
    assert [] + Values("mx", lines) == Values("mx", lines);
  }

  // ---------- MX patterns ----------

  function HostName(s: string): string {
    TrimSuffix(Lower(s), ".")
  }

  predicate MatchMX(pattern: string, mx: string) {
    var p, m := HostName(pattern), HostName(mx);
    p == m ||
    (HasPrefix(p, "*.") &&
     var suffix := "." + p[2..];
     HasSuffix(m, suffix) && var host := TrimSuffix(m, suffix); host != "" && '.' !in host)
  }

  /** A pattern allows the host it names, or with a leading wildcard exactly
      the hosts one label below: not the apex and nothing deeper. */
  lemma MatchIff(pattern: string, mx: string)
    ensures MatchMX(pattern, mx) <==>
            || HostName(pattern) == HostName(mx)
            || exists host, suffix :: OneLabelBelow(HostName(pattern), HostName(mx), host, suffix)
  {
    var p, m := HostName(pattern), HostName(mx);
    hide HostName;
    if HasPrefix(p, "*.") && HasSuffix(m, "." + p[2..]) {
      var host := TrimSuffix(m, "." + p[2..]);
      assert p == "*." + p[2..];
      assert m == host + ("." + p[2..]);
      if host != "" && '.' !in host {
        assert OneLabelBelow(p, m, host, p[2..]);
      }
    }
    if host, suffix :| OneLabelBelow(p, m, host, suffix) {
      assert p[..2] == "*." && p[2..] == suffix;
      assert m[|m| - |"." + suffix|..] == "." + suffix;
      assert m[..|m| - |"." + suffix|] == host;
    }
  }

  predicate OneLabelBelow(p: string, m: string, host: string, suffix: string) {
    p == "*." + suffix && m == host + ("." + suffix) && host != "" && '.' !in host
  }

  // ---------- TXT records ----------

  datatype Texts = TempFailure | Nothing | Found(texts: seq<string>)

  /** The id of an STS record. */
  function RecordId(text: string): Option<string> {
    var tags := ParseTags(text).m;
    if "v" in tags && tags["v"] == "STSv1" && "id" in tags && tags["id"] != "" then Some(tags["id"]) else None
  }

  function Ids(texts: seq<string>): seq<string> {
    if texts == [] then []
    else (if RecordId(texts[0]).Some? then [RecordId(texts[0]).value] else []) + Ids(texts[1..])
  }

  /** A failed lookup, no usable record, or the one record's id. */
  datatype Lookup = Failed | NoRecord | Id(id: string)

  function LookupOf(answer: Texts): Lookup {
    match answer
    case TempFailure => Failed
    case Nothing => NoRecord
    case Found(texts) => if |Ids(texts)| == 1 then Id(Ids(texts)[0]) else NoRecord
  }

  method LookupMTASTSRecord(answer: Texts) returns (r: Lookup)
    ensures r == LookupOf(answer)
  {
    hide Ids;
    match answer
    case TempFailure => r := Failed;
    case Nothing => r := NoRecord;
    case Found(texts) =>
      var found, n := CountRecords(texts);
      r := if n == 1 then Id(found) else NoRecord;
  }

  method CountRecords(texts: seq<string>) returns (found: string, n: nat)
    ensures n == |Ids(texts)| && (n > 0 ==> found == Ids(texts)[n - 1])
  {
    hide RecordId, Ids;
    found, n := "", 0;
    ghost var ids: seq<string> := [];
    for i := 0 to |texts|
      invariant ids + Ids(texts[i..]) == Ids(texts) && n == |ids|
      invariant n > 0 ==> found == ids[n - 1]
    {
      NextId(texts, i);
      var id := RecordId(texts[i]);
      if id.Some? {
        found, n := id.value, n + 1;
        ids := ids + [id.value];
      }
    }
    NoMoreIds(texts);
  }

  lemma NextId(texts: seq<string>, i: nat)
    requires i < |texts|
    ensures Ids(texts[i..]) == (if RecordId(texts[i]).Some? then [RecordId(texts[i]).value] else []) + Ids(texts[i + 1..])
  {
    hide RecordId;
    assert texts[i..][1..] == texts[i + 1..];
  }

  lemma NoMoreIds(texts: seq<string>)
    ensures Ids(texts[|texts|..]) == []
  {}

  lemma {:induction false} IdsNotEmpty(texts: seq<string>)
    ensures forall i :: 0 <= i < |Ids(texts)| ==> Ids(texts)[i] != ""
  {
    if texts != [] {
      IdsNotEmpty(texts[1..]);
    }
  }

  // ---------- lines and lookups ----------

  /** A line "key: value" with any white space around both, the key in any case. */
  lemma FieldReads(key: string, value: string)
    requires key != "" && NoSpace(key) && NoSpace(value) && ':' !in key && key[0] != '#'
    ensures FieldOf(key + ": " + value) == Some((Lower(key), value)) && FieldOf(key + ":" + value) == Some((Lower(key), value))
    ensures FieldOf("#" + key + ":" + value) == None && FieldOf("") == None && FieldOf(key) == None
  {
    LineParts(key, value);
    SpacedLine(key, value);
    assert NoSpace("#" + key + ":" + value) && ("#" + key + ":" + value)[0] == '#';
    TrimSpaceNone("#" + key + ":" + value);
    TrimSpaceNone(key);
    assert TrimSpace("") == "";
    hide TrimSpace, Lower, IndexOf, NoSpace;
    assert (key + ":" + value)[0] == key[0];
  }

  lemma SpacedTrimmed(key: string, value: string)
    requires key != "" && NoSpace(key) && NoSpace(value)
    ensures TrimSpace(key + ": " + value) == key + ":" + if value == "" then "" else " " + value
  {
    var line := key + ": " + value;
    if value == "" {
      assert line == (key + ":") + " ";
      TrimSpaceKeeps(key + ":", " ");
      assert TrimRight(" ") == "" by { assert " "[..0] == ""; }
    } else {
      assert line[|line| - 1] == value[|value| - 1] && line[0] == key[0];
      TrimSpaceNone(line);
      assert line == key + ":" + (" " + value);
    }
  }

  lemma SpacedLine(key: string, value: string)
    requires key != "" && NoSpace(key) && NoSpace(value) && ':' !in key && key[0] != '#'
    ensures FieldOf(key + ": " + value) == Some((Lower(key), value))
  {
    SpacedTrimmed(key, value);
    var rest := if value == "" then "" else " " + value;
    var t := key + ":" + rest;
    IndexOfAt(key, ':', rest);
    TrimSpaceNone(key);
    TrimSpaceNone(value);
    TrimSpaceLead(value);
    hide TrimSpace, Lower, IndexOf, NoSpace;
    assert t[0] == key[0] && t[..|key|] == key && t[|key| + 1..] == rest;
    assert TrimSpace(rest) == value;
  }

  /** A lookup gives an id if and only if exactly one text is an STS record. */
  lemma LookupIff(texts: seq<string>, id: string)
    ensures LookupOf(Found(texts)) == Id(id) <==>
            exists i :: 0 <= i < |texts| && RecordId(texts[i]) == Some(id) && forall j :: 0 <= j < |texts| && j != i ==> RecordId(texts[j]) == None
  {
    hide RecordId;
    if i :| 0 <= i < |texts| && RecordId(texts[i]) == Some(id) && forall j :: 0 <= j < |texts| && j != i ==> RecordId(texts[j]) == None {
      OnlyId(texts, i);
    }
    if |Ids(texts)| == 1 {
      var i := IdAt(texts);
    }
  }

  lemma {:induction false} NoIds(texts: seq<string>)
    ensures Ids(texts) == [] <==> forall i :: 0 <= i < |texts| ==> RecordId(texts[i]) == None
  {
    hide RecordId;
    if texts != [] {
      NoIds(texts[1..]);
      assert forall i :: 1 <= i < |texts| ==> texts[i] == texts[1..][i - 1];
    }
  }

  lemma {:induction false} OnlyId(texts: seq<string>, i: nat)
    requires i < |texts| && RecordId(texts[i]).Some? && forall j :: 0 <= j < |texts| && j != i ==> RecordId(texts[j]) == None
    ensures Ids(texts) == [RecordId(texts[i]).value]
  {
    hide RecordId;
    var rest := texts[1..];
    assert forall j :: 1 <= j < |texts| ==> texts[j] == rest[j - 1];
    if i == 0 {
      forall j | 0 <= j < |rest| ensures RecordId(rest[j]) == None {
        assert rest[j] == texts[j + 1];
      }
      NoIds(rest);
    } else {
      forall j | 0 <= j < |rest| && j != i - 1 ensures RecordId(rest[j]) == None {
        assert rest[j] == texts[j + 1];
      }
      OnlyId(rest, i - 1);
      assert RecordId(texts[0]) == None;
    }
  }

  lemma {:induction false} IdAt(texts: seq<string>) returns (i: nat)
    requires |Ids(texts)| == 1
    ensures i < |texts| && RecordId(texts[i]) == Some(Ids(texts)[0]) && forall j :: 0 <= j < |texts| && j != i ==> RecordId(texts[j]) == None
  {
    hide RecordId;
    var rest := texts[1..];
    assert forall j :: 1 <= j < |texts| ==> texts[j] == rest[j - 1];
    if RecordId(texts[0]).Some? {
      NoIds(rest);
      i := 0;
      forall j | 1 <= j < |texts| ensures RecordId(texts[j]) == None {
        assert RecordId(rest[j - 1]) == None;
      }
    } else {
      var k := IdAt(rest);
      i := k + 1;
      forall j | 0 <= j < |texts| && j != i ensures RecordId(texts[j]) == None {
        assert j > 0 ==> RecordId(rest[j - 1]) == None;
      }
    }
  }

  /** A text of another version, or without an id, is no STS record. */
  lemma OtherRecords(version: string, id: string)
    requires CleanValue(version) && CleanValue(id)
    ensures RecordId(PrintTags([("v", version), ("id", id)])) == if version == "STSv1" && id != "" then Some(id) else None
  {
    var ps := [("v", version), ("id", id)];
    assert Clean(ps) by {
      assert CleanTag("v") && CleanTag("id");
      assert "v" != "id" by { assert |"v"| == 1; }
    }
    PrintedTag(ps, 0, "v");
    PrintedTag(ps, 1, "id");
    hide ParseTags, PrintTags, Clean;
  }

  // ---------- records and files that a domain can publish ----------

  function RecordText(id: string): string {
    PrintTags([("v", "STSv1"), ("id", id)])
  }

  lemma RecordReads(id: string)
    requires id != "" && CleanValue(id)
    ensures RecordId(RecordText(id)) == Some(id) && Ids([RecordText(id)]) == [id]
  {
    var ps := [("v", "STSv1"), ("id", id)];
    assert Clean(ps) by {
      assert CleanTag("v") && CleanTag("id") && CleanValue("STSv1");
      assert "v" != "id" by { assert |"v"| == 1; }
    }
    ParsePrint(ps);
    hide ParseTags, PrintTags, Clean;
    assert ps[0].0 == "v" && ps[1].0 == "id";
  }

  function PolicyLines(maxAge: nat): seq<string> {
    ["version" + ":" + "STSv1", "mode" + ":" + "none", "max_age" + ":" + Itoa(maxAge)]
  }

  /** A policy that asks for nothing, for the given time. */
  function PolicyText(maxAge: nat): string {
    Join(PolicyLines(maxAge), "\n")
  }

  lemma LineParts(k: string, v: string)
    requires k != "" && NoSpace(k) && NoSpace(v) && ':' !in k
    ensures var line := k + ":" + v;
            && line != "" && line[0] == k[0] && TrimSpace(line) == line && IndexOf(line, ':') == |k|
            && TrimSpace(line[..|k|]) == k && TrimSpace(line[|k| + 1..]) == v
  {
    var line := k + ":" + v;
    assert NoSpace(line);
    TrimSpaceNone(line);
    TrimSpaceNone(k);
    TrimSpaceNone(v);
    assert line[..|k|] == k && line[|k| + 1..] == v;
    assert line == k + ":" + v;
    IndexOfAt(k, ':', v);
    hide TrimSpace;
  }

  lemma KeyWords()
    ensures Lower("version") == "version" && Lower("mode") == "mode" && Lower("max_age") == "max_age" && Lower("none") == "none"
    ensures NoSpace("version") && NoSpace("mode") && NoSpace("max_age") && NoSpace("none") && NoSpace("STSv1")
    ensures ':' !in "version" && ':' !in "mode" && ':' !in "max_age"
  {}

  lemma {:induction false} DigitsPlain(n: nat)
    ensures NoSpace(Itoa(n)) && '\n' !in Itoa(n)
  {
    ItoaValue(n);
  }

  lemma ReadsVersion(f: Fields)
    ensures ReadLine(f, "version" + ":" + "STSv1") == Some(f.(version := "STSv1"))
  {
    KeyWords();
    LineParts("version", "STSv1");
    hide TrimSpace, Lower, Atoi, IndexOf, NoSpace;
  }

  lemma ReadsMode(f: Fields)
    ensures ReadLine(f, "mode" + ":" + "none") == Some(f.(mode := "none"))
  {
    KeyWords();
    LineParts("mode", "none");
    hide TrimSpace, Lower, Atoi, IndexOf, NoSpace;
    assert "mode" != "version" by { assert |"mode"| == 4; }
  }

  lemma ReadsAge(f: Fields, maxAge: nat)
    requires maxAge <= MAX_INT64
    ensures ReadLine(f, "max_age" + ":" + Itoa(maxAge)) == Some(f.(maxAge := maxAge, seen := true))
  {
    KeyWords();
    DigitsPlain(maxAge);
    AtoiItoa(maxAge);
    hide Atoi, Itoa;
    LineParts("max_age", Itoa(maxAge));
    hide TrimSpace, Lower, IndexOf, NoSpace;
    assert "max_age" != "mode" && "max_age" != "version" by { assert "max_age"[1] == 'a' && "mode"[1] == 'o' && "version"[1] == 'e'; }
  }

  lemma PolicyReads(maxAge: nat)
    requires maxAge <= MAX_INT64
    ensures ParsePolicy(PolicyText(maxAge)) == Some(Policy("STSv1", "none", [], Clamp(maxAge), PolicyText(maxAge)))
  {
    hide ReadLine, Itoa;
    var f0 := Fields("", "", [], 0, false);
    var f1 := f0.(version := "STSv1");
    var f2 := f1.(mode := "none");
    var f3 := f2.(maxAge := maxAge, seen := true);
    ReadsVersion(f0);
    ReadsMode(f1);
    ReadsAge(f2, maxAge);
    ThreeLines(f0, f1, f2, f3, PolicyLines(maxAge));
    PolicySplits(maxAge);
    hide ReadLines, PolicyText, Split;
  }

  lemma ThreeLines(f0: Fields, f1: Fields, f2: Fields, f3: Fields, lines: seq<string>)
    requires |lines| == 3 && ReadLine(f0, lines[0]) == Some(f1) && ReadLine(f1, lines[1]) == Some(f2) && ReadLine(f2, lines[2]) == Some(f3)
    ensures ReadLines(f0, lines) == Some(f3)
  {
    hide ReadLine;
    assert lines[1..][0] == lines[1] && lines[1..][1..] == lines[2..] && lines[2..][0] == lines[2] && lines[2..][1..] == [];
    assert ReadLines(f2, lines[2..]) == Some(f3);
    assert ReadLines(f1, lines[1..]) == Some(f3);
  }

  lemma PolicySplits(maxAge: nat)
    ensures Split(PolicyText(maxAge), '\n') == PolicyLines(maxAge)
  {
    DigitsPlain(maxAge);
    var lines := PolicyLines(maxAge);
    hide Itoa;
    assert '\n' !in lines[0] && '\n' !in lines[1] && '\n' !in lines[2];
    SplitJoin(lines, '\n');
  }
}

/** SPF check_host (RFC 7208): parsing, the mechanisms, and the recursion through
    include and redirect over the shared lookup counters. */
module Spf {
  import opened Text

  datatype Code = NoRecord | Neutral | Pass | Fail | SoftFail | TempError | PermError

  /** Resolver errors are already classified as temporary or not. */
  datatype Answer<T> = Found(value: T) | Temporary | Failed

  /** The resolver: its answers may depend on the number of the call. */
  datatype Resolver = Resolver(txt: (nat, string) -> Answer<seq<string>>,
                               ip: (nat, string) -> Answer<seq<string>>,
                               mx: (nat, string) -> Answer<seq<string>>)

  /** What depends on the client address and the sender: macro expansion in a
      domain, validity and match of ip4 and ip6 values, prefix match of an address
      under two prefix lengths, and whether an address is IPv4. */
  datatype Client = Client(expand: (string, string) -> Option<string>,
                           validIp: (string, bool) -> bool, matchesIp: (string, bool) -> bool,
                           inCidr: (string, int, int) -> bool, isIp4: string -> bool)

  /** The counters shared by a whole check, and the number of resolver calls. */
  datatype Lim = Lim(lookups: nat, voids: nat, calls: nat)

  const MAX_TERMS := 10
  const MAX_VOIDS := 2
  const MAX_MX := 10

  // ---------- parsing ----------

  datatype Term = Term(qualifier: Code, typ: string, value: string, colon: bool)

  /** Words separated by white space. */
  function Fields(s: string): seq<string> {
    if s == "" then []
    else if IsSpace(s[0]) then Fields(s[1..])
    else
      var n := WordEnd(s);
      [s[..n]] + Fields(s[n..])
  }

  function WordEnd(s: string): (n: nat)
    requires s != "" && !IsSpace(s[0])
    ensures 0 < n <= |s|
  {
    if |s| > 1 && !IsSpace(s[1]) then 1 + WordEnd(s[1..]) else 1
  }

  function Qualifier(part: string): (Code, string) {
    if part == "" then (Pass, part)
    else if part[0] == '+' then (Pass, part[1..])
    else if part[0] == '-' then (Fail, part[1..])
    else if part[0] == '~' then (SoftFail, part[1..])
    else if part[0] == '?' then (Neutral, part[1..])
    else (Pass, part)
  }

  /** The position of the first colon, slash or equals sign, -1 without one. */
  function IndexAny(s: string): (r: int)
    ensures -1 <= r < |s|
  {
    if s == "" then -1
    else if s[0] == ':' || s[0] == '/' || s[0] == '=' then 0
    else
      var r := IndexAny(s[1..]);
      if r < 0 then -1 else r + 1
  }

  /** One term. Unknown modifiers get an empty type and are ignored. */
  function ParseTerm(word: string): Term {
    var (q, part) := Qualifier(word);
    TermOf(q, part)
  }

  function TermOf(q: Code, part: string): Term {
    var any := IndexAny(part);
    if any > 0 && part[any] == '=' then
      var name := Lower(part[..any]);
      if name == "redirect" || name == "exp" then Term(q, name, part[any + 1..], false) else Term(q, "", "", false)
    else
      var colon, slash := IndexOf(part, ':'), IndexOf(part, '/');
      if colon > 0 then Term(q, Lower(part[..colon]), part[colon + 1..], true)
      else if slash > 0 && (EqualFold(part[..slash], "a") || EqualFold(part[..slash], "mx"))
      then Term(q, Lower(part[..slash]), part[slash..], false)
      else Term(q, Lower(part), "", false)
  }

  function ParseTerms(parts: seq<string>): seq<Term> {
    if parts == [] then []
    else
      var t := ParseTerm(parts[0]);
      (if t.typ == "" then [] else [t]) + ParseTerms(parts[1..])
  }

  /** The version word reads as an unknown modifier, so skipping it is implied. */
  function Parse(record: string): seq<Term> {
    ParseTerms(Fields(record))
  }

  /** The position of the first double slash, -1 without one. */
  function DoubleSlash(s: string): (r: int)
    ensures -1 <= r && (r >= 0 ==> r + 2 <= |s|)
  {
    if |s| < 2 then -1
    else if s[0] == '/' && s[1] == '/' then 0
    else
      var r := DoubleSlash(s[1..]);
      if r < 0 then -1 else r + 1
  }

  function LastSlash(s: string): (r: int)
    ensures -1 <= r < |s|
  {
    if s == "" then -1 else if s[|s| - 1] == '/' then |s| - 1 else LastSlash(s[..|s| - 1])
  }

  function PrefixLength(s: string, most: int): Option<int> {
    var n := Atoi(s);
    if n == None || n.value < 0 || n.value > most then None else n
  }

  /** An a or mx value: the host and the two prefix lengths. */
  function SplitDual(value: string): (r: Option<(string, int, int)>)
    ensures r.Some? ==> r.value.0 <= value
  {
    var i := DoubleSlash(value);
    var v6 := if i >= 0 then PrefixLength(value[i + 2..], 128) else Some(128);
    var front := if i >= 0 then value[..i] else value;
    var j := LastSlash(front);
    var v4 := if j >= 0 then PrefixLength(front[j + 1..], 32) else Some(32);
    if v6 == None || v4 == None then None else Some((if j >= 0 then front[..j] else front, v4.value, v6.value))
  }

  predicate IsMechanism(typ: string) {
    typ in {"all", "include", "a", "mx", "ptr", "ip4", "ip6", "exists"}
  }

  predicate IsDnsTerm(typ: string) {
    typ in {"include", "a", "mx", "ptr", "exists", "redirect"}
  }

  /** A mechanism the first pass refuses as a syntax error. */
  predicate Malformed(t: Term) {
    || !IsMechanism(t.typ)
    || (t.typ in {"include", "exists"} && t.value == "")
    || (t.typ in {"a", "mx"} && t.colon && SplitDual(t.value).Some? && SplitDual(t.value).value.0 == "")
    || (t.typ == "all" && (t.colon || t.value != ""))
  }

  datatype Front = Bad | Good(redirect: string, mechs: seq<Term>)

  /** The first pass: modifiers are set apart and every syntax error is found
      before any mechanism is evaluated. */
  function Separate(terms: seq<Term>, redirect: Option<string>, mechs: seq<Term>): Front {
    if terms == [] then Good(if redirect == None then "" else redirect.value, mechs)
    else
      var t := terms[0];
      if t.typ == "redirect" then
        if redirect.Some? || t.value == "" then Bad else Separate(terms[1..], Some(t.value), mechs)
      else if t.typ == "exp" then Separate(terms[1..], redirect, mechs)
      else if Malformed(t) then Bad
      else Separate(terms[1..], redirect, mechs + [t])
  }

  // ---------- records ----------

  predicate IsSpf(record: string) {
    |record| >= 6 && EqualFold(record[..6], "v=spf1") && (|record| == 6 || record[6] == ' ')
  }

  function SpfRecords(txts: seq<string>): seq<string> {
    if txts == [] then [] else (if IsSpf(txts[0]) then [txts[0]] else []) + SpfRecords(txts[1..])
  }

  datatype Lookup = Record(record: string) | TempFailure | Several | Missing

  function LookupSpf(r: Resolver, call: nat, domain: string): Lookup {
    match r.txt(call, domain)
    case Temporary => TempFailure
    case Failed => Missing
    case Found(txts) =>
      var found := SpfRecords(txts);
      if |found| > 1 then Several else if |found| == 1 then Record(found[0]) else Missing
  }
}

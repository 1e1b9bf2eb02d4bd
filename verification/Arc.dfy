/** Authenticated Received Chain (RFC 8617): sealing a message and validating the chain. */
module Arc {
  import opened Text
  import opened Sequences
  import opened TagList
  import opened DkimHeaders
  import opened Dkim

  const MAX_INSTANCE: nat := 50

  datatype Kind = Results | MessageSignature | Seal

  datatype Entry = Entry(kind: Kind, value: string)

  datatype ArcSet = ArcSet(aar: string, ams: string, seal: string)

  function KeyOf(kind: Kind): string {
    match kind
    case Results => "ARC-Authentication-Results"
    case MessageSignature => "ARC-Message-Signature"
    case Seal => "ARC-Seal"
  }

  function LowerKeyOf(kind: Kind): string {
    match kind
    case Results => "arc-authentication-results"
    case MessageSignature => "arc-message-signature"
    case Seal => "arc-seal"
  }

  function ValueOf(s: ArcSet, kind: Kind): string {
    match kind
    case Results => s.aar
    case MessageSignature => s.ams
    case Seal => s.seal
  }

  // ---------- reading ARC headers ----------

  /** The leading i= of an ARC header, 0 when absent or not positive. */
  function ExtractInstance(header: string): nat {
    var h := TrimSpace(header);
    if !HasPrefix(h, "i") then 0
    else
      var rest := TrimSpace(h[1..]);
      if !HasPrefix(rest, "=") then 0
      else
        var end := IndexOf(rest[1..], ';');
        if end < 0 then 0
        else
          var n := Atoi(TrimSpace(rest[1..][..end]));
          if n == None || n.value < 1 then 0 else n.value
  }

  function Tagged(kind: Kind, values: seq<string>): seq<Entry> {
    seq(|values|, i requires 0 <= i < |values| => Entry(kind, values[i]))
  }

  /** The ARC headers of a message. Go visits the map keys in any order;
      OrderIrrelevant shows that only the order within a kind matters. */
  function Extract(h: Headers): seq<Entry>
    requires UniqueFold(h)
  {
    Tagged(Results, LookupField(h, LowerKeyOf(Results)).1)
    + Tagged(MessageSignature, LookupField(h, LowerKeyOf(MessageSignature)).1)
    + Tagged(Seal, LookupField(h, LowerKeyOf(Seal)).1)
  }

  function Put(s: ArcSet, e: Entry): ArcSet {
    match e.kind
    case Results => s.(aar := e.value)
    case MessageSignature => s.(ams := e.value)
    case Seal => s.(seal := e.value)
  }

  const EMPTY_SET: ArcSet := ArcSet("", "", "")

  function SetAt(sets: map<nat, ArcSet>, i: nat): ArcSet {
    if i in sets then sets[i] else EMPTY_SET
  }

  function AddEntry(sets: map<nat, ArcSet>, e: Entry): map<nat, ArcSet> {
    var i := ExtractInstance(e.value);
    if i == 0 then sets else sets[i := Put(SetAt(sets, i), e)]
  }

  function GroupFrom(es: seq<Entry>, sets: map<nat, ArcSet>): map<nat, ArcSet> {
    if es == [] then sets else GroupFrom(es[1..], AddEntry(sets, es[0]))
  }

  function Group(es: seq<Entry>): map<nat, ArcSet> {
    GroupFrom(es, map[])
  }

  function MaxInstance(es: seq<Entry>): nat {
    if es == [] then 0
    else
      var rest, i := MaxInstance(es[1..]), ExtractInstance(es[0].value);
      if i > rest then i else rest
  }

  function NextInstance(h: Headers): nat
    requires UniqueFold(h)
  {
    MaxInstance(Extract(h)) + 1
  }

  function CountOf(es: seq<Entry>, kind: Kind, i: nat): nat {
    if es == [] then 0
    else CountOf(es[1..], kind, i) + if es[0].kind == kind && ExtractInstance(es[0].value) == i then 1 else 0
  }

  /** Every ARC header has an instance, and each instance has one of each kind. */
  predicate StructureValid(es: seq<Entry>) {
    forall j :: 0 <= j < |es| ==>
      var i := ExtractInstance(es[j].value);
      i > 0 && CountOf(es, Results, i) == 1 && CountOf(es, MessageSignature, i) == 1 && CountOf(es, Seal, i) == 1
  }

  // ---------- hash inputs ----------

  function FieldForHash(name: string, value: string, canon: string): string {
    TrimSuffix(CanonicalizeHeader(name, value, canon), CRLF)
  }

  function ArcCanons(c: string): (string, string) {
    if c == "" then ("simple", "simple")
    else
      var i := IndexOf(c, '/');
      var h, b := if i < 0 then c else c[..i], if i < 0 then "simple" else c[i + 1..];
      (if h == "relaxed" then h else "simple", if b == "relaxed" then b else "simple")
  }

  function NotArc(names: seq<string>): seq<string> {
    if names == [] then []
    else
      var l := Lower(TrimSpace(names[0]));
      (if l == "" || HasPrefix(l, "arc-") then [] else [l]) + NotArc(names[1..])
  }

  function AmsInput(ams: string, h: Headers, signed: seq<string>, canon: string): string
    requires UniqueFold(h)
  {
    HashInput(h, NotArc(signed), canon) + FieldForHash("ARC-Message-Signature", StripB(ams), canon)
  }

  function SealedSets(sets: map<nat, ArcSet>, n: nat): string {
    if n == 0 then ""
    else
      var s := SetAt(sets, n);
      SealedSets(sets, n - 1)
      + CanonicalizeRelaxed(KeyOf(Results), s.aar)
      + CanonicalizeRelaxed(KeyOf(MessageSignature), s.ams)
      + CanonicalizeRelaxed(KeyOf(Seal), s.seal)
  }

  /** Every set below instance, then the set being sealed with b= emptied. */
  function SealInput(sets: map<nat, ArcSet>, aar: string, ams: string, seal: string, instance: nat): string
    requires instance >= 1
  {
    SealedSets(sets, instance - 1)
    + CanonicalizeRelaxed(KeyOf(Results), aar)
    + CanonicalizeRelaxed(KeyOf(MessageSignature), ams)
    + FieldForHash(KeyOf(Seal), StripB(seal), "relaxed")
  }

  // ---------- validating ----------

  datatype Check = Valid | Invalid | KeyError | TempFailure

  function CheckSignature(c: Crypto, dns: Dns, t: Tags, input: string): Check {
    match dns(t.Get("s"), t.Get("d"))
    case Temporary => TempFailure
    case NoKey => KeyError
    case Found(keyType, key) =>
      if keyType != Rsa then KeyError
      else if c.verify(Rsa, key, input, t.Get("b")) then Valid else Invalid
  }

  predicate Usable(t: Tags) {
    && t.Get("b") != "" && t.Get("d") != "" && t.Get("s") != ""
    && (EqualFold(t.Get("a"), "rsa-sha256") || t.Get("a") == "")
  }

  function ValidateAMS(c: Crypto, dns: Dns, ams: string, h: Headers, body: string): Check
    requires UniqueFold(h)
  {
    var t := ParseTags(ams);
    var (hc, bc) := ArcCanons(t.Get("c"));
    if ams == "" || !Usable(t) then Invalid
    else if t.Get("bh") == "" || ComputeBodyHash(c, body, bc) != t.Get("bh") then Invalid
    else CheckSignature(c, dns, t, AmsInput(ams, h, ParseHeaderList(t.Get("h")), hc))
  }

  predicate AllSets(sets: map<nat, ArcSet>, n: nat) {
    forall k :: 1 <= k <= n ==> k in sets && sets[k].aar != "" && sets[k].ams != "" && sets[k].seal != ""
  }

  function ValidateSeal(c: Crypto, dns: Dns, seal: string, h: Headers, instance: nat): Check
    requires UniqueFold(h) && instance >= 1
  {
    var t := ParseTags(seal);
    var sets := Group(Extract(h));
    if seal == "" || !Usable(t) || ExtractInstance(seal) != instance || !AllSets(sets, instance) then Invalid
    else
      var cur := sets[instance];
      CheckSignature(c, dns, t, SealInput(sets, cur.aar, cur.ams, seal, instance))
  }

  /** What validation reports on one set. */
  datatype Report = Report(instance: nat, headers: ArcSet, validated: bool, amsValid: bool, sealValid: bool)

  datatype Chain = Chain(valid: bool, length: nat, cv: string, sealDomain: string, sealSelector: string, sets: seq<Report>)

  datatype Outcome = Validated(chain: Chain) | Unreachable

  /** One set of a structurally sound chain of n sets: None when a key lookup
      failed temporarily, otherwise whether the set is acceptable. */
  function SetVerdict(c: Crypto, dns: Dns, h: Headers, body: string, i: nat, n: nat): Option<bool>
    requires UniqueFold(h) && 1 <= i
  {
    var s := SetAt(Group(Extract(h)), i);
    var ams, seal := ValidateAMS(c, dns, s.ams, h, body), ValidateSeal(c, dns, s.seal, h, i);
    if (ams == TempFailure && i == n) || seal == TempFailure then None
    else
      var cv := Lower(ParseTags(s.seal).Get("cv"));
      Some(seal == Valid && (i == n ==> ams == Valid) && cv == if i == 1 then "none" else "pass")
  }

  /** All of the sets 1..k of a chain of n. */
  function SetsVerdict(c: Crypto, dns: Dns, h: Headers, body: string, k: nat, n: nat): Option<bool>
    requires UniqueFold(h)
  {
    if k == 0 then Some(true)
    else
      var below := SetsVerdict(c, dns, h, body, k - 1, n);
      if below == None then None
      else
        var v := SetVerdict(c, dns, h, body, k, n);
        if v == None then None else Some(below.value && v.value)
  }

  /** Only the newest message signature must verify; every seal must. */
  function SetReport(c: Crypto, dns: Dns, h: Headers, body: string, i: nat, n: nat): Report
    requires UniqueFold(h) && 1 <= i
  {
    var s := SetAt(Group(Extract(h)), i);
    var ams, seal := ValidateAMS(c, dns, s.ams, h, body) == Valid, ValidateSeal(c, dns, s.seal, h, i) == Valid;
    Report(i, s, seal && (ams || i != n), ams, seal)
  }

  function Reports(c: Crypto, dns: Dns, h: Headers, body: string, k: nat, n: nat): seq<Report>
    requires UniqueFold(h)
  {
    if k == 0 then [] else Reports(c, dns, h, body, k - 1, n) + [SetReport(c, dns, h, body, k, n)]
  }

  /** The sets of a malformed chain in order of their instances, none of them checked. */
  function Unchecked(sets: map<nat, ArcSet>): seq<Report> {
    var xs := InOrder(sets.Keys);
    seq(|xs|, k requires 0 <= k < |xs| => Report(xs[k], SetAt(sets, xs[k]), false, false, false))
  }

  function ChainVerdict(c: Crypto, dns: Dns, h: Headers, body: string): Outcome
    requires UniqueFold(h)
  {
    var es := Extract(h);
    var sets := Group(es);
    var n := |sets|;
    if es == [] then Validated(Chain(false, 0, "none", "", "", []))
    else if !StructureValid(es) || n > MAX_INSTANCE || !(forall i | 1 <= i <= n :: i in sets) then
      Validated(Chain(false, n, "fail", "", "", Unchecked(sets)))
    else match SetsVerdict(c, dns, h, body, n, n)
      case None => Unreachable
      case Some(false) => Validated(Chain(false, n, "fail", "", "", Reports(c, dns, h, body, n, n)))
      case Some(true) =>
        var t := ParseTags(SetAt(sets, n).seal);
        Validated(Chain(true, n, "pass", t.Get("d"), t.Get("s"), Reports(c, dns, h, body, n, n)))
  }

  // ---------- sealing ----------

  const CANDIDATES: seq<string> :=
    ["from", "to", "cc", "subject", "date", "message-id", "in-reply-to", "references", "mime-version",
     "content-type", "content-transfer-encoding", "list-id", "reply-to", "sender", "dkim-signature"]

  datatype ArcSigner = ArcSigner(key: Option<nat>, domain: string, selector: string, hasResolver: bool)

  function AmsPairs(s: ArcSigner, signed: seq<string>, bodyHash: string, instance: nat, time: nat): seq<Pair> {
    [("i", Itoa(instance)), ("a", "rsa-sha256"), ("c", "relaxed/relaxed"), ("d", s.domain), ("s", s.selector),
     ("t", Itoa(time)), ("h", Join(signed, ":")), ("bh", bodyHash)]
  }

  function SealPairs(s: ArcSigner, cv: string, instance: nat, time: nat): seq<Pair> {
    [("i", Itoa(instance)), ("a", "rsa-sha256"), ("t", Itoa(time)), ("cv", cv), ("d", s.domain), ("s", s.selector)]
  }

  function CreateAMS(c: Crypto, s: ArcSigner, h: Headers, body: string, instance: nat, time: nat): Option<string>
    requires UniqueFold(h) && s.key.Some?
  {
    var signed := PresentOf(h, CANDIDATES);
    var ams := PrintTags(AmsPairs(s, signed, ComputeBodyHash(c, body, "relaxed"), instance, time) + [("b", "")]);
    var signature := c.sign(Rsa, s.key.value, AmsInput(ams, h, signed, "relaxed"));
    if signature == None then None else Some(ams + signature.value)
  }

  function CreateSeal(c: Crypto, s: ArcSigner, h: Headers, aar: string, ams: string, cv: string,
                      instance: nat, time: nat): Option<string>
    requires UniqueFold(h) && s.key.Some? && instance >= 1
  {
    var seal := PrintTags(SealPairs(s, cv, instance, time) + [("b", "")]);
    var signature := c.sign(Rsa, s.key.value, SealInput(Group(Extract(h)), aar, ams, seal, instance));
    if signature == None then None else Some(seal + signature.value)
  }

  /** Line breaks in caller-supplied results become spaces. */
  function OneLine(s: string): string {
    seq(|s|, i requires 0 <= i < |s| => if s[i] == '\r' || s[i] == '\n' then ' ' else s[i])
  }

  function ResultsValue(authResults: string, instance: nat): string {
    "i=" + Itoa(instance) + "; " + TrimSpace(OneLine(authResults))
  }

  function ChainCV(c: Crypto, dns: Dns, s: ArcSigner, h: Headers, body: string): Option<string>
    requires UniqueFold(h)
  {
    if Extract(h) == [] then Some("none")
    else if !s.hasResolver then Some("fail")
    else match ChainVerdict(c, dns, h, body)
      case Unreachable => None
      case Validated(chain) => Some(if chain.cv == "pass" then "pass" else "fail")
  }

  /** One forwarding hop: who seals, what it reports, and when. */
  datatype Hop = Hop(signer: ArcSigner, authResults: string, amsTime: nat, sealTime: nat)

  /** The three headers of a set, once the cv= value is settled. */
  function MakeSet(c: Crypto, hop: Hop, h: Headers, body: string, instance: nat, cv: string): Option<ArcSet>
    requires UniqueFold(h) && hop.signer.key.Some? && instance >= 1
  {
    var aar := ResultsValue(hop.authResults, instance);
    var ams := CreateAMS(c, hop.signer, h, body, instance, hop.amsTime);
    if ams == None then None
    else
      var seal := CreateSeal(c, hop.signer, h, aar, ams.value, cv, instance, hop.sealTime);
      if seal == None then None else Some(ArcSet(aar, ams.value, seal.value))
  }

  function SignWithCV(c: Crypto, dns: Dns, hop: Hop, h: Headers, body: string, instance: nat, cv: string): Option<ArcSet>
    requires UniqueFold(h)
  {
    if hop.signer.key == None || instance < 1 || instance > MAX_INSTANCE || instance != NextInstance(h) then None
    else if cv == "" then
      var computed := ChainCV(c, dns, hop.signer, h, body);
      if computed == None then None else MakeSet(c, hop, h, body, instance, computed.value)
    else if cv != "none" && cv != "pass" && cv != "fail" then None
    else MakeSet(c, hop, h, body, instance, cv)
  }

  function Old(h: Headers, key: string): seq<string> {
    if key in h then h[key] else []
  }

  /** The new headers go on top of any with the same key. */
  function AddSet(h: Headers, s: ArcSet): Headers {
    h[KeyOf(Results) := [s.aar] + Old(h, KeyOf(Results))]
     [KeyOf(MessageSignature) := [s.ams] + Old(h, KeyOf(MessageSignature))]
     [KeyOf(Seal) := [s.seal] + Old(h, KeyOf(Seal))]
  }

  function SealWithCV(c: Crypto, dns: Dns, hop: Hop, h: Headers, body: string, cv: string): Option<Headers>
    requires UniqueFold(h)
  {
    var s := SignWithCV(c, dns, hop, h, body, NextInstance(h), cv);
    if s == None then None else Some(AddSet(h, s.value))
  }
}

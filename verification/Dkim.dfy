/** DKIM signing and verification (RFC 6376). Cryptography and DNS are parameters. */
module Dkim {
  import opened Text
  import opened TagList
  import opened DkimHeaders
  import DkimBody

  datatype KeyType = Rsa | Ed25519

  /** Keys are opaque numbers; digests and signatures are base64 text. */
  datatype Crypto = Crypto(
    sha256: string -> string,
    publicOf: (KeyType, nat) -> nat,
    sign: (KeyType, nat, string) -> Option<string>,
    verify: (KeyType, nat, string, string) -> bool)

  predicate IsBase64(s: string) {
    s != "" && CleanValue(s)
  }

  /** All that is assumed of the cryptography: a signature that was produced
      verifies under the matching public key, and base64 is non-empty text
      without semicolons or white space. */
  ghost predicate Sound(c: Crypto) {
    && (forall d: string :: IsBase64(c.sha256(d)))
    && (forall t: KeyType, k: nat, d: string :: c.sign(t, k, d).Some? ==>
          IsBase64(c.sign(t, k, d).value) && c.verify(t, c.publicOf(t, k), d, c.sign(t, k, d).value))
  }

  datatype KeyAnswer = Found(keyType: KeyType, key: nat) | NoKey | Temporary

  /** The public key published for (selector, domain), or why there is none. */
  type Dns = (string, string) -> KeyAnswer

  function CanonicalizeBody(body: string, canon: string): string {
    if canon == "relaxed" then DkimBody.Relaxed(body) else DkimBody.Simple(body)
  }

  function ComputeBodyHash(c: Crypto, body: string, canon: string): string {
    c.sha256(CanonicalizeBody(body, canon))
  }

  /** The DKIM-Signature field as it is hashed: b= emptied, no final CRLF. */
  function SignatureFieldForHash(value: string, canon: string): string {
    var n := |"DKIM-Signature:"|;
    var v := if |value| >= n && EqualFold(value[..n], "DKIM-Signature:") then value[n..] else value;
    var blank := BlankB(v);
    if canon == "relaxed" then TrimSuffix(CanonicalizeRelaxed("dkim-signature", blank), CRLF)
    else "DKIM-Signature: " + TrimLeftWsp(blank)
  }

  function TrimLeftWsp(s: string): string {
    if s != "" && (s[0] == ' ' || s[0] == '\t') then TrimLeftWsp(s[1..]) else s
  }

  // ---------- signing ----------

  datatype Signer = Signer(algorithm: string, key: Option<nat>, domain: string, selector: string)

  function KeyTypeOf(algorithm: string): Option<KeyType> {
    if algorithm == "rsa-sha256" then Some(Rsa)
    else if algorithm == "ed25519-sha256" then Some(Ed25519)
    else None
  }

  function SignaturePairs(s: Signer, list: seq<string>, now: nat, bodyHash: string): seq<Pair> {
    [("v", "1"), ("a", s.algorithm), ("c", "relaxed/simple"), ("d", s.domain), ("s", s.selector),
     ("t", Itoa(now)), ("bh", bodyHash), ("h", Join(list, ":"))]
  }

  function BuildHeader(pairs: seq<Pair>, signature: string): string {
    PrintTags(pairs + [("b", signature)])
  }

  /** The bytes the signer signs. */
  function SignedBytes(c: Crypto, s: Signer, h: Headers, body: string, now: nat): string
    requires UniqueFold(h)
  {
    var list := SignedHeaderList(h);
    var pairs := SignaturePairs(s, list, now, ComputeBodyHash(c, body, "simple"));
    HashInput(h, list, "relaxed") + SignatureFieldForHash(BuildHeader(pairs, ""), "relaxed")
  }

  /** The DKIM-Signature value; None when there is no key or signing fails. */
  function Sign(c: Crypto, s: Signer, h: Headers, body: string, now: nat): Option<string>
    requires UniqueFold(h)
  {
    if s.key == None || KeyTypeOf(s.algorithm) == None then None
    else
      var signature := c.sign(KeyTypeOf(s.algorithm).value, s.key.value, SignedBytes(c, s, h, body, now));
      if signature == None then None
      else
        var pairs := SignaturePairs(s, SignedHeaderList(h), now, ComputeBodyHash(c, body, "simple"));
        Some(BuildHeader(pairs, signature.value))
  }

  // ---------- parsing ----------

  datatype Signature = Signature(
    domain: string, selector: string, algorithm: string, headerCanon: string, bodyCanon: string,
    timestamp: int, expiration: int, signedHeaders: seq<string>, bodyHash: string, signature: string,
    bodyLength: int)

  function ParseStrictUint(s: string): Option<int> {
    if s == "" || |s| > 18 || !AllDigits(s) then None else Some(DigitsValue(s))
  }

  function UintTag(t: Tags, tag: string, default: int): Option<int> {
    if tag in t.m then ParseStrictUint(t.m[tag]) else Some(default)
  }

  function NormalizeNames(names: seq<string>): seq<string> {
    if names == [] then []
    else
      var name := TrimSpace(Lower(names[0]));
      (if name == "" then [] else [name]) + NormalizeNames(names[1..])
  }

  function ParseHeaderList(s: string): seq<string> {
    NormalizeNames(Split(s, ':'))
  }

  function Canons(t: Tags): Option<(string, string)> {
    if "c" !in t.m then Some(("simple", "simple"))
    else
      var parts := Split(t.m["c"], '/');
      if |parts| > 2 || exists i :: 0 <= i < |parts| && parts[i] != "simple" && parts[i] != "relaxed" then None
      else Some((parts[0], if |parts| == 2 then parts[1] else "simple"))
  }

  predicate UsableQuery(t: Tags) {
    "q" in t.m ==> var methods := Split(t.m["q"], ':'); exists i :: 0 <= i < |methods| && TrimSpace(methods[i]) == "dns/txt"
  }

  function ParseSignature(header: string): Option<Signature> {
    var t := ParseTags(TrimSpace(TrimPrefix(header, "DKIM-Signature:")));
    var canons := Canons(t);
    var ts, exp, len := UintTag(t, "t", 0), UintTag(t, "x", 0), UintTag(t, "l", -1);
    if t.dup || t.Get("v") != "1" || "a" !in t.m || canons == None || !UsableQuery(t)
       || ts == None || exp == None || len == None
       || t.Get("d") == "" || t.Get("s") == "" || t.Get("bh") == "" || t.Get("b") == ""
    then None
    else Some(Signature(t.Get("d"), t.Get("s"), t.Get("a"), canons.value.0, canons.value.1, ts.value, exp.value,
                        if "h" in t.m then ParseHeaderList(t.m["h"]) else [], t.Get("bh"), t.Get("b"), len.value))
  }

  // ---------- verifying ----------

  datatype Verdict = Pass | Fail | PermError | TempError

  /** The bytes the verifier checks the signature against. */
  function VerifiedBytes(h: Headers, sig: Signature, header: string): string
    requires UniqueFold(h)
  {
    HashInput(h, sig.signedHeaders, sig.headerCanon) + SignatureFieldForHash(header, sig.headerCanon)
  }

  function Verify(c: Crypto, dns: Dns, h: Headers, body: string, header: string, now: int): Verdict
    requires UniqueFold(h)
  {
    var parsed := ParseSignature(header);
    if parsed == None then Fail
    else
      var sig := parsed.value;
      var keyType := KeyTypeOf(sig.algorithm);
      if keyType == None then Fail
      else if "from" !in sig.signedHeaders then PermError
      else if sig.expiration > 0 && now > sig.expiration then Fail
      else match dns(sig.selector, sig.domain)
        case Temporary => TempError
        case NoKey => Fail
        case Found(found, key) =>
          var canonical := CanonicalizeBody(body, sig.bodyCanon);
          if sig.bodyLength > |canonical| then Fail
          else
            var hashed := if sig.bodyLength >= 0 then canonical[..sig.bodyLength] else canonical;
            if c.sha256(hashed) != sig.bodyHash then Fail
            else if found != keyType.value then Fail
            else if c.verify(found, key, VerifiedBytes(h, sig, header), sig.signature) then Pass
            else Fail
  }

  // ---------- the signer's output verifies ----------

  /** What a signer must be configured with: names that fit into a tag list. */
  predicate Configured(s: Signer) {
    && KeyTypeOf(s.algorithm).Some? && s.key.Some?
    && s.domain != "" && s.selector != "" && CleanValue(s.domain) && CleanValue(s.selector)
  }

  /** A field name as it stands in an h= list. */
  predicate PlainName(x: string) {
    x != "" && forall i :: 0 <= i < |x| ==> 'a' <= x[i] <= 'z' || x[i] == '-'
  }

  predicate PlainNames(list: seq<string>) {
    forall i :: 0 <= i < |list| ==> PlainName(list[i])
  }

  lemma PlainIsClean(x: string)
    requires PlainName(x)
    ensures CleanValue(x) && ':' !in x && Lower(x) == x && TrimSpace(x) == x
  {
    LowerOfLower(x);
    TrimSpaceNone(x);
  }

  lemma {:induction false} JoinPlain(list: seq<string>)
    requires PlainNames(list)
    ensures CleanValue(Join(list, ":"))
  {
    if list != [] {
      PlainIsClean(list[0]);
      JoinPlain(list[1..]);
      if |list| > 1 {
        var j := Join(list, ":");
        assert j == list[0] + ":" + Join(list[1..], ":");
        assert forall c :: c in j ==> c in list[0] || c == ':' || c in Join(list[1..], ":");
      }
    }
  }

  lemma {:induction false} NormalizePlain(list: seq<string>)
    requires PlainNames(list)
    ensures NormalizeNames(list) == list
  {
    if list != [] {
      PlainIsClean(list[0]);
      NormalizePlain(list[1..]);
    }
  }

  /** An h= list reads back as it was written. */
  lemma HeaderListRoundTrip(list: seq<string>)
    requires PlainNames(list)
    ensures ParseHeaderList(Join(list, ":")) == list
  {
    if list == [] {
      assert Split("", ':') == [""];
      assert NormalizeNames([""]) == [] by { assert Lower("") == "" && [""][1..] == []; }
    } else {
      forall i | 0 <= i < |list| ensures ':' !in list[i] {
        PlainIsClean(list[i]);
      }
      SplitJoin(list, ':');
      NormalizePlain(list);
    }
  }

  lemma ShortNamesPlain()
    ensures PlainName("from") && PlainName("to") && PlainName("cc") && PlainName("subject") && PlainName("date")
    ensures PlainName("list-id") && PlainName("reply-to") && PlainName("sender")
  {}

  lemma LongNamesPlain()
    ensures PlainName("message-id") && PlainName("in-reply-to") && PlainName("references") && PlainName("mime-version")
    ensures PlainName("content-type") && PlainName("content-transfer-encoding") && PlainName("dkim-signature")
  {}

  lemma SignedListPlain(h: Headers)
    ensures PlainNames(SignedHeaderList(h))
  {
    ShortNamesPlain();
    LongNamesPlain();
    var opt := PresentOf(h, OPTIONAL_SIGNED);
    forall i | 0 <= i < |opt| ensures PlainName(opt[i]) {
      assert opt[i] in opt;
    }
    hide PlainName, PresentOf;
  }

  const DKIM_TAGS: seq<string> := ["v", "a", "c", "d", "s", "t", "bh", "h", "b"]

  lemma DkimTagsClean()
    ensures CleanTags(DKIM_TAGS)
  {}

  lemma SignatureTags(s: Signer, list: seq<string>, now: nat, bodyHash: string, signature: string)
    ensures TagsOf(SignaturePairs(s, list, now, bodyHash) + [("b", signature)]) == DKIM_TAGS
  {}

  lemma ConstantsClean()
    ensures CleanValue("1") && CleanValue("relaxed/simple") && CleanValue("rsa-sha256") && CleanValue("ed25519-sha256")
  {}

  lemma ItoaClean(n: nat)
    ensures CleanValue(Itoa(n))
  {
    assert AllDigits(Itoa(n));
  }

  lemma SignatureValues(s: Signer, list: seq<string>, now: nat, bodyHash: string, i: nat)
    requires Configured(s) && PlainNames(list) && IsBase64(bodyHash) && i < 8
    ensures CleanValue(SignaturePairs(s, list, now, bodyHash)[i].1)
  {
    ConstantsClean();
    if i == 5 {
      ItoaClean(now);
    } else if i == 7 {
      JoinPlain(list);
    }
  }

  lemma SignatureClean(s: Signer, list: seq<string>, now: nat, bodyHash: string, signature: string)
    requires Configured(s) && PlainNames(list) && IsBase64(bodyHash) && CleanValue(signature)
    ensures Clean(SignaturePairs(s, list, now, bodyHash) + [("b", signature)])
    ensures TagsOf(SignaturePairs(s, list, now, bodyHash) + [("b", signature)]) == DKIM_TAGS
  {
    var ps := SignaturePairs(s, list, now, bodyHash);
    SignatureTags(s, list, now, bodyHash, signature);
    DkimTagsClean();
    forall i | 0 <= i < 8 ensures CleanValue(ps[i].1) {
      SignatureValues(s, list, now, bodyHash, i);
    }
    var all := ps + [("b", signature)];
    assert forall i :: 0 <= i < |all| ==> all[i].1 == if i < 8 then ps[i].1 else signature;
    CleanByTags(all, DKIM_TAGS);
  }

  lemma ReadsItself(ps: seq<Pair>)
    requires Clean(ps) && ps[0].0[0] != 'D'
    ensures TrimSpace(TrimPrefix(PrintTags(ps), "DKIM-Signature:")) == PrintTags(ps)
    ensures EqualFoldPrefix(PrintTags(ps), "DKIM-Signature:") ==> ps[0].0[0] == 'd'
  {
    PrintEnds(ps);
    TrimSpaceNone(PrintTags(ps));
    var v := PrintTags(ps);
    if EqualFoldPrefix(v, "DKIM-Signature:") {
      assert Lower(v[..|"DKIM-Signature:"|])[0] == LowerChar(v[0]);
      assert Lower("DKIM-Signature:")[0] == 'd';
    }
  }

  predicate EqualFoldPrefix(s: string, p: string) {
    |s| >= |p| && EqualFold(s[..|p|], p)
  }

  lemma {:induction false} PrintEnds(ps: seq<Pair>)
    requires Clean(ps)
    ensures var v := PrintTags(ps); v != "" && v[0] == ps[0].0[0] && !IsSpace(v[0]) && !IsSpace(v[|v| - 1])
  {
    var n := |ps| - 1;
    var f := Field(ps[n]);
    assert f[|f| - 1] == if ps[n].1 == "" then '=' else ps[n].1[|ps[n].1| - 1];
    assert f[0] == ps[n].0[0];
    if n > 0 {
      PrintEnds(ps[..n]);
    }
  }

  /** The tags of the header the signer emits, one by one. */
  lemma BuiltTags(s: Signer, list: seq<string>, now: nat, bodyHash: string, signature: string, t: Tags)
    requires Configured(s) && PlainNames(list) && IsBase64(bodyHash) && IsBase64(signature)
    requires t == ParseTags(BuildHeader(SignaturePairs(s, list, now, bodyHash), signature))
    ensures !t.dup && t.Get("v") == "1" && t.Get("d") == s.domain && t.Get("s") == s.selector
    ensures "a" in t.m && t.Get("a") == s.algorithm && t.Get("bh") == bodyHash && t.Get("b") == signature
    ensures "c" in t.m && t.m["c"] == "relaxed/simple" && "h" in t.m && t.m["h"] == Join(list, ":")
    ensures "t" in t.m && t.m["t"] == Itoa(now) && "x" !in t.m && "l" !in t.m && "q" !in t.m
  {
    hide Clean, CleanFields, Once, Configured, PlainNames, ParseTags, PrintTags, Itoa, Join;
    var ps := SignaturePairs(s, list, now, bodyHash) + [("b", signature)];
    SignatureClean(s, list, now, bodyHash, signature);
    hide CleanValue, IsBase64;
    PrintedTag(ps, 0, "v");
    PrintedTag(ps, 1, "a");
    PrintedTag(ps, 2, "c");
    PrintedTag(ps, 3, "d");
    PrintedTag(ps, 4, "s");
    PrintedTag(ps, 5, "t");
    PrintedTag(ps, 6, "bh");
    PrintedTag(ps, 7, "h");
    PrintedTag(ps, 8, "b");
    MissingTag(ps, "x");
    MissingTag(ps, "l");
    MissingTag(ps, "q");
  }

  lemma SignerCanons(t: Tags)
    requires "c" in t.m && t.m["c"] == "relaxed/simple"
    ensures Canons(t) == Some(("relaxed", "simple"))
  {
    assert Join(["relaxed", "simple"], "/") == "relaxed/simple";
    SplitJoin(["relaxed", "simple"], '/');
  }

  lemma UintRoundTrip(n: nat)
    requires n < Pow10(18)
    ensures ParseStrictUint(Itoa(n)) == Some(n)
  {
    ItoaLength(n, 18);
    ItoaValue(n);
  }

  /** Parsing the header the signer emits recovers its fields. */
  lemma ParseBuilt(s: Signer, list: seq<string>, now: nat, bodyHash: string, signature: string)
    requires Configured(s) && PlainNames(list) && IsBase64(bodyHash) && IsBase64(signature)
    requires now < Pow10(18)
    ensures ParseSignature(BuildHeader(SignaturePairs(s, list, now, bodyHash), signature))
         == Some(Signature(s.domain, s.selector, s.algorithm, "relaxed", "simple", now, 0, list, bodyHash, signature, -1))
  {
    var ps := SignaturePairs(s, list, now, bodyHash) + [("b", signature)];
    SignatureClean(s, list, now, bodyHash, signature);
    assert ps[0].0 == "v";
    ReadsItself(ps);
    var t := ParseTags(PrintTags(ps));
    BuiltTags(s, list, now, bodyHash, signature, t);
    SignerCanons(t);
    UintRoundTrip(now);
    HeaderListRoundTrip(list);
  }

  /** The signer and the verifier hash the same bytes: emptying b= in the
      finished header gives back the header that was signed. */
  lemma SameBytes(c: Crypto, s: Signer, h: Headers, body: string, now: nat, signature: string)
    requires Sound(c) && UniqueFold(h) && Configured(s) && IsBase64(signature) && now < Pow10(18)
    ensures var pairs := SignaturePairs(s, SignedHeaderList(h), now, ComputeBodyHash(c, body, "simple"));
            var header := BuildHeader(pairs, signature);
            && ParseSignature(header).Some?
            && VerifiedBytes(h, ParseSignature(header).value, header) == SignedBytes(c, s, h, body, now)
  {
    var list, bh := SignedHeaderList(h), ComputeBodyHash(c, body, "simple");
    var pairs := SignaturePairs(s, list, now, bh);
    SignedListPlain(h);
    SignatureClean(s, list, now, bh, signature);
    SignatureClean(s, list, now, bh, "");
    ParseBuilt(s, list, now, bh, signature);
    EmptyB(pairs, signature);
    EmptyB(pairs, "");
    var full, empty := pairs + [("b", signature)], pairs + [("b", "")];
    assert full[0].0 == "v" && empty[0].0 == "v";
    ReadsItself(full);
    ReadsItself(empty);
  }

  /** Whatever the message, what the signer emits verifies under its published
      key, at any later time. */
  lemma SignThenVerify(c: Crypto, dns: Dns, s: Signer, h: Headers, body: string, now: nat, later: int)
    requires Sound(c) && UniqueFold(h) && Configured(s) && now < Pow10(18)
    requires var keyType := KeyTypeOf(s.algorithm).value;
             dns(s.selector, s.domain) == Found(keyType, c.publicOf(keyType, s.key.value))
    requires Sign(c, s, h, body, now).Some?
    ensures Verify(c, dns, h, body, Sign(c, s, h, body, now).value, later) == Pass
  {
    var keyType := KeyTypeOf(s.algorithm).value;
    var bytes := SignedBytes(c, s, h, body, now);
    var signature := c.sign(keyType, s.key.value, bytes).value;
    var list, bh := SignedHeaderList(h), ComputeBodyHash(c, body, "simple");
    var header := BuildHeader(SignaturePairs(s, list, now, bh), signature);
    assert "from" in list by { assert list[0] == "from"; }
    SignedListPlain(h);
    ParseBuilt(s, list, now, bh, signature);
    SameBytes(c, s, h, body, now, signature);
    assert VerifiedBytes(h, ParseSignature(header).value, header) == bytes;
  }
}

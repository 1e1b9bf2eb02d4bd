/** What a passing DKIM signature says: exactly when the verifier passes, and that nothing
    signed was changed on the way. */
module DkimIntegrity {
  import opened Text
  import opened TagList
  import opened DkimHeaders
  import opened Dkim
  import DkimBody
  import opened SignedFields

  /** Ideal cryptography: digests of different texts differ, a key accepts only what it
      signed, and its signatures of different texts differ. */
  ghost predicate Ideal(c: Crypto) {
    && (forall a: string, b: string :: c.sha256(a) == c.sha256(b) ==> a == b)
    && (forall t: KeyType, k: nat, d: string, s: string :: c.verify(t, c.publicOf(t, k), d, s) ==> c.sign(t, k, d) == Some(s))
    && (forall t: KeyType, k: nat, d: string, e: string ::
          c.sign(t, k, d).Some? && c.sign(t, k, d) == c.sign(t, k, e) ==> d == e)
  }

  function Tally(n: nat): string {
    seq(n, i => 'A')
  }

  /** A text as base64 characters, one tally per character. */
  function Code(s: string): string {
    if s == "" then "C" else Tally(s[0] as int) + "B" + Code(s[1..])
  }

  lemma TallyEnds(m: nat, n: nat, x: string, y: string)
    requires Tally(m) + "B" + x == Tally(n) + "B" + y
    ensures m == n && x == y
  {
    var a, b := Tally(m) + "B" + x, Tally(n) + "B" + y;
    assert a[m] == 'B' && b[n] == 'B' && (forall i :: 0 <= i < m ==> a[i] == 'A') && forall i :: 0 <= i < n ==> b[i] == 'A';
    assert m == n;
    assert a[m + 1..] == x && b[n + 1..] == y;
  }

  lemma {:induction false} CodeUnique(a: string, b: string)
    ensures Code(a) == Code(b) ==> a == b
  {
    if a != "" && b != "" && Code(a) == Code(b) {
      TallyEnds(a[0] as int, b[0] as int, Code(a[1..]), Code(b[1..]));
      CodeUnique(a[1..], b[1..]);
      assert a == [a[0]] + a[1..] && b == [b[0]] + b[1..];
    } else {
      CodeStarts(a);
      CodeStarts(b);
    }
  }

  lemma CodeStarts(a: string)
    ensures Code(a) != "" && (Code(a)[0] == 'C' <==> a == "")
  {}

  lemma {:induction false} CodePlain(s: string)
    ensures IsBase64(Code(s))
  {
    if s != "" {
      CodePlain(s[1..]);
    }
  }

  /** Such cryptography is possible: the two sets of laws do not contradict each other. */
  lemma IdealExists() returns (c: Crypto)
    ensures Sound(c) && Ideal(c)
  {
    c := Crypto(Code, (t: KeyType, k: nat) => k, (t: KeyType, k: nat, d: string) => Some(Tally(k) + "B" + Code(d)),
                (t: KeyType, k: nat, d: string, s: string) => s == Tally(k) + "B" + Code(d));
    forall a: string, b: string ensures Code(a) == Code(b) ==> a == b {
      CodeUnique(a, b);
    }
    forall k: nat, d: string ensures IsBase64(Code(d)) && IsBase64(Tally(k) + "B" + Code(d)) {
      CodePlain(d);
    }
    forall k: nat, d: string, e: string ensures Tally(k) + "B" + Code(d) == Tally(k) + "B" + Code(e) ==> d == e {
      if Tally(k) + "B" + Code(d) == Tally(k) + "B" + Code(e) {
        TallyEnds(k, k, Code(d), Code(e));
      }
    }
    hide Code, Tally, IsBase64;
  }

  // ---------- when the verifier passes ----------

  /** The part of the canonical body that l= covers: all of it without the tag. */
  function Hashed(body: string, sig: Signature): Option<string> {
    var canonical := if sig.bodyCanon == "relaxed" then DkimBody.Relaxed(body) else DkimBody.Simple(body);
    if sig.bodyLength < 0 then Some(canonical)
    else if sig.bodyLength <= |canonical| then Some(canonical[..sig.bodyLength]) else None
  }

  /** The key that belongs to the algorithm of a signature. */
  function NamedKey(dns: Dns, sig: Signature): Option<(KeyType, nat)> {
    match dns(sig.selector, sig.domain)
    case Found(keyType, key) =>
      if (sig.algorithm == "rsa-sha256" && keyType == Rsa) || (sig.algorithm == "ed25519-sha256" && keyType == Ed25519)
      then Some((keyType, key)) else None
    case _ => None
  }

  /** A signature passes if and only if it parses, covers From, is not expired, its body
      hash is that of the body, and the key published for it accepts it over the signed
      fields and itself. */
  lemma PassIff(c: Crypto, dns: Dns, h: Headers, body: string, header: string, now: int)
    requires UniqueFold(h)
    ensures Verify(c, dns, h, body, header, now) == Pass <==>
            ParseSignature(header).Some? &&
            var sig := ParseSignature(header).value;
            && "from" in sig.signedHeaders && (sig.expiration > 0 ==> now <= sig.expiration)
            && Hashed(body, sig).Some? && c.sha256(Hashed(body, sig).value) == sig.bodyHash
            && NamedKey(dns, sig).Some?
            && c.verify(NamedKey(dns, sig).value.0, NamedKey(dns, sig).value.1,
                        HashInput(h, sig.signedHeaders, sig.headerCanon) + SignatureFieldForHash(header, sig.headerCanon), sig.signature)
  {
    hide ParseSignature, HashInput, SignatureFieldForHash, DkimBody.Relaxed, DkimBody.Simple;
    assert "rsa-sha256" != "ed25519-sha256" by { assert "rsa-sha256"[0] == 'r' && "ed25519-sha256"[0] == 'e'; }
  }

  /** The other verdicts: a signature that does not cover From is a permanent error, a
      failed key lookup a temporary one, and all else fails. */
  lemma OtherVerdicts(c: Crypto, dns: Dns, h: Headers, body: string, header: string, now: int)
    requires UniqueFold(h)
    ensures var verdict, parsed := Verify(c, dns, h, body, header, now), ParseSignature(header);
            var usable := parsed.Some? && (parsed.value.algorithm == "rsa-sha256" || parsed.value.algorithm == "ed25519-sha256");
            && (verdict == PermError <==> usable && "from" !in parsed.value.signedHeaders)
            && (verdict == TempError <==> usable && "from" in parsed.value.signedHeaders
                                          && (parsed.value.expiration > 0 ==> now <= parsed.value.expiration)
                                          && dns(parsed.value.selector, parsed.value.domain).Temporary?)
  {
    hide ParseSignature, HashInput, SignatureFieldForHash, DkimBody.Relaxed, DkimBody.Simple;
  }

  /** A header without a tag that section 3.5 of RFC 6376 requires, with a tag given twice
      or with another version is no signature. */
  lemma Unparsed(header: string)
    ensures var t := ParseTags(TrimSpace(TrimPrefix(header, "DKIM-Signature:")));
            t.dup || t.Get("v") != "1" || "a" !in t.m || t.Get("d") == "" || t.Get("s") == "" || t.Get("bh") == "" || t.Get("b") == ""
            ==> ParseSignature(header) == None
    ensures ParseSignature(header).Some? ==>
              var t, sig := ParseTags(TrimSpace(TrimPrefix(header, "DKIM-Signature:"))), ParseSignature(header).value;
              && sig.domain == t.Get("d") && sig.selector == t.Get("s") && sig.algorithm == t.Get("a")
              && sig.bodyHash == t.Get("bh") && sig.signature == t.Get("b")
              && sig.signedHeaders == if "h" in t.m then ParseHeaderList(t.m["h"]) else []
  {
    hide ParseTags, TrimSpace, TrimPrefix, ParseHeaderList;
  }

  /** A message that does not pass and has a key is not undecided: it fails. */
  lemma FailsOtherwise(c: Crypto, dns: Dns, h: Headers, body: string, header: string, now: int)
    requires UniqueFold(h) && ParseSignature(header).Some?
    requires var sig := ParseSignature(header).value; "from" in sig.signedHeaders && dns(sig.selector, sig.domain).Found?
    ensures Verify(c, dns, h, body, header, now) == Pass || Verify(c, dns, h, body, header, now) == Fail
  {
    hide ParseSignature, HashInput, SignatureFieldForHash, DkimBody.Relaxed, DkimBody.Simple;
  }

  // ---------- what the signer emitted ----------

  /** The header the signer emits for a message, with any signature text. */
  function Emitted(c: Crypto, s: Signer, h: Headers, body: string, now: nat, signature: string): string {
    BuildHeader(SignaturePairs(s, SignedHeaderList(h), now, ComputeBodyHash(c, body, "simple")), signature)
  }

  predicate Published(c: Crypto, dns: Dns, s: Signer) {
    Configured(s) && dns(s.selector, s.domain) == Found(KeyTypeOf(s.algorithm).value, c.publicOf(KeyTypeOf(s.algorithm).value, s.key.value))
  }

  lemma EmittedParts(c: Crypto, s: Signer, h: Headers, body: string, now: nat, signature: string)
    requires Sound(c) && UniqueFold(h) && Configured(s) && IsBase64(signature) && now < Pow10(18)
    ensures var header, list := Emitted(c, s, h, body, now, signature), SignedHeaderList(h);
            && ParseSignature(header) == Some(Signature(s.domain, s.selector, s.algorithm, "relaxed", "simple", now, 0, list,
                                                        c.sha256(DkimBody.Simple(body)), signature, -1))
            && SignedBytes(c, s, h, body, now) == HashInput(h, list, "relaxed") + SignatureFieldForHash(header, "relaxed")
  {
    var list, bh := SignedHeaderList(h), ComputeBodyHash(c, body, "simple");
    SignedListPlain(h);
    ParseBuilt(s, list, now, bh, signature);
    SameBytes(c, s, h, body, now, signature);
    assert "simple" != "relaxed" by { assert |"simple"| == 6; }
    hide ParseSignature, HashInput, SignatureFieldForHash, SignedBytes, BuildHeader, SignaturePairs, DkimBody.Simple, DkimBody.Relaxed, SignedHeaderList;
  }

  lemma FromListed(h: Headers)
    ensures "from" in SignedHeaderList(h)
  {
    assert SignedHeaderList(h)[0] == "from";
  }

  lemma SameSuffix(a: string, b: string, f: string)
    ensures a + f == b + f <==> a == b
  {
    if a + f == b + f {
      assert |a| == |b| && a == (a + f)[..|a|] && b == (b + f)[..|b|];
    }
  }

  /** The verdict on an emitted header, whatever message it is found on. */
  lemma EmittedVerdict(c: Crypto, dns: Dns, s: Signer, h: Headers, body: string, now: nat, signature: string,
                       g: Headers, text: string, later: int)
    requires Sound(c) && UniqueFold(h) && UniqueFold(g) && Published(c, dns, s) && IsBase64(signature) && now < Pow10(18)
    ensures var header, keyType := Emitted(c, s, h, body, now, signature), KeyTypeOf(s.algorithm).value;
            Verify(c, dns, g, text, header, later) ==
            if && c.sha256(DkimBody.Simple(text)) == c.sha256(DkimBody.Simple(body))
               && c.verify(keyType, c.publicOf(keyType, s.key.value),
                           HashInput(g, SignedHeaderList(h), "relaxed") + SignatureFieldForHash(header, "relaxed"), signature)
            then Pass else Fail
  {
    var header := Emitted(c, s, h, body, now, signature);
    EmittedParts(c, s, h, body, now, signature);
    FromListed(h);
    PassIff(c, dns, g, text, header, later);
    FailsOtherwise(c, dns, g, text, header, later);
    assert "simple" != "relaxed" by { assert |"simple"| == 6; }
    hide Verify, ParseSignature, HashInput, SignatureFieldForHash, Emitted, DkimBody.Simple, DkimBody.Relaxed, SignedHeaderList;
  }

  /** Under ideal cryptography, what the signer emitted passes on a message if and only if
      its body has the same simple form and its signed fields hash to the same input; on
      every other message it fails. */
  lemma VerifiesIff(c: Crypto, dns: Dns, s: Signer, h: Headers, body: string, now: nat, g: Headers, text: string, later: int)
    requires Sound(c) && Ideal(c) && UniqueFold(h) && UniqueFold(g) && Published(c, dns, s) && now < Pow10(18)
    requires Sign(c, s, h, body, now).Some?
    ensures var list := SignedHeaderList(h);
            Verify(c, dns, g, text, Sign(c, s, h, body, now).value, later) ==
            if DkimBody.Simple(text) == DkimBody.Simple(body) && HashInput(g, list, "relaxed") == HashInput(h, list, "relaxed")
            then Pass else Fail
  {
    var keyType, list, bytes := KeyTypeOf(s.algorithm).value, SignedHeaderList(h), SignedBytes(c, s, h, body, now);
    var signature := c.sign(keyType, s.key.value, bytes).value;
    var header := Emitted(c, s, h, body, now, signature);
    assert Sign(c, s, h, body, now) == Some(header);
    hide Sign, SignedHeaderList, DkimBody.Simple, DkimBody.Relaxed, Verify, Emitted, SignedBytes, HashInput, SignatureFieldForHash;
    EmittedParts(c, s, h, body, now, signature);
    EmittedVerdict(c, dns, s, h, body, now, signature, g, text, later);
    SameSuffix(HashInput(g, list, "relaxed"), HashInput(h, list, "relaxed"), SignatureFieldForHash(header, "relaxed"));
  }

  /** The same field by field: it passes if and only if the body has the same simple form
      and every h= entry covers the same canonical field. */
  lemma VerifiesFieldByField(c: Crypto, dns: Dns, s: Signer, h: Headers, body: string, now: nat, g: Headers, text: string, later: int)
    requires Sound(c) && Ideal(c) && UniqueFold(h) && UniqueFold(g) && Published(c, dns, s) && now < Pow10(18)
    requires Sign(c, s, h, body, now).Some?
    ensures var list := SignedHeaderList(h);
            Verify(c, dns, g, text, Sign(c, s, h, body, now).value, later) == Pass <==>
            && DkimBody.Simple(text) == DkimBody.Simple(body)
            && forall j :: 0 <= j < |list| ==> Covered(g, list, j, "relaxed") == Covered(h, list, j, "relaxed")
  {
    VerifiesIff(c, dns, s, h, body, now, g, text, later);
    var list := SignedHeaderList(h);
    SignedNames(h);
    SameInputIff(g, h, list);
    hide Sign, SignedHeaderList, DkimBody.Simple, Verify, HashInput, Covered, FieldNames;
  }

  lemma PlainIsField(x: string)
    requires PlainName(x)
    ensures FieldName(x)
  {
    LowerOfLower(x);
  }

  lemma SignedNames(h: Headers)
    ensures FieldNames(SignedHeaderList(h))
  {
    SignedListPlain(h);
    var list := SignedHeaderList(h);
    hide PlainName, FieldName, SignedHeaderList;
    forall i | 0 <= i < |list| ensures FieldName(list[i]) {
      PlainIsField(list[i]);
    }
  }

  /** A From prepended to a message with one From makes its signature fail (section 8.15 of
      RFC 6376). */
  lemma PrependedFromFails(c: Crypto, dns: Dns, s: Signer, h: Headers, body: string, now: nat, key: string, v: string, later: int)
    requires Sound(c) && Ideal(c) && UniqueFold(h) && UniqueFold(Prepend(h, key, v)) && Published(c, dns, s) && now < Pow10(18)
    requires Sign(c, s, h, body, now).Some? && Lower(key) == "from" && Instances(h, "from") == 1
    ensures Verify(c, dns, Prepend(h, key, v), body, Sign(c, s, h, body, now).value, later) == Fail
  {
    PrependedFromIsNoticed(h, "relaxed", key, v);
    VerifiesIff(c, dns, s, h, body, now, Prepend(h, key, v), body, later);
    hide Sign, SignedHeaderList, DkimBody.Simple, Verify, HashInput, Prepend;
  }

  /** Any other signature text in its place fails too. */
  lemma OtherSignatureFails(c: Crypto, dns: Dns, s: Signer, h: Headers, body: string, now: nat, signature: string, later: int)
    requires Sound(c) && Ideal(c) && UniqueFold(h) && Published(c, dns, s) && now < Pow10(18) && IsBase64(signature)
    requires c.sign(KeyTypeOf(s.algorithm).value, s.key.value, SignedBytes(c, s, h, body, now)) != Some(signature)
    ensures Verify(c, dns, h, body, Emitted(c, s, h, body, now, signature), later) == Fail
  {
    hide SignedHeaderList, DkimBody.Simple, Verify, Emitted, SignedBytes, HashInput, SignatureFieldForHash;
    EmittedParts(c, s, h, body, now, signature);
    EmittedVerdict(c, dns, s, h, body, now, signature, h, body, later);
  }

  /** The fields every signature covers. */
  lemma CoreListed(h: Headers, x: string)
    requires x in {"from", "to", "subject", "date", "message-id"}
    ensures x in SignedHeaderList(h)
  {
    var list := SignedHeaderList(h);
    assert list[0] == "from" && list[1] == "to" && list[2] == "subject" && list[3] == "date" && list[4] == "message-id";
  }

  /** The fields it covers when they are there. */
  lemma OptionalListed(h: Headers, x: string)
    requires x in {"cc", "reply-to", "in-reply-to", "references", "mime-version", "content-type", "content-transfer-encoding"} && Present(h, x)
    ensures x in SignedHeaderList(h)
  {
    assert x in OPTIONAL_SIGNED by {
      assert OPTIONAL_SIGNED[0] == "cc" && OPTIONAL_SIGNED[1] == "reply-to" && OPTIONAL_SIGNED[2] == "in-reply-to" && OPTIONAL_SIGNED[3] == "references";
      assert OPTIONAL_SIGNED[4] == "mime-version" && OPTIONAL_SIGNED[5] == "content-type" && OPTIONAL_SIGNED[6] == "content-transfer-encoding";
    }
    assert x in PresentOf(h, OPTIONAL_SIGNED);
  }

  /** The lowest instance of a field, in canonical form; nothing without one. */
  function Lowest(h: Headers, x: string): string
    requires UniqueFold(h)
  {
    var (field, values) := LookupField(h, x);
    if values == [] then "" else CanonicalizeRelaxed(field, values[|values| - 1])
  }

  lemma {:induction false} FirstAmong(list: seq<string>, x: string, i: nat) returns (j: nat)
    requires i < |list| && Lower(list[i]) == x
    ensures j < |list| && Lower(list[j]) == x && Mentions(list[..j], x) == 0
    decreases i
  {
    if k :| 0 <= k < i && Lower(list[k]) == x {
      j := FirstAmong(list, x, k);
    } else {
      j := i;
      MentionsNone(list[..i], x);
    }
  }

  /** When a field that the signature covers is changed in its lowest instance, added or
      removed, the signature fails. */
  lemma ChangedFieldFails(c: Crypto, dns: Dns, s: Signer, h: Headers, body: string, now: nat, g: Headers, text: string, later: int, x: string)
    requires Sound(c) && Ideal(c) && UniqueFold(h) && UniqueFold(g) && Published(c, dns, s) && now < Pow10(18)
    requires Sign(c, s, h, body, now).Some? && x in SignedHeaderList(h) && Lowest(g, x) != Lowest(h, x)
    ensures Verify(c, dns, g, text, Sign(c, s, h, body, now).value, later) == Fail
  {
    hide Sign, SignedHeaderList, DkimBody.Simple, Verify, HashInput, Sound, Ideal, Published, Covered, Lowest, FieldName, UniqueFold;
    VerifiesIff(c, dns, s, h, body, now, g, text, later);
    VerifiesFieldByField(c, dns, s, h, body, now, g, text, later);
    var list := SignedHeaderList(h);
    SignedNames(h);
    var j := FirstOf(list, x);
    LowestCovered(h, list, j);
    LowestCovered(g, list, j);
  }

  lemma FirstOf(list: seq<string>, x: string) returns (j: nat)
    requires x in list && FieldNames(list)
    ensures j < |list| && list[j] == x && Mentions(list[..j], x) == 0
  {
    var i :| 0 <= i < |list| && list[i] == x;
    assert FieldName(list[i]);
    j := FirstAmong(list, x, i);
    assert FieldName(list[j]);
  }

  lemma LowestCovered(h: Headers, list: seq<string>, j: nat)
    requires UniqueFold(h) && j < |list| && FieldName(list[j]) && Mentions(list[..j], list[j]) == 0
    ensures Covered(h, list, j, "relaxed") == Lowest(h, list[j])
  {
    hide Mentions, LookupField, CanonicalizeRelaxed;
  }

  predicate CanonName(a: string) {
    a == "simple" || a == "relaxed"
  }

  /** The c= tag (section 3.5 of RFC 6376): simple for the body when only one is named. */
  lemma CanonsMean(t: Tags, a: string, b: string)
    requires "c" in t.m && CanonName(a) && CanonName(b)
    ensures t.m["c"] == a ==> Canons(t) == Some((a, "simple"))
    ensures t.m["c"] == a + "/" + b ==> Canons(t) == Some((a, b))
  {
    assert '/' !in a && '/' !in b;
    SplitNone(a, '/');
    SplitJoin([a, b], '/');
    assert Join([a, b], "/") == a + "/" + b by { assert [a, b][1..] == [b]; }
    hide Split, Join;
  }

  /** Simple for both without the tag, and no signature with any other name in it. */
  lemma CanonsElse(t: Tags)
    ensures "c" !in t.m ==> Canons(t) == Some(("simple", "simple"))
    ensures Canons(t).Some? ==> CanonName(Canons(t).value.0) && CanonName(Canons(t).value.1)
  {
    hide Split;
  }
}

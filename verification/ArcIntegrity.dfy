/** What a passing ARC chain says: exactly when a chain passes, and that a sealed message
    changed on the way does not. */
module ArcIntegrity {
  import opened Text
  import opened TagList
  import opened DkimHeaders
  import opened Dkim
  import DkimBody
  import opened SignedFields
  import opened DkimIntegrity
  import opened Arc
  import opened ArcChain
  import ArcSeals
  import ArcTheorem

  // ---------- when a chain passes ----------

  /** The RSA key that DNS gives for the s= and d= of a header. */
  function KeyFor(dns: Dns, t: Tags): Option<nat> {
    match dns(t.Get("s"), t.Get("d"))
    case Found(keyType, key) => if keyType == Rsa then Some(key) else None
    case _ => None
  }

  /** A header names a signature, a key and no foreign algorithm. */
  predicate Complete(t: Tags) {
    t.Get("b") != "" && t.Get("d") != "" && t.Get("s") != "" && (t.Get("a") == "" || EqualFold(t.Get("a"), "rsa-sha256"))
  }

  /** The seal of set i verifies over the headers of the sets 1 to i. */
  predicate SealAccepted(c: Crypto, dns: Dns, sets: map<nat, ArcSet>, i: nat)
    requires i >= 1
  {
    var s := SetAt(sets, i);
    var t := ParseTags(s.seal);
    && s.seal != "" && Complete(t) && ExtractInstance(s.seal) == i
    && (forall k :: 1 <= k <= i ==> k in sets && sets[k].aar != "" && sets[k].ams != "" && sets[k].seal != "")
    && KeyFor(dns, t).Some? && c.verify(Rsa, KeyFor(dns, t).value, SealInput(sets, s.aar, s.ams, s.seal, i), t.Get("b"))
  }

  /** The message signature verifies over the signed fields, and its bh= is the digest of
      the canonical body. */
  predicate AmsAccepted(c: Crypto, dns: Dns, h: Headers, body: string, ams: string)
    requires UniqueFold(h)
  {
    var t := ParseTags(ams);
    var (headerCanon, bodyCanon) := ArcCanons(t.Get("c"));
    && ams != "" && Complete(t) && t.Get("bh") != "" && c.sha256(CanonicalizeBody(body, bodyCanon)) == t.Get("bh")
    && KeyFor(dns, t).Some?
    && c.verify(Rsa, KeyFor(dns, t).value, AmsInput(ams, h, ParseHeaderList(t.Get("h")), headerCanon), t.Get("b"))
  }

  /** Set i of n: its seal, its cv value, and of the newest also the message signature. */
  predicate SetAccepted(c: Crypto, dns: Dns, h: Headers, body: string, i: nat, n: nat)
    requires UniqueFold(h) && i >= 1
  {
    var sets := Group(Extract(h));
    var s := SetAt(sets, i);
    && SealAccepted(c, dns, sets, i) && (i == n ==> AmsAccepted(c, dns, h, body, s.ams))
    && Lower(ParseTags(s.seal).Get("cv")) == if i == 1 then "none" else "pass"
  }

  lemma SealIff(c: Crypto, dns: Dns, h: Headers, i: nat)
    requires UniqueFold(h) && i >= 1
    ensures var sets := Group(Extract(h));
            ValidateSeal(c, dns, SetAt(sets, i).seal, h, i) == Valid <==> SealAccepted(c, dns, sets, i)
  {
    hide Extract, Group, ParseTags, SealInput, ExtractInstance, UniqueFold;
  }

  lemma AmsIff(c: Crypto, dns: Dns, h: Headers, body: string, ams: string)
    requires UniqueFold(h)
    ensures ValidateAMS(c, dns, ams, h, body) == Valid <==> AmsAccepted(c, dns, h, body, ams)
  {
    hide ParseTags, AmsInput, ParseHeaderList, CanonicalizeBody, UniqueFold, ArcCanons;
  }

  lemma SetIff(c: Crypto, dns: Dns, h: Headers, body: string, i: nat, n: nat)
    requires UniqueFold(h) && i >= 1
    ensures SetVerdict(c, dns, h, body, i, n) == Some(true) <==> SetAccepted(c, dns, h, body, i, n)
  {
    SealIff(c, dns, h, i);
    AmsIff(c, dns, h, body, SetAt(Group(Extract(h)), i).ams);
    hide Extract, Group, ParseTags, ValidateSeal, ValidateAMS, SealAccepted, AmsAccepted, UniqueFold, Lower;
  }

  lemma {:induction false} SetsIff(c: Crypto, dns: Dns, h: Headers, body: string, k: nat, n: nat)
    requires UniqueFold(h)
    ensures SetsVerdict(c, dns, h, body, k, n) == Some(true) <==> forall i :: 1 <= i <= k ==> SetAccepted(c, dns, h, body, i, n)
  {
    hide SetVerdict, SetAccepted, UniqueFold;
    if k > 0 {
      SetsIff(c, dns, h, body, k - 1, n);
      SetIff(c, dns, h, body, k, n);
    }
  }

  /** The sets are numbered 1 to n without a gap, one header of each kind in each. */
  predicate WellFormed(h: Headers)
    requires UniqueFold(h)
  {
    var es := Extract(h);
    var sets := Group(es);
    es != [] && StructureValid(es) && |sets| <= 50 && forall i | 1 <= i <= |sets| :: i in sets
  }

  predicate Passes(c: Crypto, dns: Dns, h: Headers, body: string)
    requires UniqueFold(h)
  {
    var verdict := ChainVerdict(c, dns, h, body);
    verdict.Validated? && verdict.chain.cv == "pass"
  }

  /** A chain passes if and only if it is well-formed, every seal verifies over the sets up
      to its own under the key published for it, the cv values are none and then pass, and
      the newest message signature verifies over the message. */
  lemma PassIff(c: Crypto, dns: Dns, h: Headers, body: string)
    requires UniqueFold(h)
    ensures var n := |Group(Extract(h))|;
            Passes(c, dns, h, body) <==> WellFormed(h) && forall i :: 1 <= i <= n ==> SetAccepted(c, dns, h, body, i, n)
  {
    hide Passes, WellFormed, Extract, Group, SetsVerdict, SetAccepted, UniqueFold;
    var n := |Group(Extract(h))|;
    SetsIff(c, dns, h, body, n, n);
    PassesIs(c, dns, h, body);
  }

  lemma PassesIs(c: Crypto, dns: Dns, h: Headers, body: string)
    requires UniqueFold(h)
    ensures var n := |Group(Extract(h))|;
            Passes(c, dns, h, body) <==> WellFormed(h) && SetsVerdict(c, dns, h, body, n, n) == Some(true)
  {
    Words();
    hide Extract, Group, StructureValid, SetsVerdict, ParseTags, Reports, Unchecked, UniqueFold, SetAt;
  }

  lemma Words()
    ensures "pass" != "fail" && "pass" != "none" && "fail" != "none"
  {
    assert "pass"[0] == 'p' && "fail"[0] == 'f' && "none"[0] == 'n';
  }

  lemma {:induction false} NeverUnreachable(c: Crypto, dns: Dns, h: Headers, body: string, k: nat, n: nat)
    requires UniqueFold(h) && forall s, d :: !dns(s, d).Temporary?
    ensures SetsVerdict(c, dns, h, body, k, n).Some?
  {
    hide SetsVerdict, SetVerdict, UniqueFold;
    if k == 0 {
      assert SetsVerdict(c, dns, h, body, 0, n) == Some(true) by { NoSets(c, dns, h, body, n); }
    } else {
      NeverUnreachable(c, dns, h, body, k - 1, n);
      SetReachable(c, dns, h, body, k, n);
      StepVerdict(c, dns, h, body, k, n);
    }
  }

  lemma NoSets(c: Crypto, dns: Dns, h: Headers, body: string, n: nat)
    requires UniqueFold(h)
    ensures SetsVerdict(c, dns, h, body, 0, n) == Some(true)
  {}

  lemma SetReachable(c: Crypto, dns: Dns, h: Headers, body: string, i: nat, n: nat)
    requires UniqueFold(h) && i >= 1 && forall s, d :: !dns(s, d).Temporary?
    ensures SetVerdict(c, dns, h, body, i, n).Some?
  {
    hide ValidateSeal, ValidateAMS, Extract, Group, ParseTags, UniqueFold, Lower, SetAt;
    NoTempFailure(c, dns, h, body, i);
  }

  lemma StepVerdict(c: Crypto, dns: Dns, h: Headers, body: string, k: nat, n: nat)
    requires UniqueFold(h) && k >= 1
    ensures SetsVerdict(c, dns, h, body, k, n).Some? <==>
            SetsVerdict(c, dns, h, body, k - 1, n).Some? && SetVerdict(c, dns, h, body, k, n).Some?
  {
    hide SetVerdict, UniqueFold;
  }

  lemma NoTempFailure(c: Crypto, dns: Dns, h: Headers, body: string, i: nat)
    requires UniqueFold(h) && i >= 1 && forall s, d :: !dns(s, d).Temporary?
    ensures var s := SetAt(Group(Extract(h)), i);
            ValidateAMS(c, dns, s.ams, h, body) != TempFailure && ValidateSeal(c, dns, s.seal, h, i) != TempFailure
  {
    hide Extract, Group, ParseTags, AmsInput, SealInput, ExtractInstance, UniqueFold, ParseHeaderList, ArcCanons;
  }

  /** A chain that does not pass fails, when every key lookup gets an answer. */
  lemma FailsOtherwise(c: Crypto, dns: Dns, h: Headers, body: string)
    requires UniqueFold(h) && Extract(h) != [] && !Passes(c, dns, h, body) && forall s, d :: !dns(s, d).Temporary?
    ensures var verdict := ChainVerdict(c, dns, h, body); verdict.Validated? && verdict.chain.cv == "fail" && !verdict.chain.valid
  {
    hide Extract, Group, StructureValid, SetsVerdict, ParseTags, Reports, Unchecked, UniqueFold, SetAt;
    var n := |Group(Extract(h))|;
    NeverUnreachable(c, dns, h, body, n, n);
    Words();
  }

  /** A seal, or the newest message signature, that its key did not make over the bytes it
      stands for keeps the chain from passing. */
  lemma ForgedFails(c: Crypto, dns: Dns, h: Headers, body: string, i: nat, k: nat)
    requires Ideal(c) && UniqueFold(h) && 1 <= i <= |Group(Extract(h))|
    requires var sets := Group(Extract(h));
             var n := |sets|;
             var s, newest := SetAt(sets, i), SetAt(sets, n);
             var t, u := ParseTags(s.seal), ParseTags(newest.ams);
             || (KeyFor(dns, t) == Some(c.publicOf(Rsa, k)) && c.sign(Rsa, k, SealInput(sets, s.aar, s.ams, s.seal, i)) != Some(t.Get("b")))
             || (KeyFor(dns, u) == Some(c.publicOf(Rsa, k))
                 && c.sign(Rsa, k, AmsInput(newest.ams, h, ParseHeaderList(u.Get("h")), ArcCanons(u.Get("c")).0)) != Some(u.Get("b")))
    ensures !Passes(c, dns, h, body)
  {
    hide Passes, WellFormed, Extract, Group, ParseTags, SealInput, AmsInput, ExtractInstance, UniqueFold, ParseHeaderList, ArcCanons, Lower, CanonicalizeBody;
    PassIff(c, dns, h, body);
    var n := |Group(Extract(h))|;
    assert !SetAccepted(c, dns, h, body, i, n) || !SetAccepted(c, dns, h, body, n, n);
  }

  /** The c= tag of a message signature: simple for what is not relaxed. */
  lemma CanonsMean(a: string, b: string)
    requires '/' !in a && a != ""
    ensures ArcCanons("") == ("simple", "simple") && ArcCanons(a) == (if a == "relaxed" then a else "simple", "simple")
    ensures ArcCanons(a + "/" + b) == (if a == "relaxed" then a else "simple", if b == "relaxed" then b else "simple")
  {
    var c := a + "/" + b;
    IndexOfAt(a, '/', b);
    assert c == a + ['/'] + b && c[..|a|] == a && c[|a| + 1..] == b;
  }

  /** A message signature covers no ARC header, and every other name in its list. */
  lemma {:induction false} NotArcIs(names: seq<string>, x: string)
    ensures x in NotArc(names) <==> x != "" && !HasPrefix(x, "arc-") && exists i :: 0 <= i < |names| && Lower(TrimSpace(names[i])) == x
  {
    hide TrimSpace, Lower;
    if names != [] {
      NotArcIs(names[1..], x);
      assert forall i :: 1 <= i < |names| ==> names[i] == names[1..][i - 1];
    }
  }

  // ---------- two messages under the same newest set ----------

  predicate SameForm(kind: Kind, a: string, b: string) {
    CanonicalizeRelaxed(KeyOf(kind), a) == CanonicalizeRelaxed(KeyOf(kind), b)
  }

  /** The canonical headers of the first n sets, line by line. */
  function SetLines(sets: map<nat, ArcSet>, n: nat): seq<string> {
    if n == 0 then []
    else
      var s := SetAt(sets, n);
      SetLines(sets, n - 1)
      + [CanonicalizeRelaxed(KeyOf(Results), s.aar), CanonicalizeRelaxed(KeyOf(MessageSignature), s.ams), CanonicalizeRelaxed(KeyOf(Seal), s.seal)]
  }

  lemma KeyLine(kind: Kind, value: string)
    ensures IsLine(CanonicalizeRelaxed(KeyOf(kind), value))
  {
    assert '\n' !in KeyOf(kind);
    RelaxedIsLine(KeyOf(kind), value);
  }

  lemma ConcatThree(ls: seq<string>, a: string, b: string, d: string)
    ensures Concat(ls + [a, b, d]) == Concat(ls) + a + b + d
  {
    assert (ls + [a, b, d])[..|ls| + 2] == ls + [a, b] && (ls + [a, b])[..|ls| + 1] == ls + [a] && (ls + [a])[..|ls|] == ls;
    assert Concat(ls + [a]) == Concat(ls) + a;
    assert Concat(ls + [a, b]) == Concat(ls + [a]) + b;
  }

  lemma {:induction false} SealedLines(sets: map<nat, ArcSet>, n: nat)
    ensures SealedSets(sets, n) == Concat(SetLines(sets, n)) && AllLines(SetLines(sets, n)) && |SetLines(sets, n)| == 3 * n
  {
    hide CanonicalizeRelaxed, IsLine, SetAt, KeyOf;
    if n > 0 {
      SealedLines(sets, n - 1);
      var s := SetAt(sets, n);
      KeyLine(Results, s.aar);
      KeyLine(MessageSignature, s.ams);
      KeyLine(Seal, s.seal);
      ConcatThree(SetLines(sets, n - 1), CanonicalizeRelaxed(KeyOf(Results), s.aar), CanonicalizeRelaxed(KeyOf(MessageSignature), s.ams), CanonicalizeRelaxed(KeyOf(Seal), s.seal));
      hide Concat;
    }
  }

  lemma {:induction false} SameLinesSameSets(a: map<nat, ArcSet>, b: map<nat, ArcSet>, n: nat, i: nat)
    requires SetLines(a, n) == SetLines(b, n) && 1 <= i <= n
    ensures var s, t := SetAt(a, i), SetAt(b, i);
            SameForm(Results, s.aar, t.aar) && SameForm(MessageSignature, s.ams, t.ams) && SameForm(Seal, s.seal, t.seal)
    decreases n
  {
    hide CanonicalizeRelaxed, SetAt, KeyOf;
    var x, y := SetLines(a, n - 1), SetLines(b, n - 1);
    SetLinesSize(a, n - 1);
    SetLinesSize(b, n - 1);
    var p, q := SetLines(a, n), SetLines(b, n);
    assert p[..|x|] == x && q[..|y|] == y;
    assert p[|x|] == q[|y|] && p[|x| + 1] == q[|y| + 1] && p[|x| + 2] == q[|y| + 2];
    if i < n {
      SameLinesSameSets(a, b, n - 1, i);
    }
  }

  lemma {:induction false} SetLinesSize(sets: map<nat, ArcSet>, n: nat)
    ensures |SetLines(sets, n)| == 3 * n
  {
    hide CanonicalizeRelaxed, SetAt;
    if n > 0 {
      SetLinesSize(sets, n - 1);
    }
  }

  /** A seal covers every header of the earlier sets and the results of its own: equal
      bytes mean equal canonical headers, one by one. */
  lemma SealBytesDetermine(a: map<nat, ArcSet>, b: map<nat, ArcSet>, x: string, y: string, ams: string, seal: string, n: nat, i: nat)
    requires n >= 1 && SealInput(a, x, ams, seal, n) == SealInput(b, y, ams, seal, n)
    ensures SameForm(Results, x, y)
    ensures 1 <= i < n ==> var s, t := SetAt(a, i), SetAt(b, i);
                           SameForm(Results, s.aar, t.aar) && SameForm(MessageSignature, s.ams, t.ams) && SameForm(Seal, s.seal, t.seal)
  {
    hide SealInput, CanonicalizeRelaxed, FieldForHash, StripB, SealedSets, IsLine, AllLines, SameForm, KeyOf, Concat, SetLines;
    var tail := CanonicalizeRelaxed(KeyOf(MessageSignature), ams) + FieldForHash(KeyOf(Seal), StripB(seal), "relaxed");
    var p, q := CanonicalizeRelaxed(KeyOf(Results), x), CanonicalizeRelaxed(KeyOf(Results), y);
    SealTail(a, x, ams, seal, n, tail);
    SealTail(b, y, ams, seal, n, tail);
    SameSuffix(SealedSets(a, n - 1) + p, SealedSets(b, n - 1) + q, tail);
    KeyLine(Results, x);
    KeyLine(Results, y);
    SealedLines(a, n - 1);
    SealedLines(b, n - 1);
    LinesThenOne(SetLines(a, n - 1), SetLines(b, n - 1), p, q);
    SameFormIs(Results, x, y);
    if 1 <= i < n {
      SameLinesSameSets(a, b, n - 1, i);
    }
  }

  lemma LinesThenOne(ls: seq<string>, ms: seq<string>, p: string, q: string)
    requires AllLines(ls) && AllLines(ms) && IsLine(p) && IsLine(q) && Concat(ls) + p == Concat(ms) + q
    ensures ls == ms && p == q
  {
    ConcatEnds(ls);
    ConcatEnds(ms);
    hide Concat, IsLine, AllLines;
    LastLine(Concat(ls), Concat(ms), p, q);
    LinesUnique(ls, ms);
  }

  lemma SameFormIs(kind: Kind, a: string, b: string)
    ensures CanonicalizeRelaxed(KeyOf(kind), a) == CanonicalizeRelaxed(KeyOf(kind), b) ==> SameForm(kind, a, b)
  {}

  lemma SealTail(sets: map<nat, ArcSet>, aar: string, ams: string, seal: string, n: nat, tail: string)
    requires n >= 1 && tail == CanonicalizeRelaxed(KeyOf(MessageSignature), ams) + FieldForHash(KeyOf(Seal), StripB(seal), "relaxed")
    ensures SealInput(sets, aar, ams, seal, n) == (SealedSets(sets, n - 1) + CanonicalizeRelaxed(KeyOf(Results), aar)) + tail
  {
    hide CanonicalizeRelaxed, FieldForHash, StripB, SealedSets, KeyOf;
  }

  /** The key accepts both texts under one signature, so they are one text. */
  lemma OneText(c: Crypto, k: nat, d: string, e: string, s: string)
    requires Ideal(c) && c.verify(Rsa, c.publicOf(Rsa, k), d, s) && c.verify(Rsa, c.publicOf(Rsa, k), e, s)
    ensures d == e
  {
    assert c.sign(Rsa, k, d) == Some(s) && c.sign(Rsa, k, e) == Some(s);
  }

  /** The chains of h and g have the same number of sets and the same newest message
      signature and seal, whose keys are public keys. */
  ghost predicate SameNewest(c: Crypto, dns: Dns, h: Headers, g: Headers)
    requires UniqueFold(h) && UniqueFold(g)
  {
    var a, b := Group(Extract(h)), Group(Extract(g));
    var n := |a|;
    && |b| == n && n >= 1 && SetAt(a, n).ams == SetAt(b, n).ams && SetAt(a, n).seal == SetAt(b, n).seal
    && (exists k: nat :: KeyFor(dns, ParseTags(SetAt(a, n).ams)) == Some(c.publicOf(Rsa, k)))
    && (exists k: nat :: KeyFor(dns, ParseTags(SetAt(a, n).seal)) == Some(c.publicOf(Rsa, k)))
  }

  /** What the newest set vouches for: the body, the signed fields, and all headers of the
      sets before it. */
  predicate Unchanged(h: Headers, g: Headers, body: string, text: string)
    requires UniqueFold(h) && UniqueFold(g)
  {
    var a, b := Group(Extract(h)), Group(Extract(g));
    var n := |a|;
    var t := ParseTags(SetAt(a, n).ams);
    var list := NotArc(ParseHeaderList(t.Get("h")));
    var (headerCanon, bodyCanon) := ArcCanons(t.Get("c"));
    && CanonicalizeBody(text, bodyCanon) == CanonicalizeBody(body, bodyCanon)
    && HashInput(g, list, headerCanon) == HashInput(h, list, headerCanon)
    && SameForm(Results, SetAt(a, n).aar, SetAt(b, n).aar)
    && forall i :: 1 <= i < n ==>
         var s, u := SetAt(a, i), SetAt(b, i);
         SameForm(Results, s.aar, u.aar) && SameForm(MessageSignature, s.ams, u.ams) && SameForm(Seal, s.seal, u.seal)
  }

  lemma SealsAgree(c: Crypto, dns: Dns, a: map<nat, ArcSet>, b: map<nat, ArcSet>, n: nat, k: nat, i: nat)
    requires Ideal(c) && n >= 1 && SealAccepted(c, dns, a, n) && SealAccepted(c, dns, b, n)
    requires SetAt(a, n).ams == SetAt(b, n).ams && SetAt(a, n).seal == SetAt(b, n).seal
    requires KeyFor(dns, ParseTags(SetAt(a, n).seal)) == Some(c.publicOf(Rsa, k))
    ensures SameForm(Results, SetAt(a, n).aar, SetAt(b, n).aar)
    ensures 1 <= i < n ==> var s, t := SetAt(a, i), SetAt(b, i);
                           SameForm(Results, s.aar, t.aar) && SameForm(MessageSignature, s.ams, t.ams) && SameForm(Seal, s.seal, t.seal)
  {
    var s, t := SetAt(a, n), SetAt(b, n);
    hide SealInput, ParseTags, ExtractInstance, Ideal, SameForm;
    OneText(c, k, SealInput(a, s.aar, s.ams, s.seal, n), SealInput(b, t.aar, s.ams, s.seal, n), ParseTags(s.seal).Get("b"));
    SealBytesDetermine(a, b, s.aar, t.aar, s.ams, s.seal, n, i);
  }

  lemma AmsAgrees(c: Crypto, dns: Dns, h: Headers, g: Headers, body: string, text: string, ams: string, k: nat)
    requires Ideal(c) && UniqueFold(h) && UniqueFold(g)
    requires AmsAccepted(c, dns, h, body, ams) && AmsAccepted(c, dns, g, text, ams)
    requires KeyFor(dns, ParseTags(ams)) == Some(c.publicOf(Rsa, k))
    ensures var t := ParseTags(ams);
            var list := NotArc(ParseHeaderList(t.Get("h")));
            var (headerCanon, bodyCanon) := ArcCanons(t.Get("c"));
            CanonicalizeBody(text, bodyCanon) == CanonicalizeBody(body, bodyCanon) && HashInput(g, list, headerCanon) == HashInput(h, list, headerCanon)
  {
    var t := ParseTags(ams);
    var signed := ParseHeaderList(t.Get("h"));
    var (headerCanon, bodyCanon) := ArcCanons(t.Get("c"));
    SameDigest(c, CanonicalizeBody(text, bodyCanon), CanonicalizeBody(body, bodyCanon));
    hide ParseTags, HashInput, CanonicalizeBody, ParseHeaderList, NotArc, ArcCanons, FieldForHash, StripB, Ideal, UniqueFold;
    OneText(c, k, AmsInput(ams, h, signed, headerCanon), AmsInput(ams, g, signed, headerCanon), t.Get("b"));
    SameSuffix(HashInput(h, NotArc(signed), headerCanon), HashInput(g, NotArc(signed), headerCanon),
               FieldForHash("ARC-Message-Signature", StripB(ams), headerCanon));
  }

  lemma SameDigest(c: Crypto, a: string, b: string)
    requires Ideal(c)
    ensures c.sha256(a) == c.sha256(b) ==> a == b
  {}

  /** If both messages pass under the same newest set, nothing that set vouches for
      differs between them. */
  lemma PassUnchanged(c: Crypto, dns: Dns, h: Headers, g: Headers, body: string, text: string)
    requires Ideal(c) && UniqueFold(h) && UniqueFold(g) && SameNewest(c, dns, h, g)
    requires Passes(c, dns, h, body) && Passes(c, dns, g, text)
    ensures Unchanged(h, g, body, text)
  {
    hide Passes, Extract, Group, SetAt, ParseTags, SealAccepted, AmsAccepted, Ideal, UniqueFold, KeyFor, SameForm, HashInput, CanonicalizeBody,
      ParseHeaderList, NotArc, ArcCanons;
    var a, b := Group(Extract(h)), Group(Extract(g));
    var n := |a|;
    var s := SetAt(a, n);
    NewestAccepted(c, dns, h, body);
    NewestAccepted(c, dns, g, text);
    var k: nat :| KeyFor(dns, ParseTags(s.ams)) == Some(c.publicOf(Rsa, k));
    AmsAgrees(c, dns, h, g, body, text, s.ams, k);
    var j: nat :| KeyFor(dns, ParseTags(s.seal)) == Some(c.publicOf(Rsa, j));
    forall i | 1 <= i < n
      ensures var u, v := SetAt(a, i), SetAt(b, i);
              SameForm(Results, u.aar, v.aar) && SameForm(MessageSignature, u.ams, v.ams) && SameForm(Seal, u.seal, v.seal)
    {
      SealsAgree(c, dns, a, b, n, j, i);
    }
    SealsAgree(c, dns, a, b, n, j, 1);
  }

  lemma NewestAccepted(c: Crypto, dns: Dns, h: Headers, body: string)
    requires UniqueFold(h) && Passes(c, dns, h, body)
    ensures var sets := Group(Extract(h));
            var n := |sets|;
            n >= 1 ==> SealAccepted(c, dns, sets, n) && AmsAccepted(c, dns, h, body, SetAt(sets, n).ams)
  {
    hide Passes, WellFormed, Extract, Group, SetAt, SealAccepted, AmsAccepted, UniqueFold, ParseTags, Lower;
    PassIff(c, dns, h, body);
    var n := |Group(Extract(h))|;
    assert n >= 1 ==> SetAccepted(c, dns, h, body, n, n);
  }

  // ---------- a sealed message that was changed ----------

  lemma SealedKeys(c: Crypto, dns: Dns, h0: Headers, body: string, hops: seq<Hop>, sets: seq<ArcSet>)
    requires ArcTheorem.Made(c, dns, h0, body, hops, sets) && sets != []
    ensures var s, k := sets[|sets| - 1], hops[|hops| - 1].signer.key;
            && k.Some? && KeyFor(dns, ParseTags(s.ams)) == Some(c.publicOf(Rsa, k.value))
            && KeyFor(dns, ParseTags(s.seal)) == Some(c.publicOf(Rsa, k.value))
            && ParseTags(s.ams).Get("c") == "relaxed/relaxed"
            && ParseTags(s.ams).Get("h") == Join(PresentOf(h0, CANDIDATES), ":")
  {
    hide KeyFor, ParseTags, ArcTheorem.MadeAt, Join, PresentOf;
    assert ArcTheorem.MadeBy(c, dns, h0, body, hops, sets, |sets|);
    NewestKeys(c, dns, h0, body, hops[|sets| - 1], sets, |sets|);
  }

  lemma NewestKeys(c: Crypto, dns: Dns, h0: Headers, body: string, hop: Hop, sets: seq<ArcSet>, n: nat)
    requires Sound(c) && Unsealed(h0) && ArcTheorem.MadeAt(c, dns, h0, body, hop, sets, n)
    ensures var s, k := sets[n - 1], hop.signer.key;
            && k.Some? && KeyFor(dns, ParseTags(s.ams)) == Some(c.publicOf(Rsa, k.value))
            && KeyFor(dns, ParseTags(s.seal)) == Some(c.publicOf(Rsa, k.value))
            && ParseTags(s.ams).Get("c") == "relaxed/relaxed"
            && ParseTags(s.ams).Get("h") == Join(PresentOf(h0, CANDIDATES), ":")
  {
    hide ParseTags, PrintTags, AmsInput, SealInput, Group, Extract, WithSets, MakeSet, Join, PresentOf, UniqueFold, Usable, Unsealed, ResultsValue,
      IsBase64, Sound;
    var amsSig, sealSig := ArcTheorem.SetShape(c, dns, h0, body, hop, sets, n);
    ArcTheorem.AmsTagValues(c, hop, h0, body, n, amsSig);
    ArcTheorem.SealTagValues(hop, n, sealSig);
  }

  /** The fields a hop signs: those of its candidates that the message had. */
  function SignedBy(h0: Headers): seq<string> {
    PresentOf(h0, CANDIDATES)
  }

  lemma SignedByIs(h0: Headers)
    ensures NotArc(ParseHeaderList(Join(SignedBy(h0), ":"))) == SignedBy(h0) && FieldNames(SignedBy(h0))
  {
    var signed := SignedBy(h0);
    ArcSeals.SignedNames(h0);
    HeaderListRoundTrip(signed);
    ArcSeals.NotArcKeeps(signed);
    hide PlainName, FieldName, NotArc, ParseHeaderList, Join, SignedBy, ArcSeals.OtherName;
    forall i | 0 <= i < |signed| ensures FieldName(signed[i]) {
      PlainIsField(signed[i]);
    }
  }

  /** Something the newest hop signed or sealed is different in g: the relaxed form of the
      body, a signed field, or a header of some set. */
  predicate Changed(h0: Headers, h: Headers, g: Headers, body: string, text: string)
    requires UniqueFold(h) && UniqueFold(g)
  {
    var a, b, list := Group(Extract(h)), Group(Extract(g)), SignedBy(h0);
    var n := |a|;
    || DkimBody.Relaxed(text) != DkimBody.Relaxed(body)
    || (exists j :: 0 <= j < |list| && Covered(g, list, j, "relaxed") != Covered(h, list, j, "relaxed"))
    || !SameForm(Results, SetAt(a, n).aar, SetAt(b, n).aar)
    || exists i :: 1 <= i < n && !SameHeaders(SetAt(a, i), SetAt(b, i))
  }

  predicate SameHeaders(s: ArcSet, u: ArcSet) {
    SameForm(Results, s.aar, u.aar) && SameForm(MessageSignature, s.ams, u.ams) && SameForm(Seal, s.seal, u.seal)
  }

  /** What the newest set of a sealed message vouches for, spelled out. */
  lemma UnchangedIs(h0: Headers, h: Headers, g: Headers, body: string, text: string)
    requires UniqueFold(h) && UniqueFold(g) && Unchanged(h, g, body, text)
    requires var t := ParseTags(SetAt(Group(Extract(h)), |Group(Extract(h))|).ams);
             t.Get("c") == "relaxed/relaxed" && t.Get("h") == Join(SignedBy(h0), ":")
    ensures DkimBody.Relaxed(text) == DkimBody.Relaxed(body)
    ensures HashInput(g, SignedBy(h0), "relaxed") == HashInput(h, SignedBy(h0), "relaxed")
  {
    hide Extract, Group, SetAt, ParseTags, HashInput, SignedBy, Join, NotArc, ParseHeaderList, ArcCanons, SameForm, DkimBody.Relaxed, DkimBody.Simple,
      FieldNames, UniqueFold;
    ArcTheorem.RelaxedCanons();
    SignedByIs(h0);
  }

  lemma UnchangedSets(h: Headers, g: Headers, body: string, text: string)
    requires UniqueFold(h) && UniqueFold(g) && Unchanged(h, g, body, text)
    ensures var a, b := Group(Extract(h)), Group(Extract(g));
            && SameForm(Results, SetAt(a, |a|).aar, SetAt(b, |a|).aar)
            && forall i :: 1 <= i < |a| ==> SameHeaders(SetAt(a, i), SetAt(b, i))
  {
    hide Extract, Group, SetAt, ParseTags, HashInput, NotArc, ParseHeaderList, ArcCanons, SameForm, CanonicalizeBody, UniqueFold;
  }

  lemma UnchangedNotChanged(h0: Headers, h: Headers, g: Headers, body: string, text: string)
    requires UniqueFold(h) && UniqueFold(g) && Unchanged(h, g, body, text)
    requires var t := ParseTags(SetAt(Group(Extract(h)), |Group(Extract(h))|).ams);
             t.Get("c") == "relaxed/relaxed" && t.Get("h") == Join(SignedBy(h0), ":")
    ensures !Changed(h0, h, g, body, text)
  {
    hide Extract, Group, SetAt, ParseTags, HashInput, Covered, SignedBy, Join, SameForm, SameHeaders, DkimBody.Relaxed, Unchanged, FieldNames, UniqueFold;
    UnchangedIs(h0, h, g, body, text);
    UnchangedSets(h, g, body, text);
    SignedByIs(h0);
    SameInputIff(g, h, SignedBy(h0));
  }

  /** However many hops sealed a message: under ideal cryptography, a message that keeps the
      newest signature and seal but differs in the relaxed form of the body, in a signed
      field or in a header of an earlier set does not validate, and fails when every key
      lookup gets an answer. */
  lemma ChangedFails(c: Crypto, dns: Dns, h0: Headers, body: string, hops: seq<Hop>, h: Headers, g: Headers, text: string)
    requires Sound(c) && Ideal(c) && Unsealed(h0) && (forall j :: 0 <= j < |hops| ==> ArcTheorem.Published(c, dns, hops[j].signer))
    requires hops != [] && ArcTheorem.Sealed(c, dns, h0, body, hops, h) && UniqueFold(h) && UniqueFold(g)
    requires var a, b, n := Group(Extract(h)), Group(Extract(g)), |hops|;
             |b| == n && SetAt(b, n).ams == SetAt(a, n).ams && SetAt(b, n).seal == SetAt(a, n).seal
    requires Changed(h0, h, g, body, text)
    ensures !Passes(c, dns, g, text)
    ensures Extract(g) != [] && (forall s, d :: !dns(s, d).Temporary?) ==>
              var verdict := ChainVerdict(c, dns, g, text); verdict.Validated? && verdict.chain.cv == "fail" && !verdict.chain.valid
  {
    hide Changed, ChainVerdict, Extract, Group, SetAt, ParseTags, KeyFor, Unchanged, ArcTheorem.Sealed, Ideal, Sound, Unsealed, ArcTheorem.Published, Join, PresentOf;
    var sets := ArcTheorem.RunIsMade(c, dns, h0, body, hops, h);
    SealedPasses(c, dns, h0, body, hops, h);
    SealedNewest(c, dns, h0, body, hops, sets, h);
    SealedKeys(c, dns, h0, body, hops, sets);
    if Passes(c, dns, g, text) {
      PassUnchanged(c, dns, h, g, body, text);
      UnchangedNotChanged(h0, h, g, body, text);
    }
    if Extract(g) != [] && forall s, d :: !dns(s, d).Temporary? {
      FailsOtherwise(c, dns, g, text);
    }
  }

  lemma SealedPasses(c: Crypto, dns: Dns, h0: Headers, body: string, hops: seq<Hop>, h: Headers)
    requires Sound(c) && Unsealed(h0) && (forall j :: 0 <= j < |hops| ==> ArcTheorem.Published(c, dns, hops[j].signer))
    requires hops != [] && ArcTheorem.Sealed(c, dns, h0, body, hops, h) && UniqueFold(h)
    ensures Passes(c, dns, h, body)
  {
    hide ChainVerdict, Extract, Group, ArcTheorem.Sealed, Sound, Unsealed, ArcTheorem.Published;
    ArcTheorem.SealedChainValidates(c, dns, h0, body, hops, h);
  }

  lemma SealedNewest(c: Crypto, dns: Dns, h0: Headers, body: string, hops: seq<Hop>, sets: seq<ArcSet>, h: Headers)
    requires ArcTheorem.Made(c, dns, h0, body, hops, sets) && h == WithSets(h0, sets) && UniqueFold(h) && hops != []
    ensures |Group(Extract(h))| == |hops| && SetAt(Group(Extract(h)), |hops|) == sets[|sets| - 1]
  {
    ArcTheorem.MadeNumbered(c, dns, h0, body, hops, sets);
    SealedGroups(h0, sets);
    ArcTheorem.ByNumberSize(sets);
    ArcTheorem.NumberedAt(sets, |sets| - 1);
    hide WithSets, Group, Extract, SetAt, ByNumber, ArcTheorem.MadeBy, Numbered;
  }
}

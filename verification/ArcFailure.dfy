/** A chain that failed stays failed: the next seal records cv=fail, and no later
    validation passes (section 5.1.2 of RFC 8617). */
module ArcFailure {
  import opened Text
  import opened TagList
  import opened DkimHeaders
  import opened Dkim
  import opened Arc
  import opened ArcChain
  import ArcSeals
  import opened ArcIntegrity

  /** What the next seal says of a chain: none without one, pass exactly when it passes. */
  lemma NextCv(c: Crypto, dns: Dns, s: ArcSigner, h: Headers, body: string)
    requires UniqueFold(h)
    ensures var cv := ChainCV(c, dns, s, h, body);
            && (Extract(h) == [] ==> cv == Some("none"))
            && (Extract(h) != [] && s.hasResolver ==> (cv == Some("pass") <==> Passes(c, dns, h, body)))
            && (Extract(h) != [] && !Passes(c, dns, h, body) && cv.Some? ==> cv == Some("fail"))
            && (Extract(h) != [] && !s.hasResolver ==> cv == Some("fail"))
  {
    hide ChainVerdict, Extract, UniqueFold;
    Words();
  }

  // ---------- where the new headers stand ----------

  lemma FewerKeys(h: Headers, g: Headers)
    requires UniqueFold(g) && h.Keys <= g.Keys
    ensures UniqueFold(h)
  {
    forall k, l | k in h && l in h && Lower(k) == Lower(l) ensures k == l {
      assert k in g.Keys && l in g.Keys;
    }
  }

  lemma AddSetIsPrepend(h: Headers, s: ArcSet)
    ensures AddSet(h, s) == Prepend(Prepend(Prepend(h, KeyOf(Results), s.aar), KeyOf(MessageSignature), s.ams), KeyOf(Seal), s.seal)
  {
    KeysDiffer();
  }

  lemma KeysDiffer()
    ensures forall k, l :: k != l ==> KeyOf(k) != KeyOf(l) && LowerKeyOf(k) != LowerKeyOf(l)
    ensures forall k :: Lower(KeyOf(k)) == LowerKeyOf(k) && Lower(LowerKeyOf(k)) == LowerKeyOf(k)
  {
    KeysFold();
    KindsDiffer();
    assert forall k, l :: k != l ==> LowerKeyOf(k) != LowerKeyOf(l) by {
      assert |LowerKeyOf(Results)| == 26 && |LowerKeyOf(MessageSignature)| == 21 && |LowerKeyOf(Seal)| == 8;
    }
  }

  /** After a prepend the field has the value on top; the other fields are as before. */
  lemma LookupAfter(h: Headers, kind: Kind, v: string, other: Kind)
    requires UniqueFold(h) && UniqueFold(Prepend(h, KeyOf(kind), v))
    ensures LookupField(Prepend(h, KeyOf(kind), v), LowerKeyOf(other)).1 ==
            if other == kind then [v] + LookupField(h, LowerKeyOf(kind)).1 else LookupField(h, LowerKeyOf(other)).1
  {
    KeysDiffer();
    if other == kind {
      NewLookup(h, KeyOf(kind), v, LowerKeyOf(kind));
    } else {
      SameLookup(h, KeyOf(kind), v, LowerKeyOf(other));
    }
    hide LookupField, Prepend, KeyOf, LowerKeyOf;
  }

  lemma LookupAfterSet(h: Headers, s: ArcSet, kind: Kind)
    requires UniqueFold(h) && UniqueFold(AddSet(h, s))
    ensures LookupField(AddSet(h, s), LowerKeyOf(kind)).1 == [ValueOf(s, kind)] + LookupField(h, LowerKeyOf(kind)).1
  {
    AddSetIsPrepend(h, s);
    var a := Prepend(h, KeyOf(Results), s.aar);
    var b := Prepend(a, KeyOf(MessageSignature), s.ams);
    var g := AddSet(h, s);
    FewerKeys(a, g);
    FewerKeys(b, g);
    hide LookupField, AddSet, KeyOf, LowerKeyOf, UniqueFold;
    LookupAfter(h, Results, s.aar, kind);
    LookupAfter(a, MessageSignature, s.ams, kind);
    LookupAfter(b, Seal, s.seal, kind);
  }

  lemma {:induction false} BelowMax(es: seq<Entry>, j: nat)
    requires j < |es|
    ensures ExtractInstance(es[j].value) <= MaxInstance(es)
  {
    hide ExtractInstance;
    if j > 0 {
      BelowMax(es[1..], j - 1);
    }
  }

  lemma {:induction false} KindAmong(es: seq<Entry>, kind: Kind, v: string)
    requires v in OfKind(es, kind)
    ensures exists j :: 0 <= j < |es| && es[j].value == v
  {
    if es[0].kind == kind && es[0].value == v {
    } else {
      KindAmong(es[1..], kind, v);
      var j :| 0 <= j < |es[1..]| && es[1..][j].value == v;
      assert es[j + 1].value == v;
    }
  }

  lemma {:induction false} NoneWith(values: seq<string>, i: nat)
    requires forall v :: v in values ==> ExtractInstance(v) != i
    ensures LastWith(values, i) == None
  {
    hide ExtractInstance;
    if values != [] {
      NoneWith(values[1..], i);
    }
  }

  /** The seal of the new set is the one found under the next instance. */
  lemma NewSeal(h: Headers, s: ArcSet)
    requires UniqueFold(h) && UniqueFold(AddSet(h, s)) && ExtractInstance(s.seal) == NextInstance(h)
    ensures var sets := Group(Extract(AddSet(h, s))); NextInstance(h) in sets && SetAt(sets, NextInstance(h)).seal == s.seal
  {
    var n, g := NextInstance(h), AddSet(h, s);
    var earlier := LookupField(h, LowerKeyOf(Seal)).1;
    LookupAfterSet(h, s, Seal);
    ExtractKinds(g, Seal);
    ExtractKinds(h, Seal);
    hide LookupField, LowerKeyOf, AddSet, Extract, ExtractInstance, UniqueFold;
    forall v | v in earlier ensures ExtractInstance(v) != n {
      KindAmong(Extract(h), Seal, v);
      var j :| 0 <= j < |Extract(h)| && Extract(h)[j].value == v;
      BelowMax(Extract(h), j);
    }
    NoneWith(earlier, n);
    assert ([s.seal] + earlier)[1..] == earlier;
    assert LastWith([s.seal] + earlier, n) == Some(s.seal);
    GroupIs(Extract(g), n);
  }

  // ---------- the new seal does not pass ----------

  ghost function FirstNumbers(n: nat): set<nat> {
    if n == 0 then {} else FirstNumbers(n - 1) + {n}
  }

  lemma {:induction false} FirstNumbersAre(n: nat)
    ensures |FirstNumbers(n)| == n && forall i :: i in FirstNumbers(n) <==> 1 <= i <= n
  {
    if n > 0 {
      FirstNumbersAre(n - 1);
    }
  }

  lemma {:induction false} SubsetSize(a: set<nat>, b: set<nat>)
    requires a <= b
    ensures |a| <= |b|
  {
    if a != {} {
      var x :| x in a;
      SubsetSize(a - {x}, b - {x});
    }
  }

  /** With all of 1 to n among n keys, no other number is a key. */
  lemma NoOtherKey(sets: map<nat, ArcSet>, i: nat)
    requires (forall k :: 1 <= k <= |sets| ==> k in sets) && i in sets && i >= 1
    ensures i <= |sets|
  {
    var n := |sets|;
    FirstNumbersAre(n);
    var all := FirstNumbers(n) + {i};
    assert all <= sets.Keys;
    SubsetSize(all, sets.Keys);
  }

  lemma SealCv(hop: Hop, cv: string, i: nat, signature: string)
    requires ArcSeals.ArcConfigured(hop.signer) && (cv == "none" || cv == "pass" || cv == "fail") && IsBase64(signature)
    ensures var seal := PrintTags(SealPairs(hop.signer, cv, i, hop.sealTime) + [("b", signature)]);
            ParseTags(seal).Get("cv") == cv && (1 <= i <= MAX_INSTANCE ==> ExtractInstance(seal) == i)
  {
    var ps := SealPairs(hop.signer, cv, i, hop.sealTime) + [("b", signature)];
    ArcSeals.SealClean(hop.signer, cv, i, hop.sealTime, signature);
    PrintedTag(ps, 3, "cv");
    if 1 <= i <= MAX_INSTANCE {
      PrintedInstance(ps, i);
    }
  }

  lemma MadeSeal(c: Crypto, hop: Hop, h: Headers, body: string, i: nat, cv: string) returns (signature: string)
    requires Sound(c) && UniqueFold(h) && ArcSeals.ArcConfigured(hop.signer) && i >= 1 && MakeSet(c, hop, h, body, i, cv).Some?
    requires cv == "none" || cv == "pass" || cv == "fail"
    ensures IsBase64(signature)
    ensures MakeSet(c, hop, h, body, i, cv).value.seal == PrintTags(SealPairs(hop.signer, cv, i, hop.sealTime) + [("b", signature)])
  {
    var s := MakeSet(c, hop, h, body, i, cv).value;
    var pairs := SealPairs(hop.signer, cv, i, hop.sealTime);
    signature := c.sign(Rsa, hop.signer.key.value, SealInput(Group(Extract(h)), s.aar, s.ams, PrintTags(pairs + [("b", "")]), i)).value;
    PrintWithB(pairs, signature);
    hide SealInput, AmsInput, Extract, Group;
  }

  /** A hop that seals a chain which does not pass marks it: whatever happens to the message
      body, the chain with the new set does not pass either. */
  lemma FailStays(c: Crypto, dns: Dns, hop: Hop, h: Headers, body: string, text: string)
    requires Sound(c) && UniqueFold(h) && ArcSeals.ArcConfigured(hop.signer)
    requires Extract(h) != [] && !Passes(c, dns, h, body)
    requires SealWithCV(c, dns, hop, h, body, "").Some? && UniqueFold(SealWithCV(c, dns, hop, h, body, "").value)
    ensures !Passes(c, dns, SealWithCV(c, dns, hop, h, body, "").value, text)
  {
    var n, g := NextInstance(h), SealWithCV(c, dns, hop, h, body, "").value;
    var s := SignWithCV(c, dns, hop, h, body, n, "").value;
    NextCv(c, dns, hop.signer, h, body);
    assert MakeSet(c, hop, h, body, n, "fail") == Some(s) && g == AddSet(h, s) && 1 <= n <= MAX_INSTANCE;
    hide SealWithCV, SignWithCV, MakeSet, NextInstance, AddSet, Extract, Passes, ChainCV, UniqueFold, Sound;
    var signature := MadeSeal(c, hop, h, body, n, "fail");
    SealCv(hop, "fail", n, signature);
    NewSeal(h, s);
    NotAccepted(c, dns, g, text, n, s.seal);
  }

  lemma CvRefused(c: Crypto, dns: Dns, g: Headers, text: string, i: nat, n: nat)
    requires UniqueFold(g) && i >= 1 && ParseTags(SetAt(Group(Extract(g)), i).seal).Get("cv") == "fail"
    ensures !SetAccepted(c, dns, g, text, i, n)
  {
    hide Extract, Group, ParseTags, SealAccepted, AmsAccepted, UniqueFold, SetAt;
    Words();
    assert Lower("fail") == "fail";
  }

  lemma NotAccepted(c: Crypto, dns: Dns, g: Headers, text: string, i: nat, seal: string)
    requires UniqueFold(g) && i >= 1 && i in Group(Extract(g)) && SetAt(Group(Extract(g)), i).seal == seal
    requires ParseTags(seal).Get("cv") == "fail"
    ensures !Passes(c, dns, g, text)
  {
    hide Passes, SetAccepted, Extract, Group, ParseTags, StructureValid, UniqueFold, SetAt;
    PassIff(c, dns, g, text);
    CvRefused(c, dns, g, text, i, |Group(Extract(g))|);
    if WellFormed(g) {
      NoOtherKey(Group(Extract(g)), i);
    }
  }
}

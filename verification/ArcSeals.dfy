/** Successive seals: the bytes each seal signed are the bytes the validator
    rebuilds after any number of later sets. */
module ArcSeals {
  import opened Text
  import opened TagList
  import opened DkimHeaders
  import opened Dkim
  import opened Arc
  import opened ArcChain

  // ---------- the signed headers do not see the ARC headers ----------

  lemma {:induction false} SameHashInput(h: Headers, h': Headers, list: seq<string>, canon: string)
    requires UniqueFold(h) && UniqueFold(h')
    requires forall i :: 0 <= i < |list| ==> LookupField(h, list[i]) == LookupField(h', list[i])
    ensures HashInput(h, list, canon) == HashInput(h', list, canon)
  {
    hide LookupField, CanonicalizeHeader, UniqueFold, Lower, Mentions;
    if list != [] {
      SameHashInput(h, h', list[..|list| - 1], canon);
    }
  }

  /** A field name that cannot be an ARC name. */
  predicate OtherName(x: string) {
    x != "" && LowerChar(x[0]) != 'a'
  }

  lemma OtherIsNotArc(x: string)
    requires OtherName(x)
    ensures !IsArcName(x)
    ensures forall kind :: Lower(KeyOf(kind)) != Lower(x)
  {
    KeysFold();
    assert Lower(x)[0] == LowerChar(x[0]);
    assert forall kind :: LowerKeyOf(kind)[0] == 'a';
  }

  lemma SealedLookup(h0: Headers, sets: seq<ArcSet>, x: string)
    requires Unsealed(h0) && OtherName(x) && UniqueFold(WithSets(h0, sets))
    ensures LookupField(WithSets(h0, sets), x) == LookupField(h0, x)
    ensures Present(WithSets(h0, sets), x) == Present(h0, x)
  {
    OtherIsNotArc(x);
    var h := WithSets(h0, sets);
    forall k | k in h && Lower(k) == Lower(x) ensures k in h0 && h[k] == h0[k] {
      assert forall kind :: k != KeyOf(kind);
      assert k != KeyOf(Results) && k != KeyOf(MessageSignature) && k != KeyOf(Seal);
    }
    forall k | k in h0 && Lower(k) == Lower(x) ensures k in h && h[k] == h0[k] {
      assert forall kind :: k != KeyOf(kind);
      assert k != KeyOf(Results) && k != KeyOf(MessageSignature) && k != KeyOf(Seal);
    }
    if k :| k in h0 && Lower(k) == Lower(x) {
      assert LookupField(h, x) == (k, h[k]);
    } else {
      assert LookupField(h, x) == (x, []);
    }
  }

  lemma {:induction false} SamePresent(h0: Headers, sets: seq<ArcSet>, names: seq<string>)
    requires Unsealed(h0) && UniqueFold(WithSets(h0, sets))
    requires forall i :: 0 <= i < |names| ==> OtherName(names[i])
    ensures PresentOf(WithSets(h0, sets), names) == PresentOf(h0, names)
  {
    if names != [] {
      SamePresent(h0, sets, names[..|names| - 1]);
      SealedLookup(h0, sets, names[|names| - 1]);
    }
  }

  lemma CandidatePlain(x: string)
    requires x in CANDIDATES
    ensures PlainName(x)
  {
    ShortNamesPlain();
    LongNamesPlain();
  }

  lemma CandidateOther(x: string)
    requires x in CANDIDATES
    ensures OtherName(x)
  {}

  /** The h= list of an AMS: plain names, none of them an ARC name. */
  lemma SignedNames(h0: Headers)
    ensures var signed := PresentOf(h0, CANDIDATES);
            PlainNames(signed) && forall i :: 0 <= i < |signed| ==> OtherName(signed[i])
  {
    var signed := PresentOf(h0, CANDIDATES);
    forall i | 0 <= i < |signed| ensures PlainName(signed[i]) && OtherName(signed[i]) {
      assert signed[i] in signed;
      CandidatePlain(signed[i]);
      CandidateOther(signed[i]);
    }
  }

  lemma {:induction false} NotArcKeeps(names: seq<string>)
    requires PlainNames(names) && forall i :: 0 <= i < |names| ==> OtherName(names[i])
    ensures NotArc(names) == names
  {
    if names != [] {
      PlainIsClean(names[0]);
      NotArcKeeps(names[1..]);
    }
  }

  /** The AMS hash input is the same however many sets the message carries, and
      whether or not b= is filled in. */
  lemma SameAmsInput(h0: Headers, sets: seq<ArcSet>, earlier: seq<ArcSet>, pairs: seq<Pair>, signature: string)
    requires Unsealed(h0) && UniqueFold(WithSets(h0, sets)) && UniqueFold(WithSets(h0, earlier))
    requires pairs != [] && Clean(pairs + [("b", signature)])
    ensures AmsInput(PrintTags(pairs + [("b", signature)]), WithSets(h0, sets), PresentOf(h0, CANDIDATES), "relaxed")
         == AmsInput(PrintTags(pairs + [("b", "")]), WithSets(h0, earlier), PresentOf(h0, CANDIDATES), "relaxed")
  {
    var signed := PresentOf(h0, CANDIDATES);
    SignedNames(h0);
    NotArcKeeps(signed);
    forall i | 0 <= i < |signed|
      ensures LookupField(WithSets(h0, sets), signed[i]) == LookupField(WithSets(h0, earlier), signed[i])
    {
      SealedLookup(h0, sets, signed[i]);
      SealedLookup(h0, earlier, signed[i]);
    }
    SameHashInput(WithSets(h0, sets), WithSets(h0, earlier), signed, "relaxed");
    EmptyB(pairs, signature);
    CleanEmpty(pairs, signature);
    EmptyB(pairs, "");
  }

  // ---------- the sealed sets do not change when sets are added ----------

  lemma {:induction false} SameSealedSets(g: map<nat, ArcSet>, g': map<nat, ArcSet>, n: nat)
    requires forall k :: 1 <= k <= n ==> SetAt(g, k) == SetAt(g', k)
    ensures SealedSets(g, n) == SealedSets(g', n)
  {
    if n > 0 {
      SameSealedSets(g, g', n - 1);
    }
  }

  lemma SameSealInput(sets: seq<ArcSet>, i: nat, aar: string, ams: string, pairs: seq<Pair>, signature: string)
    requires 1 <= i <= |sets| && pairs != [] && Clean(pairs + [("b", signature)])
    ensures SealInput(ByNumber(sets), aar, ams, PrintTags(pairs + [("b", signature)]), i)
         == SealInput(ByNumber(sets[..i - 1]), aar, ams, PrintTags(pairs + [("b", "")]), i)
  {
    var g, g' := ByNumber(sets), ByNumber(sets[..i - 1]);
    forall k | 1 <= k <= i - 1 ensures SetAt(g, k) == SetAt(g', k) {
      assert k in g && k in g' && Nth(sets, k) == Nth(sets[..i - 1], k);
    }
    SameSealedSets(g, g', i - 1);
    EmptyB(pairs, signature);
    CleanEmpty(pairs, signature);
    EmptyB(pairs, "");
  }

  // ---------- the shape of a set ----------

  predicate ArcConfigured(s: ArcSigner) {
    && s.key.Some? && s.hasResolver
    && s.domain != "" && s.selector != "" && CleanValue(s.domain) && CleanValue(s.selector)
  }

  const AMS_TAGS: seq<string> := ["i", "a", "c", "d", "s", "t", "h", "bh", "b"]
  const SEAL_TAGS: seq<string> := ["i", "a", "t", "cv", "d", "s", "b"]

  lemma TagNamesClean()
    ensures CleanTags(AMS_TAGS) && CleanTags(SEAL_TAGS)
  {}

  lemma ArcConstantsClean()
    ensures CleanValue("rsa-sha256") && CleanValue("relaxed/relaxed") && CleanValue("none") && CleanValue("pass") && CleanValue("fail")
  {}

  lemma AmsTagsOf(s: ArcSigner, signed: seq<string>, bodyHash: string, instance: nat, time: nat, signature: string)
    ensures TagsOf(AmsPairs(s, signed, bodyHash, instance, time) + [("b", signature)]) == AMS_TAGS
  {}

  lemma AmsValue(s: ArcSigner, signed: seq<string>, bodyHash: string, instance: nat, time: nat, j: nat)
    requires ArcConfigured(s) && PlainNames(signed) && IsBase64(bodyHash) && j < 8
    ensures CleanValue(AmsPairs(s, signed, bodyHash, instance, time)[j].1)
  {
    ArcConstantsClean();
    if j == 0 {
      ItoaClean(instance);
    } else if j == 5 {
      ItoaClean(time);
    } else if j == 6 {
      JoinPlain(signed);
    }
  }

  lemma AmsClean(s: ArcSigner, signed: seq<string>, bodyHash: string, instance: nat, time: nat, signature: string)
    requires ArcConfigured(s) && PlainNames(signed) && IsBase64(bodyHash) && CleanValue(signature)
    ensures Clean(AmsPairs(s, signed, bodyHash, instance, time) + [("b", signature)])
  {
    var ps := AmsPairs(s, signed, bodyHash, instance, time);
    var all := ps + [("b", signature)];
    AmsTagsOf(s, signed, bodyHash, instance, time, signature);
    TagNamesClean();
    forall j | 0 <= j < |all| ensures CleanValue(all[j].1) {
      if j < 8 {
        AmsValue(s, signed, bodyHash, instance, time, j);
      }
    }
    CleanByTags(all, AMS_TAGS);
  }

  lemma SealTagsOf(s: ArcSigner, cv: string, instance: nat, time: nat, signature: string)
    ensures TagsOf(SealPairs(s, cv, instance, time) + [("b", signature)]) == SEAL_TAGS
  {}

  lemma SealValue(s: ArcSigner, cv: string, instance: nat, time: nat, j: nat)
    requires ArcConfigured(s) && (cv == "none" || cv == "pass" || cv == "fail") && j < 6
    ensures CleanValue(SealPairs(s, cv, instance, time)[j].1)
  {
    ArcConstantsClean();
    if j == 0 {
      ItoaClean(instance);
    } else if j == 2 {
      ItoaClean(time);
    }
  }

  lemma SealClean(s: ArcSigner, cv: string, instance: nat, time: nat, signature: string)
    requires ArcConfigured(s) && (cv == "none" || cv == "pass" || cv == "fail") && CleanValue(signature)
    ensures Clean(SealPairs(s, cv, instance, time) + [("b", signature)])
  {
    var ps := SealPairs(s, cv, instance, time);
    var all := ps + [("b", signature)];
    SealTagsOf(s, cv, instance, time, signature);
    TagNamesClean();
    forall j | 0 <= j < |all| ensures CleanValue(all[j].1) {
      if j < 6 {
        SealValue(s, cv, instance, time, j);
      }
    }
    CleanByTags(all, SEAL_TAGS);
  }
}

/** The main result on ARC: any run of up to 50 seals yields a chain that
    validates, and no run gets past 50. */
module ArcTheorem {
  import opened Text
  import opened TagList
  import opened DkimHeaders
  import opened Dkim
  import opened Arc
  import opened ArcChain
  import opened ArcSeals

  function CvFor(j: nat): string {
    if j == 0 then "none" else "pass"
  }

  /** The hop's public key is what DNS publishes under its name. */
  ghost predicate Published(c: Crypto, dns: Dns, s: ArcSigner) {
    ArcConfigured(s) && dns(s.selector, s.domain) == Found(Rsa, c.publicOf(Rsa, s.key.value))
  }

  function AmsPairsFor(c: Crypto, hop: Hop, h0: Headers, body: string, i: nat): seq<Pair> {
    AmsPairs(hop.signer, PresentOf(h0, CANDIDATES), ComputeBodyHash(c, body, "relaxed"), i, hop.amsTime)
  }

  function SealPairsFor(hop: Hop, i: nat): seq<Pair>
    requires i >= 1
  {
    SealPairs(hop.signer, CvFor(i - 1), i, hop.sealTime)
  }

  /** Set number i of the chain was made by the hop from the sets before it. */
  ghost predicate MadeAt(c: Crypto, dns: Dns, h0: Headers, body: string, hop: Hop, sets: seq<ArcSet>, i: nat) {
    && 1 <= i <= |sets| && Published(c, dns, hop.signer)
    && UniqueFold(WithSets(h0, sets[..i - 1]))
    && MakeSet(c, hop, WithSets(h0, sets[..i - 1]), body, i, CvFor(i - 1)) == Some(sets[i - 1])
  }

  ghost predicate MadeBy(c: Crypto, dns: Dns, h0: Headers, body: string, hops: seq<Hop>, sets: seq<ArcSet>, i: nat) {
    1 <= i <= |hops| && MadeAt(c, dns, h0, body, hops[i - 1], sets, i)
  }

  ghost predicate Made(c: Crypto, dns: Dns, h0: Headers, body: string, hops: seq<Hop>, sets: seq<ArcSet>) {
    && Sound(c) && Unsealed(h0) && |hops| == |sets| <= MAX_INSTANCE
    && forall i :: 1 <= i <= |sets| ==> MadeBy(c, dns, h0, body, hops, sets, i)
  }

  /** A made set, spelled out: printed pairs followed by signatures over the
      two hash inputs. */
  lemma SetShape(c: Crypto, dns: Dns, h0: Headers, body: string, hop: Hop, sets: seq<ArcSet>, i: nat)
    returns (amsSig: string, sealSig: string)
    requires Sound(c) && Unsealed(h0) && MadeAt(c, dns, h0, body, hop, sets, i)
    ensures IsBase64(amsSig) && IsBase64(sealSig)
    ensures var s, h, signed := sets[i - 1], WithSets(h0, sets[..i - 1]), PresentOf(h0, CANDIDATES);
            var key := c.publicOf(Rsa, hop.signer.key.value);
            && s.aar == ResultsValue(hop.authResults, i)
            && s.ams == PrintTags(AmsPairsFor(c, hop, h0, body, i) + [("b", amsSig)])
            && s.seal == PrintTags(SealPairsFor(hop, i) + [("b", sealSig)])
            && c.verify(Rsa, key, AmsInput(PrintTags(AmsPairsFor(c, hop, h0, body, i) + [("b", "")]), h, signed, "relaxed"), amsSig)
            && c.verify(Rsa, key, SealInput(Group(Extract(h)), s.aar, s.ams, PrintTags(SealPairsFor(hop, i) + [("b", "")]), i), sealSig)
  {
    var h, signed := WithSets(h0, sets[..i - 1]), PresentOf(h0, CANDIDATES);
    forall j | 0 <= j < |CANDIDATES| ensures OtherName(CANDIDATES[j]) {
      CandidateOther(CANDIDATES[j]);
    }
    SamePresent(h0, sets[..i - 1], CANDIDATES);
    var amsPairs, sealPairs := AmsPairsFor(c, hop, h0, body, i), SealPairsFor(hop, i);
    var amsIn := AmsInput(PrintTags(amsPairs + [("b", "")]), h, signed, "relaxed");
    amsSig := c.sign(Rsa, hop.signer.key.value, amsIn).value;
    var aar, ams := ResultsValue(hop.authResults, i), PrintTags(amsPairs + [("b", "")]) + amsSig;
    PrintWithB(amsPairs, amsSig);
    var sealIn := SealInput(Group(Extract(h)), aar, ams, PrintTags(sealPairs + [("b", "")]), i);
    sealSig := c.sign(Rsa, hop.signer.key.value, sealIn).value;
    PrintWithB(sealPairs, sealSig);
  }

  lemma SetNumber(c: Crypto, dns: Dns, h0: Headers, body: string, hop: Hop, sets: seq<ArcSet>, i: nat, kind: Kind)
    requires Sound(c) && Unsealed(h0) && MadeAt(c, dns, h0, body, hop, sets, i) && i <= MAX_INSTANCE
    ensures ExtractInstance(ValueOf(sets[i - 1], kind)) == i
  {
    hide ExtractInstance, PrintTags, MakeSet, AmsInput, SealInput, UniqueFold, WithSets, ResultsValue, Group, Extract, Sound, Itoa;
    var amsSig, sealSig := SetShape(c, dns, h0, body, hop, sets, i);
    match kind
    case Results =>
      ResultsNumber(hop.authResults, i);
    case MessageSignature =>
      PrintedInstance(AmsPairsFor(c, hop, h0, body, i) + [("b", amsSig)], i);
    case Seal =>
      PrintedInstance(SealPairsFor(hop, i) + [("b", sealSig)], i);
  }

  lemma ResultsNumber(authResults: string, i: nat)
    requires 1 <= i <= MAX_INSTANCE
    ensures ExtractInstance(ResultsValue(authResults, i)) == i
  {
    hide ExtractInstance, TrimSpace, OneLine, Itoa;
    var rest := TrimSpace(OneLine(authResults));
    assert ResultsValue(authResults, i) == "i=" + Itoa(i) + ";" + (" " + rest);
    InstanceOf(i, " " + rest);
  }

  lemma MadeNumbered(c: Crypto, dns: Dns, h0: Headers, body: string, hops: seq<Hop>, sets: seq<ArcSet>)
    requires Made(c, dns, h0, body, hops, sets)
    ensures Numbered(sets)
  {
    hide ExtractInstance, MadeAt, ValueOf;
    forall j, kind | 0 <= j < |sets| ensures ExtractInstance(ValueOf(sets[j], kind)) == j + 1 {
      assert MadeBy(c, dns, h0, body, hops, sets, j + 1);
      SetNumber(c, dns, h0, body, hops[j], sets, j + 1, kind);
    }
  }

  lemma CvLower(j: nat)
    ensures Lower(CvFor(j)) == CvFor(j)
  {
    assert IsLower("none") && IsLower("pass");
    LowerOfLower(CvFor(j));
  }

  lemma SealTagValues(hop: Hop, i: nat, signature: string)
    requires ArcConfigured(hop.signer) && i >= 1 && IsBase64(signature)
    ensures var t := ParseTags(PrintTags(SealPairsFor(hop, i) + [("b", signature)]));
            && Usable(t) && t.Get("b") == signature && t.Get("d") == hop.signer.domain && t.Get("s") == hop.signer.selector
            && Lower(t.Get("cv")) == CvFor(i - 1)
  {
    var ps := SealPairsFor(hop, i) + [("b", signature)];
    SealClean(hop.signer, CvFor(i - 1), i, hop.sealTime, signature);
    PrintedTag(ps, 1, "a");
    PrintedTag(ps, 3, "cv");
    PrintedTag(ps, 4, "d");
    PrintedTag(ps, 5, "s");
    PrintedTag(ps, 6, "b");
    CvLower(i - 1);
  }

  lemma AmsTagValues(c: Crypto, hop: Hop, h0: Headers, body: string, i: nat, signature: string)
    requires Sound(c) && ArcConfigured(hop.signer) && IsBase64(signature)
    ensures var t := ParseTags(PrintTags(AmsPairsFor(c, hop, h0, body, i) + [("b", signature)]));
            && Usable(t) && t.Get("b") == signature && t.Get("d") == hop.signer.domain && t.Get("s") == hop.signer.selector
            && t.Get("c") == "relaxed/relaxed" && t.Get("bh") == ComputeBodyHash(c, body, "relaxed")
            && t.Get("h") == Join(PresentOf(h0, CANDIDATES), ":")
  {
    var ps := AmsPairsFor(c, hop, h0, body, i) + [("b", signature)];
    SignedNames(h0);
    AmsClean(hop.signer, PresentOf(h0, CANDIDATES), ComputeBodyHash(c, body, "relaxed"), i, hop.amsTime, signature);
    PrintedTag(ps, 1, "a");
    PrintedTag(ps, 2, "c");
    PrintedTag(ps, 3, "d");
    PrintedTag(ps, 4, "s");
    PrintedTag(ps, 6, "h");
    PrintedTag(ps, 7, "bh");
    PrintedTag(ps, 8, "b");
  }

  lemma CanonsOf(h: string, b: string)
    requires '/' !in h && h == "relaxed" && b == "relaxed"
    ensures ArcCanons(h + "/" + b) == (h, b)
  {
    IndexOfAt(h, '/', b);
    var c := h + "/" + b;
    assert c == h + ['/'] + b;
    assert c[..|h|] == h && c[|h| + 1..] == b;
  }

  lemma RelaxedCanons()
    ensures ArcCanons("relaxed/relaxed") == ("relaxed", "relaxed")
  {
    CanonsOf("relaxed", "relaxed");
    assert "relaxed" + "/" + "relaxed" == "relaxed/relaxed";
  }

  /** The AMS of every hop still verifies after all later hops. */
  lemma AmsStaysValid(c: Crypto, dns: Dns, h0: Headers, body: string, hop: Hop, sets: seq<ArcSet>, i: nat)
    requires Sound(c) && Unsealed(h0) && MadeAt(c, dns, h0, body, hop, sets, i) && UniqueFold(WithSets(h0, sets))
    ensures ValidateAMS(c, dns, sets[i - 1].ams, WithSets(h0, sets), body) == Valid
  {
    var amsSig, sealSig := SetShape(c, dns, h0, body, hop, sets, i);
    var pairs, signed := AmsPairsFor(c, hop, h0, body, i), PresentOf(h0, CANDIDATES);
    var ams := PrintTags(pairs + [("b", amsSig)]);
    AmsTagValues(c, hop, h0, body, i, amsSig);
    RelaxedCanons();
    SignedNames(h0);
    HeaderListRoundTrip(signed);
    AmsClean(hop.signer, signed, ComputeBodyHash(c, body, "relaxed"), i, hop.amsTime, amsSig);
    SameAmsInput(h0, sets, sets[..i - 1], pairs, amsSig);
    assert ams != "" by { PrintEnds(pairs + [("b", amsSig)]); }
  }

  lemma SetNotEmpty(c: Crypto, dns: Dns, h0: Headers, body: string, hop: Hop, sets: seq<ArcSet>, i: nat)
    requires Sound(c) && Unsealed(h0) && MadeAt(c, dns, h0, body, hop, sets, i)
    ensures sets[i - 1].aar != "" && sets[i - 1].ams != "" && sets[i - 1].seal != ""
  {
    var amsSig, sealSig := SetShape(c, dns, h0, body, hop, sets, i);
    SignedNames(h0);
    AmsClean(hop.signer, PresentOf(h0, CANDIDATES), ComputeBodyHash(c, body, "relaxed"), i, hop.amsTime, amsSig);
    PrintEnds(AmsPairsFor(c, hop, h0, body, i) + [("b", amsSig)]);
    SealClean(hop.signer, CvFor(i - 1), i, hop.sealTime, sealSig);
    PrintEnds(SealPairsFor(hop, i) + [("b", sealSig)]);
  }

  lemma AllSetsPresent(c: Crypto, dns: Dns, h0: Headers, body: string, hops: seq<Hop>, sets: seq<ArcSet>, n: nat)
    requires Made(c, dns, h0, body, hops, sets) && n <= |sets|
    ensures AllSets(ByNumber(sets), n)
  {
    forall k | 1 <= k <= n
      ensures k in ByNumber(sets) && ByNumber(sets)[k].aar != "" && ByNumber(sets)[k].ams != "" && ByNumber(sets)[k].seal != ""
    {
      assert MadeBy(c, dns, h0, body, hops, sets, k);
      SetNotEmpty(c, dns, h0, body, hops[k - 1], sets, k);
      assert ByNumber(sets)[k] == Nth(sets, k);
    }
  }

  lemma NumberedPrefix(sets: seq<ArcSet>, n: nat)
    requires Numbered(sets) && n <= |sets|
    ensures Numbered(sets[..n])
  {
    forall j, kind | 0 <= j < n ensures ExtractInstance(ValueOf(sets[..n][j], kind)) == j + 1 {
      assert sets[..n][j] == sets[j];
      assert ExtractInstance(ValueOf(sets[j], kind)) == j + 1;
    }
  }

  /** The bytes a seal covers, rebuilt from the message with all later sets, are
      those it signed. */
  lemma SealBytes(c: Crypto, h0: Headers, hop: Hop, sets: seq<ArcSet>, i: nat, signature: string)
    requires Unsealed(h0) && Numbered(sets) && 1 <= i <= |sets| && ArcConfigured(hop.signer) && IsBase64(signature)
    requires UniqueFold(WithSets(h0, sets)) && UniqueFold(WithSets(h0, sets[..i - 1]))
    ensures var s, pairs := sets[i - 1], SealPairsFor(hop, i);
              SealInput(Group(Extract(WithSets(h0, sets))), s.aar, s.ams, PrintTags(pairs + [("b", signature)]), i)
              == SealInput(Group(Extract(WithSets(h0, sets[..i - 1]))), s.aar, s.ams, PrintTags(pairs + [("b", "")]), i)
  {
    SealedGroups(h0, sets);
    NumberedPrefix(sets, i - 1);
    SealedGroups(h0, sets[..i - 1]);
    SealClean(hop.signer, CvFor(i - 1), i, hop.sealTime, signature);
    SameSealInput(sets, i, sets[i - 1].aar, sets[i - 1].ams, SealPairsFor(hop, i), signature);
  }

  lemma SealTagsOfSet(c: Crypto, dns: Dns, h0: Headers, body: string, hop: Hop, sets: seq<ArcSet>, i: nat)
    requires Sound(c) && Unsealed(h0) && MadeAt(c, dns, h0, body, hop, sets, i)
    ensures var t := ParseTags(sets[i - 1].seal);
              Lower(t.Get("cv")) == CvFor(i - 1) && t.Get("d") == hop.signer.domain && t.Get("s") == hop.signer.selector
  {
    var amsSig, sealSig := SetShape(c, dns, h0, body, hop, sets, i);
    SealTagValues(hop, i, sealSig);
  }

  /** Every seal still verifies after all later hops. */
  lemma SealStaysValid(c: Crypto, dns: Dns, h0: Headers, body: string, hops: seq<Hop>, sets: seq<ArcSet>, i: nat)
    requires Made(c, dns, h0, body, hops, sets) && Numbered(sets) && 1 <= i <= |sets| && UniqueFold(WithSets(h0, sets))
    ensures ValidateSeal(c, dns, sets[i - 1].seal, WithSets(h0, sets), i) == Valid
  {
    hide ExtractInstance, Group, Extract, WithSets, PrintTags, ParseTags, SealInput, MakeSet, Usable, AllSets, AmsInput, UniqueFold;
    var hop, s := hops[i - 1], sets[i - 1];
    assert MadeBy(c, dns, h0, body, hops, sets, i);
    var amsSig, sealSig := SetShape(c, dns, h0, body, hop, sets, i);
    SealTagValues(hop, i, sealSig);
    SealBytes(c, h0, hop, sets, i, sealSig);
    SealedGroups(h0, sets);
    AllSetsPresent(c, dns, h0, body, hops, sets, i);
    SetNotEmpty(c, dns, h0, body, hop, sets, i);
    assert ExtractInstance(s.seal) == i by { assert ExtractInstance(ValueOf(sets[i - 1], Seal)) == i; }
    assert ByNumber(sets)[i] == Nth(sets, i) == s;
  }

  /** A chain of made sets validates with cv=pass. */
  lemma {:induction false} MadeVerdicts(c: Crypto, dns: Dns, h0: Headers, body: string, hops: seq<Hop>, sets: seq<ArcSet>, k: nat)
    requires Made(c, dns, h0, body, hops, sets) && Numbered(sets) && k <= |sets| && UniqueFold(WithSets(h0, sets))
    ensures SetsVerdict(c, dns, WithSets(h0, sets), body, k, |sets|) == Some(true)
  {
    hide ExtractInstance, Group, Extract, WithSets, ParseTags, MakeSet, ValidateSeal, ValidateAMS, UniqueFold, Numbered;
    if k > 0 {
      MadeVerdicts(c, dns, h0, body, hops, sets, k - 1);
      assert MadeBy(c, dns, h0, body, hops, sets, k);
      SealedGroups(h0, sets);
      SealStaysValid(c, dns, h0, body, hops, sets, k);
      AmsStaysValid(c, dns, h0, body, hops[k - 1], sets, k);
      SealTagsOfSet(c, dns, h0, body, hops[k - 1], sets, k);
      assert SetAt(ByNumber(sets), k) == Nth(sets, k) == sets[k - 1];
    }
  }

  /** The report of a chain in which every signature of every set verifies. */
  function AllPassed(sets: seq<ArcSet>): seq<Report> {
    if sets == [] then []
    else
      var n := |sets| - 1;
      AllPassed(sets[..n]) + [Report(n + 1, sets[n], true, true, true)]
  }

  /** Every set of a made chain passes, its message signature included. */
  lemma {:induction false} MadeReports(c: Crypto, dns: Dns, h0: Headers, body: string, hops: seq<Hop>, sets: seq<ArcSet>, k: nat)
    requires Made(c, dns, h0, body, hops, sets) && Numbered(sets) && k <= |sets| && UniqueFold(WithSets(h0, sets))
    ensures Reports(c, dns, WithSets(h0, sets), body, k, |sets|) == AllPassed(sets[..k])
  {
    hide ExtractInstance, Group, Extract, WithSets, ParseTags, MakeSet, ValidateSeal, ValidateAMS, UniqueFold, Numbered;
    if k > 0 {
      MadeReports(c, dns, h0, body, hops, sets, k - 1);
      assert MadeBy(c, dns, h0, body, hops, sets, k);
      SealedGroups(h0, sets);
      SealStaysValid(c, dns, h0, body, hops, sets, k);
      AmsStaysValid(c, dns, h0, body, hops[k - 1], sets, k);
      assert SetAt(ByNumber(sets), k) == Nth(sets, k) == sets[k - 1];
      assert sets[..k][..k - 1] == sets[..k - 1] && sets[..k][k - 1] == sets[k - 1];
    }
  }

  lemma {:induction false} ByNumberSize(sets: seq<ArcSet>)
    ensures |ByNumber(sets)| == |sets|
  {
    if sets != [] {
      var n := |sets|;
      ByNumberSize(sets[..n - 1]);
      var g, g' := ByNumber(sets), ByNumber(sets[..n - 1]);
      assert forall i :: i in g' ==> Nth(sets, i) == Nth(sets[..n - 1], i);
      assert g == g'[n := sets[n - 1]];
    }
  }

  /** The verdict on a well-formed chain whose sets are all acceptable. */
  lemma VerdictPasses(c: Crypto, dns: Dns, h: Headers, body: string, sets: map<nat, ArcSet>, n: nat)
    requires UniqueFold(h) && Extract(h) != [] && StructureValid(Extract(h)) && sets == Group(Extract(h))
    requires n == |sets| <= MAX_INSTANCE && (forall i :: 1 <= i <= n ==> i in sets)
    requires SetsVerdict(c, dns, h, body, n, n) == Some(true)
    ensures var t := ParseTags(SetAt(sets, n).seal);
            ChainVerdict(c, dns, h, body)
            == Validated(Chain(true, n, "pass", t.Get("d"), t.Get("s"), Reports(c, dns, h, body, n, n)))
  {
    hide Extract, Group, StructureValid, SetsVerdict, ParseTags, Reports, Unchecked, UniqueFold, SetAt;
  }

  lemma MadeValidates(c: Crypto, dns: Dns, h0: Headers, body: string, hops: seq<Hop>, sets: seq<ArcSet>)
    requires Made(c, dns, h0, body, hops, sets) && sets != []
    ensures UniqueFold(WithSets(h0, sets))
    ensures var last := hops[|hops| - 1].signer;
            ChainVerdict(c, dns, WithSets(h0, sets), body)
            == Validated(Chain(true, |sets|, "pass", last.domain, last.selector, AllPassed(sets)))
  {
    hide ExtractInstance, Group, Extract, WithSets, ParseTags, MakeSet, StructureValid, SetsVerdict, UniqueFold, Numbered, Lower,
      Reports, AllPassed, ChainVerdict;
    var n := |sets|;
    MadeNumbered(c, dns, h0, body, hops, sets);
    SealedGroups(h0, sets);
    SealedStructure(h0, sets);
    SealedNext(h0, sets);
    ByNumberSize(sets);
    MadeVerdicts(c, dns, h0, body, hops, sets, n);
    VerdictPasses(c, dns, WithSets(h0, sets), body, ByNumber(sets), n);
    MadeReports(c, dns, h0, body, hops, sets, n);
    assert sets[..n] == sets;
    assert MadeBy(c, dns, h0, body, hops, sets, n);
    SealTagsOfSet(c, dns, h0, body, hops[n - 1], sets, n);
    assert SetAt(ByNumber(sets), n) == Nth(sets, n) == sets[n - 1];
  }

  // ---------- runs ----------

  /** Message h is h0 after the given hops have sealed it one after the other. */
  ghost predicate Sealed(c: Crypto, dns: Dns, h0: Headers, body: string, hops: seq<Hop>, h: Headers) {
    if hops == [] then h == h0
    else
      var n := |hops| - 1;
      exists g :: UniqueFold(g) && Sealed(c, dns, h0, body, hops[..n], g) && SealWithCV(c, dns, hops[n], g, body, "") == Some(h)
  }

  lemma MadeExtend(c: Crypto, dns: Dns, h0: Headers, body: string, hops: seq<Hop>, sets: seq<ArcSet>, hop: Hop, s: ArcSet)
    requires Made(c, dns, h0, body, hops, sets) && |sets| < MAX_INSTANCE && Published(c, dns, hop.signer)
    requires UniqueFold(WithSets(h0, sets))
    requires MakeSet(c, hop, WithSets(h0, sets), body, |sets| + 1, CvFor(|sets|)) == Some(s)
    ensures Made(c, dns, h0, body, hops + [hop], sets + [s])
  {
    var hops', sets' := hops + [hop], sets + [s];
    forall i | 1 <= i <= |sets'| ensures MadeBy(c, dns, h0, body, hops', sets', i) {
      assert sets'[..i - 1] == sets[..i - 1];
      if i <= |sets| {
        assert MadeBy(c, dns, h0, body, hops, sets, i);
      } else {
        assert sets[..i - 1] == sets;
      }
    }
  }

  /** A hop that seals a made chain extends it: it found cv=none on an unsealed
      message and cv=pass on a sealed one. */
  lemma SealExtends(c: Crypto, dns: Dns, h0: Headers, body: string, hops: seq<Hop>, sets: seq<ArcSet>, hop: Hop)
    requires Made(c, dns, h0, body, hops, sets) && Published(c, dns, hop.signer) && UniqueFold(WithSets(h0, sets))
    ensures var h, i := WithSets(h0, sets), |sets| + 1;
            SignWithCV(c, dns, hop, h, body, NextInstance(h), "")
            == if i > MAX_INSTANCE then None else MakeSet(c, hop, h, body, i, CvFor(|sets|))
  {
    MadeNumbered(c, dns, h0, body, hops, sets);
    SealedNext(h0, sets);
    if sets != [] {
      MadeValidates(c, dns, h0, body, hops, sets);
    }
  }

  lemma NoSets(h0: Headers)
    ensures WithSets(h0, []) == h0
  {}

  lemma {:induction false} RunIsMade(c: Crypto, dns: Dns, h0: Headers, body: string, hops: seq<Hop>, h: Headers)
    returns (sets: seq<ArcSet>)
    requires Sound(c) && Unsealed(h0) && (forall j :: 0 <= j < |hops| ==> Published(c, dns, hops[j].signer))
    requires Sealed(c, dns, h0, body, hops, h)
    ensures Made(c, dns, h0, body, hops, sets) && h == WithSets(h0, sets)
  {
    hide MakeSet, SignWithCV, WithSets, UniqueFold, NextInstance, AddSet, Published;
    if hops == [] {
      sets := [];
      NoSets(h0);
    } else {
      var n := |hops| - 1;
      var g :| UniqueFold(g) && Sealed(c, dns, h0, body, hops[..n], g) && SealWithCV(c, dns, hops[n], g, body, "") == Some(h);
      var earlier := RunIsMade(c, dns, h0, body, hops[..n], g);
      SealExtends(c, dns, h0, body, hops[..n], earlier, hops[n]);
      var s := SignWithCV(c, dns, hops[n], g, body, NextInstance(g), "").value;
      MadeExtend(c, dns, h0, body, hops[..n], earlier, hops[n], s);
      AddSetIs(h0, earlier, s);
      sets := earlier + [s];
      assert hops == hops[..n] + [hops[n]];
    }
  }

  lemma {:induction false} AllPassedAt(sets: seq<ArcSet>)
    ensures |AllPassed(sets)| == |sets|
    ensures forall k :: 0 <= k < |sets| ==> AllPassed(sets)[k] == Report(k + 1, sets[k], true, true, true)
  {
    if sets != [] {
      AllPassedAt(sets[..|sets| - 1]);
    }
  }

  lemma NumberedAt(sets: seq<ArcSet>, k: nat)
    requires k < |sets|
    ensures SetAt(ByNumber(sets), k + 1) == sets[k]
  {
    assert Nth(sets, k + 1) == sets[k];
  }

  lemma SetsFound(c: Crypto, dns: Dns, h0: Headers, body: string, hops: seq<Hop>, sets: seq<ArcSet>)
    requires Made(c, dns, h0, body, hops, sets) && UniqueFold(WithSets(h0, sets))
    ensures forall k :: 0 <= k < |sets| ==> SetAt(Group(Extract(WithSets(h0, sets))), k + 1) == sets[k]
  {
    hide WithSets, Group, Extract, Numbered, MadeBy, UniqueFold, SetAt, ByNumber;
    MadeNumbered(c, dns, h0, body, hops, sets);
    SealedGroups(h0, sets);
    forall k | 0 <= k < |sets| ensures SetAt(ByNumber(sets), k + 1) == sets[k] {
      NumberedAt(sets, k);
    }
  }

  /** However many hops seal a message, the result validates: cv=pass, sealed last by
      the last hop, and one report per hop on the headers it added, with both its
      signatures valid. A run never has more than 50 hops. */
  lemma SealedChainValidates(c: Crypto, dns: Dns, h0: Headers, body: string, hops: seq<Hop>, h: Headers)
    requires Sound(c) && Unsealed(h0) && (forall j :: 0 <= j < |hops| ==> Published(c, dns, hops[j].signer))
    requires hops != [] && Sealed(c, dns, h0, body, hops, h)
    ensures |hops| <= MAX_INSTANCE && UniqueFold(h)
    ensures var last, verdict := hops[|hops| - 1].signer, ChainVerdict(c, dns, h, body);
            && verdict.Validated?
            && verdict.chain == Chain(true, |hops|, "pass", last.domain, last.selector, verdict.chain.sets)
            && |verdict.chain.sets| == |hops|
            && forall k :: 0 <= k < |hops| ==>
                 verdict.chain.sets[k] == Report(k + 1, SetAt(Group(Extract(h)), k + 1), true, true, true)
  {
    hide ChainVerdict, AllPassed, WithSets, Group, Extract, SetAt, Sealed, Sound, Published, Unsealed, MadeBy, UniqueFold;
    var sets := RunIsMade(c, dns, h0, body, hops, h);
    MadeValidates(c, dns, h0, body, hops, sets);
    AllPassedAt(sets);
    SetsFound(c, dns, h0, body, hops, sets);
  }

  lemma MakeSetSucceeds(c: Crypto, hop: Hop, h: Headers, body: string, i: nat, cv: string)
    requires UniqueFold(h) && hop.signer.key.Some? && i >= 1 && forall k, d :: c.sign(Rsa, k, d).Some?
    ensures MakeSet(c, hop, h, body, i, cv).Some?
  {
    hide AmsInput, SealInput, PrintTags, Group, Extract, ResultsValue, UniqueFold, PresentOf;
  }

  /** The next hop succeeds as long as signing does, until there are 50 sets;
      the 51st seal is refused. */
  lemma NextSeal(c: Crypto, dns: Dns, h0: Headers, body: string, hops: seq<Hop>, h: Headers, hop: Hop)
    requires Sound(c) && Unsealed(h0) && (forall j :: 0 <= j < |hops| ==> Published(c, dns, hops[j].signer))
    requires Published(c, dns, hop.signer) && Sealed(c, dns, h0, body, hops, h)
    ensures UniqueFold(h)
    ensures |hops| == MAX_INSTANCE ==> SealWithCV(c, dns, hop, h, body, "") == None
    ensures |hops| < MAX_INSTANCE && (forall k, d :: c.sign(Rsa, k, d).Some?) ==> SealWithCV(c, dns, hop, h, body, "").Some?
  {
    var sets := RunIsMade(c, dns, h0, body, hops, h);
    SealedUniqueFold(h0, sets);
    if |sets| < MAX_INSTANCE && forall k, d :: c.sign(Rsa, k, d).Some? {
      MakeSetSucceeds(c, hop, h, body, |sets| + 1, CvFor(|sets|));
    }
    hide MakeSet, SignWithCV, WithSets, UniqueFold, NextInstance, AddSet, Sealed, Sound;
    SealExtends(c, dns, h0, body, hops, sets, hop);
  }
}

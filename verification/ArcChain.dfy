/** How the headers of a chain group into sets: in which order they stand does not
    matter, and after k seals there are exactly the k sets that were added. */
module ArcChain {
  import opened Text
  import opened TagList
  import opened DkimHeaders
  import opened Dkim
  import opened Arc

  // ---------- grouping, kind by kind ----------

  /** The last of the values carrying instance i. */
  function LastWith(values: seq<string>, i: nat): Option<string> {
    if values == [] then None
    else
      var later := LastWith(values[1..], i);
      if later.Some? then later else if ExtractInstance(values[0]) == i then Some(values[0]) else None
  }

  function CountWith(values: seq<string>, i: nat): nat {
    if values == [] then 0 else CountWith(values[1..], i) + if ExtractInstance(values[0]) == i then 1 else 0
  }

  function OfKind(es: seq<Entry>, kind: Kind): seq<string> {
    if es == [] then [] else (if es[0].kind == kind then [es[0].value] else []) + OfKind(es[1..], kind)
  }

  function Or(o: Option<string>, default: string): string {
    if o.Some? then o.value else default
  }

  lemma LastWithCons(es: seq<Entry>, kind: Kind, i: nat)
    requires es != []
    ensures LastWith(OfKind(es, kind), i)
         == (var later := LastWith(OfKind(es[1..], kind), i);
             if later.Some? then later
             else if es[0].kind == kind && ExtractInstance(es[0].value) == i then Some(es[0].value) else None)
  {
    if es[0].kind == kind {
      assert OfKind(es, kind)[1..] == OfKind(es[1..], kind);
    } else {
      assert OfKind(es, kind) == OfKind(es[1..], kind);
    }
  }

  /** What the headers add to the set of instance i. */
  function Collected(es: seq<Entry>, i: nat, base: ArcSet): ArcSet {
    ArcSet(Or(LastWith(OfKind(es, Results), i), base.aar),
           Or(LastWith(OfKind(es, MessageSignature), i), base.ams),
           Or(LastWith(OfKind(es, Seal), i), base.seal))
  }

  predicate Mentioned(es: seq<Entry>, i: nat) {
    || LastWith(OfKind(es, Results), i).Some?
    || LastWith(OfKind(es, MessageSignature), i).Some?
    || LastWith(OfKind(es, Seal), i).Some?
  }

  lemma CollectedCons(es: seq<Entry>, i: nat, base: ArcSet)
    requires es != []
    ensures var hit := ExtractInstance(es[0].value) == i;
            && Collected(es, i, base) == Collected(es[1..], i, if hit then Put(base, es[0]) else base)
            && Mentioned(es, i) == (hit || Mentioned(es[1..], i))
  {
    LastWithCons(es, Results, i);
    LastWithCons(es, MessageSignature, i);
    LastWithCons(es, Seal, i);
  }

  lemma {:induction false} GroupFromIs(es: seq<Entry>, sets: map<nat, ArcSet>, i: nat)
    requires i > 0
    ensures i in GroupFrom(es, sets) <==> i in sets || Mentioned(es, i)
    ensures SetAt(GroupFrom(es, sets), i) == Collected(es, i, SetAt(sets, i))
  {
    if es != [] {
      GroupFromIs(es[1..], AddEntry(sets, es[0]), i);
      CollectedCons(es, i, SetAt(sets, i));
    }
  }

  lemma {:induction false} CountOfIs(es: seq<Entry>, kind: Kind, i: nat)
    ensures CountOf(es, kind, i) == CountWith(OfKind(es, kind), i)
  {
    if es != [] {
      CountOfIs(es[1..], kind, i);
      if es[0].kind == kind {
        assert OfKind(es, kind)[1..] == OfKind(es[1..], kind);
      } else {
        assert OfKind(es, kind) == OfKind(es[1..], kind);
      }
    }
  }

  lemma GroupIs(es: seq<Entry>, i: nat)
    requires i > 0
    ensures i in Group(es) <==> Mentioned(es, i)
    ensures SetAt(Group(es), i) == Collected(es, i, EMPTY_SET)
  {
    GroupFromIs(es, map[], i);
  }

  lemma {:induction false} GroupKeys(es: seq<Entry>, sets: map<nat, ArcSet>)
    requires 0 !in sets
    ensures 0 !in GroupFrom(es, sets)
  {
    if es != [] {
      GroupKeys(es[1..], AddEntry(sets, es[0]));
    }
  }

  lemma SameSets(g: map<nat, ArcSet>, g': map<nat, ArcSet>)
    requires forall i: nat :: (i in g <==> i in g') && SetAt(g, i) == SetAt(g', i)
    ensures g == g'
  {
    forall i | i in g ensures i in g' && g[i] == g'[i] {
      assert SetAt(g, i) == SetAt(g', i);
    }
    assert forall i :: i in g' ==> i in g;
  }

  lemma SameSetAt(es: seq<Entry>, es': seq<Entry>, i: nat)
    requires forall kind :: OfKind(es, kind) == OfKind(es', kind)
    ensures (i in Group(es) <==> i in Group(es')) && SetAt(Group(es), i) == SetAt(Group(es'), i)
  {
    if i == 0 {
      GroupKeys(es, map[]);
      GroupKeys(es', map[]);
    } else {
      GroupIs(es, i);
      GroupIs(es', i);
      assert OfKind(es, Results) == OfKind(es', Results);
      assert OfKind(es, MessageSignature) == OfKind(es', MessageSignature);
      assert OfKind(es, Seal) == OfKind(es', Seal);
    }
  }

  /** Go's map iteration order cannot change how headers are grouped. */
  lemma OrderIrrelevant(es: seq<Entry>, es': seq<Entry>)
    requires forall kind :: OfKind(es, kind) == OfKind(es', kind)
    ensures Group(es) == Group(es')
    ensures forall kind, i :: CountOf(es, kind, i) == CountOf(es', kind, i)
  {
    forall i: nat ensures (i in Group(es) <==> i in Group(es')) && SetAt(Group(es), i) == SetAt(Group(es'), i) {
      SameSetAt(es, es', i);
    }
    SameSets(Group(es), Group(es'));
    forall kind, i ensures CountOf(es, kind, i) == CountOf(es', kind, i) {
      CountOfIs(es, kind, i);
      CountOfIs(es', kind, i);
    }
  }

  // ---------- the headers of a sealed message ----------

  /** The values of one kind, newest set first, as they stand in the message. */
  function Stack(sets: seq<ArcSet>, kind: Kind): seq<string> {
    if sets == [] then [] else [ValueOf(sets[|sets| - 1], kind)] + Stack(sets[..|sets| - 1], kind)
  }

  /** Message h0 after it received the given sets. */
  function WithSets(h0: Headers, sets: seq<ArcSet>): Headers {
    if sets == [] then h0
    else h0[KeyOf(Results) := Stack(sets, Results)]
           [KeyOf(MessageSignature) := Stack(sets, MessageSignature)]
           [KeyOf(Seal) := Stack(sets, Seal)]
  }

  predicate IsArcName(name: string) {
    exists kind :: Lower(name) == LowerKeyOf(kind)
  }

  /** A message nobody has sealed yet. */
  ghost predicate Unsealed(h0: Headers) {
    UniqueFold(h0) && forall k :: k in h0 ==> !IsArcName(k)
  }

  lemma KeysFold()
    ensures forall kind :: Lower(KeyOf(kind)) == LowerKeyOf(kind) && Lower(LowerKeyOf(kind)) == LowerKeyOf(kind)
  {
    forall kind
      ensures Lower(KeyOf(kind)) == LowerKeyOf(kind) && Lower(LowerKeyOf(kind)) == LowerKeyOf(kind)
    {
      match kind
      case Results =>
        assert Lower("ARC-Authentication-Results") == "arc-authentication-results";
        assert Lower("arc-authentication-results") == "arc-authentication-results";
      case MessageSignature =>
        assert Lower("ARC-Message-Signature") == "arc-message-signature";
        assert Lower("arc-message-signature") == "arc-message-signature";
      case Seal =>
        assert Lower("ARC-Seal") == "arc-seal";
        assert Lower("arc-seal") == "arc-seal";
    }
  }

  lemma KindsDiffer()
    ensures forall a: Kind, b: Kind :: LowerKeyOf(a) == LowerKeyOf(b) ==> a == b
    ensures forall a: Kind, b: Kind :: KeyOf(a) == KeyOf(b) ==> a == b
  {
    assert |LowerKeyOf(Results)| == 26 && |LowerKeyOf(MessageSignature)| == 21 && |LowerKeyOf(Seal)| == 8;
    assert |KeyOf(Results)| == 26 && |KeyOf(MessageSignature)| == 21 && |KeyOf(Seal)| == 8;
  }

  lemma SealedUniqueFold(h0: Headers, sets: seq<ArcSet>)
    requires Unsealed(h0)
    ensures UniqueFold(WithSets(h0, sets))
    ensures forall kind :: LookupField(WithSets(h0, sets), LowerKeyOf(kind)).1 == Stack(sets, kind)
  {
    KeysFold();
    KindsDiffer();
    var h := WithSets(h0, sets);
    if sets == [] {
      forall kind ensures LookupField(h, LowerKeyOf(kind)).1 == [] {
        assert forall k :: k in h ==> Lower(k) != Lower(LowerKeyOf(kind));
      }
    } else {
      forall k, l | k in h && l in h && Lower(k) == Lower(l) ensures k == l {
        assert k in h0 || exists kind :: k == KeyOf(kind);
        assert l in h0 || exists kind :: l == KeyOf(kind);
      }
      forall kind ensures LookupField(h, LowerKeyOf(kind)).1 == Stack(sets, kind) {
        assert KeyOf(kind) in h && h[KeyOf(kind)] == Stack(sets, kind);
      }
    }
  }

  lemma AddSetIs(h0: Headers, sets: seq<ArcSet>, s: ArcSet)
    requires Unsealed(h0)
    ensures AddSet(WithSets(h0, sets), s) == WithSets(h0, sets + [s])
  {
    KeysFold();
    KindsDiffer();
    var h := WithSets(h0, sets);
    assert (sets + [s])[..|sets|] == sets;
    forall kind ensures Stack(sets + [s], kind) == [ValueOf(s, kind)] + Old(h, KeyOf(kind)) {
      assert Old(h, KeyOf(kind)) == Stack(sets, kind) by {
        if sets == [] {
          assert KeyOf(kind) !in h0;
        }
      }
    }
    assert Stack(sets + [s], Results) == [s.aar] + Old(h, KeyOf(Results));
    assert Stack(sets + [s], MessageSignature) == [s.ams] + Old(h, KeyOf(MessageSignature));
    assert Stack(sets + [s], Seal) == [s.seal] + Old(h, KeyOf(Seal));
    assert KeyOf(Results) != KeyOf(MessageSignature) && KeyOf(MessageSignature) != KeyOf(Seal) && KeyOf(Seal) != KeyOf(Results);
  }

  /** Set number j carries i=j in all three headers. */
  predicate Numbered(sets: seq<ArcSet>) {
    forall j, kind :: 0 <= j < |sets| ==> ExtractInstance(ValueOf(sets[j], kind)) == j + 1
  }

  lemma {:induction false} StackLookup(sets: seq<ArcSet>, kind: Kind, i: nat)
    requires Numbered(sets)
    ensures LastWith(Stack(sets, kind), i) == if 1 <= i <= |sets| then Some(ValueOf(sets[i - 1], kind)) else None
    ensures CountWith(Stack(sets, kind), i) == if 1 <= i <= |sets| then 1 else 0
  {
    if sets != [] {
      var init := sets[..|sets| - 1];
      assert Numbered(init) by {
        forall j, kind | 0 <= j < |init| ensures ExtractInstance(ValueOf(init[j], kind)) == j + 1 {
          assert init[j] == sets[j];
        }
      }
      StackLookup(init, kind, i);
      assert Stack(sets, kind)[1..] == Stack(init, kind);
    }
  }

  lemma {:induction false} OfKindTagged(a: Kind, values: seq<string>, rest: seq<Entry>, kind: Kind)
    ensures OfKind(Tagged(a, values) + rest, kind) == (if a == kind then values else []) + OfKind(rest, kind)
  {
    hide OfKind;
    if values == [] {
      assert Tagged(a, values) + rest == rest;
    } else {
      hide Tagged;
      OfKindTagged(a, values[1..], rest, kind);
      TaggedCons(a, values, rest);
      OfKindCons(Entry(a, values[0]), Tagged(a, values[1..]) + rest, kind);
      FirstAndRest(values, OfKind(rest, kind));
    }
  }

  lemma TaggedCons(a: Kind, values: seq<string>, rest: seq<Entry>)
    requires values != []
    ensures Tagged(a, values) + rest == [Entry(a, values[0])] + (Tagged(a, values[1..]) + rest)
  {}

  lemma FirstAndRest(values: seq<string>, rest: seq<string>)
    requires values != []
    ensures [values[0]] + (values[1..] + rest) == values + rest && [] + ([] + rest) == [] + rest
  {}

  lemma OfKindCons(e: Entry, es: seq<Entry>, kind: Kind)
    ensures OfKind([e] + es, kind) == (if e.kind == kind then [e.value] else []) + OfKind(es, kind)
  {
    assert ([e] + es)[1..] == es;
  }

  lemma ExtractKinds(h: Headers, kind: Kind)
    requires UniqueFold(h)
    ensures OfKind(Extract(h), kind) == LookupField(h, LowerKeyOf(kind)).1
  {
    var r, m, s := LookupField(h, LowerKeyOf(Results)).1, LookupField(h, LowerKeyOf(MessageSignature)).1, LookupField(h, LowerKeyOf(Seal)).1;
    assert Extract(h) == Tagged(Results, r) + (Tagged(MessageSignature, m) + (Tagged(Seal, s) + []));
    OfKindTagged(Results, r, Tagged(MessageSignature, m) + (Tagged(Seal, s) + []), kind);
    OfKindTagged(MessageSignature, m, Tagged(Seal, s) + [], kind);
    OfKindTagged(Seal, s, [], kind);
  }

  lemma SealedGroupAt(h0: Headers, sets: seq<ArcSet>, i: nat)
    requires Unsealed(h0) && Numbered(sets) && UniqueFold(WithSets(h0, sets)) && i > 0
    ensures var g := Group(Extract(WithSets(h0, sets)));
            (i in g <==> i <= |sets|) && (i <= |sets| ==> g[i] == sets[i - 1])
  {
    var es := Extract(WithSets(h0, sets));
    SealedUniqueFold(h0, sets);
    forall kind ensures LastWith(OfKind(es, kind), i) == if i <= |sets| then Some(ValueOf(sets[i - 1], kind)) else None {
      ExtractKinds(WithSets(h0, sets), kind);
      StackLookup(sets, kind, i);
    }
    GroupIs(es, i);
  }

  /** The sets as the validator looks them up. */
  function ByNumber(sets: seq<ArcSet>): map<nat, ArcSet> {
    map i: nat | 1 <= i <= |sets| :: Nth(sets, i)
  }

  function Nth(sets: seq<ArcSet>, i: nat): ArcSet
    requires 1 <= i <= |sets|
  {
    sets[i - 1]
  }

  /** Reading the headers of a sealed message gives back its sets, each once. */
  lemma SealedGroups(h0: Headers, sets: seq<ArcSet>)
    requires Unsealed(h0) && Numbered(sets)
    ensures UniqueFold(WithSets(h0, sets))
    ensures Group(Extract(WithSets(h0, sets))) == ByNumber(sets)
  {
    SealedUniqueFold(h0, sets);
    var es := Extract(WithSets(h0, sets));
    forall i: nat ensures (i in Group(es) <==> i in ByNumber(sets)) && SetAt(Group(es), i) == SetAt(ByNumber(sets), i) {
      if i == 0 {
        GroupKeys(es, map[]);
      } else {
        SealedGroupAt(h0, sets, i);
      }
    }
    SameSets(Group(es), ByNumber(sets));
  }

  // ---------- numbering ----------

  lemma InstanceOf(n: nat, rest: string)
    requires 1 <= n <= MAX_INSTANCE
    ensures ExtractInstance("i=" + Itoa(n) + ";" + rest) == n
  {
    hide TrimSpace, TrimRight, Itoa, Atoi, IndexOf;
    var d := Itoa(n);
    assert AllDigits(d);
    var a, b := "i=" + d + ";", "=" + d + ";";
    TrimSpaceKeeps(a, rest);
    var h := a + TrimRight(rest);
    assert h[1..] == b + TrimRight(rest);
    TrimSpaceKeeps(b, TrimRight(rest));
    var r := b + TrimRight(TrimRight(rest));
    assert r[1..] == d + [';'] + TrimRight(TrimRight(rest));
    assert ';' !in d by { assert AllDigits(d); }
    IndexOfAt(d, ';', TrimRight(TrimRight(rest)));
    assert r[1..][..|d|] == d;
    TrimSpaceNone(d);
    AtoiItoa(n);
  }

  lemma {:induction false} PrintHead(ps: seq<Pair>) returns (rest: string)
    requires |ps| >= 2
    ensures PrintTags(ps) == Field(ps[0]) + ";" + rest
  {
    var init, last := ps[..|ps| - 1], ps[|ps| - 1];
    if |ps| == 2 {
      rest := " " + Field(last);
    } else {
      var r := PrintHead(init);
      rest := r + "; " + Field(last);
    }
  }

  lemma PrintedInstance(ps: seq<Pair>, n: nat)
    requires |ps| >= 2 && ps[0] == ("i", Itoa(n)) && 1 <= n <= MAX_INSTANCE
    ensures ExtractInstance(PrintTags(ps)) == n
  {
    var rest := PrintHead(ps);
    assert PrintTags(ps) == "i=" + Itoa(n) + ";" + rest by {
      assert Field(ps[0]) == "i=" + Itoa(n);
    }
    InstanceOf(n, rest);
  }

  // ---------- instances and structure of a sealed message ----------

  lemma {:induction false} StackIs(sets: seq<ArcSet>, kind: Kind)
    ensures |Stack(sets, kind)| == |sets|
    ensures forall j :: 0 <= j < |sets| ==> Stack(sets, kind)[j] == ValueOf(sets[|sets| - 1 - j], kind)
  {
    hide ValueOf;
    if sets != [] {
      var n := |sets| - 1;
      StackIs(sets[..n], kind);
      assert Stack(sets, kind)[1..] == Stack(sets[..n], kind);
    }
  }

  lemma {:induction false} MaxInstanceIs(es: seq<Entry>, n: nat)
    requires forall j :: 0 <= j < |es| ==> ExtractInstance(es[j].value) <= n
    ensures MaxInstance(es) <= n
    ensures (exists j :: 0 <= j < |es| && ExtractInstance(es[j].value) == n) ==> MaxInstance(es) == n
  {
    if es != [] {
      MaxInstanceIs(es[1..], n);
      if j :| 0 <= j < |es| && ExtractInstance(es[j].value) == n {
        assert j > 0 ==> es[1..][j - 1] == es[j];
      }
    }
  }

  /** Where each entry of a sealed message comes from. */
  lemma EntryOrigin(h0: Headers, sets: seq<ArcSet>, j: nat) returns (k: nat, kind: Kind)
    requires Unsealed(h0) && UniqueFold(WithSets(h0, sets)) && j < |Extract(WithSets(h0, sets))|
    ensures k < |sets| && Extract(WithSets(h0, sets))[j] == Entry(kind, ValueOf(sets[k], kind))
  {
    SealedUniqueFold(h0, sets);
    var n := |sets|;
    StackIs(sets, Results);
    StackIs(sets, MessageSignature);
    StackIs(sets, Seal);
    var es := Extract(WithSets(h0, sets));
    var r, m, s := Tagged(Results, Stack(sets, Results)), Tagged(MessageSignature, Stack(sets, MessageSignature)), Tagged(Seal, Stack(sets, Seal));
    assert es == r + m + s;
    if j < n {
      k, kind := n - 1 - j, Results;
      assert es[j] == r[j];
    } else if j < 2 * n {
      k, kind := 2 * n - 1 - j, MessageSignature;
      assert es[j] == m[j - n];
    } else {
      k, kind := 3 * n - 1 - j, Seal;
      assert es[j] == s[j - 2 * n];
    }
  }

  lemma SealedEntry(h0: Headers, sets: seq<ArcSet>, j: nat)
    requires Unsealed(h0) && Numbered(sets) && UniqueFold(WithSets(h0, sets))
    requires j < |Extract(WithSets(h0, sets))|
    ensures 1 <= ExtractInstance(Extract(WithSets(h0, sets))[j].value) <= |sets|
  {
    var k, kind := EntryOrigin(h0, sets, j);
    var v := Extract(WithSets(h0, sets))[j].value;
    assert ExtractInstance(ValueOf(sets[k], kind)) == k + 1;
  }

  lemma SealedStructure(h0: Headers, sets: seq<ArcSet>)
    requires Unsealed(h0) && Numbered(sets) && UniqueFold(WithSets(h0, sets))
    ensures StructureValid(Extract(WithSets(h0, sets)))
  {
    var es := Extract(WithSets(h0, sets));
    SealedUniqueFold(h0, sets);
    forall j | 0 <= j < |es|
      ensures var i := ExtractInstance(es[j].value);
              i > 0 && CountOf(es, Results, i) == 1 && CountOf(es, MessageSignature, i) == 1 && CountOf(es, Seal, i) == 1
    {
      SealedEntry(h0, sets, j);
      var i := ExtractInstance(es[j].value);
      forall kind ensures CountOf(es, kind, i) == 1 {
        CountOfIs(es, kind, i);
        ExtractKinds(WithSets(h0, sets), kind);
        StackLookup(sets, kind, i);
      }
    }
  }

  lemma SealedNext(h0: Headers, sets: seq<ArcSet>)
    requires Unsealed(h0) && Numbered(sets) && UniqueFold(WithSets(h0, sets))
    ensures NextInstance(WithSets(h0, sets)) == |sets| + 1
    ensures Extract(WithSets(h0, sets)) == [] <==> sets == []
  {
    var es := Extract(WithSets(h0, sets));
    SealedUniqueFold(h0, sets);
    StackIs(sets, Results);
    StackIs(sets, MessageSignature);
    StackIs(sets, Seal);
    forall j | 0 <= j < |es| ensures ExtractInstance(es[j].value) <= |sets| {
      SealedEntry(h0, sets, j);
    }
    MaxInstanceIs(es, |sets|);
    if sets != [] {
      assert es[0].value == Stack(sets, Results)[0] == ValueOf(sets[|sets| - 1], Results);
    }
  }
}

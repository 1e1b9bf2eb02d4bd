/** The validator as it is written: loops over headers and instances. */
module ArcValidator {
  import opened Sequences
  import opened Text
  import opened TagList
  import opened DkimHeaders
  import opened Dkim
  import opened Arc
  import opened ArcChain

  method GroupARCHeaders(es: seq<Entry>) returns (sets: map<nat, ArcSet>)
    ensures sets == Group(es)
  {
    hide ExtractInstance;
    sets := map[];
    assert es[0..] == es;
    for k := 0 to |es|
      invariant GroupFrom(es[k..], sets) == Group(es)
    {
      assert es[k..][1..] == es[k + 1..];
      sets := AddEntry(sets, es[k]);
    }
  }

  method DetermineNextInstance(es: seq<Entry>) returns (next: nat)
    ensures next == MaxInstance(es) + 1
  {
    hide ExtractInstance;
    var max := 0;
    for k := 0 to |es|
      invariant max == MaxInstance(es[..k])
    {
      MaxInstanceSnoc(es[..k], es[k]);
      assert es[..k + 1] == es[..k] + [es[k]];
      var i := ExtractInstance(es[k].value);
      if i > max {
        max := i;
      }
    }
    assert es[..|es|] == es;
    return max + 1;
  }

  lemma {:induction false} MaxInstanceSnoc(es: seq<Entry>, e: Entry)
    ensures MaxInstance(es + [e]) == if ExtractInstance(e.value) > MaxInstance(es) then ExtractInstance(e.value) else MaxInstance(es)
  {
    hide ExtractInstance;
    if es == [] {
      assert es + [e] == [e] && [e][1..] == [];
    } else {
      MaxInstanceSnoc(es[1..], e);
      assert (es + [e])[1..] == es[1..] + [e];
    }
  }

  // ---------- structure ----------

  datatype Counts = Counts(aar: nat, ams: nat, seal: nat)

  function CountsAt(c: map<nat, Counts>, i: nat): Counts {
    if i in c then c[i] else Counts(0, 0, 0)
  }

  function Tally(n: Counts, kind: Kind): Counts {
    match kind
    case Results => n.(aar := n.aar + 1)
    case MessageSignature => n.(ams := n.ams + 1)
    case Seal => n.(seal := n.seal + 1)
  }

  function CountsOf(es: seq<Entry>, i: nat): Counts {
    Counts(CountOf(es, Results, i), CountOf(es, MessageSignature, i), CountOf(es, Seal, i))
  }

  lemma {:induction false} CountOfSnoc(es: seq<Entry>, e: Entry, kind: Kind, i: nat)
    ensures CountOf(es + [e], kind, i) == CountOf(es, kind, i) + if e.kind == kind && ExtractInstance(e.value) == i then 1 else 0
  {
    hide ExtractInstance;
    if es == [] {
      assert es + [e] == [e] && [e][1..] == [];
    } else {
      CountOfSnoc(es[1..], e, kind, i);
      assert (es + [e])[1..] == es[1..] + [e];
    }
  }

  lemma CountsSnoc(es: seq<Entry>, e: Entry, i: nat)
    ensures CountsOf(es + [e], i) == if ExtractInstance(e.value) == i then Tally(CountsOf(es, i), e.kind) else CountsOf(es, i)
  {
    hide ExtractInstance;
    CountOfSnoc(es, e, Results, i);
    CountOfSnoc(es, e, MessageSignature, i);
    CountOfSnoc(es, e, Seal, i);
  }

  ghost predicate Tallied(es: seq<Entry>, c: map<nat, Counts>) {
    && (forall i: nat :: CountsAt(c, i) == CountsOf(es, i))
    && (forall i: nat :: i in c <==> exists j :: 0 <= j < |es| && ExtractInstance(es[j].value) == i)
    && 0 !in c
  }

  lemma TalliedSnoc(es: seq<Entry>, c: map<nat, Counts>, e: Entry)
    requires Tallied(es, c) && ExtractInstance(e.value) != 0
    ensures var i := ExtractInstance(e.value); Tallied(es + [e], c[i := Tally(CountsAt(c, i), e.kind)])
  {
    hide ExtractInstance, CountsOf;
    var inst := ExtractInstance(e.value);
    var c' := c[inst := Tally(CountsAt(c, inst), e.kind)];
    var all := es + [e];
    forall i: nat ensures CountsAt(c', i) == CountsOf(all, i) {
      CountsSnoc(es, e, i);
      assert CountsAt(c, i) == CountsOf(es, i);
    }
    forall i: nat ensures i in c' <==> exists j :: 0 <= j < |all| && ExtractInstance(all[j].value) == i {
      if i == inst {
        assert all[|es|] == e;
      } else if i in c {
        var j :| 0 <= j < |es| && ExtractInstance(es[j].value) == i;
        assert all[j] == es[j];
      } else {
        assert forall j :: 0 <= j < |es| ==> all[j] == es[j];
      }
    }
  }

  /** Counting per instance finds exactly the sound structures. */
  method ArcStructureValid(es: seq<Entry>) returns (ok: bool)
    ensures ok == StructureValid(es)
  {
    hide ExtractInstance, CountsOf;
    var c: map<nat, Counts> := map[];
    assert Tallied([], c) by { NothingTallied(); }
    for k := 0 to |es|
      invariant Tallied(es[..k], c)
      invariant forall j :: 0 <= j < k ==> ExtractInstance(es[j].value) != 0
    {
      var inst := ExtractInstance(es[k].value);
      if inst == 0 {
        return false;
      }
      TalliedSnoc(es[..k], c, es[k]);
      assert es[..k + 1] == es[..k] + [es[k]];
      c := c[inst := Tally(CountsAt(c, inst), es[k].kind)];
    }
    assert es[..|es|] == es;
    ok := AllOnes(c);
    TalliedStructure(es, c);
  }

  lemma NothingTallied()
    ensures Tallied([], map[])
  {
    forall i: nat ensures CountsAt(map[], i) == CountsOf([], i) {}
  }

  method AllOnes(c: map<nat, Counts>) returns (ok: bool)
    ensures ok <==> forall i :: i in c ==> c[i] == Counts(1, 1, 1)
  {
    var left := c.Keys;
    while left != {}
      invariant left <= c.Keys
      invariant forall i :: i in c && i !in left ==> c[i] == Counts(1, 1, 1)
      decreases left
    {
      var i :| i in left;
      if c[i] != Counts(1, 1, 1) {
        return false;
      }
      left := left - {i};
    }
    return true;
  }

  lemma TalliedStructure(es: seq<Entry>, c: map<nat, Counts>)
    requires Tallied(es, c) && forall j :: 0 <= j < |es| ==> ExtractInstance(es[j].value) != 0
    ensures (forall i :: i in c ==> c[i] == Counts(1, 1, 1)) <==> StructureValid(es)
  {
    hide ExtractInstance;
    if forall i :: i in c ==> c[i] == Counts(1, 1, 1) {
      forall j | 0 <= j < |es| ensures CountsOf(es, ExtractInstance(es[j].value)) == Counts(1, 1, 1) {
        var i := ExtractInstance(es[j].value);
        assert i in c && CountsAt(c, i) == CountsOf(es, i);
      }
    } else {
      var i :| i in c && c[i] != Counts(1, 1, 1);
      var j :| 0 <= j < |es| && ExtractInstance(es[j].value) == i;
      assert CountsAt(c, i) == CountsOf(es, i);
    }
  }

  // ---------- the whole validation ----------

  method SortInstances(s: set<nat>) returns (xs: seq<nat>)
    ensures Ascending(xs) && |xs| == |s| && forall x :: x in xs <==> x in s
    ensures xs == InOrder(s)
  {
    xs := [];
    var left := s;
    while left != {}
      invariant left <= s && |xs| + |left| == |s|
      invariant Ascending(xs) && forall x :: x in xs <==> x in s && x !in left
      invariant forall x, y :: x in xs && y in left ==> x < y
      decreases left
    {
      var m := LeastOf(left);
      assert forall x :: x in xs + [m] <==> x in xs || x == m;
      assert forall a :: 0 <= a < |xs| ==> xs[a] in xs;
      xs := xs + [m];
      left := left - {m};
    }
    AscendingUnique(xs, InOrder(s));
  }

  lemma {:induction false} AscendingBounds(xs: seq<nat>, k: nat)
    requires Ascending(xs) && (forall x :: x in xs ==> x >= 1) && k < |xs|
    ensures xs[k] >= k + 1
  {
    assert xs[k] in xs;
    if k > 0 {
      AscendingBounds(xs, k - 1);
    }
  }

  lemma {:induction false} CountsUpTo(xs: seq<nat>, k: nat)
    requires Ascending(xs) && k <= |xs| && forall x :: x in xs ==> x >= 1
    requires forall i :: 1 <= i <= |xs| ==> i in xs
    ensures forall j :: 0 <= j < k ==> xs[j] == j + 1
  {
    if k > 0 {
      CountsUpTo(xs, k - 1);
      assert k in xs;
      var j :| 0 <= j < |xs| && xs[j] == k;
      AscendingBounds(xs, j);
    }
  }

  /** Sorted instances count up from 1 exactly when none of 1..n is missing. */
  lemma CountsUp(sets: map<nat, ArcSet>, xs: seq<nat>)
    requires Ascending(xs) && |xs| == |sets| && (forall x :: x in xs <==> x in sets) && 0 !in sets
    ensures (forall k :: 0 <= k < |xs| ==> xs[k] == k + 1) <==> forall i :: 1 <= i <= |sets| ==> i in sets
  {
    if forall i :: 1 <= i <= |sets| ==> i in sets {
      CountsUpTo(xs, |xs|);
    }
    if forall k :: 0 <= k < |xs| ==> xs[k] == k + 1 {
      forall i | 1 <= i <= |sets| ensures i in sets {
        assert xs[i - 1] in xs;
      }
    }
  }

  lemma {:induction false} StaysUnreachable(c: Crypto, dns: Dns, h: Headers, body: string, k: nat, m: nat, n: nat)
    requires UniqueFold(h) && k <= m && SetsVerdict(c, dns, h, body, k, n) == None
    ensures SetsVerdict(c, dns, h, body, m, n) == None
  {
    hide SetVerdict, UniqueFold;
    if k < m {
      StaysUnreachable(c, dns, h, body, k, m - 1, n);
    }
  }

  /** The loop over the instances of a chain without gaps: every seal, the
      newest message signature and the cv= values, with a report on each set. */
  method CheckSets(c: Crypto, dns: Dns, h: Headers, body: string, sets: map<nat, ArcSet>, n: nat)
    returns (r: Option<bool>, reports: seq<Report>)
    requires UniqueFold(h) && sets == Group(Extract(h)) && forall i :: 1 <= i <= n ==> i in sets
    ensures r == SetsVerdict(c, dns, h, body, n, n)
    ensures r.Some? ==> reports == Reports(c, dns, h, body, n, n)
  {
    hide Extract, Group, ParseTags, ValidateAMS, ValidateSeal, UniqueFold, Lower;
    var chainOK := true;
    reports := [];
    for idx := 0 to n
      invariant SetsVerdict(c, dns, h, body, idx, n) == Some(chainOK)
      invariant reports == Reports(c, dns, h, body, idx, n)
    {
      var i := idx + 1;
      var s := sets[i];
      assert s == SetAt(sets, i);
      var ams, seal := ValidateAMS(c, dns, s.ams, h, body), ValidateSeal(c, dns, s.seal, h, i);
      if (ams == TempFailure && i == n) || seal == TempFailure {
        StaysUnreachable(c, dns, h, body, i, n, n);
        return None, [];
      }
      reports := reports + [Report(i, s, seal == Valid && (ams == Valid || i != n), ams == Valid, seal == Valid)];
      var cv := Lower(ParseTags(s.seal).Get("cv"));
      if seal != Valid || (i == n && ams != Valid) || cv != (if i == 1 then "none" else "pass") {
        chainOK := false;
      }
    }
    r := Some(chainOK);
  }

  method ListSets(sets: map<nat, ArcSet>, instances: seq<nat>) returns (reports: seq<Report>)
    requires instances == InOrder(sets.Keys)
    ensures reports == Unchecked(sets)
  {
    hide InOrder, SetAt;
    reports := [];
    for k := 0 to |instances|
      invariant |reports| == k
      invariant forall j :: 0 <= j < k ==> reports[j] == Report(instances[j], SetAt(sets, instances[j]), false, false, false)
    {
      reports := reports + [Report(instances[k], SetAt(sets, instances[k]), false, false, false)];
    }
  }

  method CountsFromOne(instances: seq<nat>) returns (ok: bool)
    ensures ok == (|instances| <= MAX_INSTANCE && forall k :: 0 <= k < |instances| ==> instances[k] == k + 1)
  {
    ok := |instances| <= MAX_INSTANCE;
    for idx := 0 to |instances|
      invariant ok == (|instances| <= MAX_INSTANCE && forall k :: 0 <= k < idx ==> instances[k] == k + 1)
    {
      if instances[idx] != idx + 1 || instances[idx] > MAX_INSTANCE {
        ok := false;
      }
    }
  }

  lemma NoSetZero(es: seq<Entry>)
    ensures 0 !in Group(es)
  {
    GroupKeys(es, map[]);
  }

  /** Validation with the source's loops gives the verdict. */
  method Validate(c: Crypto, dns: Dns, h: Headers, body: string) returns (r: Outcome)
    requires UniqueFold(h)
    ensures r == ChainVerdict(c, dns, h, body)
  {
    hide Extract, Group, StructureValid, ParseTags, SetsVerdict, Reports, Unchecked, InOrder, UniqueFold;
    var es := Extract(h);
    NoSetZero(es);
    if |es| == 0 {
      return Validated(Chain(false, 0, "none", "", "", []));
    }
    var sets := GroupARCHeaders(es);
    var structOK := ArcStructureValid(es);
    var instances := SortInstances(sets.Keys);
    var n := |instances|;
    CountsUp(sets, instances);
    var inOrder := CountsFromOne(instances);
    if !structOK || !inOrder {
      var unchecked := ListSets(sets, instances);
      return Validated(Chain(false, n, "fail", "", "", unchecked));
    }
    var verdict, reports := CheckSets(c, dns, h, body, sets, n);
    if verdict == None {
      return Unreachable;
    }
    if verdict.value {
      var t := ParseTags(SetAt(sets, n).seal);
      return Validated(Chain(true, n, "pass", t.Get("d"), t.Get("s"), reports));
    }
    return Validated(Chain(false, n, "fail", "", "", reports));
  }
}

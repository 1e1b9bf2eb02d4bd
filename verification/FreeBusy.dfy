/** The busy periods of a free-busy report (section 7.10 of RFC 4791). */
module FreeBusy {
  import opened RecurrenceExpansion

  datatype Period = Period(s: int, e: int)

  function Clamp(p: Period, ws: int, we: int): Period {
    Period(if p.s < ws then ws else p.s, if p.e > we then we else p.e)
  }

  predicate ByStart(ps: seq<Period>) {
    forall i, j :: 0 <= i < j < |ps| ==> ps[i].s <= ps[j].s
  }

  /** t lies in the half-open period, or in it with its end point. */
  predicate Contains(p: Period, t: int, withEnd: bool) {
    p.s <= t && (t < p.e || (withEnd && t == p.e))
  }

  ghost predicate Busy(ps: seq<Period>, t: int, withEnd: bool) {
    exists i :: 0 <= i < |ps| && Contains(ps[i], t, withEnd)
  }

  /** In order, apart from each other, and inside the window. */
  predicate Separated(ps: seq<Period>, ws: int, we: int) {
    && (forall i :: 0 <= i < |ps| ==> ws <= ps[i].s <= ps[i].e <= we)
    && (forall i, j :: 0 <= i < j < |ps| ==> ps[i].e < ps[j].s)
  }

  function Clamped(ps: seq<Period>, ws: int, we: int): seq<Period> {
    seq(|ps|, i requires 0 <= i < |ps| => Clamp(ps[i], ws, we))
  }

  ghost predicate SameBusy(a: seq<Period>, b: seq<Period>) {
    forall t, withEnd :: Busy(a, t, withEnd) <==> Busy(b, t, withEnd)
  }

  lemma BusySnoc(ps: seq<Period>, p: Period)
    ensures forall t, withEnd :: Busy(ps + [p], t, withEnd) <==> Busy(ps, t, withEnd) || Contains(p, t, withEnd)
  {
    hide Contains;
    forall t, withEnd ensures Busy(ps + [p], t, withEnd) <==> Busy(ps, t, withEnd) || Contains(p, t, withEnd) {
      var all := ps + [p];
      assert all[|ps|] == p && forall i :: 0 <= i < |ps| ==> all[i] == ps[i];
      if Busy(ps, t, withEnd) {
        var i :| 0 <= i < |ps| && Contains(ps[i], t, withEnd);
        assert Contains(all[i], t, withEnd);
      } else if Contains(p, t, withEnd) {
        assert Contains(all[|ps|], t, withEnd);
      }
    }
  }

  /** Growing the last period to reach the new one adds just the new one. */
  lemma Extend(merged: seq<Period>, p: Period)
    requires merged != [] && p.s <= p.e
    requires var last := merged[|merged| - 1]; last.s <= p.s <= last.e
    ensures var n := |merged| - 1;
            var e := if p.e > merged[n].e then p.e else merged[n].e;
            SameBusy(merged[n := Period(merged[n].s, e)], merged + [p])
  {
    var n := |merged| - 1;
    var init, last := merged[..n], merged[n];
    var grown := Period(last.s, if p.e > last.e then p.e else last.e);
    assert merged == init + [last];
    assert merged[n := grown] == init + [grown];
    BusySnoc(init, grown);
    BusySnoc(init, last);
    BusySnoc(merged, p);
    assert forall t, withEnd :: Contains(grown, t, withEnd) <==> Contains(last, t, withEnd) || Contains(p, t, withEnd);
  }

  lemma SameBusySnoc(a: seq<Period>, b: seq<Period>, p: Period)
    requires SameBusy(a, b)
    ensures SameBusy(a + [p], b + [p])
  {
    BusySnoc(a, p);
    BusySnoc(b, p);
  }

  /** Clamping keeps exactly the instants in the window. */
  lemma ClampMeans(p: Period, ws: int, we: int, t: int, withEnd: bool)
    ensures Contains(Clamp(p, ws, we), t, withEnd) <==> Contains(p, t, withEnd) && Contains(Period(ws, we), t, withEnd)
  {}

  // ---------- the merge loop ----------

  /** One more clamped period: grow the last one or start a new one. */
  function Add(merged: seq<Period>, p: Period): seq<Period> {
    var n := |merged|;
    if n > 0 && p.s <= merged[n - 1].e then
      if p.e > merged[n - 1].e then merged[n - 1 := Period(merged[n - 1].s, p.e)] else merged
    else merged + [p]
  }

  /** A period that ends before it starts adds no instant. */
  lemma BackwardsAdds(ps: seq<Period>, p: Period)
    requires p.e < p.s
    ensures SameBusy(ps, ps + [p])
  {
    BusySnoc(ps, p);
  }

  lemma AddCovers(merged: seq<Period>, p: Period, clamped: seq<Period>)
    requires SameBusy(merged, clamped) && (merged != [] ==> merged[|merged| - 1].s <= p.s)
    ensures SameBusy(Add(merged, p), clamped + [p])
  {
    hide Contains, Busy;
    SameBusySnoc(merged, clamped, p);
    var n := |merged|;
    if n > 0 && p.s <= merged[n - 1].e {
      if p.e < p.s {
        BackwardsAdds(merged, p);
      } else {
        Extend(merged, p);
        assert merged[n - 1 := Period(merged[n - 1].s, merged[n - 1].e)] == merged;
      }
    }
  }

  /** In order, apart and inside the window, but perhaps backwards. */
  predicate Tidy(ps: seq<Period>, ws: int, we: int) {
    && (forall i :: 0 <= i < |ps| ==> ws <= ps[i].s && ps[i].e <= we)
    && (forall i, j :: 0 <= i < j < |ps| ==> ps[i].s <= ps[j].s && ps[i].e < ps[j].s)
  }

  predicate Forward(ps: seq<Period>) {
    forall i :: 0 <= i < |ps| ==> ps[i].s <= ps[i].e
  }

  lemma SeparatedIs(ps: seq<Period>, ws: int, we: int)
    requires Tidy(ps, ws, we)
    ensures Separated(ps, ws, we) <==> Forward(ps)
  {}

  lemma AddTidy(merged: seq<Period>, p: Period, ws: int, we: int)
    requires Tidy(merged, ws, we) && ws <= p.s && p.e <= we && (merged != [] ==> merged[|merged| - 1].s <= p.s)
    ensures Tidy(Add(merged, p), ws, we) && Add(merged, p)[|Add(merged, p)| - 1].s <= p.s
  {}

  predicate Reached(c: seq<Period>, t: int) {
    exists j :: 0 <= j < |c| && t <= c[j].e
  }

  /** Each period that ends before it starts begins within the reach of an earlier one. */
  predicate Absorbed(c: seq<Period>) {
    forall k :: 0 <= k < |c| && c[k].e < c[k].s ==> Reached(c[..k], c[k].s)
  }

  lemma AbsorbedSnoc(c: seq<Period>, p: Period)
    ensures Absorbed(c + [p]) <==> Absorbed(c) && (p.e < p.s ==> Reached(c, p.s))
  {
    hide Reached;
    var d := c + [p];
    assert d[|c|] == p && d[..|c|] == c;
    assert forall k :: 0 <= k < |c| ==> d[k] == c[k] && d[..k] == c[..k];
    if Absorbed(d) {
      forall k | 0 <= k < |c| && c[k].e < c[k].s ensures Reached(c[..k], c[k].s) {
        assert Reached(d[..k], d[k].s);
      }
    }
  }

  /** While all periods run forward, the last one ends where the reach of the input ends. */
  predicate Tracks(merged: seq<Period>, c: seq<Period>) {
    && (Forward(merged) <==> Absorbed(c)) && (merged == [] <==> c == [])
    && (Forward(merged) && c != [] ==>
          && (forall j :: 0 <= j < |c| ==> c[j].e <= merged[|merged| - 1].e)
          && Reached(c, merged[|merged| - 1].e))
  }

  lemma ReachedSnoc(c: seq<Period>, p: Period, t: int)
    ensures Reached(c + [p], t) <==> Reached(c, t) || t <= p.e
  {
    var d := c + [p];
    assert d[|c|] == p && forall k :: 0 <= k < |c| ==> d[k] == c[k];
    if Reached(c, t) {
      var j :| 0 <= j < |c| && t <= c[j].e;
      assert t <= d[j].e;
    }
  }

  /** A backwards last period stays backwards: nothing that starts later touches it. */
  lemma AddForward(merged: seq<Period>, p: Period)
    requires merged != [] ==> merged[|merged| - 1].s <= p.s
    ensures var grows := merged != [] && p.s <= merged[|merged| - 1].e;
            Forward(Add(merged, p)) <==> Forward(merged) && (p.e < p.s ==> grows)
  {
    var n, r := |merged|, Add(merged, p);
    if n > 0 && p.s <= merged[n - 1].e {
      assert forall i :: 0 <= i < n - 1 ==> r[i] == merged[i];
      assert r[n - 1].s <= r[n - 1].e && merged[n - 1].s <= merged[n - 1].e;
    } else {
      assert r[n] == p && forall i :: 0 <= i < n ==> r[i] == merged[i];
      if Forward(r) {
        assert forall i :: 0 <= i < n ==> r[i].s <= r[i].e;
      }
    }
  }

  lemma AddTracks(merged: seq<Period>, p: Period, c: seq<Period>, ws: int, we: int)
    requires Tidy(merged, ws, we) && Tracks(merged, c) && (merged != [] ==> merged[|merged| - 1].s <= p.s)
    ensures Tracks(Add(merged, p), c + [p])
  {
    hide Reached, Absorbed, Forward;
    var n, r, d := |merged|, Add(merged, p), c + [p];
    AbsorbedSnoc(c, p);
    AddForward(merged, p);
    if Forward(merged) {
      ReachedIff(merged, c, p.s);
      ReachedSnoc(c, p, r[|r| - 1].e);
      if n > 0 && p.s > merged[n - 1].e {
        assert Forward(r) ==> p.s <= p.e;
      }
    }
  }

  lemma ReachedIff(merged: seq<Period>, c: seq<Period>, t: int)
    requires Tracks(merged, c) && Forward(merged)
    ensures Reached(c, t) <==> merged != [] && t <= merged[|merged| - 1].e
  {
    hide Absorbed, Forward;
    if Reached(c, t) {
      var j :| 0 <= j < |c| && t <= c[j].e;
    }
    if merged != [] && t <= merged[|merged| - 1].e {
      var j :| 0 <= j < |c| && merged[|merged| - 1].e <= c[j].e;
      assert t <= c[j].e;
    }
  }

  lemma ClampedByStart(busy: seq<Period>, ws: int, we: int)
    requires ByStart(busy)
    ensures ByStart(Clamped(busy, ws, we))
    ensures forall k :: 0 <= k < |busy| ==> ws <= Clamped(busy, ws, we)[k].s && Clamped(busy, ws, we)[k].e <= we
  {}

  lemma NothingMerged(ws: int, we: int)
    ensures SameBusy([], []) && Tidy([], ws, we) && Tracks([], [])
  {}

  /** The merge loop, for any order that sorts by start and any window: it covers exactly
      the instants of the clamped occurrences, with end points and without. What comes out
      is sorted, strictly separated and inside the window if and only if every clamped
      occurrence that ends before it starts is absorbed by an earlier one. */
  method MergeBusy(busy: seq<Period>, ws: int, we: int) returns (merged: seq<Period>)
    requires ByStart(busy)
    ensures Separated(merged, ws, we) <==> Absorbed(Clamped(busy, ws, we))
    ensures SameBusy(merged, Clamped(busy, ws, we))
  {
    hide SameBusy, Separated, Tidy, Tracks, Absorbed;
    merged := [];
    ghost var clamped := Clamped(busy, ws, we);
    ClampedByStart(busy, ws, we);
    NothingMerged(ws, we);
    assert clamped[..0] == [];
    for k := 0 to |busy|
      invariant merged == [] <==> k == 0
      invariant k > 0 ==> merged[|merged| - 1].s <= clamped[k - 1].s
      invariant SameBusy(merged, clamped[..k]) && Tidy(merged, ws, we) && Tracks(merged, clamped[..k])
    {
      var p := busy[k];
      if p.s < ws {
        p := Period(ws, p.e);
      }
      if p.e > we {
        p := Period(p.s, we);
      }
      assert p == clamped[k] && clamped[..k + 1] == clamped[..k] + [p];
      AddCovers(merged, p, clamped[..k]);
      AddTidy(merged, p, ws, we);
      AddTracks(merged, p, clamped[..k], ws, we);
      var n := |merged|;
      if n > 0 && p.s <= merged[n - 1].e {
        if p.e > merged[n - 1].e {
          merged := merged[n - 1 := Period(merged[n - 1].s, p.e)];
        }
        continue;
      }
      merged := merged + [p];
    }
    assert clamped[..|busy|] == clamped;
    SeparatedIs(merged, ws, we);
    assert Separated(merged, ws, we) <==> Absorbed(clamped) by { TracksIs(merged, clamped); }
  }

  lemma TracksIs(merged: seq<Period>, c: seq<Period>)
    requires Tracks(merged, c)
    ensures Forward(merged) <==> Absorbed(c)
  {}

  // ---------- when everything is absorbed ----------

  /** Clamping to a window in order turns no occurrence around that intersects it. */
  lemma ClampIntersecting(p: Period, ws: int, we: int)
    requires ws <= we && IntervalIntersects(p.s, p.e, ws, we)
    ensures var c := Clamp(p, ws, we);
            (c.e < c.s <==> p.e < p.s) && (c.e < c.s ==> c.s == p.s)
  {}

  lemma ReachClamped(busy: seq<Period>, ws: int, we: int, k: nat)
    requires k < |busy| && ws <= we && busy[k].e < busy[k].s && IntervalIntersects(busy[k].s, busy[k].e, ws, we)
    ensures Reached(Clamped(busy, ws, we)[..k], busy[k].s) <==> Reached(busy[..k], busy[k].s)
  {
    var c, t := Clamped(busy, ws, we), busy[k].s;
    assert t < we;
    forall j | 0 <= j < k ensures t <= c[..k][j].e <==> t <= busy[..k][j].e {
      assert c[..k][j] == Clamp(busy[j], ws, we) && busy[..k][j] == busy[j];
    }
  }

  /** For occurrences that intersect it, a window in order adds nothing to the condition:
      only an occurrence that itself ends before it starts can stand in the way. */
  lemma OrderedWindow(busy: seq<Period>, ws: int, we: int)
    requires ws <= we && forall k :: 0 <= k < |busy| ==> IntervalIntersects(busy[k].s, busy[k].e, ws, we)
    ensures Absorbed(Clamped(busy, ws, we)) <==> Absorbed(busy)
  {
    hide Reached, IntervalIntersects;
    var c := Clamped(busy, ws, we);
    forall k | 0 <= k < |busy|
      ensures (c[k].e < c[k].s <==> busy[k].e < busy[k].s)
      ensures busy[k].e < busy[k].s ==> (Reached(c[..k], c[k].s) <==> Reached(busy[..k], busy[k].s))
    {
      ClampIntersecting(busy[k], ws, we);
      if busy[k].e < busy[k].s {
        ReachClamped(busy, ws, we, k);
      }
    }
    hide Clamp;
  }

  /** In a window whose end precedes its start, which the request parser lets through,
      nothing is absorbed. */
  lemma ReversedWindow(busy: seq<Period>, ws: int, we: int)
    requires ws > we
    ensures Absorbed(Clamped(busy, ws, we)) <==> busy == []
  {
    if busy != [] {
      var c := Clamped(busy, ws, we);
      assert c[0].e < c[0].s && c[..0] == [];
    }
  }

  /** An occurrence from 0 to 10 asked for from 6 to 4 gives a period that ends before
      it starts. */
  lemma ReversedPeriod()
    ensures IntervalIntersects(0, 10, 6, 4) && Clamped([Period(0, 10)], 6, 4) == [Period(6, 4)]
    ensures !Separated([Period(6, 4)], 6, 4) && forall t, withEnd :: !Busy([Period(6, 4)], t, withEnd)
  {
    assert [Period(6, 4)][0] == Period(6, 4);
  }

  /** An event from 10 to 5, which the server stores, does so in a window in order. */
  lemma BackwardsPeriod()
    ensures IntervalIntersects(10, 5, 0, 20) && Clamped([Period(10, 5)], 0, 20) == [Period(10, 5)]
    ensures Add([], Period(10, 5)) == [Period(10, 5)] && !Separated([Period(10, 5)], 0, 20)
  {
    assert [Period(10, 5)][0] == Period(10, 5);
  }

  // ---------- sorting first ----------

  function InsertByStart(p: Period, ps: seq<Period>): seq<Period> {
    if ps == [] || p.s <= ps[0].s then [p] + ps else [ps[0]] + InsertByStart(p, ps[1..])
  }

  function SortByStart(ps: seq<Period>): seq<Period> {
    if ps == [] then [] else InsertByStart(ps[0], SortByStart(ps[1..]))
  }

  lemma {:induction false} InsertElements(p: Period, ps: seq<Period>)
    ensures multiset(InsertByStart(p, ps)) == multiset(ps) + multiset{p}
  {
    if ps != [] && p.s > ps[0].s {
      InsertElements(p, ps[1..]);
      assert ps == [ps[0]] + ps[1..];
    }
  }

  lemma {:induction false} InsertSorts(p: Period, ps: seq<Period>)
    requires ByStart(ps)
    ensures ByStart(InsertByStart(p, ps))
    ensures InsertByStart(p, ps)[0] == if ps == [] || p.s <= ps[0].s then p else ps[0]
  {
    if ps != [] && p.s > ps[0].s {
      InsertSorts(p, ps[1..]);
      var rest := InsertByStart(p, ps[1..]);
      assert forall j :: 0 <= j < |rest| ==> rest[0].s <= rest[j].s;
    }
  }

  lemma InsertKeeps(p: Period, ps: seq<Period>)
    requires ByStart(ps)
    ensures ByStart(InsertByStart(p, ps)) && multiset(InsertByStart(p, ps)) == multiset(ps) + multiset{p}
  {
    InsertElements(p, ps);
    InsertSorts(p, ps);
  }

  lemma {:induction false} SortKeeps(ps: seq<Period>)
    ensures ByStart(SortByStart(ps)) && multiset(SortByStart(ps)) == multiset(ps)
  {
    if ps != [] {
      SortKeeps(ps[1..]);
      InsertKeeps(ps[0], SortByStart(ps[1..]));
      assert ps == [ps[0]] + ps[1..];
    }
  }

  lemma SameElementsBusy(a: seq<Period>, b: seq<Period>, ws: int, we: int)
    requires multiset(a) == multiset(b)
    ensures SameBusy(Clamped(a, ws, we), Clamped(b, ws, we))
  {
    BusyFrom(a, b, ws, we);
    BusyFrom(b, a, ws, we);
  }

  lemma BusyFrom(a: seq<Period>, b: seq<Period>, ws: int, we: int)
    requires multiset(a) == multiset(b)
    ensures forall t, withEnd :: Busy(Clamped(a, ws, we), t, withEnd) ==> Busy(Clamped(b, ws, we), t, withEnd)
  {
    hide Contains, Clamp;
    forall t, withEnd | Busy(Clamped(a, ws, we), t, withEnd) ensures Busy(Clamped(b, ws, we), t, withEnd) {
      var i :| 0 <= i < |a| && Contains(Clamped(a, ws, we)[i], t, withEnd);
      assert a[i] in multiset(b);
      var j :| 0 <= j < |b| && b[j] == a[i];
      assert Clamped(b, ws, we)[j] == Clamped(a, ws, we)[i];
    }
  }

  /** sorted is one of the orders that sorting by start may give. */
  predicate IsSorting(busy: seq<Period>, sorted: seq<Period>) {
    ByStart(sorted) && multiset(sorted) == multiset(busy)
  }

  /** Sorting by start, ties in any order. */
  method SortBusy(busy: seq<Period>) returns (sorted: seq<Period>)
    ensures IsSorting(busy, sorted)
  {
    sorted := SortByStart(busy);
    SortKeeps(busy);
  }

  /** The clamped p ends before it starts, and no clamped occurrence of an earlier start
      reaches it. */
  predicate Stranded(busy: seq<Period>, p: Period, ws: int, we: int) {
    var c := Clamp(p, ws, we);
    c.e < c.s && forall q :: q in busy && q.s < p.s ==> Clamp(q, ws, we).e < c.s
  }

  lemma SortedReaches(busy: seq<Period>, sorted: seq<Period>, ws: int, we: int, k: nat)
    requires IsSorting(busy, sorted) && k < |sorted|
    requires var c := Clamp(sorted[k], ws, we); c.e < c.s && !Stranded(busy, sorted[k], ws, we)
    ensures Reached(Clamped(sorted, ws, we)[..k], Clamp(sorted[k], ws, we).s)
  {
    hide Clamp;
    var q :| q in busy && q.s < sorted[k].s && Clamp(q, ws, we).e >= Clamp(sorted[k], ws, we).s;
    assert q in multiset(sorted);
    var j :| 0 <= j < |sorted| && sorted[j] == q;
    assert j < k;
    assert Clamped(sorted, ws, we)[..k][j] == Clamp(q, ws, we);
  }

  /** With nothing stranded, everything is absorbed however ties are sorted. */
  lemma AbsorbedInAnyOrder(busy: seq<Period>, sorted: seq<Period>, ws: int, we: int)
    requires IsSorting(busy, sorted) && forall p :: p in busy ==> !Stranded(busy, p, ws, we)
    ensures Absorbed(Clamped(sorted, ws, we))
  {
    hide Clamp, Stranded, Reached;
    var c := Clamped(sorted, ws, we);
    forall k | 0 <= k < |c| && c[k].e < c[k].s ensures Reached(c[..k], c[k].s) {
      assert sorted[k] in multiset(busy);
      SortedReaches(busy, sorted, ws, we, k);
    }
  }

  /** The place of p when it is sorted before its ties. */
  lemma {:induction false} InsertedAt(p: Period, ps: seq<Period>) returns (k: nat)
    ensures k < |InsertByStart(p, ps)| && InsertByStart(p, ps)[k] == p
    ensures forall j :: 0 <= j < k ==> InsertByStart(p, ps)[j] in ps && InsertByStart(p, ps)[j].s < p.s
  {
    k := 0;
    if ps != [] && p.s > ps[0].s {
      var i := InsertedAt(p, ps[1..]);
      k := i + 1;
      var r, rest := InsertByStart(p, ps), InsertByStart(p, ps[1..]);
      forall j | 0 <= j < k ensures r[j] in ps && r[j].s < p.s {
        assert j > 0 ==> r[j] == rest[j - 1] && rest[j - 1] in ps[1..];
      }
    }
  }

  /** A stranded occurrence is not absorbed when it is sorted before its ties. */
  lemma StrandedInSomeOrder(busy: seq<Period>, i: nat, ws: int, we: int) returns (sorted: seq<Period>)
    requires i < |busy| && Stranded(busy, busy[i], ws, we)
    ensures IsSorting(busy, sorted) && !Absorbed(Clamped(sorted, ws, we))
  {
    hide Clamp;
    var p, others := busy[i], busy[..i] + busy[i + 1..];
    assert busy == busy[..i] + [p] + busy[i + 1..];
    assert multiset(others) + multiset{p} == multiset(busy);
    var rest := SortByStart(others);
    SortKeeps(others);
    InsertKeeps(p, rest);
    sorted := InsertByStart(p, rest);
    var k := InsertedAt(p, rest);
    var c, t := Clamped(sorted, ws, we), Clamp(p, ws, we).s;
    forall j | 0 <= j < k ensures c[..k][j].e < t {
      assert sorted[j] in multiset(sorted);
      assert sorted[j] in busy;
    }
    assert !Reached(c[..k], c[k].s);
  }

  /** The report separates its periods however ties are sorted, if and only if nothing
      is stranded. */
  lemma AnyOrderIff(busy: seq<Period>, ws: int, we: int)
    ensures (forall sorted :: IsSorting(busy, sorted) ==> Absorbed(Clamped(sorted, ws, we))) <==>
            forall p :: p in busy ==> !Stranded(busy, p, ws, we)
  {
    hide IsSorting, Absorbed, Stranded;
    if forall p :: p in busy ==> !Stranded(busy, p, ws, we) {
      forall sorted | IsSorting(busy, sorted) ensures Absorbed(Clamped(sorted, ws, we)) {
        AbsorbedInAnyOrder(busy, sorted, ws, we);
      }
    } else {
      var p :| p in busy && Stranded(busy, p, ws, we);
      var i :| 0 <= i < |busy| && busy[i] == p;
      var sorted := StrandedInSomeOrder(busy, i, ws, we);
    }
  }

  /** Two occurrences that start together: the order of the tie decides. */
  lemma TiesDecide()
    ensures var a, b := [Period(10, 5), Period(10, 12)], [Period(10, 12), Period(10, 5)];
            && IsSorting(a, a) && IsSorting(a, b)
            && !Absorbed(Clamped(a, 0, 20)) && Absorbed(Clamped(b, 0, 20))
  {
    var a, b := [Period(10, 5), Period(10, 12)], [Period(10, 12), Period(10, 5)];
    var c, d := Clamped(a, 0, 20), Clamped(b, 0, 20);
    assert c[0] == Period(10, 5) && c[..0] == [];
    assert d[0] == Period(10, 12) && d[1] == Period(10, 5) && d[..1][0] == Period(10, 12);
    assert Reached(d[..1], 10);
  }

  /** The report: occurrences in any order in, busy periods out. */
  method ReportFreeBusy(busy: seq<Period>, ws: int, we: int) returns (merged: seq<Period>)
    ensures exists sorted :: IsSorting(busy, sorted) && (Separated(merged, ws, we) <==> Absorbed(Clamped(sorted, ws, we)))
    ensures (forall p :: p in busy ==> !Stranded(busy, p, ws, we)) ==> Separated(merged, ws, we)
    ensures SameBusy(merged, Clamped(busy, ws, we))
  {
    var sorted := SortBusy(busy);
    hide Busy, Separated, Clamped, Absorbed, Stranded;
    merged := MergeBusy(sorted, ws, we);
    SameElementsBusy(sorted, busy, ws, we);
    if forall p :: p in busy ==> !Stranded(busy, p, ws, we) {
      AbsorbedInAnyOrder(busy, sorted, ws, we);
    }
  }
}

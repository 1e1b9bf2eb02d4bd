/** The instances of one recurrence period, and how periods follow each other. */
module RecurrencePeriods {
  import opened Civil
  import opened Recurrence
  import opened Sequences

  function Matching(r: Rule, days: seq<int>): seq<int> {
    if days == [] then []
    else Matching(r, days[..|days| - 1]) + if DayMatches(r, days[|days| - 1]) then [days[|days| - 1]] else []
  }

  function SecondOf(t: int): int {
    t % SECONDS_PER_DAY
  }

  /** The days as instants at the base's time of day, none before the base. */
  function FromBase(days: seq<int>, base: int): seq<int> {
    if days == [] then []
    else
      var t := days[|days| - 1] * SECONDS_PER_DAY + SecondOf(base);
      FromBase(days[..|days| - 1], base) + if t >= base then [t] else []
  }

  /** The matching days of period p, each once, in order. */
  function Selected(r: Rule, base: int, p: nat): seq<int> {
    Dedupe(Sort(Matching(Effective(r, base), PeriodDays(Effective(r, base), base, p))))
  }

  /** The instance starts of period p. */
  function Candidates(r: Rule, base: int, p: nat): seq<int> {
    var sel := Selected(r, base, p);
    FromBase(if r.bySetPos == [] then sel else Pick(r.bySetPos, sel, |sel|), base)
  }

  // ---------- the loops ----------

  method SelectDays(eff: Rule, days: seq<int>) returns (sel: seq<int>)
    ensures sel == Matching(eff, days)
  {
    hide DayMatches;
    sel := [];
    for i := 0 to |days|
      invariant sel == Matching(eff, days[..i])
    {
      assert days[..i + 1][..i] == days[..i];
      if DayMatches(eff, days[i]) {
        sel := sel + [days[i]];
      }
    }
    assert days[..|days|] == days;
  }

  method SortAndDedupe(sel: seq<int>) returns (r: seq<int>)
    ensures r == Dedupe(Sort(sel))
  {
    var sorted := Sort(sel);
    var a := new int[|sorted|](i requires 0 <= i < |sorted| => sorted[i]);
    assert a[..] == sorted;
    var n := DedupeInPlace(a);
    r := a[..n];
  }

  method InstantsFrom(days: seq<int>, base: int) returns (out: seq<int>)
    ensures out == FromBase(days, base)
  {
    out := [];
    for i := 0 to |days|
      invariant out == FromBase(days[..i], base)
    {
      assert days[..i + 1][..i] == days[..i];
      var t := days[i] * SECONDS_PER_DAY + SecondOf(base);
      if t >= base {
        out := out + [t];
      }
    }
    assert days[..|days|] == days;
  }

  /** The source's periodCandidates: filter, sort, deduplicate in place, apply
      BYSETPOS, drop what precedes the base. */
  method PeriodCandidates(r: Rule, base: int, p: nat) returns (start: int, out: seq<int>)
    requires ValidRule(r)
    ensures start == PeriodStart(r, base, p)
    ensures out == Candidates(r, base, p)
  {
    var eff := Effective(r, base);
    EffectiveKeeps(r, base);
    start := PeriodStart(eff, base, p);
    hide Effective, PeriodStart, PeriodDays, Matching, Sort, Dedupe, Pick, FromBase, DayMatches;
    var sel := SelectDays(eff, PeriodDays(eff, base, p));
    ghost var matching := sel;
    sel := SortAndDedupe(sel);
    SortSorts(matching);
    DedupeAscends(Sort(matching));
    if |r.bySetPos| > 0 {
      sel := PickPositions(r.bySetPos, sel);
    }
    out := InstantsFrom(sel, base);
  }

  // ---------- where the candidates of a period lie ----------

  predicate WeekRule(r: Rule) {
    r.freq == Yearly && r.byWeekNo != []
  }

  /** First day of what period p covers. */
  function Low(r: Rule, base: int, p: nat): int {
    if WeekRule(r) then WeekYearStart(YearOf(DayOf(base)) + p * r.interval, r.wkst) else PeriodStart(r, base, p)
  }

  /** First day after what period p covers. */
  function High(r: Rule, base: int, p: nat): int {
    var b, step := DayOf(base), p * r.interval;
    match r.freq
    case Daily => b + step + 1
    case Weekly => WeekStart(b, r.wkst) + 7 * (step + 1)
    case Monthly => MonthStart(MonthIndex(b) + step + 1)
    case Yearly => if WeekRule(r) then WeekYearStart(YearOf(b) + step + 1, r.wkst) else YearStart(YearOf(b) + step + 1)
  }

  lemma EffectiveKeeps(r: Rule, base: int)
    ensures var e := Effective(r, base);
            && e.freq == r.freq && e.interval == r.interval && e.wkst == r.wkst && e.byWeekNo == r.byWeekNo
            && forall p :: PeriodStart(e, base, p) == PeriodStart(r, base, p)
  {}

  lemma {:induction false} WeekDaysIn(start: int, total: int, weeks: seq<int>)
    ensures forall d :: d in WeekDays(start, total, weeks) ==> start <= d < start + 7 * total
  {
    if weeks != [] {
      WeekDaysIn(start, total, weeks[1..]);
    }
  }

  lemma PeriodDaysIn(r: Rule, base: int, p: nat)
    requires ValidRule(r)
    ensures forall d :: d in PeriodDays(r, base, p) ==> Low(r, base, p) <= d < High(r, base, p)
  {
    hide YearStart, MonthStart, WeekYearStart, YearOf, MonthIndex, WeeksIn, MonthLength, IsLeap, WeekStart, DayOf;
    var b, step := DayOf(base), p * r.interval;
    match r.freq
    case Daily =>
    case Weekly =>
    case Monthly => NextMonth(MonthIndex(b) + step);
    case Yearly =>
      var y := YearOf(b) + step;
      NextYear(y);
      if r.byWeekNo != [] {
        WeekYearTiles(y, r.wkst);
        WeekDaysIn(WeekYearStart(y, r.wkst), WeeksIn(y, r.wkst), r.byWeekNo);
        assert PeriodDays(r, base, p) == WeekDays(WeekYearStart(y, r.wkst), WeeksIn(y, r.wkst), r.byWeekNo);
      } else {
        assert PeriodDays(r, base, p) == Range(YearStart(y), YearLength(y));
      }
  }

  lemma {:induction false} MatchingIs(r: Rule, days: seq<int>)
    ensures forall d :: d in Matching(r, days) <==> d in days && DayMatches(r, d)
  {
    hide DayMatches;
    if days != [] {
      var n := |days| - 1;
      MatchingIs(r, days[..n]);
      assert days == days[..n] + [days[n]];
    }
  }

  /** The selected days: exactly the days of the period that satisfy the BY
      parts, each once, in order. */
  lemma SelectedIs(r: Rule, base: int, p: nat)
    ensures Ascending(Selected(r, base, p))
    ensures var eff := Effective(r, base);
            forall d :: d in Selected(r, base, p) <==> d in PeriodDays(eff, base, p) && DayMatches(eff, d)
  {
    var eff := Effective(r, base);
    hide DayMatches, Effective, PeriodDays;
    var m := Matching(eff, PeriodDays(eff, base, p));
    MatchingIs(eff, PeriodDays(eff, base, p));
    SortSorts(m);
    DedupeAscends(Sort(m));
  }

  /** An instant is its day and its second of the day. */
  lemma InstantParts(d: int, base: int)
    ensures var t := d * SECONDS_PER_DAY + SecondOf(base); DayOf(t) == d && SecondOf(t) == SecondOf(base)
    ensures forall u :: DayOf(u) == d && SecondOf(u) == SecondOf(base) ==> u == d * SECONDS_PER_DAY + SecondOf(base)
    ensures forall u :: DayOf(u) < d ==> u < d * SECONDS_PER_DAY + SecondOf(base)
  {}

  lemma {:induction false} FromBaseIs(days: seq<int>, base: int)
    requires Ascending(days)
    ensures Ascending(FromBase(days, base))
    ensures forall t :: t in FromBase(days, base) <==> DayOf(t) in days && SecondOf(t) == SecondOf(base) && t >= base
  {
    if days != [] {
      var n := |days| - 1;
      FromBaseIs(days[..n], base);
      InstantParts(days[n], base);
      hide DayOf, SecondOf;
      var init, t := FromBase(days[..n], base), days[n] * SECONDS_PER_DAY + SecondOf(base);
      assert days == days[..n] + [days[n]];
      forall j | 0 <= j < |init| ensures init[j] < t {
        assert init[j] in init;
      }
    }
  }

  lemma EffectiveBounds(r: Rule, base: int, p: nat)
    ensures var e := Effective(r, base); Low(e, base, p) == Low(r, base, p) && High(e, base, p) == High(r, base, p)
  {
    hide YearStart, MonthStart, WeekYearStart, WeekStart, DayOf, YearOf, MonthIndex, DayOfMonth, Weekday, MonthOf;
  }

  lemma SelectedIn(r: Rule, base: int, p: nat)
    requires ValidRule(r)
    ensures forall d :: d in Selected(r, base, p) ==> Low(r, base, p) <= d < High(r, base, p)
  {
    var eff := Effective(r, base);
    EffectiveKeeps(r, base);
    EffectiveBounds(r, base, p);
    SelectedIs(r, base, p);
    hide Selected, Low, High, PeriodDays, Effective, DayMatches, PeriodStart;
    PeriodDaysIn(eff, base, p);
  }

  /** The instances of a period are strictly ascending and lie within it. */
  lemma CandidatesIn(r: Rule, base: int, p: nat)
    requires ValidRule(r)
    ensures Ascending(Candidates(r, base, p))
    ensures forall t :: t in Candidates(r, base, p) ==>
              && t >= base && SecondOf(t) == SecondOf(base)
              && DayOf(t) in Selected(r, base, p)
              && Low(r, base, p) <= DayOf(t) < High(r, base, p)
  {
    SelectedIn(r, base, p);
    SelectedIs(r, base, p);
    hide Selected, Low, High, PeriodDays, Effective, DayMatches, Pick, FromBase, DayOf, SecondOf, Chosen;
    var sel := Selected(r, base, p);
    PickIs(r.bySetPos, sel, |sel|);
    var picked := if r.bySetPos == [] then sel else Pick(r.bySetPos, sel, |sel|);
    assert forall d :: d in picked ==> d in sel;
    FromBaseIs(picked, base);
  }

  /** Nothing of period p reaches into period p + 1, for every rule. */
  lemma PeriodsDisjoint(r: Rule, base: int, p: nat)
    requires ValidRule(r)
    ensures High(r, base, p) <= Low(r, base, p + 1)
    ensures PeriodStart(r, base, p) <= PeriodStart(r, base, p + 1)
    ensures PeriodStart(r, base, p) - 3 <= Low(r, base, p)
  {
    hide YearStart, MonthStart, WeekYearStart, YearOf, MonthIndex, WeekStart, DayOf;
    var b, step, next := DayOf(base), p * r.interval, (p + 1) * r.interval;
    assert next == step + r.interval;
    match r.freq
    case Daily =>
    case Weekly =>
    case Monthly =>
      MonthMono(MonthIndex(b) + step + 1, MonthIndex(b) + next);
      MonthMono(MonthIndex(b) + step, MonthIndex(b) + next);
    case Yearly =>
      var y, z := YearOf(b) + step, YearOf(b) + next;
      YearMono(y + 1, z);
      YearMono(y, z);
      WeekYearMono(y + 1, z, r.wkst);
      WeekYearTiles(y, r.wkst);
  }

  lemma {:induction false} LaterPeriods(r: Rule, base: int, p: nat, q: nat)
    requires ValidRule(r) && p <= q
    ensures Low(r, base, p) <= Low(r, base, q)
    ensures PeriodStart(r, base, p) <= PeriodStart(r, base, q)
    ensures p < q ==> High(r, base, p) <= Low(r, base, q)
    decreases q - p
  {
    hide Low, High, PeriodStart;
    if p < q {
      LaterPeriods(r, base, p, q - 1);
      PeriodsDisjoint(r, base, q - 1);
      PeriodNotEmpty(r, base, q - 1);
    }
  }

  lemma PeriodNotEmpty(r: Rule, base: int, p: nat)
    requires ValidRule(r)
    ensures Low(r, base, p) < High(r, base, p)
  {
    hide YearStart, MonthStart, WeekYearStart, YearOf, MonthIndex, WeekStart, DayOf;
    var b, step := DayOf(base), p * r.interval;
    match r.freq
    case Daily =>
    case Weekly =>
    case Monthly => NextMonth(MonthIndex(b) + step);
    case Yearly =>
      NextYear(YearOf(b) + step);
      WeekYearTiles(YearOf(b) + step, r.wkst);
  }

  /** All instances of an earlier period precede all of a later one. */
  lemma CandidatesOrdered(r: Rule, base: int, p: nat, q: nat)
    requires ValidRule(r) && p < q
    ensures forall t, u :: t in Candidates(r, base, p) && u in Candidates(r, base, q) ==> t < u
  {
    hide Candidates, Low, High;
    CandidatesIn(r, base, p);
    CandidatesIn(r, base, q);
    LaterPeriods(r, base, p, q);
  }
}

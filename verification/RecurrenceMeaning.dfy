/** What a recurrence rule says, by counting days: positions in a month or year, the days a
    period covers, and the parts that a rule leaves to its start. */
module RecurrenceMeaning {
  import opened Civil
  import opened Sequences
  import opened Recurrence
  import opened RecurrencePeriods

  // ---------- days of the same month or year ----------

  /** d and e lie in the same month, or in the same year. */
  predicate Together(month: bool, d: int, e: int) {
    if month then MonthIndex(d) == MonthIndex(e) else YearOf(d) == YearOf(e)
  }

  ghost function EarlierDays(month: bool, d: int): set<int> {
    set e | d - 366 <= e < d && Together(month, d, e)
  }

  ghost function LaterDays(month: bool, d: int): set<int> {
    set e | d < e <= d + 366 && Together(month, d, e)
  }

  /** The earlier and the later days of the month or year on the weekday of d. */
  ghost function EarlierAlike(month: bool, d: int): set<int> {
    set e | d - 366 <= e < d && Together(month, d, e) && Weekday(e) == Weekday(d)
  }

  ghost function LaterAlike(month: bool, d: int): set<int> {
    set e | d < e <= d + 366 && Together(month, d, e) && Weekday(e) == Weekday(d)
  }

  function ScopeStart(month: bool, d: int): int {
    if month then MonthStart(MonthIndex(d)) else YearStart(YearOf(d))
  }

  function ScopeEnd(month: bool, d: int): int {
    if month then MonthStart(MonthIndex(d) + 1) else YearStart(YearOf(d) + 1)
  }

  lemma SameMonthIff(d: int, e: int)
    ensures MonthIndex(d) == MonthIndex(e) <==> MonthStart(MonthIndex(d)) <= e < MonthStart(MonthIndex(d) + 1)
  {
    MonthIndexBounds(e);
    hide MonthIndex, MonthStart;
    var i, j := MonthIndex(d), MonthIndex(e);
    if i < j {
      MonthMono(i + 1, j);
    } else if j < i {
      MonthMono(j + 1, i);
    }
  }

  lemma TogetherIff(month: bool, d: int, e: int)
    ensures Together(month, d, e) <==> ScopeStart(month, d) <= e < ScopeEnd(month, d)
  {
    if month {
      SameMonthIff(d, e);
    } else {
      hide YearUp, YearDown, YearStart;
      if ScopeStart(month, d) <= e < ScopeEnd(month, d) {
        YearOfIs(e, YearOf(d));
      }
    }
    hide MonthIndex, MonthStart;
  }

  lemma ScopeBounds(month: bool, d: int)
    ensures ScopeStart(month, d) <= d < ScopeEnd(month, d) <= ScopeStart(month, d) + 366
  {
    MonthIndexBounds(d);
    NextMonth(MonthIndex(d));
    NextYear(YearOf(d));
    hide MonthIndex, MonthStart, YearStart, MonthLength, YearUp, YearDown;
  }

  predicate Between(lo: int, e: int, hi: int) {
    lo <= e < hi
  }

  ghost function Span(lo: int, hi: int): set<int> {
    set e | lo <= e < hi && Between(lo, e, hi)
  }

  lemma {:induction false} SpanSize(lo: int, hi: int)
    requires lo <= hi
    ensures |Span(lo, hi)| == hi - lo
    decreases hi - lo
  {
    if lo == hi {
      assert Span(lo, hi) == {};
    } else {
      SpanSize(lo, hi - 1);
      assert Span(lo, hi) == Span(lo, hi - 1) + {hi - 1};
    }
  }

  ghost function Alike(lo: int, hi: int, d: int): set<int> {
    set e | lo <= e < hi && Weekday(e) == Weekday(d)
  }

  lemma Weeks(d: int, e: int)
    ensures Weekday(d - 7) == Weekday(d) == Weekday(d + 7)
    ensures -7 < e - d < 7 && e != d ==> Weekday(e) != Weekday(d)
  {}

  lemma {:induction false} AlikeBefore(lo: int, d: int)
    requires lo <= d
    ensures |Alike(lo, d, d)| == (d - lo) / 7
    decreases d - lo
  {
    hide Weekday;
    if d - 7 < lo {
      forall e | lo <= e < d ensures Weekday(e) != Weekday(d) {
        Weeks(d, e);
      }
      assert Alike(lo, d, d) == {};
    } else {
      AlikeBefore(lo, d - 7);
      forall e ensures Weekday(d - 7) == Weekday(d) && (d - 7 < e < d ==> Weekday(e) != Weekday(d)) {
        Weeks(d, e);
      }
      assert Alike(lo, d, d) == Alike(lo, d - 7, d - 7) + {d - 7};
    }
  }

  lemma {:induction false} AlikeAfter(d: int, hi: int)
    requires d < hi
    ensures |Alike(d + 1, hi, d)| == (hi - 1 - d) / 7
    decreases hi - d
  {
    hide Weekday;
    if d + 7 >= hi {
      forall e | d < e < hi ensures Weekday(e) != Weekday(d) {
        Weeks(d, e);
      }
      assert Alike(d + 1, hi, d) == {};
    } else {
      AlikeAfter(d + 7, hi);
      forall e ensures Weekday(d + 7) == Weekday(d) && (d < e < d + 7 ==> Weekday(e) != Weekday(d)) {
        Weeks(d, e);
      }
      assert Alike(d + 1, hi, d) == Alike(d + 8, hi, d + 7) + {d + 7};
    }
  }

  lemma TogetherAre(month: bool, d: int)
    ensures forall e :: Together(month, d, e) <==> ScopeStart(month, d) <= e < ScopeEnd(month, d)
  {
    forall e ensures Together(month, d, e) <==> ScopeStart(month, d) <= e < ScopeEnd(month, d) {
      TogetherIff(month, d, e);
    }
  }

  lemma DayCounts(month: bool, d: int)
    ensures |EarlierDays(month, d)| == d - ScopeStart(month, d)
    ensures |LaterDays(month, d)| == ScopeEnd(month, d) - 1 - d
  {
    hide Together, ScopeStart, ScopeEnd;
    ScopeBounds(month, d);
    TogetherAre(month, d);
    var lo, hi := ScopeStart(month, d), ScopeEnd(month, d);
    SpanSize(lo, d);
    SpanSize(d + 1, hi);
    assert EarlierDays(month, d) == Span(lo, d);
    assert LaterDays(month, d) == Span(d + 1, hi);
  }

  lemma AlikeCounts(month: bool, d: int)
    ensures |EarlierAlike(month, d)| == (d - ScopeStart(month, d)) / 7
    ensures |LaterAlike(month, d)| == (ScopeEnd(month, d) - 1 - d) / 7
  {
    hide Together, ScopeStart, ScopeEnd, Weekday;
    ScopeBounds(month, d);
    TogetherAre(month, d);
    var lo, hi := ScopeStart(month, d), ScopeEnd(month, d);
    AlikeBefore(lo, d);
    AlikeAfter(d, hi);
    assert EarlierAlike(month, d) == Alike(lo, d, d);
    assert LaterAlike(month, d) == Alike(d + 1, hi, d);
  }

  lemma MonthParts(d: int)
    ensures DayOfMonth(d) == d - ScopeStart(true, d) + 1
    ensures DaysInMonth(YearOf(d), MonthOf(d)) == ScopeEnd(true, d) - ScopeStart(true, d)
    ensures YearDay(d) == d - ScopeStart(false, d) + 1
    ensures YearLength(YearOf(d)) == ScopeEnd(false, d) - ScopeStart(false, d)
  {
    var i := MonthIndex(d);
    assert i / 12 == YearOf(d) && i % 12 == MonthOf(d) - 1;
    hide YearOf, MonthOf, YearStart, BeforeMonth;
    NextMonth(i);
    NextYear(YearOf(d));
  }

  // ---------- the BY parts ----------

  /** BYDAY: every such weekday, or the one with exactly n - 1 such before it in its month
      or year, or exactly -n - 1 such after it. */
  ghost predicate DayMeant(b: ByDay, month: bool, d: int) {
    b.wd == Weekday(d) &&
    (b.ord == 0 || (b.ord > 0 && |EarlierAlike(month, d)| == b.ord - 1) || (b.ord < 0 && |LaterAlike(month, d)| == -b.ord - 1))
  }

  /** BYMONTHDAY and BYYEARDAY: the day with exactly n - 1 days before it in its month or
      year, or exactly -n - 1 days after it. */
  ghost predicate NumberMeant(n: int, month: bool, d: int) {
    (n > 0 && |EarlierDays(month, d)| == n - 1) || (n < 0 && |LaterDays(month, d)| == -n - 1)
  }

  ghost predicate SomeDayMeant(bs: seq<ByDay>, month: bool, d: int) {
    exists i :: 0 <= i < |bs| && DayMeant(bs[i], month, d)
  }

  ghost predicate SomeNumberMeant(ns: seq<int>, month: bool, d: int) {
    exists i :: 0 <= i < |ns| && NumberMeant(ns[i], month, d)
  }

  /** Positions are counted in the month for monthly rules and yearly ones with BYMONTH. */
  predicate MonthScope(r: Rule) {
    r.freq == Monthly || (r.freq == Yearly && r.byMonth != [])
  }

  /** What the BY parts a rule has ask of a day. */
  ghost predicate Meant(r: Rule, d: int) {
    && (r.byMonth == [] || MonthOf(d) in r.byMonth)
    && (r.byMonthDay == [] || SomeNumberMeant(r.byMonthDay, true, d))
    && (r.byYearDay == [] || SomeNumberMeant(r.byYearDay, false, d))
    && (r.byDay == [] || SomeDayMeant(r.byDay, MonthScope(r), d))
  }

  lemma DayMeantIs(b: ByDay, month: bool, d: int)
    ensures var pos, fromEnd := (d - ScopeStart(month, d)) / 7 + 1, -((ScopeEnd(month, d) - 1 - d) / 7 + 1);
            DayMeant(b, month, d) <==> b.wd == Weekday(d) && (b.ord == 0 || b.ord == pos || b.ord == fromEnd)
  {
    AlikeCounts(month, d);
    ScopeBounds(month, d);
    hide EarlierAlike, LaterAlike, ScopeStart, ScopeEnd, Weekday;
  }

  lemma ByDayMeans(r: Rule, d: int)
    ensures MatchesByDay(r, d) <==> SomeDayMeant(r.byDay, MonthScope(r), d)
  {
    MonthParts(d);
    var month := MonthScope(r);
    hide ScopeStart, ScopeEnd, Weekday, DayOfMonth, YearDay, DaysInMonth, YearLength, YearOf, MonthOf, DayMeant;
    forall i | 0 <= i < |r.byDay|
      ensures var pos, fromEnd := (d - ScopeStart(month, d)) / 7 + 1, -((ScopeEnd(month, d) - 1 - d) / 7 + 1);
              DayMeant(r.byDay[i], month, d) <==>
              r.byDay[i].wd == Weekday(d) && (r.byDay[i].ord == 0 || r.byDay[i].ord == pos || r.byDay[i].ord == fromEnd)
    {
      DayMeantIs(r.byDay[i], month, d);
    }
    var pos, fromEnd := (d - ScopeStart(month, d)) / 7 + 1, -((ScopeEnd(month, d) - 1 - d) / 7 + 1);
    assert MatchesByDay(r, d) <==>
           exists i :: 0 <= i < |r.byDay| && r.byDay[i].wd == Weekday(d)
                    && (r.byDay[i].ord == 0 || r.byDay[i].ord == pos || r.byDay[i].ord == fromEnd);
  }

  lemma NumbersMean(ns: seq<int>, month: bool, d: int)
    ensures SomeNumberMeant(ns, month, d) <==> d - ScopeStart(month, d) + 1 in ns || d - ScopeEnd(month, d) in ns
  {
    DayCounts(month, d);
    ScopeBounds(month, d);
    hide EarlierDays, LaterDays, ScopeStart, ScopeEnd;
    var a, b := d - ScopeStart(month, d) + 1, d - ScopeEnd(month, d);
    assert forall n :: NumberMeant(n, month, d) <==> n == a || n == b;
    hide NumberMeant;
    if a in ns {
      var i :| 0 <= i < |ns| && ns[i] == a;
      assert NumberMeant(ns[i], month, d);
    }
    if b in ns {
      var i :| 0 <= i < |ns| && ns[i] == b;
      assert NumberMeant(ns[i], month, d);
    }
  }

  /** The test on one day, by arithmetic on its number in month and year, says what the
      BY parts mean. */
  lemma DayMatchesIff(r: Rule, d: int)
    ensures DayMatches(r, d) <==> Meant(r, d)
  {
    MonthParts(d);
    NumbersMean(r.byMonthDay, true, d);
    NumbersMean(r.byYearDay, false, d);
    ByDayMeans(r, d);
    hide ScopeStart, ScopeEnd, MatchesByDay, SomeDayMeant, SomeNumberMeant, DayOfMonth, YearDay, DaysInMonth, YearLength, YearOf, MonthOf;
  }

  // ---------- the days of a period ----------

  /** BYWEEKNO: the week with exactly n - 1 weeks before it in its week year, or exactly
      -n - 1 after it. */
  predicate WeekMeant(n: int, start: int, end: int, d: int) {
    (n > 0 && (d - start) / 7 == n - 1) || (n < 0 && (end - 1 - d) / 7 == -n - 1)
  }

  /** d belongs to the p-th period after the one of the base. */
  predicate InPeriod(r: Rule, base: int, p: nat, d: int) {
    var b, step := DayOf(base), p * r.interval;
    match r.freq
    case Daily => d == b + step
    case Weekly => WeekStart(d, r.wkst) == WeekStart(b, r.wkst) + 7 * step
    case Monthly => MonthIndex(d) == MonthIndex(b) + step
    case Yearly =>
      var y := YearOf(b) + step;
      if r.byWeekNo == [] then YearOf(d) == y
      else
        var start, end := WeekYearStart(y, r.wkst), WeekYearStart(y + 1, r.wkst);
        start <= d < end && exists i :: 0 <= i < |r.byWeekNo| && WeekMeant(r.byWeekNo[i], start, end, d)
  }

  lemma InRange(lo: int, n: nat, d: int)
    ensures d in Range(lo, n) <==> lo <= d < lo + n
  {
    if lo <= d < lo + n {
      assert Range(lo, n)[d - lo] == d;
    }
  }

  lemma WeekOf(d: int, s: int, wkst: int)
    requires 0 <= wkst < 7 && Weekday(s) == wkst
    ensures WeekStart(d, wkst) == s <==> s <= d < s + 7
  {
    WeekStartIs(d, wkst);
    var t := WeekStart(d, wkst);
    hide WeekStart;
    if s <= d < s + 7 {
      WholeWeeks(s, t);
    }
  }

  lemma {:induction false} InWeekDays(start: int, total: int, weeks: seq<int>, d: int)
    requires start <= d < start + 7 * total
    ensures d in WeekDays(start, total, weeks) <==>
            exists i :: 0 <= i < |weeks| && WeekMeant(weeks[i], start, start + 7 * total, d)
  {
    if weeks != [] {
      InWeekDays(start, total, weeks[1..], d);
      var n := if weeks[0] < 0 then total + weeks[0] + 1 else weeks[0];
      OneWeek(start, total, weeks[0], d);
      InRange(start + 7 * (n - 1), 7, d);
      hide WeekMeant, Range;
      assert forall i :: 1 <= i < |weeks| ==> weeks[i] == weeks[1..][i - 1];
      var end := start + 7 * total;
      if i :| 0 <= i < |weeks| && WeekMeant(weeks[i], start, end, d) {
        assert i > 0 ==> WeekMeant(weeks[1..][i - 1], start, end, d);
      }
      if i :| 0 <= i < |weeks[1..]| && WeekMeant(weeks[1..][i], start, end, d) {
        assert WeekMeant(weeks[i + 1], start, end, d);
      }
    }
  }

  lemma OneWeek(start: int, total: int, n: int, d: int)
    requires start <= d < start + 7 * total
    ensures var k := if n < 0 then total + n + 1 else n;
            WeekMeant(n, start, start + 7 * total, d) <==> 1 <= k <= total && start + 7 * (k - 1) <= d < start + 7 * k
  {}

  lemma PeriodDaysIff(r: Rule, base: int, p: nat, d: int)
    requires ValidRule(r)
    ensures d in PeriodDays(r, base, p) <==> InPeriod(r, base, p, d)
  {
    hide YearStart, MonthStart, WeekYearStart, YearOf, MonthIndex, WeeksIn, MonthLength, IsLeap, WeekStart, DayOf, Range, WeekDays, WeekMeant;
    var b, step := DayOf(base), p * r.interval;
    match r.freq
    case Daily =>
    case Weekly =>
      var s := WeekStart(b, r.wkst) + 7 * step;
      InRange(s, 7, d);
      assert Weekday(s) == r.wkst by { SevenSteps(b, step, r.wkst); }
      WeekOf(d, s, r.wkst);
    case Monthly =>
      var i := MonthIndex(b) + step;
      NextMonth(i);
      InRange(MonthStart(i), MonthLength(i), d);
      MonthIff(i, d);
    case Yearly =>
      YearlyDaysIff(r, base, p, d);
  }

  lemma SevenSteps(b: int, step: int, wkst: int)
    requires 0 <= wkst < 7
    ensures Weekday(WeekStart(b, wkst) + 7 * step) == wkst
  {
    WeekStartIs(b, wkst);
  }

  lemma MonthIff(i: int, d: int)
    ensures MonthIndex(d) == i <==> MonthStart(i) <= d < MonthStart(i + 1)
  {
    MonthIndexBounds(d);
    hide MonthIndex, MonthStart;
    var j := MonthIndex(d);
    if i < j {
      MonthMono(i + 1, j);
    } else if j < i {
      MonthMono(j + 1, i);
    }
  }

  lemma YearIff(y: int, d: int)
    ensures YearOf(d) == y <==> YearStart(y) <= d < YearStart(y + 1)
  {
    hide YearUp, YearDown, YearStart;
    if YearStart(y) <= d < YearStart(y + 1) {
      YearOfIs(d, y);
    }
  }

  lemma YearlyDaysIff(r: Rule, base: int, p: nat, d: int)
    requires ValidRule(r) && r.freq == Yearly
    ensures d in PeriodDays(r, base, p) <==> InPeriod(r, base, p, d)
  {
    hide YearStart, WeekYearStart, YearOf, WeeksIn, IsLeap, DayOf, Range, WeekDays, WeekMeant, MonthStart, MonthIndex;
    var y := YearOf(DayOf(base)) + p * r.interval;
    if r.byWeekNo == [] {
      assert PeriodDays(r, base, p) == Range(YearStart(y), YearLength(y));
      NextYear(y);
      InRange(YearStart(y), YearLength(y), d);
      YearIff(y, d);
    } else {
      var start, total := WeekYearStart(y, r.wkst), WeeksIn(y, r.wkst);
      assert PeriodDays(r, base, p) == WeekDays(start, total, r.byWeekNo);
      WeekYearTiles(y, r.wkst);
      WeekDaysIn(start, total, r.byWeekNo);
      if start <= d < start + 7 * total {
        InWeekDays(start, total, r.byWeekNo, d);
      }
    }
  }

  // ---------- what the start fills in ----------

  /** The parts section 3.3.10 of RFC 5545 takes from the start when the rule lacks them:
      the weekday, the day of the month, or month and day. */
  predicate Implied(r: Rule, base: int, d: int) {
    var b := DayOf(base);
    match r.freq
    case Daily => true
    case Weekly => r.byDay == [] ==> Weekday(d) == Weekday(b)
    case Monthly => r.byMonthDay == [] && r.byDay == [] ==> DayOfMonth(d) == DayOfMonth(b)
    case Yearly =>
      r.byYearDay == [] && r.byMonthDay == [] && r.byDay == [] ==>
        if r.byWeekNo != [] then Weekday(d) == Weekday(b)
        else DayOfMonth(d) == DayOfMonth(b) && (r.byMonth == [] ==> MonthOf(d) == MonthOf(b))
  }

  lemma SameDayOfMonth(b: int, d: int)
    ensures SomeNumberMeant([DayOfMonth(b)], true, d) <==> DayOfMonth(d) == DayOfMonth(b)
  {
    NumbersMean([DayOfMonth(b)], true, d);
    MonthParts(d);
    MonthParts(b);
    ScopeBounds(true, b);
    ScopeBounds(true, d);
    hide ScopeStart, ScopeEnd, SomeNumberMeant, DayOfMonth, DaysInMonth, YearDay, YearLength;
  }

  lemma SameWeekday(b: int, month: bool, d: int)
    ensures SomeDayMeant([ByDay(0, Weekday(b))], month, d) <==> Weekday(d) == Weekday(b)
  {
    hide EarlierAlike, LaterAlike, Weekday;
    var bs := [ByDay(0, Weekday(b))];
    if Weekday(d) == Weekday(b) {
      assert DayMeant(bs[0], month, d);
    }
  }

  lemma EffectiveMeans(r: Rule, base: int, d: int)
    ensures Meant(Effective(r, base), d) <==> Meant(r, d) && Implied(r, base, d)
  {
    var b := DayOf(base);
    SameDayOfMonth(b, d);
    SameWeekday(b, true, d);
    SameWeekday(b, false, d);
    hide SomeNumberMeant, SomeDayMeant, DayOfMonth, Weekday, MonthOf, DayOf;
    assert MonthOf(d) in [MonthOf(b)] <==> MonthOf(d) == MonthOf(b);
  }

  /** The days selected in a period are exactly the days of the period that meet every BY
      part of the rule, and what the start implies. */
  lemma SelectedMeans(r: Rule, base: int, p: nat, d: int)
    requires ValidRule(r)
    ensures d in Selected(r, base, p) <==> InPeriod(r, base, p, d) && Meant(r, d) && Implied(r, base, d)
  {
    var eff := Effective(r, base);
    hide Selected, PeriodDays, DayMatches, Effective, Meant, Implied, InPeriod, PeriodStart;
    EffectiveKeeps(r, base);
    SelectedIs(r, base, p);
    SamePeriod(r, eff, base, p, d);
    PeriodDaysIff(eff, base, p, d);
    DayMatchesIff(eff, d);
    EffectiveMeans(r, base, d);
  }

  lemma SamePeriod(r: Rule, e: Rule, base: int, p: nat, d: int)
    requires e.freq == r.freq && e.interval == r.interval && e.wkst == r.wkst && e.byWeekNo == r.byWeekNo
    ensures InPeriod(e, base, p, d) <==> InPeriod(r, base, p, d)
  {
    hide DayOf, WeekStart, MonthIndex, YearOf, WeekYearStart, WeekMeant;
  }

  // ---------- BYSETPOS ----------

  /** BYSETPOS: the day with exactly n - 1 selected days before it, or -n - 1 after it. */
  ghost predicate PositionMeant(n: int, sel: seq<int>, d: int) {
    (n > 0 && |set e | e in sel && e < d| == n - 1) || (n < 0 && |set e | e in sel && e > d| == -n - 1)
  }

  ghost predicate SomePositionMeant(ns: seq<int>, sel: seq<int>, d: int) {
    exists i :: 0 <= i < |ns| && PositionMeant(ns[i], sel, d)
  }

  lemma {:induction false} BeforeIndex(sel: seq<int>, i: nat)
    requires Ascending(sel) && i < |sel|
    ensures |set e | e in sel && e < sel[i]| == i
  {
    var s := set e | e in sel && e < sel[i];
    if i == 0 {
      assert s == {};
    } else {
      BeforeIndex(sel, i - 1);
      assert s == (set e | e in sel && e < sel[i - 1]) + {sel[i - 1]};
    }
  }

  lemma {:induction false} AfterIndex(sel: seq<int>, i: nat)
    requires Ascending(sel) && i < |sel|
    ensures |set e | e in sel && e > sel[i]| == |sel| - 1 - i
    decreases |sel| - i
  {
    var s := set e | e in sel && e > sel[i];
    if i == |sel| - 1 {
      assert s == {};
    } else {
      AfterIndex(sel, i + 1);
      assert s == (set e | e in sel && e > sel[i + 1]) + {sel[i + 1]};
    }
  }

  lemma ChosenMeans(ns: seq<int>, sel: seq<int>, i: nat)
    requires Ascending(sel) && i < |sel|
    ensures Chosen(ns, |sel|, i) <==> SomePositionMeant(ns, sel, sel[i])
  {
    BeforeIndex(sel, i);
    AfterIndex(sel, i);
    var n := |sel|;
    forall k | 0 <= k < |ns| ensures PositionIndex(ns[k], n) == i <==> PositionMeant(ns[k], sel, sel[i]) {}
    hide PositionIndex, PositionMeant;
  }

  /** The instances of a period: what the rule means, at the start's time of day, from the
      start on, and at one of the positions if the rule lists any. */
  lemma InstancesMean(r: Rule, base: int, p: nat, t: int)
    requires ValidRule(r)
    ensures var sel := Selected(r, base, p);
            t in Candidates(r, base, p) <==>
            && t >= base && SecondOf(t) == SecondOf(base)
            && InPeriod(r, base, p, DayOf(t)) && Meant(r, DayOf(t)) && Implied(r, base, DayOf(t))
            && (r.bySetPos == [] || SomePositionMeant(r.bySetPos, sel, DayOf(t)))
  {
    var sel, d := Selected(r, base, p), DayOf(t);
    SelectedIs(r, base, p);
    SelectedMeans(r, base, p, d);
    hide Selected, InPeriod, Meant, Implied, DayOf, SecondOf, Effective, PeriodDays, DayMatches;
    PickIs(r.bySetPos, sel, |sel|);
    var picked := if r.bySetPos == [] then sel else Pick(r.bySetPos, sel, |sel|);
    FromBaseIs(picked, base);
    PickedIff(r.bySetPos, sel, d);
    hide Pick, FromBase, SomePositionMeant;
  }

  lemma PickedIff(ns: seq<int>, sel: seq<int>, d: int)
    requires Ascending(sel)
    ensures d in Pick(ns, sel, |sel|) <==> d in sel && SomePositionMeant(ns, sel, d)
  {
    PickIs(ns, sel, |sel|);
    hide Pick, Chosen, SomePositionMeant;
    if d in sel {
      var i :| 0 <= i < |sel| && sel[i] == d;
      ChosenMeans(ns, sel, i);
    }
  }

  /** A rule without BY parts: every day, the start's weekday, its day of the month, or its
      month and day. */
  lemma PlainRule(r: Rule, base: int, p: nat, d: int)
    requires ValidRule(r) && r.byDay == [] && r.byMonthDay == [] && r.byMonth == [] && r.byYearDay == [] && r.byWeekNo == []
    ensures var b := DayOf(base);
            d in Selected(r, base, p) <==>
            InPeriod(r, base, p, d) &&
            match r.freq
            case Daily => true
            case Weekly => Weekday(d) == Weekday(b)
            case Monthly => DayOfMonth(d) == DayOfMonth(b)
            case Yearly => MonthOf(d) == MonthOf(b) && DayOfMonth(d) == DayOfMonth(b)
  {
    SelectedMeans(r, base, p, d);
    hide Selected, InPeriod, DayOf, Weekday, DayOfMonth, MonthOf;
  }
}

/** Expanding a recurrence rule over a time window: the loop with skip-ahead and
    early exits against the plain enumeration of all instances. */
module RecurrenceExpansion {
  import opened Text
  import opened Civil
  import opened Recurrence
  import opened Sequences
  import opened RecurrencePeriods

  /** A component [base, base + dur) recurring under rule, and a window [from, to). */
  datatype Query = Query(rule: Rule, base: int, dur: int, from: int, to: int)

  predicate IntervalIntersects(s: int, e: int, ws: int, we: int) {
    if e == s then ws <= s < we else s < we && e > ws
  }

  predicate Shared(s: int, e: int, ws: int, we: int, t: int) {
    s <= t < e && ws <= t < we
  }

  /** An instance intersects a window if and only if they share an instant, or it has no
      length and lies in it. */
  lemma IntersectsIff(s: int, e: int, ws: int, we: int)
    requires s <= e && ws < we
    ensures IntervalIntersects(s, e, ws, we) <==> (exists t :: Shared(s, e, ws, we, t)) || (s == e && ws <= s < we)
  {
    if s < e && IntervalIntersects(s, e, ws, we) {
      assert Shared(s, e, ws, we, if s < ws then ws else s);
    }
  }

  // ---------- reference: plain enumeration ----------

  function Cand(q: Query, p: nat): seq<int> {
    Candidates(q.rule, q.base, p)
  }

  /** Instances in the periods before p. */
  function Before(q: Query, p: nat): nat {
    if p == 0 then 0 else Before(q, p - 1) + |Cand(q, p - 1)|
  }

  /** Instance i of period p is at or before UNTIL, among the first COUNT, and
      intersects the window. */
  predicate Wanted(q: Query, p: nat, i: nat) {
    && i < |Cand(q, p)|
    && (q.rule.until.Some? ==> Cand(q, p)[i] <= q.rule.until.value)
    && (q.rule.count > 0 ==> Before(q, p) + i < q.rule.count)
    && IntervalIntersects(Cand(q, p)[i], Cand(q, p)[i] + q.dur, q.from, q.to)
  }

  ghost predicate InWindow(q: Query, t: int) {
    exists p: nat, i: nat :: Wanted(q, p, i) && Cand(q, p)[i] == t
  }

  // ---------- skip-ahead ----------

  /** time.Duration holds at most this many whole seconds. */
  const MAX_DURATION: int := 9223372036

  function Units(r: Rule, base: int, from: int): int {
    var elapsed := if from - base > MAX_DURATION then MAX_DURATION else from - base;
    match r.freq
    case Daily => elapsed / SECONDS_PER_DAY
    case Weekly => elapsed / (7 * SECONDS_PER_DAY)
    case Monthly => MonthIndex(DayOf(from)) - MonthIndex(DayOf(base))
    case Yearly => YearOf(DayOf(from)) - YearOf(DayOf(base))
  }

  function FirstPeriod(r: Rule, base: int, from: int): nat
    requires ValidRule(r)
  {
    if r.count > 0 || from <= base then 0
    else
      var p := Units(r, base, from) / r.interval - 2;
      if p < 0 then 0 else p
  }

  function First(q: Query): nat
    requires ValidRule(q.rule)
  {
    FirstPeriod(q.rule, q.base, q.from - q.dur)
  }

  lemma StepsBelow(n: int, interval: int, p: nat)
    requires interval >= 1 && p < n / interval - 2
    ensures p * interval + 3 <= n
  {
    var k := n / interval;
    assert k * interval <= n;
    assert (p + 3) * interval <= k * interval;
    assert (p + 3) * interval == p * interval + 3 * interval;
  }

  lemma UnitsElapsed(r: Rule, base: int, from: int)
    requires from > base
    ensures match r.freq
            case Daily => Units(r, base, from) * SECONDS_PER_DAY <= from - base
            case Weekly => Units(r, base, from) * 7 * SECONDS_PER_DAY <= from - base
            case Monthly => Units(r, base, from) == MonthIndex(DayOf(from)) - MonthIndex(DayOf(base))
            case Yearly => Units(r, base, from) == YearOf(DayOf(from)) - YearOf(DayOf(base))
  {
    hide MonthIndex, YearOf, DayOf;
  }

  lemma SkippedDay(r: Rule, base: int, from: int, p: nat)
    requires ValidRule(r) && p < FirstPeriod(r, base, from)
    ensures High(r, base, p) <= DayOf(from)
  {
    hide YearStart, MonthStart, MonthIndex, YearOf, WeekYearStart, WeekStart, DayOf, Units;
    var n, step := Units(r, base, from), p * r.interval;
    StepsBelow(n, r.interval, p);
    UnitsElapsed(r, base, from);
    match r.freq
    case Daily => SkippedDaily(base, from, n, step);
    case Weekly => SkippedWeekly(base, from, n, step, r.wkst);
    case Monthly => SkippedMonthly(base, from, step);
    case Yearly => SkippedYearly(base, from, step, r.wkst);
  }

  lemma SkippedMonthly(base: int, from: int, step: int)
    requires step + 3 <= MonthIndex(DayOf(from)) - MonthIndex(DayOf(base))
    ensures MonthStart(MonthIndex(DayOf(base)) + step + 1) <= DayOf(from)
  {
    hide MonthStart, MonthIndex, DayOf;
    MonthMono(MonthIndex(DayOf(base)) + step + 1, MonthIndex(DayOf(from)));
    MonthIndexBounds(DayOf(from));
  }

  lemma SkippedYearly(base: int, from: int, step: int, wkst: int)
    requires 0 <= wkst < 7 && step + 3 <= YearOf(DayOf(from)) - YearOf(DayOf(base))
    ensures YearStart(YearOf(DayOf(base)) + step + 1) <= DayOf(from)
    ensures WeekYearStart(YearOf(DayOf(base)) + step + 1, wkst) <= DayOf(from)
  {
    hide YearStart, WeekYearStart, DayOf, YearUp, YearDown;
    var y, f := YearOf(DayOf(base)) + step + 1, YearOf(DayOf(from));
    YearMono(y, f);
    YearMono(y + 1, f);
    NextYear(y);
    WeekYearTiles(y, wkst);
  }

  lemma SkippedDaily(base: int, from: int, n: int, step: int)
    requires n * SECONDS_PER_DAY <= from - base && step + 3 <= n
    ensures DayOf(base) + step + 1 <= DayOf(from)
  {}

  lemma SkippedWeekly(base: int, from: int, n: int, step: int, wkst: int)
    requires 0 <= wkst < 7 && n * 7 * SECONDS_PER_DAY <= from - base && step + 3 <= n
    ensures WeekStart(DayOf(base), wkst) + 7 * (step + 1) <= DayOf(from)
  {
    WeekStartIs(DayOf(base), wkst);
  }

  /** Skipping ahead loses nothing, for any FREQ, INTERVAL and duration. */
  lemma SkipLosesNothing(q: Query, p: nat, i: nat)
    requires ValidRule(q.rule) && p < First(q)
    ensures !Wanted(q, p, i)
  {
    SkippedDay(q.rule, q.base, q.from - q.dur, p);
    CandidatesIn(q.rule, q.base, p);
    hide Candidates, High, Low, Before, First;
    if i < |Cand(q, p)| {
      var t := Cand(q, p)[i];
      assert t in Cand(q, p);
      DayOrder(t, q.from - q.dur);
    }
  }

  lemma DayOrder(t: int, u: int)
    requires DayOf(t) < DayOf(u)
    ensures t < u
  {}

  // ---------- early exit ----------

  /** The loop stops at a period that starts after year 9999 or more than eight
      days after the window. */
  predicate Exit(q: Query, p: nat) {
    var start := PeriodStart(q.rule, q.base, p);
    YearOf(start) > 9999 || start * SECONDS_PER_DAY > q.to + 8 * SECONDS_PER_DAY
  }

  /** The last day, exclusive, up to which the exit at year 9999 is safe: week 1
      of year 10000 may begin in the last days of 9999. */
  function Horizon(r: Rule): int {
    if WeekRule(r) then WeekYearStart(10000, r.wkst) else YearStart(10000)
  }

  lemma ExitBound(q: Query, p: nat)
    requires ValidRule(q.rule) && Exit(q, p) && q.to <= Horizon(q.rule) * SECONDS_PER_DAY
    ensures q.to <= Low(q.rule, q.base, p) * SECONDS_PER_DAY
  {
    var r, start := q.rule, PeriodStart(q.rule, q.base, p);
    PeriodsDisjoint(r, q.base, p);
    if YearOf(start) > 9999 {
      YearMono(10000, YearOf(start));
      if WeekRule(r) {
        var y := YearOf(DayOf(q.base)) + p * r.interval;
        assert start == YearStart(y);
        NextYear(y);
        YearOfIs(start, y);
        WeekYearMono(10000, y, r.wkst);
      }
    }
  }

  /** The early exit loses nothing when the window ends by the horizon. */
  lemma ExitLosesNothing(q: Query, p: nat, p': nat, i: nat)
    requires ValidRule(q.rule) && Exit(q, p) && p <= p' && q.to <= Horizon(q.rule) * SECONDS_PER_DAY
    ensures !Wanted(q, p', i)
  {
    ExitBound(q, p);
    LaterPeriods(q.rule, q.base, p, p');
    CandidatesIn(q.rule, q.base, p');
    hide Candidates, High, Low, Before, Exit, Horizon, PeriodStart;
    if i < |Cand(q, p')| {
      var t := Cand(q, p')[i];
      assert t in Cand(q, p');
      assert DayOf(t) * SECONDS_PER_DAY <= t;
      assert Low(q.rule, q.base, p) * SECONDS_PER_DAY <= DayOf(t) * SECONDS_PER_DAY;
    }
  }

  // ---------- reaching the exit ----------

  /** Where the window begins for a component of this duration, or the base if the loop
      has to start there. */
  function Near(q: Query): int {
    if q.rule.count > 0 || q.from - q.dur <= q.base then q.base else q.from - q.dur
  }

  /** The time skipped fits a time.Duration, by which days and weeks are counted. */
  predicate Unsaturated(q: Query) {
    q.rule.freq == Daily || q.rule.freq == Weekly ==> Near(q) - q.base <= MAX_DURATION
  }

  lemma StepsAbove(n: int, interval: int)
    requires interval >= 1 && n >= 0
    ensures var p := if n / interval - 2 < 0 then 0 else n / interval - 2; n + 1 <= (p + 3) * interval
  {
    var k := n / interval;
    assert n < (k + 1) * interval;
    if k < 2 {
      assert (k + 1) * interval <= 3 * interval;
    } else {
      assert k + 1 == k - 2 + 3;
    }
  }

  lemma UnitsFrom(r: Rule, base: int, from: int)
    requires from > base && (r.freq == Daily || r.freq == Weekly ==> from - base <= MAX_DURATION)
    ensures match r.freq
            case Daily => from - base < (Units(r, base, from) + 1) * SECONDS_PER_DAY
            case Weekly => from - base < (Units(r, base, from) + 1) * 7 * SECONDS_PER_DAY
            case Monthly => Units(r, base, from) == MonthIndex(DayOf(from)) - MonthIndex(DayOf(base))
            case Yearly => Units(r, base, from) == YearOf(DayOf(from)) - YearOf(DayOf(base))
    ensures Units(r, base, from) >= 0
  {
    hide MonthStart, YearStart;
    DayMono(base, from);
    MonthsMono(DayOf(base), DayOf(from));
    YearsMono(DayOf(base), DayOf(from));
    hide MonthIndex, YearOf, DayOf;
  }

  lemma DayMono(t: int, u: int)
    requires t <= u
    ensures DayOf(t) <= DayOf(u)
  {}

  lemma YearsMono(d: int, e: int)
    requires d <= e
    ensures YearOf(d) <= YearOf(e)
  {
    var y, z := YearOf(d), YearOf(e);
    if z < y {
      YearMono(z + 1, y);
    }
  }

  lemma MonthsMono(d: int, e: int)
    requires d <= e
    ensures MonthIndex(d) <= MonthIndex(e)
  {
    MonthIndexBounds(d);
    MonthIndexBounds(e);
    hide MonthIndex, MonthStart;
    var i, j := MonthIndex(d), MonthIndex(e);
    if j < i {
      MonthMono(j + 1, i);
    }
  }

  /** Days that a period lasts at least, for INTERVAL 1. */
  function UnitDays(freq: Freq): nat {
    match freq
    case Daily => 1
    case Weekly => 7
    case Monthly => 28
    case Yearly => 365
  }

  lemma PeriodGap(r: Rule, base: int, p: nat, j: nat)
    requires ValidRule(r)
    ensures PeriodStart(r, base, p) + UnitDays(r.freq) * (j * r.interval) <= PeriodStart(r, base, p + j)
  {
    hide MonthStart, YearStart, MonthIndex, YearOf, WeekStart, DayOf;
    var b, step, more := DayOf(base), p * r.interval, j * r.interval;
    assert (p + j) * r.interval == step + more;
    match r.freq
    case Daily =>
    case Weekly =>
    case Monthly => MonthMono(MonthIndex(b) + step, MonthIndex(b) + step + more);
    case Yearly => YearMono(YearOf(b) + step, YearOf(b) + step + more);
  }

  lemma NearDaily(base: int, from: int, n: int, step: int)
    requires from - base < (n + 1) * SECONDS_PER_DAY && n + 1 <= step
    ensures DayOf(from) <= DayOf(base) + step
  {}

  lemma NearWeekly(base: int, from: int, n: int, step: int, wkst: int)
    requires 0 <= wkst < 7 && from - base < (n + 1) * 7 * SECONDS_PER_DAY && n + 2 <= step
    ensures DayOf(from) <= WeekStart(DayOf(base), wkst) + 7 * step
  {
    WeekStartIs(DayOf(base), wkst);
    hide WeekStart, Weekday;
    assert DayOf(from) <= DayOf(base) + 7 * (n + 1);
  }

  lemma NearMonthly(b: int, f: int, step: int)
    requires MonthIndex(f) - MonthIndex(b) < step
    ensures f <= MonthStart(MonthIndex(b) + step)
  {
    MonthIndexBounds(f);
    hide MonthIndex, MonthStart;
    MonthMono(MonthIndex(f) + 1, MonthIndex(b) + step);
  }

  lemma NearYearly(b: int, f: int, step: int)
    requires YearOf(f) - YearOf(b) < step
    ensures f <= YearStart(YearOf(b) + step)
  {
    hide YearStart, YearUp, YearDown;
    YearMono(YearOf(f) + 1, YearOf(b) + step);
  }

  lemma NearPeriod(r: Rule, base: int, from: int, p: nat, n: int)
    requires ValidRule(r) && n + 2 <= p * r.interval
    requires match r.freq
             case Daily => from - base < (n + 1) * SECONDS_PER_DAY
             case Weekly => from - base < (n + 1) * 7 * SECONDS_PER_DAY
             case Monthly => MonthIndex(DayOf(from)) - MonthIndex(DayOf(base)) == n
             case Yearly => YearOf(DayOf(from)) - YearOf(DayOf(base)) == n
    ensures DayOf(from) <= PeriodStart(r, base, p)
  {
    hide MonthStart, YearStart, MonthIndex, YearOf, WeekStart, DayOf;
    var step := p * r.interval;
    match r.freq
    case Daily => NearDaily(base, from, n, step);
    case Weekly => NearWeekly(base, from, n, step, r.wkst);
    case Monthly => NearMonthly(DayOf(base), DayOf(from), step);
    case Yearly => NearYearly(DayOf(base), DayOf(from), step);
  }

  /** Skipping ahead stops at most four periods short: what lies between the base and the
      window costs none of the periods the loop may look at. */
  lemma SkipIsEnough(q: Query)
    requires ValidRule(q.rule) && Unsaturated(q)
    ensures DayOf(Near(q)) <= PeriodStart(q.rule, q.base, First(q) + 4)
  {
    hide MonthStart, YearStart, MonthIndex, YearOf, WeekStart, DayOf, Units, PeriodStart;
    var r, near, p := q.rule, Near(q), First(q);
    var n := if near == q.base then 0 else Units(r, q.base, near);
    if near > q.base {
      UnitsFrom(r, q.base, near);
    }
    StepsAbove(n, r.interval);
    assert (p + 4) * r.interval == (p + 3) * r.interval + r.interval;
    NearPeriod(r, q.base, near, p + 4, n);
  }

  /** The window, with the duration before it and the eight days after it, is shorter than
      all but four of the periods the loop may look at. */
  predicate ShortWindow(q: Query, maxPeriods: nat) {
    maxPeriods >= 5 &&
    q.to + 8 * SECONDS_PER_DAY
    < (DayOf(Near(q)) + UnitDays(q.rule.freq) * ((maxPeriods - 5) * q.rule.interval)) * SECONDS_PER_DAY
  }

  /** However long ago the component began, the loop reaches its exit before the cap. */
  lemma ReachesExit(q: Query, maxPeriods: nat) returns (p: nat)
    requires ValidRule(q.rule) && Unsaturated(q) && ShortWindow(q, maxPeriods)
    ensures First(q) <= p < First(q) + maxPeriods && Exit(q, p)
  {
    hide PeriodStart, Near, First, YearOf, DayOf;
    SkipIsEnough(q);
    var more := maxPeriods - 5;
    PeriodGap(q.rule, q.base, First(q) + 4, more);
    hide UnitDays;
    p := First(q) + 4 + more;
    PastWindow(PeriodStart(q.rule, q.base, p), DayOf(Near(q)) + UnitDays(q.rule.freq) * (more * q.rule.interval), q.to);
  }

  lemma PastWindow(start: int, day: int, to: int)
    requires day <= start && to + 8 * SECONDS_PER_DAY < day * SECONDS_PER_DAY
    ensures start * SECONDS_PER_DAY > to + 8 * SECONDS_PER_DAY
  {}

  /** In a short window nothing is missing, unless there are too many instances. */
  ghost predicate Enough(q: Query, maxPeriods: nat, out: seq<int>)
    requires ValidRule(q.rule)
  {
    Unsaturated(q) && ShortWindow(q, maxPeriods) && q.to <= Horizon(q.rule) * SECONDS_PER_DAY ==> Complete(q, out)
  }

  lemma EnoughWhen(q: Query, maxPeriods: nat, out: seq<int>, stopped: bool)
    requires ValidRule(q.rule) && (stopped && q.to <= Horizon(q.rule) * SECONDS_PER_DAY ==> Complete(q, out))
    requires stopped || forall p: nat :: First(q) <= p < First(q) + maxPeriods ==> !Exit(q, p)
    ensures Enough(q, maxPeriods, out)
  {
    hide Complete, Exit, First, Horizon;
    if Unsaturated(q) && ShortWindow(q, maxPeriods) {
      var p := ReachesExit(q, maxPeriods);
    }
  }

  // ---------- UNTIL and COUNT ----------

  /** (p, i) comes before (p', i') in the enumeration. */
  predicate Earlier(p: nat, i: nat, p': nat, i': nat) {
    p < p' || (p == p' && i < i')
  }

  lemma EnumerationAscends(q: Query, p: nat, i: nat, p': nat, i': nat)
    requires ValidRule(q.rule) && Earlier(p, i, p', i') && i < |Cand(q, p)| && i' < |Cand(q, p')|
    ensures Cand(q, p)[i] < Cand(q, p')[i']
  {
    hide Candidates;
    if p < p' {
      CandidatesOrdered(q.rule, q.base, p, p');
      assert Cand(q, p)[i] in Candidates(q.rule, q.base, p) && Cand(q, p')[i'] in Candidates(q.rule, q.base, p');
    } else {
      CandidatesIn(q.rule, q.base, p);
    }
  }

  lemma {:induction false} BeforeMono(q: Query, p: nat, p': nat)
    requires p < p'
    ensures Before(q, p) + |Cand(q, p)| <= Before(q, p')
  {
    hide Candidates;
    if p + 1 < p' {
      BeforeMono(q, p, p' - 1);
    }
  }

  predicate Stop(q: Query, p: nat, i: nat) {
    && i < |Cand(q, p)|
    && ((q.rule.until.Some? && Cand(q, p)[i] > q.rule.until.value)
        || (q.rule.count > 0 && Before(q, p) + i >= q.rule.count))
  }

  /** Once an instance is past UNTIL or COUNT, so are all that follow. */
  lemma StopLosesNothing(q: Query, p: nat, i: nat, p': nat, i': nat)
    requires ValidRule(q.rule) && Stop(q, p, i) && !Earlier(p', i', p, i)
    ensures !Wanted(q, p', i')
  {
    hide Candidates;
    if Earlier(p, i, p', i') && i' < |Cand(q, p')| {
      EnumerationAscends(q, p, i, p', i');
      if p < p' {
        BeforeMono(q, p, p');
      }
    }
  }

  // ---------- the loop ----------

  /** Everything wanted before position (p, i) is in out. */
  ghost predicate Covers(q: Query, out: seq<int>, p: nat, i: nat) {
    forall p': nat, i': nat :: Wanted(q, p', i') && Earlier(p', i', p, i) ==> Cand(q, p')[i'] in out
  }

  /** All of out is wanted and comes before position (p, i). */
  ghost predicate OnlyWanted(q: Query, out: seq<int>, p: nat, i: nat) {
    forall t :: t in out ==> exists p': nat, i': nat :: Wanted(q, p', i') && Earlier(p', i', p, i) && Cand(q, p')[i'] == t
  }

  ghost predicate Complete(q: Query, out: seq<int>) {
    forall t :: InWindow(q, t) ==> t in out
  }

  /** Everything wanted up to any instance in out is in out. */
  ghost predicate NoGaps(q: Query, out: seq<int>) {
    forall t, u :: InWindow(q, t) && u in out && t <= u ==> t in out
  }

  lemma AppendWanted(q: Query, out: seq<int>, p: nat, i: nat)
    requires ValidRule(q.rule) && i < |Cand(q, p)| && Ascending(out)
    requires Covers(q, out, p, i) && OnlyWanted(q, out, p, i)
    ensures var next := if Wanted(q, p, i) then out + [Cand(q, p)[i]] else out;
            Ascending(next) && Covers(q, next, p, i + 1) && OnlyWanted(q, next, p, i + 1)
  {
    hide Candidates, Before, IntervalIntersects;
    var t := Cand(q, p)[i];
    var next := if Wanted(q, p, i) then out + [t] else out;
    forall k | 0 <= k < |out| ensures out[k] < t {
      assert out[k] in out;
      var p': nat, i': nat :| Wanted(q, p', i') && Earlier(p', i', p, i) && Cand(q, p')[i'] == out[k];
      EnumerationAscends(q, p', i', p, i);
    }
    forall p': nat, i': nat | Wanted(q, p', i') && Earlier(p', i', p, i + 1) ensures Cand(q, p')[i'] in next {
      assert Earlier(p', i', p, i) || (p' == p && i' == i);
    }
    forall u | u in next ensures exists p': nat, i': nat :: Wanted(q, p', i') && Earlier(p', i', p, i + 1) && Cand(q, p')[i'] == u {
      if u in out {
        var p': nat, i': nat :| Wanted(q, p', i') && Earlier(p', i', p, i) && Cand(q, p')[i'] == u;
        assert Earlier(p', i', p, i + 1);
      } else {
        assert Wanted(q, p, i) && Earlier(p, i, p, i + 1) && Cand(q, p)[i] == u;
      }
    }
  }

  lemma NextPeriod(q: Query, out: seq<int>, p: nat)
    requires Covers(q, out, p, |Cand(q, p)|) && OnlyWanted(q, out, p, |Cand(q, p)|)
    ensures Covers(q, out, p + 1, 0) && OnlyWanted(q, out, p + 1, 0)
  {
    hide Candidates, Before, IntervalIntersects;
    forall p': nat, i': nat | Wanted(q, p', i') && Earlier(p', i', p + 1, 0) ensures Cand(q, p')[i'] in out {
      assert Earlier(p', i', p, |Cand(q, p)|);
    }
    forall t | t in out ensures exists p': nat, i': nat :: Wanted(q, p', i') && Earlier(p', i', p + 1, 0) && Cand(q, p')[i'] == t {
      var p': nat, i': nat :| Wanted(q, p', i') && Earlier(p', i', p, |Cand(q, p)|) && Cand(q, p')[i'] == t;
      assert Earlier(p', i', p + 1, 0);
    }
  }

  /** One period: append what is wanted until UNTIL or COUNT says stop. */
  method ScanPeriod(q: Query, p: nat, cands: seq<int>, out0: seq<int>, count0: nat) returns (out: seq<int>, count: nat, stop: bool)
    requires ValidRule(q.rule) && cands == Cand(q, p) && Ascending(out0)
    requires Covers(q, out0, p, 0) && OnlyWanted(q, out0, p, 0)
    requires q.rule.count > 0 ==> count0 == Before(q, p)
    ensures Ascending(out)
    ensures forall t :: t in out ==> t in out0 || t in cands
    ensures stop ==> exists i: nat :: Stop(q, p, i) && Covers(q, out, p, i) && OnlyWanted(q, out, p, i)
    ensures !stop ==> Covers(q, out, p + 1, 0) && OnlyWanted(q, out, p + 1, 0) && (q.rule.count > 0 ==> count == Before(q, p + 1))
  {
    hide Candidates, Covers, OnlyWanted, Ascending;
    out, count, stop := out0, count0, false;
    for i := 0 to |cands|
      invariant Ascending(out) && Covers(q, out, p, i) && OnlyWanted(q, out, p, i)
      invariant q.rule.count > 0 ==> count == Before(q, p) + i
      invariant forall t :: t in out ==> t in out0 || t in cands
    {
      var inst := cands[i];
      if (q.rule.until.Some? && inst > q.rule.until.value) || (q.rule.count > 0 && count >= q.rule.count) {
        assert Stop(q, p, i);
        return out, count, true;
      }
      AppendWanted(q, out, p, i);
      count := count + 1;
      if IntervalIntersects(inst, inst + q.dur, q.from, q.to) {
        out := out + [inst];
      }
    }
    NextPeriod(q, out, p);
  }

  lemma CompleteAtExit(q: Query, out: seq<int>, p: nat)
    requires ValidRule(q.rule) && Covers(q, out, p, 0) && Exit(q, p) && q.to <= Horizon(q.rule) * SECONDS_PER_DAY
    ensures Complete(q, out)
  {
    hide Candidates, Before, IntervalIntersects, Exit, Horizon;
    forall t | InWindow(q, t) ensures t in out {
      var p': nat, i': nat :| Wanted(q, p', i') && Cand(q, p')[i'] == t;
      if p' >= p {
        ExitLosesNothing(q, p, p', i');
      } else {
        assert Earlier(p', i', p, 0);
      }
    }
  }

  lemma CompleteAtStop(q: Query, out: seq<int>, p: nat, i: nat)
    requires ValidRule(q.rule) && Covers(q, out, p, i) && Stop(q, p, i)
    ensures Complete(q, out)
  {
    hide Candidates, Before, IntervalIntersects, Stop;
    forall t | InWindow(q, t) ensures t in out {
      var p': nat, i': nat :| Wanted(q, p', i') && Cand(q, p')[i'] == t;
      if !Earlier(p', i', p, i) {
        StopLosesNothing(q, p, i, p', i');
      }
    }
  }

  lemma WantedInWindow(q: Query, out: seq<int>, p: nat, i: nat)
    requires OnlyWanted(q, out, p, i)
    ensures forall t :: t in out ==> InWindow(q, t)
  {
    hide Wanted, Cand, Earlier;
  }

  /** What the loop has at any position is an initial segment of what is wanted. */
  lemma InitialSegment(q: Query, out: seq<int>, p: nat, i: nat)
    requires ValidRule(q.rule) && Covers(q, out, p, i) && OnlyWanted(q, out, p, i)
    ensures NoGaps(q, out)
  {
    hide Candidates, Before, IntervalIntersects;
    forall t, u | InWindow(q, t) && u in out && t <= u ensures t in out {
      var p': nat, i': nat :| Wanted(q, p', i') && Cand(q, p')[i'] == t;
      var k: nat, j: nat :| Wanted(q, k, j) && Earlier(k, j, p, i) && Cand(q, k)[j] == u;
      if Earlier(k, j, p', i') {
        EnumerationAscends(q, k, j, p', i');
      }
    }
  }

  lemma StartCovered(q: Query)
    requires ValidRule(q.rule)
    ensures Covers(q, [], First(q), 0)
  {
    hide Candidates, Before, IntervalIntersects, First;
    forall p': nat, i': nat | Earlier(p', i', First(q), 0) ensures !Wanted(q, p', i') {
      SkipLosesNothing(q, p', i');
    }
  }

  /** The expansion. Whatever it returns is wanted, in strictly ascending order.
      It returns everything wanted when it stopped by itself, which it does
      unless a cap was hit, provided the window ends by the horizon. The cap on
      periods is not hit in a short window, whenever the component began. When a
      cap stops it, it returns an initial segment of what is wanted. */
  method RruleInstances(q: Query, maxPeriods: nat, maxInstances: nat) returns (out: seq<int>, ghost stopped: bool)
    requires ValidRule(q.rule)
    ensures Ascending(out) && (forall t :: t in out ==> InWindow(q, t)) && NoGaps(q, out)
    ensures stopped && q.to <= Horizon(q.rule) * SECONDS_PER_DAY ==> Complete(q, out)
    ensures WeekRule(q.rule) ==> forall t :: t in out ==> t < Horizon(q.rule) * SECONDS_PER_DAY
    ensures stopped || |out| >= maxInstances || forall p: nat :: First(q) <= p < First(q) + maxPeriods ==> !Exit(q, p)
    ensures |out| < maxInstances ==> Enough(q, maxPeriods, out)
  {
    hide Enough, Candidates, Covers, OnlyWanted, NoGaps, Exit, Horizon, FirstPeriod, PeriodStart;
    out, stopped := [], false;
    var count := 0;
    var first := FirstPeriod(q.rule, q.base, q.from - q.dur);
    var p := first;
    StartCovered(q);
    assert OnlyWanted(q, [], p, 0) by { NothingYet(q, p); }
    CountStarts(q);
    while p < first + maxPeriods && |out| < maxInstances
      invariant p >= first && Ascending(out)
      invariant Covers(q, out, p, 0) && OnlyWanted(q, out, p, 0)
      invariant q.rule.count > 0 ==> count == Before(q, p)
      invariant forall k: nat :: first <= k < p ==> !Exit(q, k)
      invariant WeekRule(q.rule) ==> forall t :: t in out ==> t < Horizon(q.rule) * SECONDS_PER_DAY
      decreases first + maxPeriods - p
    {
      WantedInWindow(q, out, p, 0);
      InitialSegment(q, out, p, 0);
      var pstart, cands := PeriodCandidates(q.rule, q.base, p);
      if YearOf(pstart) > 9999 || pstart * SECONDS_PER_DAY > q.to + 8 * SECONDS_PER_DAY {
        ExitIs(q, p, pstart);
        if q.to <= Horizon(q.rule) * SECONDS_PER_DAY {
          CompleteAtExit(q, out, p);
        }
        EnoughWhen(q, maxPeriods, out, true);
        return out, true;
      }
      ExitIs(q, p, pstart);
      if WeekRule(q.rule) {
        BelowHorizon(q, p);
      }
      var stop;
      out, count, stop := ScanPeriod(q, p, cands, out, count);
      if stop {
        ghost var i: nat :| Stop(q, p, i) && Covers(q, out, p, i) && OnlyWanted(q, out, p, i);
        CompleteAtStop(q, out, p, i);
        WantedInWindow(q, out, p, i);
        InitialSegment(q, out, p, i);
        EnoughWhen(q, maxPeriods, out, true);
        return out, true;
      }
      p := p + 1;
    }
    WantedInWindow(q, out, p, 0);
    InitialSegment(q, out, p, 0);
    if |out| < maxInstances {
      EnoughWhen(q, maxPeriods, out, false);
    }
  }

  lemma NothingYet(q: Query, p: nat)
    ensures OnlyWanted(q, [], p, 0)
  {}

  lemma CountStarts(q: Query)
    requires ValidRule(q.rule)
    ensures q.rule.count > 0 ==> First(q) == 0
  {}

  lemma ExitIs(q: Query, p: nat, start: int)
    requires start == PeriodStart(q.rule, q.base, p)
    ensures Exit(q, p) <==> YearOf(start) > 9999 || start * SECONDS_PER_DAY > q.to + 8 * SECONDS_PER_DAY
  {}

  // ---------- the horizon is sharp ----------

  lemma BelowHorizon(q: Query, p: nat)
    requires ValidRule(q.rule) && WeekRule(q.rule) && !Exit(q, p)
    ensures forall t :: t in Cand(q, p) ==> t < Horizon(q.rule) * SECONDS_PER_DAY
  {
    var r := q.rule;
    var y := YearOf(DayOf(q.base)) + p * r.interval;
    var start := PeriodStart(r, q.base, p);
    assert start == YearStart(y);
    NextYear(y);
    YearOfIs(start, y);
    WeekYearMono(y + 1, 10000, r.wkst);
    CandidatesIn(r, q.base, p);
    hide Candidates, WeekYearStart, YearStart, YearOf;
    forall t | t in Cand(q, p) ensures t < Horizon(r) * SECONDS_PER_DAY {
      assert DayOf(t) + 1 <= Horizon(r);
      assert t < (DayOf(t) + 1) * SECONDS_PER_DAY;
    }
  }

  /** The first day of week 1 of every year, weeks starting on wkst. */
  function FirstWeekRule(wkst: int): Rule {
    Rule(Yearly, 1, 0, None, wkst, [], [], [], [], [1], [])
  }

  /** That rule from year 9999 on, asked for in a window that opens where week 1
      of year 10000 begins. */
  function LastWeekQuery(wkst: int, to: int): Query {
    Query(FirstWeekRule(wkst), WeekYearStart(9999, wkst) * SECONDS_PER_DAY, 0, WeekYearStart(10000, wkst) * SECONDS_PER_DAY, to)
  }

  lemma FirstWeekEffective(wkst: int, base: int)
    ensures Effective(FirstWeekRule(wkst), base) == FirstWeekRule(wkst).(byDay := [ByDay(0, Weekday(DayOf(base)))])
  {}

  lemma FirstWeekMatches(wkst: int, d: int)
    requires Weekday(d) == wkst
    ensures DayMatches(FirstWeekRule(wkst).(byDay := [ByDay(0, wkst)]), d)
  {
    hide Weekday, YearOf, MonthOf, DayOfMonth, YearDay, YearLength, DaysInMonth;
    var eff := FirstWeekRule(wkst).(byDay := [ByDay(0, wkst)]);
    assert eff.byDay[0] == ByDay(0, Weekday(d));
    assert MatchesByDay(eff, d);
  }

  lemma WeekPeriodDays(eff: Rule, base: int, p: nat, y: int)
    requires WeekRule(eff) && y == YearOf(DayOf(base)) + p * eff.interval
    ensures PeriodDays(eff, base, p) == WeekDays(WeekYearStart(y, eff.wkst), WeeksIn(y, eff.wkst), eff.byWeekNo)
  {
    hide WeekYearStart, YearOf, YearStart, WeeksIn, DayOf, MonthLength, MonthIndex, MonthStart, WeekStart, WeekDays, Range, YearLength;
  }

  lemma FirstWeekDays(eff: Rule, base: int, p: nat, y: int)
    requires eff.freq == Yearly && eff.interval == 1 && eff.byWeekNo == [1] && 0 <= eff.wkst < 7 && y == YearOf(DayOf(base)) + p
    ensures WeekYearStart(y, eff.wkst) in PeriodDays(eff, base, p)
  {
    hide WeekYearStart, YearOf, WeeksIn, DayOf, PeriodDays, WeekDays;
    WeekYearTiles(y, eff.wkst);
    WeekPeriodDays(eff, base, p, y);
    WeekOneDay(WeekYearStart(y, eff.wkst), WeeksIn(y, eff.wkst));
  }

  lemma WeekOneDay(start: int, total: int)
    requires total >= 1
    ensures start in WeekDays(start, total, [1])
  {
    var week := Range(start, 7);
    assert week[0] == start;
    assert WeekDays(start, total, [1]) == week + WeekDays(start, total, [1][1..]);
  }

  lemma LastWeekDay(wkst: int, base: int, p: nat)
    requires 0 <= wkst < 7 && Weekday(DayOf(base)) == wkst && YearOf(DayOf(base)) + p == 10000
    ensures WeekYearStart(10000, wkst) in Selected(FirstWeekRule(wkst), base, p)
  {
    var r, d := FirstWeekRule(wkst), WeekYearStart(10000, wkst);
    WeekYearTiles(10000, wkst);
    FirstWeekEffective(wkst, base);
    FirstWeekMatches(wkst, d);
    FirstWeekDays(Effective(r, base), base, p, 10000);
    SelectedIs(r, base, p);
    hide WeekYearStart, YearOf, Weekday, Effective, DayMatches, PeriodDays, Selected;
  }

  /** The base of the query: midnight of the first day of week 1 of year 9999. */
  lemma LastWeekBase(wkst: int)
    requires 0 <= wkst < 7
    ensures var base := LastWeekQuery(wkst, 0).base;
            && DayOf(base) == WeekYearStart(9999, wkst) && SecondOf(base) == 0
            && Weekday(DayOf(base)) == wkst && YearOf(DayOf(base)) < 10000
            && base < WeekYearStart(10000, wkst) * SECONDS_PER_DAY
  {
    var b := WeekYearStart(9999, wkst);
    WeekYearTiles(9999, wkst);
    NextYear(9999);
    hide WeekYearStart, Weekday, YearStart;
    assert b * SECONDS_PER_DAY / SECONDS_PER_DAY == b;
    var y := YearOf(b);
    if y >= 10000 {
      YearMono(10000, y);
    }
  }

  /** A selected day at the base's time of day is an instance. */
  lemma SelectedIsCandidate(r: Rule, base: int, p: nat, d: int)
    requires r.bySetPos == [] && d in Selected(r, base, p) && d * SECONDS_PER_DAY + SecondOf(base) >= base
    ensures d * SECONDS_PER_DAY + SecondOf(base) in Candidates(r, base, p)
  {
    SelectedIs(r, base, p);
    FromBaseIs(Selected(r, base, p), base);
    InstantParts(d, base);
    hide Selected, FromBase, DayOf, SecondOf, Effective, DayMatches, PeriodDays;
  }

  lemma LastWeekWanted(wkst: int, to: int)
    requires 0 <= wkst < 7 && to > WeekYearStart(10000, wkst) * SECONDS_PER_DAY
    ensures InWindow(LastWeekQuery(wkst, to), WeekYearStart(10000, wkst) * SECONDS_PER_DAY)
  {
    hide WeekYearStart, YearOf, Weekday, Selected, DayOf, SecondOf, Candidates, Before;
    var q, d := LastWeekQuery(wkst, to), WeekYearStart(10000, wkst);
    var t := d * SECONDS_PER_DAY;
    LastWeekBase(wkst);
    assert q.base == LastWeekQuery(wkst, 0).base;
    var p := 10000 - YearOf(DayOf(q.base));
    LastWeekDay(wkst, q.base, p);
    SelectedIsCandidate(q.rule, q.base, p, d);
    assert t in Cand(q, p);
    var i :| 0 <= i < |Cand(q, p)| && Cand(q, p)[i] == t;
    assert Wanted(q, p, i);
  }

  /** A window that reaches past the horizon misses an instance: the condition on
      the window end cannot be weakened, whatever weekday weeks start on. */
  lemma HorizonIsSharp(wkst: int, to: int)
    requires 0 <= wkst < 7 && to > WeekYearStart(10000, wkst) * SECONDS_PER_DAY
    ensures var q := LastWeekQuery(wkst, to);
            && ValidRule(q.rule) && WeekRule(q.rule)
            && forall out: seq<int> :: (forall t :: t in out ==> t < Horizon(q.rule) * SECONDS_PER_DAY) ==> !Complete(q, out)
  {
    var q := LastWeekQuery(wkst, to);
    var t := WeekYearStart(10000, wkst) * SECONDS_PER_DAY;
    LastWeekWanted(wkst, to);
    hide WeekYearStart, InWindow;
    forall out: seq<int> | forall u :: u in out ==> u < Horizon(q.rule) * SECONDS_PER_DAY ensures !Complete(q, out) {
      assert t !in out;
    }
  }

  /** Weeks that start on a Wednesday, Thursday or Friday: the window that ends with year
      9999 already misses an instance. */
  lemma MissedIn9999(wkst: int)
    requires 3 <= wkst <= 5
    ensures var q := LastWeekQuery(wkst, YearStart(10000) * SECONDS_PER_DAY);
            forall out: seq<int> :: (forall t :: t in out ==> t < Horizon(q.rule) * SECONDS_PER_DAY) ==> !Complete(q, out)
  {
    LastWeekYear(wkst);
    HorizonIsSharp(wkst, YearStart(10000) * SECONDS_PER_DAY);
  }

  // ---------- the cap and the length of a time.Duration ----------

  const MAX_PERIODS := 100000

  /** Every day from the base on, asked for in a window of one day. */
  function DailyQuery(base: int, from: int): Query {
    Query(Rule(Daily, 1, 0, None, 1, [], [], [], [], [], []), base, 0, from, from + SECONDS_PER_DAY)
  }

  lemma DailyCandidate(base: int, from: int, p: nat)
    ensures base + p * SECONDS_PER_DAY in Cand(DailyQuery(base, from), p)
  {
    var r := DailyQuery(base, from).rule;
    var d := DayOf(base) + p;
    assert PeriodDays(Effective(r, base), base, p) == [d];
    assert d in PeriodDays(Effective(r, base), base, p);
    SelectedIs(r, base, p);
    assert base == DayOf(base) * SECONDS_PER_DAY + SecondOf(base);
    hide Selected, Candidates;
    SelectedIsCandidate(r, base, p, d);
  }

  lemma SaturatedFirst(base: int, from: int)
    requires from - base > MAX_DURATION
    ensures First(DailyQuery(base, from)) == 106749
  {}

  lemma NextDay(base: int, from: int) returns (n: nat)
    requires from >= base
    ensures from <= base + n * SECONDS_PER_DAY < from + SECONDS_PER_DAY
  {
    n := (from - base + SECONDS_PER_DAY - 1) / SECONDS_PER_DAY;
  }

  lemma NextInstance(base: int, from: int) returns (t: int)
    requires from >= base
    ensures InWindow(DailyQuery(base, from), t)
  {
    hide Candidates, Before;
    var q := DailyQuery(base, from);
    var n := NextDay(base, from);
    t := base + n * SECONDS_PER_DAY;
    DailyCandidate(base, from, n);
    var i :| 0 <= i < |Cand(q, n)| && Cand(q, n)[i] == t;
    assert Wanted(q, n, i);
  }

  /** An event that has repeated daily for more than about 566 years: the days skipped are
      those of the longest time.Duration, all periods the loop may look at lie before the
      window, and the instance in it is missed. */
  lemma SaturatedMisses(base: int, from: int)
    requires base >= 0 && base + (106749 + MAX_PERIODS) * SECONDS_PER_DAY <= from < YearStart(9999) * SECONDS_PER_DAY
    ensures var q := DailyQuery(base, from);
            && First(q) == 106749 && (exists t :: InWindow(q, t))
            && (forall p: nat :: p < First(q) + MAX_PERIODS ==> !Exit(q, p))
            && (forall p: nat, i: nat :: p < First(q) + MAX_PERIODS ==> !Wanted(q, p, i))
  {
    var q := DailyQuery(base, from);
    assert ValidRule(q.rule);
    hide First, Exit, Wanted, InWindow, YearStart, DailyQuery;
    SaturatedFirst(base, from);
    var t := NextInstance(base, from);
    forall p: nat | p < First(q) + MAX_PERIODS ensures !Exit(q, p) {
      NotYet(base, from, p, 0);
    }
    forall p: nat, i: nat | p < First(q) + MAX_PERIODS ensures !Wanted(q, p, i) {
      NotYet(base, from, p, i);
    }
  }

  lemma NotYet(base: int, from: int, p: nat, i: nat)
    requires base >= 0 && p < 106749 + MAX_PERIODS
    requires base + (106749 + MAX_PERIODS) * SECONDS_PER_DAY <= from < YearStart(9999) * SECONDS_PER_DAY
    ensures var q := DailyQuery(base, from); !Exit(q, p) && !Wanted(q, p, i)
  {
    var q := DailyQuery(base, from);
    CandidatesIn(q.rule, base, p);
    hide Candidates, Before, YearStart, YearOf;
    var d := DayOf(base) + p;
    assert PeriodStart(q.rule, base, p) == d;
    assert d * SECONDS_PER_DAY <= from;
    if YearOf(d) > 9999 {
      YearMono(9999, YearOf(d));
    }
    if i < |Cand(q, p)| {
      assert Cand(q, p)[i] in Cand(q, p);
      assert DayOf(Cand(q, p)[i]) < d + 1;
    }
  }
}

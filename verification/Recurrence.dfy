/** Recurrence rules (section 3.3.10 of RFC 5545): the days and instances of one
    recurrence period. Instants are seconds in UTC, day number times 86400 plus
    the second of the day. */
module Recurrence {
  import opened Text
  import opened Civil
  import opened Sequences

  datatype Freq = Daily | Weekly | Monthly | Yearly

  /** ord 0: every such weekday; otherwise the ord-th of the month or year. */
  datatype ByDay = ByDay(ord: int, wd: int)

  datatype Rule = Rule(
    freq: Freq, interval: int, count: nat, until: Option<int>, wkst: int,
    byDay: seq<ByDay>, byMonthDay: seq<int>, byMonth: seq<int>, byYearDay: seq<int>, byWeekNo: seq<int>, bySetPos: seq<int>)

  /** What the parser guarantees of a rule it accepts. */
  predicate ValidRule(r: Rule) {
    r.interval >= 1 && 0 <= r.wkst < 7
  }

  function DayOf(t: int): int {
    t / SECONDS_PER_DAY
  }

  /** The rule with the parts that RFC 5545 derives from the start filled in. */
  function Effective(r: Rule, base: int): Rule {
    var d := DayOf(base);
    match r.freq
    case Daily => r
    case Weekly => if r.byDay == [] then r.(byDay := [ByDay(0, Weekday(d))]) else r
    case Monthly => if r.byMonthDay == [] && r.byDay == [] then r.(byMonthDay := [DayOfMonth(d)]) else r
    case Yearly =>
      if r.byYearDay != [] || r.byMonthDay != [] || r.byDay != [] then r
      else if r.byWeekNo != [] then r.(byDay := [ByDay(0, Weekday(d))])
      else r.(byMonthDay := [DayOfMonth(d)], byMonth := if r.byMonth == [] then [MonthOf(d)] else r.byMonth)
  }

  // ---------- the days of a period ----------

  function Range(lo: int, n: nat): seq<int> {
    seq(n, i => lo + i)
  }

  function WeekDays(start: int, total: int, weeks: seq<int>): seq<int> {
    if weeks == [] then []
    else
      var n := if weeks[0] < 0 then total + weeks[0] + 1 else weeks[0];
      (if n < 1 || n > total then [] else Range(start + 7 * (n - 1), 7)) + WeekDays(start, total, weeks[1..])
  }

  function PeriodStart(r: Rule, base: int, p: nat): int {
    var b, step := DayOf(base), p * r.interval;
    match r.freq
    case Daily => b + step
    case Weekly => WeekStart(b, r.wkst) + 7 * step
    case Monthly => MonthStart(MonthIndex(b) + step)
    case Yearly => YearStart(YearOf(b) + step)
  }

  function PeriodDays(r: Rule, base: int, p: nat): seq<int> {
    var b, step, first := DayOf(base), p * r.interval, PeriodStart(r, base, p);
    match r.freq
    case Daily => [first]
    case Weekly => Range(first, 7)
    case Monthly => NextMonth(MonthIndex(b) + step); Range(first, MonthLength(MonthIndex(b) + step))
    case Yearly =>
      var y := YearOf(b) + step;
      if r.byWeekNo != [] then WeekDays(WeekYearStart(y, r.wkst), WeeksIn(y, r.wkst), r.byWeekNo)
      else Range(first, YearLength(y))
  }

  // ---------- the BY limits on one day ----------

  predicate MatchesByDay(r: Rule, d: int) {
    var monthScope := r.freq == Monthly || (r.freq == Yearly && r.byMonth != []);
    var pos, fromEnd :=
      if monthScope then (DayOfMonth(d) - 1) / 7 + 1 else (YearDay(d) - 1) / 7 + 1,
      if monthScope then -((DaysInMonth(YearOf(d), MonthOf(d)) - DayOfMonth(d)) / 7 + 1)
      else -((YearLength(YearOf(d)) - YearDay(d)) / 7 + 1);
    exists i :: 0 <= i < |r.byDay| && r.byDay[i].wd == Weekday(d)
             && (r.byDay[i].ord == 0 || r.byDay[i].ord == pos || r.byDay[i].ord == fromEnd)
  }

  predicate DayMatches(r: Rule, d: int) {
    var dim := DaysInMonth(YearOf(d), MonthOf(d));
    && (r.byMonth == [] || MonthOf(d) in r.byMonth)
    && (r.byMonthDay == [] || DayOfMonth(d) in r.byMonthDay || DayOfMonth(d) - dim - 1 in r.byMonthDay)
    && (r.byYearDay == [] || YearDay(d) in r.byYearDay || YearDay(d) - YearLength(YearOf(d)) - 1 in r.byYearDay)
    && (r.byDay == [] || MatchesByDay(r, d))
  }

  // ---------- sorting ----------

  function Insert(x: int, s: seq<int>): seq<int> {
    if s == [] || x <= s[0] then [x] + s else [s[0]] + Insert(x, s[1..])
  }

  /** sort.Slice on instants. */
  function Sort(s: seq<int>): seq<int> {
    if s == [] then [] else Insert(s[0], Sort(s[1..]))
  }

  predicate Sorted(s: seq<int>) {
    forall i, j :: 0 <= i < j < |s| ==> s[i] <= s[j]
  }

  lemma {:induction false} InsertSorts(x: int, s: seq<int>)
    requires Sorted(s)
    ensures Sorted(Insert(x, s)) && forall y :: y in Insert(x, s) <==> y == x || y in s
  {
    if s != [] && x > s[0] {
      InsertSorts(x, s[1..]);
      var t := Insert(x, s[1..]);
      assert forall y :: y in t ==> s[0] <= y by {
        assert forall y :: y in s[1..] ==> s[0] <= y;
      }
      assert forall j :: 0 <= j < |t| ==> t[j] in t;
    }
  }

  lemma {:induction false} SortSorts(s: seq<int>)
    ensures Sorted(Sort(s)) && SameElements(Sort(s), s)
  {
    if s != [] {
      SortSorts(s[1..]);
      InsertSorts(s[0], Sort(s[1..]));
      assert forall y :: y in s <==> y == s[0] || y in s[1..];
    }
  }

  function Dedupe(s: seq<int>): seq<int> {
    if |s| <= 1 then s
    else
      var n := |s| - 1;
      Dedupe(s[..n]) + if s[n] != s[n - 1] then [s[n]] else []
  }

  lemma {:induction false} DedupeAscends(s: seq<int>)
    requires Sorted(s)
    ensures Ascending(Dedupe(s)) && SameElements(Dedupe(s), s)
    ensures s != [] ==> Dedupe(s) != [] && Dedupe(s)[|Dedupe(s)| - 1] == s[|s| - 1]
  {
    if |s| > 1 {
      var n := |s| - 1;
      DedupeAscends(s[..n]);
      assert s == s[..n] + [s[n]];
      assert s[n - 1] in s[..n];
    }
  }

  /** The source removes duplicates within the slice it is reading: the write
      index never passes the read index, and the one slot it reads behind still
      holds its own value. */
  method DedupeInPlace(a: array<int>) returns (n: nat)
    modifies a
    ensures n <= a.Length && a[..n] == Dedupe(old(a[..]))
  {
    n := 0;
    ghost var all := a[..];
    for i := 0 to a.Length
      invariant n <= i
      invariant a[..n] == Dedupe(all[..i])
      invariant forall j :: 0 <= j < a.Length && i - 1 <= j ==> a[j] == all[j]
    {
      var d := a[i];
      assert all[..i + 1][..i] == all[..i];
      if i == 0 || d != a[i - 1] {
        a[n] := d;
        n := n + 1;
      }
    }
    assert all[..a.Length] == all;
  }

  // ---------- BYSETPOS ----------

  function PositionIndex(sp: int, n: int): int {
    if sp < 0 then n + sp else sp - 1
  }

  predicate Chosen(setPos: seq<int>, n: int, i: int) {
    exists k :: 0 <= k < |setPos| && PositionIndex(setPos[k], n) == i
  }

  /** The elements at the chosen positions, in order. */
  function Pick(setPos: seq<int>, sel: seq<int>, k: nat): (r: seq<int>)
    requires k <= |sel|
  {
    if k == 0 then []
    else Pick(setPos, sel, k - 1) + if Chosen(setPos, |sel|, k - 1) then [sel[k - 1]] else []
  }

  lemma {:induction false} PickIs(setPos: seq<int>, sel: seq<int>, k: nat)
    requires k <= |sel| && Ascending(sel)
    ensures Ascending(Pick(setPos, sel, k))
    ensures forall x :: x in Pick(setPos, sel, k) <==> exists i :: 0 <= i < k && sel[i] == x && Chosen(setPos, |sel|, i)
  {
    hide Chosen;
    if k > 0 {
      PickIs(setPos, sel, k - 1);
      var init := Pick(setPos, sel, k - 1);
      forall j | 0 <= j < |init| ensures init[j] < sel[k - 1] {
        assert init[j] in init;
      }
    }
  }

  /** Taking the positions in the order the rule lists them, each once, and then
      sorting, selects the chosen positions in order. */
  method PickPositions(setPos: seq<int>, sel: seq<int>) returns (r: seq<int>)
    requires Ascending(sel)
    ensures r == Pick(setPos, sel, |sel|)
  {
    var picked: seq<int> := [];
    var used: set<int> := {};
    for k := 0 to |setPos|
      invariant forall i :: i in used <==> 0 <= i < |sel| && Chosen(setPos[..k], |sel|, i)
      invariant forall x :: x in picked <==> exists i :: i in used && 0 <= i < |sel| && sel[i] == x
      invariant Distinct(picked)
    {
      var i := PositionIndex(setPos[k], |sel|);
      ChosenSnoc(setPos, k, |sel|);
      if 0 <= i < |sel| && i !in used {
        assert forall j :: 0 <= j < |sel| && sel[j] == sel[i] ==> j == i;
        assert sel[i] !in picked;
        assert forall j :: 0 <= j < |picked| ==> picked[j] in picked;
        used := used + {i};
        picked := picked + [sel[i]];
      }
    }
    assert setPos[..|setPos|] == setPos;
    r := Sort(picked);
    SortSorts(picked);
    SortDistinct(picked);
    PickIs(setPos, sel, |sel|);
    AscendingUnique(r, Pick(setPos, sel, |sel|));
  }

  lemma ChosenSnoc(setPos: seq<int>, k: nat, n: int)
    requires k < |setPos|
    ensures forall i :: Chosen(setPos[..k + 1], n, i) <==> Chosen(setPos[..k], n, i) || PositionIndex(setPos[k], n) == i
  {
    hide PositionIndex;
    forall i ensures Chosen(setPos[..k + 1], n, i) <==> Chosen(setPos[..k], n, i) || PositionIndex(setPos[k], n) == i {
      if Chosen(setPos[..k], n, i) {
        var j :| 0 <= j < k && PositionIndex(setPos[..k][j], n) == i;
        assert setPos[..k + 1][j] == setPos[..k][j];
      } else if PositionIndex(setPos[k], n) == i {
        assert setPos[..k + 1][k] == setPos[k];
      } else {
        assert forall j :: 0 <= j < k ==> setPos[..k][j] == setPos[..k + 1][j];
      }
    }
  }

  lemma {:induction false} InsertDistinct(x: int, s: seq<int>)
    requires Ascending(s) && x !in s
    ensures Ascending(Insert(x, s))
  {
    assert Sorted(s);
    InsertSorts(x, s);
    if s != [] && x > s[0] {
      InsertDistinct(x, s[1..]);
      InsertSorts(x, s[1..]);
      var t := Insert(x, s[1..]);
      assert forall j :: 0 <= j < |t| ==> t[j] in t;
    }
  }

  lemma {:induction false} SortDistinct(s: seq<int>)
    requires Distinct(s)
    ensures Ascending(Sort(s))
  {
    if s != [] {
      SortDistinct(s[1..]);
      SortSorts(s[1..]);
      assert s[0] !in s[1..];
      InsertDistinct(s[0], Sort(s[1..]));
    }
  }
}

/** What an expansion is asked for, on the instances of a rule in order. */
module RecurrenceInstances {
  import opened Civil
  import opened Sequences
  import opened Recurrence
  import opened RecurrencePeriods
  import opened RecurrenceMeaning
  import opened RecurrenceExpansion

  /** The instances of the periods before p, in order. */
  function InstancesBefore(q: Query, p: nat): seq<int> {
    if p == 0 then [] else InstancesBefore(q, p - 1) + Cand(q, p - 1)
  }

  lemma {:induction false} BeforeSize(q: Query, p: nat)
    ensures |InstancesBefore(q, p)| == Before(q, p)
  {
    hide Candidates;
    if p > 0 {
      BeforeSize(q, p - 1);
    }
  }

  lemma {:induction false} PlaceOf(q: Query, p: nat, n: nat, i: nat)
    requires p < n && i < |Cand(q, p)|
    ensures Before(q, p) + i < |InstancesBefore(q, n)| && InstancesBefore(q, n)[Before(q, p) + i] == Cand(q, p)[i]
    decreases n
  {
    hide Candidates;
    BeforeSize(q, n - 1);
    if p < n - 1 {
      PlaceOf(q, p, n - 1, i);
    }
  }

  lemma {:induction false} PeriodOf(q: Query, n: nat, k: nat) returns (p: nat, i: nat)
    requires k < |InstancesBefore(q, n)|
    ensures p < n && i < |Cand(q, p)| && k == Before(q, p) + i && Cand(q, p)[i] == InstancesBefore(q, n)[k]
    decreases n
  {
    hide Candidates;
    BeforeSize(q, n - 1);
    if k < |InstancesBefore(q, n - 1)| {
      p, i := PeriodOf(q, n - 1, k);
    } else {
      p, i := n - 1, k - |InstancesBefore(q, n - 1)|;
    }
  }

  lemma AscendingConcat(a: seq<int>, b: seq<int>)
    requires Ascending(a) && Ascending(b) && forall k, j :: 0 <= k < |a| && 0 <= j < |b| ==> a[k] < b[j]
    ensures Ascending(a + b)
  {}

  lemma CandAscends(q: Query, p: nat)
    requires ValidRule(q.rule)
    ensures Ascending(Cand(q, p))
  {
    CandidatesIn(q.rule, q.base, p);
  }

  lemma {:induction false} InstancesAscend(q: Query, p: nat)
    requires ValidRule(q.rule)
    ensures Ascending(InstancesBefore(q, p))
  {
    hide Cand, Ascending;
    if p == 0 {
      assert Ascending([]) by { NoneAscends(); }
    } else {
      InstancesAscend(q, p - 1);
      CandAscends(q, p - 1);
      var a, b := InstancesBefore(q, p - 1), Cand(q, p - 1);
      forall k, j | 0 <= k < |a| && 0 <= j < |b| ensures a[k] < b[j] {
        var p', i' := PeriodOf(q, p - 1, k);
        EnumerationAscends(q, p', i', p - 1, j);
      }
      AscendingConcat(a, b);
    }
  }

  lemma NoneAscends()
    ensures Ascending([])
  {}

  /** t is the instance with this number, counted from 0. */
  ghost predicate IsNumber(q: Query, t: int, k: nat) {
    exists n: nat :: k < |InstancesBefore(q, n)| && InstancesBefore(q, n)[k] == t
  }

  /** The instances asked for: those at or before UNTIL, among the first COUNT, and sharing
      time with the window. */
  lemma InWindowIff(q: Query, t: int)
    ensures InWindow(q, t) <==>
            && (exists k: nat :: IsNumber(q, t, k) && (q.rule.count > 0 ==> k < q.rule.count))
            && (q.rule.until.Some? ==> t <= q.rule.until.value)
            && IntervalIntersects(t, t + q.dur, q.from, q.to)
  {
    hide Candidates, IntervalIntersects, Before, InstancesBefore;
    if InWindow(q, t) {
      var p: nat, i: nat :| Wanted(q, p, i) && Cand(q, p)[i] == t;
      PlaceOf(q, p, p + 1, i);
      assert IsNumber(q, t, Before(q, p) + i);
    }
    if k: nat :| IsNumber(q, t, k) && (q.rule.count > 0 ==> k < q.rule.count) {
      var n: nat :| k < |InstancesBefore(q, n)| && InstancesBefore(q, n)[k] == t;
      var p, i := PeriodOf(q, n, k);
      assert Cand(q, p)[i] == t;
      if (q.rule.until.Some? ==> t <= q.rule.until.value) && IntervalIntersects(t, t + q.dur, q.from, q.to) {
        assert Wanted(q, p, i);
      }
    }
  }

  /** The numbers of instances: what a rule means on the days of some period. */
  lemma IsNumberIff(q: Query, t: int)
    requires ValidRule(q.rule)
    ensures (exists k: nat :: IsNumber(q, t, k)) <==>
            exists p: nat :: t in Candidates(q.rule, q.base, p)
  {
    hide Candidates, Before, InstancesBefore;
    if k: nat :| IsNumber(q, t, k) {
      var n: nat :| k < |InstancesBefore(q, n)| && InstancesBefore(q, n)[k] == t;
      var p, i := PeriodOf(q, n, k);
      assert t in Candidates(q.rule, q.base, p);
    }
    if p: nat :| t in Candidates(q.rule, q.base, p) {
      var i :| 0 <= i < |Cand(q, p)| && Cand(q, p)[i] == t;
      PlaceOf(q, p, p + 1, i);
      assert IsNumber(q, t, Before(q, p) + i);
    }
  }
}

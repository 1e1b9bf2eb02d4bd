/** The policy cache over whole runs of calls with an arbitrary network. */
module MtaStsCache {
  import opened Text
  import opened MtaSts
  import TagList

  const NEGATIVE_AGE := 300
  const DEFAULT_RECHECK := 3600

  /** A cached policy, or a cached absence of one. */
  datatype Entry = Entry(policy: Option<Policy>, id: string, fetchedAt: int, recheckAt: int, expiresAt: int)

  /** One call: the time, the TXT answers to a recheck and to a fetch, and the body
      of the policy file if HTTPS delivers one. */
  datatype Net = Net(now: int, recheck: Texts, texts: Texts, file: Option<string>)

  datatype Answer = Error | Answer(policy: Option<Policy>)

  function Interval(recheck: int): int {
    if recheck > 0 then recheck else DEFAULT_RECHECK
  }

  // ---------- one call ----------

  /** fetchPolicyWithID: an error, no record, or a policy with the record's id. */
  datatype Fetched = FetchFailed | NoPolicy | Fetched(policy: Policy, id: string)

  function Fetch(net: Net): Fetched {
    match LookupOf(net.texts)
    case Failed => FetchFailed
    case NoRecord => NoPolicy
    case Id(id) =>
      var policy := if net.file == None then None else ParsePolicy(net.file.value);
      if policy == None then FetchFailed else Fetched(policy.value, id)
  }

  predicate Valid(e: Option<Entry>, now: int) {
    e.Some? && now < e.value.expiresAt
  }

  /** The cached entry is served without a look at the network. */
  predicate Fresh(e: Entry, now: int) {
    e.policy == None || e.id == "" || now < e.recheckAt
  }

  /** The recheck saw a different id. */
  predicate IdChanged(e: Entry, net: Net) {
    LookupOf(net.recheck).Id? && LookupOf(net.recheck).id != e.id
  }

  function Stored(policy: Policy, id: string, now: int, interval: int): Entry {
    Entry(Some(policy), id, now, now + interval, now + policy.maxAge)
  }

  function Absence(now: int): Entry {
    Entry(None, "", now, 0, now + NEGATIVE_AGE)
  }

  function AfterFetch(e: Option<Entry>, net: Net, interval: int): (Answer, Option<Entry>) {
    var keeps := Valid(e, net.now) && e.value.policy.Some?;
    match Fetch(net)
    case Fetched(policy, id) => (Answer(Some(policy)), Some(Stored(policy, id, net.now, interval)))
    case FetchFailed => if keeps then (Answer(e.value.policy), e) else (Error, e)
    case NoPolicy =>
      if keeps then (Answer(e.value.policy), e)
      else (Answer(None), Some(Absence(net.now)))
  }

  /** GetPolicy on one domain: its answer and the entry it leaves. */
  function Get(e: Option<Entry>, net: Net, interval: int): (Answer, Option<Entry>) {
    if Valid(e, net.now) && Fresh(e.value, net.now) then (Answer(e.value.policy), e)
    else if Valid(e, net.now) && !IdChanged(e.value, net) then
      (Answer(e.value.policy), Some(e.value.(recheckAt := net.now + interval)))
    else AfterFetch(e, net, interval)
  }

  // ---------- the validator object ----------

  class Validator {
    const recheck: int
    var cache: map<string, Entry>

    constructor (recheck: int)
      ensures this.recheck == recheck && cache == map[]
    {
      this.recheck := recheck;
      cache := map[];
    }

    function EntryOf(domain: string): Option<Entry>
      reads this
    {
      if domain in cache then Some(cache[domain]) else None
    }

    method GetPolicy(domain: string, net: Net) returns (answer: Answer)
      modifies this
      ensures (answer, EntryOf(domain)) == Get(old(EntryOf(domain)), net, Interval(recheck))
      ensures forall d :: d != domain ==> EntryOf(d) == old(EntryOf(d))
    {
      hide LookupOf, ParsePolicy;
      var cached := EntryOf(domain);
      var valid := cached.Some? && net.now < cached.value.expiresAt;
      if valid {
        var e := cached.value;
        if e.policy == None || e.id == "" || net.now < e.recheckAt {
          return Answer(e.policy);
        }
        var rec := LookupMTASTSRecord(net.recheck);
        if !rec.Id? || rec.id == e.id {
          cache := cache[domain := e.(recheckAt := net.now + Interval(recheck))];
          return Answer(e.policy);
        }
      }
      var fetched := FetchPolicyWithID(net);
      match fetched {
        case FetchFailed =>
          answer := if valid && cached.value.policy.Some? then Answer(cached.value.policy) else Error;
        case NoPolicy =>
          if valid && cached.value.policy.Some? {
            return Answer(cached.value.policy);
          }
          cache := cache[domain := Absence(net.now)];
          answer := Answer(None);
        case Fetched(policy, id) =>
          cache := cache[domain := Stored(policy, id, net.now, Interval(recheck))];
          answer := Answer(Some(policy));
      }
    }
  }

  method FetchPolicyWithID(net: Net) returns (fetched: Fetched)
    ensures fetched == Fetch(net)
  {
    hide LookupOf, ParsePolicy;
    var record := LookupMTASTSRecord(net.texts);
    if record.Failed? {
      return FetchFailed;
    }
    if record.NoRecord? {
      return NoPolicy;
    }
    if net.file == None {
      return FetchFailed;
    }
    var policy := ParseMTASTSPolicy(net.file.value);
    fetched := if policy == None then FetchFailed else Fetched(policy.value, record.id);
  }

  // ---------- what one call keeps ----------

  predicate HasPolicy(e: Option<Entry>) {
    e.Some? && e.value.policy.Some?
  }

  /** A stored policy has a clamped life from the time it was fetched. */
  predicate Sound(e: Option<Entry>) {
    HasPolicy(e) ==>
      && MIN_AGE <= e.value.policy.value.maxAge <= MAX_AGE
      && e.value.expiresAt == e.value.fetchedAt + e.value.policy.value.maxAge
      && e.value.id != ""
  }

  lemma LookupId(answer: Texts)
    ensures LookupOf(answer).Id? ==> LookupOf(answer).id != ""
  {
    if answer.Found? {
      IdsNotEmpty(answer.texts);
    }
    hide Ids;
  }

  lemma GetSound(e: Option<Entry>, net: Net, interval: int)
    requires Sound(e)
    ensures Sound(Get(e, net, interval).1)
  {
    LookupId(net.texts);
    hide LookupOf, ParsePolicy;
  }

  /** The time of a recheck has come, the recheck sees another id, and the refetch succeeds. */
  predicate Refetches(e: Entry, net: Net) {
    e.id != "" && net.now >= e.recheckAt && IdChanged(e, net) && Fetch(net).Fetched?
  }

  /** The same policy under the same id, until the same time. */
  predicate Kept(e: Option<Entry>, after: Option<Entry>) {
    if e == None then after == None
    else after.Some? && after.value == e.value.(recheckAt := after.value.recheckAt)
  }

  /** A policy that is in force is answered, whatever DNS and HTTPS do. It is replaced if
      and only if it is refetched, and then the stored id changes if and only if the second
      lookup of the record gave another one than the policy was stored with. */
  lemma InForce(e: Option<Entry>, net: Net, interval: int)
    requires HasPolicy(e) && Valid(e, net.now)
    ensures var (answer, after) := Get(e, net, interval);
            && HasPolicy(after) && answer == Answer(after.value.policy)
            && (if Refetches(e.value, net) then after == Some(Stored(Fetch(net).policy, Fetch(net).id, net.now, interval))
                else Kept(e, after))
            && (after.value.policy != e.value.policy <==> Refetches(e.value, net) && Some(Fetch(net).policy) != e.value.policy)
            && (after.value.id != e.value.id <==> Refetches(e.value, net) && Fetch(net).id != e.value.id)
  {
    hide LookupOf, Fetch;
  }

  predicate GivesPolicy(answer: Answer) {
    answer.Answer? && answer.policy.Some?
  }

  /** Exactly when a domain with a stored policy gets a policy for an answer. */
  lemma AnswersIff(e: Option<Entry>, net: Net, interval: int)
    requires HasPolicy(e)
    ensures GivesPolicy(Get(e, net, interval).0) <==> Valid(e, net.now) || Fetch(net).Fetched?
  {
    hide LookupOf, Fetch;
  }

  // ---------- runs ----------

  /** The entry before call k of a run that starts with entry e. */
  function At(e: Option<Entry>, nets: seq<Net>, k: nat, interval: int): Option<Entry>
    requires k <= |nets|
  {
    if k == 0 then e else Get(At(e, nets, k - 1, interval), nets[k - 1], interval).1
  }

  predicate AnswersAt(e: Option<Entry>, nets: seq<Net>, k: nat, interval: int)
    requires k < |nets|
  {
    GivesPolicy(Get(At(e, nets, k, interval), nets[k], interval).0)
  }

  /** Time does not run backwards. */
  predicate Ordered(nets: seq<Net>) {
    forall i, j :: 0 <= i < j < |nets| ==> nets[i].now <= nets[j].now
  }

  /** In every run a stored policy has a clamped max_age, ends that long after its
      fetch, and has an id. */
  lemma {:induction false} RunSound(e: Option<Entry>, nets: seq<Net>, k: nat, interval: int)
    requires Sound(e) && k <= |nets|
    ensures Sound(At(e, nets, k, interval))
  {
    hide Sound, Get;
    if k > 0 {
      RunSound(e, nets, k - 1, interval);
      GetSound(At(e, nets, k - 1, interval), nets[k - 1], interval);
    }
  }

  /** The policy stored last before call k, also when an absence was cached since. */
  function LastStored(e: Option<Entry>, nets: seq<Net>, k: nat, interval: int): Option<Entry>
    requires k <= |nets|
  {
    var now := At(e, nets, k, interval);
    if HasPolicy(now) then now else if k == 0 then None else LastStored(e, nets, k - 1, interval)
  }

  /** The policy stored last has not ended when call k is made. */
  predicate InForceAt(e: Option<Entry>, nets: seq<Net>, k: nat, interval: int)
    requires k < |nets|
  {
    Valid(LastStored(e, nets, k, interval), nets[k].now)
  }

  predicate IsAbsence(e: Option<Entry>) {
    e.Some? && e.value.policy == None
  }

  /** An absence cached less than five minutes ago: call k asks nobody. */
  predicate AbsentAt(e: Option<Entry>, nets: seq<Net>, k: nat, interval: int)
    requires k < |nets|
  {
    IsAbsence(At(e, nets, k, interval)) && Valid(At(e, nets, k, interval), nets[k].now)
  }

  /** Call j finds no policy in force and no record, and caches that. */
  predicate CachesAbsence(e: Option<Entry>, nets: seq<Net>, j: nat, interval: int)
    requires j < |nets|
  {
    !InForceAt(e, nets, j, interval) && !AbsentAt(e, nets, j, interval) && Fetch(nets[j]) == NoPolicy
  }

  lemma AbsenceFrom(e: Option<Entry>, net: Net, interval: int)
    requires IsAbsence(Get(e, net, interval).1)
    ensures || (IsAbsence(e) && Get(e, net, interval).1 == e)
            || (!Valid(e, net.now) && Fetch(net) == NoPolicy && Get(e, net, interval).1 == Some(Absence(net.now)))
    ensures HasPolicy(e) ==> !Valid(e, net.now)
  {
    hide LookupOf, Fetch;
  }

  lemma NeverEmptied(e: Option<Entry>, net: Net, interval: int)
    ensures Get(e, net, interval).1 == None ==> e == None
  {
    hide LookupOf, Fetch;
  }

  /** While an absence is cached, the policy stored last has ended. */
  lemma {:induction false} AbsenceMeansEnded(e: Option<Entry>, nets: seq<Net>, k: nat, interval: int)
    requires Ordered(nets) && k < |nets| && !HasPolicy(At(e, nets, k, interval))
    ensures !InForceAt(e, nets, k, interval)
  {
    hide Get, Fetch;
    if k > 0 {
      var before := At(e, nets, k - 1, interval);
      if HasPolicy(before) {
        NeverEmptied(before, nets[k - 1], interval);
        AbsenceFrom(before, nets[k - 1], interval);
      } else {
        AbsenceMeansEnded(e, nets, k - 1, interval);
      }
      assert LastStored(e, nets, k, interval) == LastStored(e, nets, k - 1, interval);
      assert nets[k - 1].now <= nets[k].now;
    }
  }

  lemma NoPolicyAnswersIff(e: Option<Entry>, net: Net, interval: int)
    requires !HasPolicy(e)
    ensures GivesPolicy(Get(e, net, interval).0) <==> !Valid(e, net.now) && Fetch(net).Fetched?
  {
    hide LookupOf, Fetch;
  }

  /** Call k of any run answers a policy if and only if the policy stored last has not
      ended, or the network delivers one and no absence is cached. */
  lemma RunAnswersIff(e: Option<Entry>, nets: seq<Net>, k: nat, interval: int)
    requires Ordered(nets) && k < |nets|
    ensures AnswersAt(e, nets, k, interval) <==>
            InForceAt(e, nets, k, interval) || (Fetch(nets[k]).Fetched? && !AbsentAt(e, nets, k, interval))
  {
    var now := At(e, nets, k, interval);
    if HasPolicy(now) {
      AnswersIff(now, nets[k], interval);
    } else {
      AbsenceMeansEnded(e, nets, k, interval);
      NoPolicyAnswersIff(now, nets[k], interval);
    }
    hide Get, Fetch, At;
  }

  /** A cached absence stems from an earlier call that found neither policy nor record. */
  lemma {:induction false} AbsenceOrigin(e: Option<Entry>, nets: seq<Net>, k: nat, interval: int) returns (j: nat)
    requires Ordered(nets) && !IsAbsence(e) && k <= |nets| && IsAbsence(At(e, nets, k, interval))
    ensures j < k && CachesAbsence(e, nets, j, interval) && At(e, nets, k, interval) == Some(Absence(nets[j].now))
  {
    hide Get, Fetch;
    j := k - 1;
    var before := At(e, nets, j, interval);
    AbsenceFrom(before, nets[j], interval);
    if IsAbsence(before) && At(e, nets, k, interval) == before {
      j := AbsenceOrigin(e, nets, k - 1, interval);
    } else if !HasPolicy(before) {
      AbsenceMeansEnded(e, nets, j, interval);
    }
  }

  lemma StoresAbsence(e: Option<Entry>, net: Net, interval: int)
    requires !Valid(e, net.now) && Fetch(net) == NoPolicy
    ensures Get(e, net, interval).1 == Some(Absence(net.now))
  {
    hide LookupOf, Fetch;
  }

  lemma {:induction false} AbsenceKept(e: Option<Entry>, nets: seq<Net>, j: nat, k: nat, interval: int)
    requires Ordered(nets) && j < k < |nets| && CachesAbsence(e, nets, j, interval)
    requires nets[k].now < nets[j].now + NEGATIVE_AGE
    ensures At(e, nets, k, interval) == Some(Absence(nets[j].now))
  {
    hide Fetch;
    var before := At(e, nets, k - 1, interval);
    if k == j + 1 {
      assert HasPolicy(before) ==> LastStored(e, nets, j, interval) == before;
      StoresAbsence(before, nets[j], interval);
    } else {
      assert nets[k - 1].now <= nets[k].now;
      AbsenceKept(e, nets, j, k - 1, interval);
    }
  }

  /** An absence is cached for call k if and only if some call of the five minutes before
      it found no policy in force and no record. */
  lemma AbsentIff(e: Option<Entry>, nets: seq<Net>, k: nat, interval: int)
    requires Ordered(nets) && !IsAbsence(e) && k < |nets|
    ensures AbsentAt(e, nets, k, interval) <==>
            exists j :: 0 <= j < k && CachesAbsence(e, nets, j, interval) && nets[k].now < nets[j].now + 300
  {
    hide Fetch, CachesAbsence;
    if AbsentAt(e, nets, k, interval) {
      var j := AbsenceOrigin(e, nets, k, interval);
    }
    forall j | 0 <= j < k && CachesAbsence(e, nets, j, interval) && nets[k].now < nets[j].now + NEGATIVE_AGE
      ensures AbsentAt(e, nets, k, interval)
    {
      AbsenceKept(e, nets, j, k, interval);
    }
  }

  /** Starting from a stored policy: every call before a time answers a policy if and
      only if for every such call the policy stored last has not ended or the network
      delivers one. */
  lemma AnswersUntilIff(e: Option<Entry>, until: int, nets: seq<Net>, interval: int)
    requires HasPolicy(e) && Ordered(nets)
    ensures (forall k :: 0 <= k < |nets| && nets[k].now < until ==> AnswersAt(e, nets, k, interval)) <==>
            (forall k :: 0 <= k < |nets| && nets[k].now < until ==> InForceAt(e, nets, k, interval) || Fetch(nets[k]).Fetched?)
  {
    forall k | 0 <= k < |nets|
      ensures AnswersAt(e, nets, k, interval) <==>
              InForceAt(e, nets, k, interval) || (Fetch(nets[k]).Fetched? && !AbsentAt(e, nets, k, interval))
    {
      RunAnswersIff(e, nets, k, interval);
    }
    hide AnswersAt, InForceAt, Fetch;
    if forall k :: 0 <= k < |nets| && nets[k].now < until ==> InForceAt(e, nets, k, interval) || Fetch(nets[k]).Fetched? {
      forall k | 0 <= k < |nets| && nets[k].now < until ensures AnswersAt(e, nets, k, interval) {
        if AbsentAt(e, nets, k, interval) {
          var j := AbsenceOrigin(e, nets, k, interval);
        }
      }
    }
  }

  /** Call k stores the policy it fetches: nothing is in force and no absence is cached,
      or the policy in force is refetched. */
  predicate Stores(e: Option<Entry>, nets: seq<Net>, k: nat, interval: int)
    requires k < |nets|
  {
    if InForceAt(e, nets, k, interval) then Refetches(LastStored(e, nets, k, interval).value, nets[k])
    else Fetch(nets[k]).Fetched? && !AbsentAt(e, nets, k, interval)
  }

  lemma NotInForce(e: Option<Entry>, net: Net, interval: int)
    requires !Valid(e, net.now)
    ensures var (answer, after) := Get(e, net, interval);
            if Fetch(net).Fetched?
            then after == Some(Stored(Fetch(net).policy, Fetch(net).id, net.now, interval)) && answer == Answer(Some(Fetch(net).policy))
            else (after == e || IsAbsence(after)) && !GivesPolicy(answer)
  {
    hide LookupOf, Fetch;
  }

  lemma AnswersAbsence(e: Option<Entry>, net: Net, interval: int)
    requires IsAbsence(e) && Valid(e, net.now)
    ensures Get(e, net, interval) == (Answer(None), e)
  {
    hide LookupOf, Fetch;
  }

  /** In every run a call leaves the policy it fetches if and only if it stores it, and
      otherwise the policy stored before; and the policy it answers, if any, is the one
      it leaves. */
  lemma RunStores(e: Option<Entry>, nets: seq<Net>, k: nat, interval: int)
    requires Ordered(nets) && k < |nets|
    ensures var last, after := LastStored(e, nets, k, interval), LastStored(e, nets, k + 1, interval);
            && (if Stores(e, nets, k, interval) then after == Some(Stored(Fetch(nets[k]).policy, Fetch(nets[k]).id, nets[k].now, interval))
                else Kept(last, after))
            && (AnswersAt(e, nets, k, interval) ==>
                  after.Some? && Get(At(e, nets, k, interval), nets[k], interval).0 == Answer(after.value.policy))
  {
    hide Get, Fetch, Refetches;
    var now := At(e, nets, k, interval);
    if !HasPolicy(now) {
      AbsenceMeansEnded(e, nets, k, interval);
    }
    if HasPolicy(now) && Valid(now, nets[k].now) {
      InForce(now, nets[k], interval);
    } else if Valid(now, nets[k].now) {
      AnswersAbsence(now, nets[k], interval);
    } else {
      NotInForce(now, nets[k], interval);
    }
  }

  lemma {:induction false} OnlyStoresReplace(e: Option<Entry>, nets: seq<Net>, j: nat, k: nat, interval: int)
    requires Ordered(nets) && j <= k <= |nets| && forall i :: j <= i < k ==> !Stores(e, nets, i, interval)
    ensures Kept(LastStored(e, nets, j, interval), LastStored(e, nets, k, interval))
  {
    hide Stores, LastStored, Get, At, Fetch, AnswersAt;
    if j < k {
      OnlyStoresReplace(e, nets, j, k - 1, interval);
      RunStores(e, nets, k - 1, interval);
    }
  }

  lemma StoredFirst(e: Option<Entry>, nets: seq<Net>, interval: int)
    requires HasPolicy(e)
    ensures LastStored(e, nets, 0, interval) == e
  {}

  /** In every run the policy answered is the one fetched by the latest call that stored,
      with that call's id, or the one the run started with if no call stored. */
  lemma AnsweredPolicy(e: Option<Entry>, nets: seq<Net>, j: nat, k: nat, interval: int)
    requires HasPolicy(e) && Ordered(nets) && j <= k < |nets| && AnswersAt(e, nets, k, interval)
    requires forall i :: j < i <= k ==> !Stores(e, nets, i, interval)
    ensures var answer := Get(At(e, nets, k, interval), nets[k], interval).0;
            && (Stores(e, nets, j, interval) ==> answer == Answer(Some(Fetch(nets[j]).policy)))
            && (j == 0 && !Stores(e, nets, 0, interval) ==> answer == Answer(e.value.policy))
  {
    hide Stores, LastStored, Get, At, Fetch, AnswersAt;
    StoredFirst(e, nets, interval);
    RunStores(e, nets, j, interval);
    RunStores(e, nets, k, interval);
    OnlyStoresReplace(e, nets, j + 1, k + 1, interval);
  }

  /** Every policy file served in the run, at time t, is good until the given time. */
  predicate ServedUntil(nets: seq<Net>, until: int) {
    forall k :: 0 <= k < |nets| && Fetch(nets[k]).Fetched? ==> until <= nets[k].now + Fetch(nets[k]).policy.maxAge
  }

  lemma {:induction false} KeptUntil(e: Option<Entry>, until: int, nets: seq<Net>, k: nat, interval: int)
    requires HasPolicy(e) && until <= e.value.expiresAt && Ordered(nets) && ServedUntil(nets, until)
    requires k <= |nets| && (k > 0 ==> nets[k - 1].now < until)
    ensures HasPolicy(At(e, nets, k, interval)) && until <= At(e, nets, k, interval).value.expiresAt
  {
    hide Get, Fetch;
    if k > 0 {
      if k > 1 {
        assert nets[k - 2].now <= nets[k - 1].now;
      }
      KeptUntil(e, until, nets, k - 1, interval);
      InForce(At(e, nets, k - 1, interval), nets[k - 1], interval);
    }
  }

  /** Once stored, a policy is answered in every later call before its end, whatever
      fails, as long as no policy served on the way ends sooner. */
  lemma NoDowngrade(e: Option<Entry>, until: int, nets: seq<Net>, k: nat, interval: int)
    requires HasPolicy(e) && until <= e.value.expiresAt && Ordered(nets) && ServedUntil(nets, until)
    requires k < |nets| && nets[k].now < until
    ensures AnswersAt(e, nets, k, interval)
  {
    if k > 0 {
      assert nets[k - 1].now <= nets[k].now;
    }
    KeptUntil(e, until, nets, k, interval);
    AnswersIff(At(e, nets, k, interval), nets[k], interval);
    hide Get, Fetch, At;
  }

  /** Without any condition on what is served: for one day after a policy was stored,
      every call in every run answers a policy without error. */
  lemma OneDay(e: Option<Entry>, nets: seq<Net>, k: nat, interval: int)
    requires Sound(e) && HasPolicy(e) && Ordered(nets) && (nets != [] ==> e.value.fetchedAt <= nets[0].now)
    requires k < |nets| && nets[k].now < e.value.fetchedAt + MIN_AGE
    ensures AnswersAt(e, nets, k, interval)
  {
    var until := e.value.fetchedAt + MIN_AGE;
    forall j | 0 <= j < |nets| && Fetch(nets[j]).Fetched? ensures until <= nets[j].now + Fetch(nets[j]).policy.maxAge {
      assert nets[0].now <= nets[j].now;
      hide LookupOf, ParsePolicy;
    }
    hide Fetch;
    NoDowngrade(e, until, nets, k, interval);
  }

  // ---------- what does not hold ----------

  function Says(id: string): Texts {
    Found([RecordText(id)])
  }

  lemma SaysId(id: string)
    requires id != "" && TagList.CleanValue(id)
    ensures LookupOf(Says(id)) == Id(id)
  {
    RecordReads(id);
    hide RecordText;
  }

  /** The recheck of a policy in force sees id seen, the refetch gets q under id. */
  lemma Replaces(e: Entry, net: Net, interval: int, seen: string, q: Policy, id: string)
    requires e.policy.Some? && e.id != "" && e.recheckAt <= net.now < e.expiresAt
    requires LookupOf(net.recheck) == Id(seen) && seen != e.id
    requires LookupOf(net.texts) == Id(id) && net.file.Some? && ParsePolicy(net.file.value) == Some(q)
    ensures Get(Some(e), net, interval) == (Answer(Some(q)), Some(Stored(q, id, net.now, interval)))
  {
    hide LookupOf, ParsePolicy;
  }

  lemma Expired(e: Entry, net: Net, interval: int)
    requires e.expiresAt <= net.now && net.texts.TempFailure?
    ensures Get(Some(e), net, interval).0 == Error
  {}

  function OneDayPolicy(): Policy {
    Policy("STSv1", "none", [], MIN_AGE, PolicyText(MIN_AGE))
  }

  lemma OneDayFile()
    ensures ParsePolicy(PolicyText(MIN_AGE)) == Some(OneDayPolicy())
  {
    PolicyReads(MIN_AGE);
    hide PolicyText, ParsePolicy;
  }

  lemma AAndB()
    ensures LookupOf(Says("a")) == Id("a") && LookupOf(Says("b")) == Id("b") && "a" != "b"
  {
    SaysId("a");
    SaysId("b");
    hide LookupOf, Says;
    assert "a"[0] == 'a' && "b"[0] == 'b';
  }

  /** The id a refetch stores comes from a second TXT lookup, so a policy can be
      replaced under the very id it was stored with. */
  lemma SameIdReplaced(p: Policy)
    ensures var e := Stored(p.(maxAge := MAX_AGE), "a", 0, 3600);
            var after := Get(Some(e), Net(3600, Says("b"), Says("a"), Some(PolicyText(MIN_AGE))), 3600).1;
            HasPolicy(after) && after.value.policy != e.policy && after.value.id == e.id
  {
    AAndB();
    OneDayFile();
    hide LookupOf, ParsePolicy, PolicyText, Says, Get;
    Replaces(Stored(p.(maxAge := MAX_AGE), "a", 0, 3600), Net(3600, Says("b"), Says("a"), Some(PolicyText(MIN_AGE))), 3600,
             "b", OneDayPolicy(), "a");
  }

  /** A replacing policy may end before the one it replaces: of two calls before the
      end of the first max_age, the second can fail. */
  lemma ShorterReplacement(p: Policy)
    ensures var e := Stored(p.(maxAge := MAX_AGE), "a", 0, 3600);
            var change := Net(3600, Says("b"), Says("b"), Some(PolicyText(MIN_AGE)));
            var later := Net(3600 + MIN_AGE, TempFailure, TempFailure, None);
            later.now < e.expiresAt && Get(Get(Some(e), change, 3600).1, later, 3600).0 == Error
  {
    AAndB();
    OneDayFile();
    hide LookupOf, ParsePolicy, PolicyText, Says, Get;
    Replaces(Stored(p.(maxAge := MAX_AGE), "a", 0, 3600), Net(3600, Says("b"), Says("b"), Some(PolicyText(MIN_AGE))), 3600,
             "b", OneDayPolicy(), "b");
    Expired(Stored(OneDayPolicy(), "b", 3600, 3600), Net(3600 + MIN_AGE, TempFailure, TempFailure, None), 3600);
  }
}

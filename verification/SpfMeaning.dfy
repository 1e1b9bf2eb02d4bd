/** Which result a record yields (sections 4 to 6 of RFC 7208): for every mechanism, what
    the resolver's answers make of a check that has come to it. */
module SpfMeaning {
  import opened Text
  import opened Spf
  import opened SpfCheck

  /** An evaluation of the record reaches mechanism t with the counters at: the mechanisms
      before it decided nothing; rest and redirect follow it. */
  predicate Reaches(r: Resolver, client: Client, domain: string, record: string, lim: Lim,
                    before: seq<Term>, t: Term, rest: seq<Term>, redirect: string, at: Lim)
    requires Within(lim)
  {
    && Separate(Parse(record), None, []) == Good(redirect, before + [t] + rest)
    && EvalTerms(r, client, domain, before, lim) == (None, at)
  }

  /** The result when the evaluation goes on with the mechanisms that follow. */
  function Onward(r: Resolver, client: Client, domain: string, rest: seq<Term>, redirect: string, lim: Lim): (Code, Lim)
    requires Within(lim)
  {
    var (code, after) := EvalTerms(r, client, domain, rest, lim);
    if code.Some? then (code.value, after)
    else if redirect == "" then (Neutral, after)
    else EvalRedirect(r, client, domain, redirect, after)
  }

  lemma EvaluateAt(r: Resolver, client: Client, domain: string, record: string, lim: Lim,
                   before: seq<Term>, t: Term, rest: seq<Term>, redirect: string, at: Lim)
    requires Within(lim) && Reaches(r, client, domain, record, lim, before, t, rest, redirect, at)
    ensures Within(at)
    ensures var (code, after) := OneTerm(r, client, domain, t, at);
            Evaluate(r, client, domain, record, lim) ==
            if code.Some? then (code.value, after) else Onward(r, client, domain, rest, redirect, after)
  {
    hide OneTerm, EvalRedirect, Separate, Parse;
    EvalAppend(r, client, domain, before + [t], rest, lim);
    EvalAppend(r, client, domain, before, [t], lim);
    OneAlone(r, client, domain, t, at);
    hide EvalTerms;
    assert before + [t] + rest == (before + [t]) + rest;
  }

  lemma OneAlone(r: Resolver, client: Client, domain: string, t: Term, lim: Lim)
    requires Within(lim)
    ensures EvalTerms(r, client, domain, [t], lim) == OneTerm(r, client, domain, t, lim)
  {
    hide OneTerm;
    var (code, after) := OneTerm(r, client, domain, t, lim);
    assert [t][1..] == [];
  }

  lemma StillWithin(r: Resolver, client: Client, domain: string, record: string, lim: Lim,
                    before: seq<Term>, t: Term, rest: seq<Term>, redirect: string, at: Lim)
    requires Within(lim) && Reaches(r, client, domain, record, lim, before, t, rest, redirect, at)
    ensures Within(at)
  {
    hide EvalTerms, Separate, Parse;
  }

  // ---------- mechanisms without DNS ----------

  /** all, ip4 and ip6: a match gives the qualifier, a malformed address is a permanent
      error, anything else goes on. */
  lemma LocalMeans(r: Resolver, client: Client, domain: string, record: string, lim: Lim,
                   before: seq<Term>, t: Term, rest: seq<Term>, redirect: string, at: Lim)
    requires Within(lim) && Reaches(r, client, domain, record, lim, before, t, rest, redirect, at)
    ensures Within(at)
    ensures t.typ == "all" ==> Evaluate(r, client, domain, record, lim) == (t.qualifier, at)
    ensures t.typ == "ip4" ==> Evaluate(r, client, domain, record, lim) ==
                               if !client.validIp(t.value, false) then (PermError, at)
                               else if client.matchesIp(t.value, false) then (t.qualifier, at)
                               else Onward(r, client, domain, rest, redirect, at)
    ensures t.typ == "ip6" ==> Evaluate(r, client, domain, record, lim) ==
                               if !client.validIp(t.value, true) then (PermError, at)
                               else if client.matchesIp(t.value, true) then (t.qualifier, at)
                               else Onward(r, client, domain, rest, redirect, at)
  {
    StillWithin(r, client, domain, record, lim, before, t, rest, redirect, at);
    EvaluateAt(r, client, domain, record, lim, before, t, rest, redirect, at);
    hide Evaluate, Onward, Reaches, OneTerm;
    if t.typ == "all" || t.typ == "ip4" || t.typ == "ip6" {
      OneLocal(r, client, domain, t, at);
    }
  }

  lemma OneLocal(r: Resolver, client: Client, domain: string, t: Term, at: Lim)
    requires Within(at) && (t.typ == "all" || t.typ == "ip4" || t.typ == "ip6")
    ensures var (code, after) := OneTerm(r, client, domain, t, at);
            && after == at
            && code == if t.typ == "all" then Some(t.qualifier)
                       else if !client.validIp(t.value, t.typ == "ip6") then Some(PermError)
                       else if client.matchesIp(t.value, t.typ == "ip6") then Some(t.qualifier) else None
  {
    TypesDiffer();
    hide EvalDns;
  }

  lemma TypesDiffer()
    ensures !IsDnsTerm("all") && !IsDnsTerm("ip4") && !IsDnsTerm("ip6")
    ensures "all" != "ip4" && "all" != "ip6" && "ip4" != "ip6"
    ensures "a" != "mx" && "a" != "ptr" && "a" != "exists" && "a" != "include"
    ensures "mx" != "ptr" && "mx" != "exists" && "mx" != "include"
    ensures "ptr" != "exists" && "ptr" != "include" && "exists" != "include"
  {
    assert |"all"| == 3 && |"ip4"| == 3 && |"ip6"| == 3 && |"a"| == 1 && |"mx"| == 2 && |"ptr"| == 3 && |"exists"| == 6 && |"include"| == 7;
    assert |"redirect"| == 8 && "all"[0] == 'a' && "ip4"[0] == 'i' && "ip6"[0] == 'i' && "ip4"[2] == '4' && "ip6"[2] == '6' && "ptr"[0] == 'p';
  }

  // ---------- mechanisms with DNS ----------

  /** The counters when a DNS term is begun. */
  function Begun(at: Lim): Lim {
    at.(lookups := at.lookups + 1)
  }

  /** The eleventh DNS term is a permanent error. */
  lemma EleventhTerm(r: Resolver, client: Client, domain: string, record: string, lim: Lim,
                     before: seq<Term>, t: Term, rest: seq<Term>, redirect: string, at: Lim)
    requires Within(lim) && Reaches(r, client, domain, record, lim, before, t, rest, redirect, at)
    requires t.typ in {"include", "a", "mx", "ptr", "exists"} && at.lookups == 10
    ensures Evaluate(r, client, domain, record, lim).0 == PermError
  {
    EvaluateAt(r, client, domain, record, lim, before, t, rest, redirect, at);
    hide Evaluate, Onward, EvalDns, Reaches;
  }

  /** A lookup that finds nothing: the third one is a permanent error. */
  function AfterVoid(r: Resolver, client: Client, domain: string, rest: seq<Term>, redirect: string, lim: Lim): (Code, Lim)
    requires Within(lim)
  {
    var voided := lim.(voids := lim.voids + 1);
    if voided.voids > 2 then (PermError, voided) else Onward(r, client, domain, rest, redirect, voided)
  }

  lemma OneDns(r: Resolver, client: Client, domain: string, t: Term, at: Lim)
    requires Within(at) && IsDnsTerm(t.typ) && at.lookups < 10
    ensures Within(Begun(at))
    ensures var (out, after) := EvalDns(r, client, domain, t, Begun(at)); OneTerm(r, client, domain, t, at) == Settle(t, out, after)
  {
    hide EvalDns, Settle, EvalLocal;
  }

  /** What the outcome of a DNS mechanism makes of the check. */
  lemma OutcomeMeans(r: Resolver, client: Client, domain: string, record: string, lim: Lim,
                     before: seq<Term>, t: Term, rest: seq<Term>, redirect: string, at: Lim, out: Outcome, after: Lim)
    requires Within(lim) && Reaches(r, client, domain, record, lim, before, t, rest, redirect, at)
    requires Within(Begun(at)) && IsDnsTerm(t.typ) && EvalDns(r, client, domain, t, Begun(at)) == (out, after)
    ensures out != Perm ==> Within(after)
    ensures var res := Evaluate(r, client, domain, record, lim);
            match out
            case Match => res == (t.qualifier, after)
            case NoMatch => res == Onward(r, client, domain, rest, redirect, after)
            case Void => res == AfterVoid(r, client, domain, rest, redirect, after)
            case Temp => res.0 == TempError
            case Perm => res.0 == PermError
  {
    EvaluateAt(r, client, domain, record, lim, before, t, rest, redirect, at);
    OneDns(r, client, domain, t, at);
    hide Evaluate, Onward, EvalDns, Reaches, OneTerm;
  }

  lemma DnsIs(r: Resolver, client: Client, domain: string, t: Term, lim: Lim)
    requires Within(lim)
    ensures t.typ == "a" ==> EvalDns(r, client, domain, t, lim) == EvalA(r, client, t.value, domain, lim)
    ensures t.typ == "mx" ==> EvalDns(r, client, domain, t, lim) == EvalMx(r, client, t.value, domain, lim)
    ensures t.typ == "exists" ==> EvalDns(r, client, domain, t, lim) == EvalExists(r, client, t.value, domain, lim)
    ensures t.typ == "ptr" ==> EvalDns(r, client, domain, t, lim) == (NoMatch, lim)
    ensures t.typ == "include" && client.expand(t.value, domain).Some? ==>
              EvalDns(r, client, domain, t, lim) == EvalInclude(r, client, client.expand(t.value, domain).value, lim)
    ensures t.typ == "include" && client.expand(t.value, domain) == None ==> EvalDns(r, client, domain, t, lim) == (Perm, lim)
  {
    TypesDiffer();
    hide EvalA, EvalMx, EvalExists, EvalInclude;
  }

  /** ptr counts as a DNS term and never matches. */
  lemma PtrMeans(r: Resolver, client: Client, domain: string, record: string, lim: Lim,
                 before: seq<Term>, t: Term, rest: seq<Term>, redirect: string, at: Lim)
    requires Within(lim) && Reaches(r, client, domain, record, lim, before, t, rest, redirect, at)
    requires t.typ == "ptr" && at.lookups < 10
    ensures Within(Begun(at)) && Evaluate(r, client, domain, record, lim) == Onward(r, client, domain, rest, redirect, Begun(at))
  {
    StillWithin(r, client, domain, record, lim, before, t, rest, redirect, at);
    DnsIs(r, client, domain, t, Begun(at));
    var (out, after) := EvalDns(r, client, domain, t, Begun(at));
    hide Evaluate, Onward, AfterVoid, EvalDns, Reaches;
    OutcomeMeans(r, client, domain, record, lim, before, t, rest, redirect, at, out, after);
  }

  lemma ExistsOutcome(r: Resolver, client: Client, value: string, domain: string, lim: Lim)
    ensures var target, asked := client.expand(value, domain), lim.(calls := lim.calls + 1);
            if target == None then EvalExists(r, client, value, domain, lim).0 == Perm
            else EvalExists(r, client, value, domain, lim) ==
                 match r.ip(lim.calls, target.value)
                 case Temporary => (Temp, asked)
                 case Failed => (Void, asked)
                 case Found(ips) => (if exists i :: 0 <= i < |ips| && client.isIp4(ips[i]) then Match else Void, asked)
  {}

  /** exists (section 5.7 of RFC 7208): matches when the name has an IPv4 address. */
  lemma ExistsMeans(r: Resolver, client: Client, domain: string, record: string, lim: Lim,
                    before: seq<Term>, t: Term, rest: seq<Term>, redirect: string, at: Lim)
    requires Within(lim) && Reaches(r, client, domain, record, lim, before, t, rest, redirect, at)
    requires t.typ == "exists" && at.lookups < 10
    ensures Within(Begun(at))
    ensures var target, asked, res := client.expand(t.value, domain), Begun(at).(calls := at.calls + 1), Evaluate(r, client, domain, record, lim);
            if target == None then res.0 == PermError
            else match r.ip(at.calls, target.value)
              case Temporary => res.0 == TempError
              case Failed => res == AfterVoid(r, client, domain, rest, redirect, asked)
              case Found(ips) =>
                if exists i :: 0 <= i < |ips| && client.isIp4(ips[i]) then res == (t.qualifier, asked)
                else res == AfterVoid(r, client, domain, rest, redirect, asked)
  {
    hide Evaluate, Onward, AfterVoid, EvalDns, Reaches, Spent, EvalExists, EvalA, EvalMx, EvalInclude;
    StillWithin(r, client, domain, record, lim, before, t, rest, redirect, at);
    assert Within(Begun(at));
    DnsIs(r, client, domain, t, Begun(at));
    ExistsOutcome(r, client, t.value, domain, Begun(at));
    var (out, after) := EvalDns(r, client, domain, t, Begun(at));
    OutcomeMeans(r, client, domain, record, lim, before, t, rest, redirect, at, out, after);
  }

  lemma AOutcome(r: Resolver, client: Client, value: string, domain: string, lim: Lim)
    ensures var target, asked := Target(client, value, domain), lim.(calls := lim.calls + 1);
            if target == None then EvalA(r, client, value, domain, lim).0 == Perm
            else EvalA(r, client, value, domain, lim) ==
                 match r.ip(lim.calls, target.value.0)
                 case Temporary => (Temp, asked)
                 case Failed => (Void, asked)
                 case Found(ips) =>
                   (if ips == [] then Void
                    else if exists i :: 0 <= i < |ips| && client.inCidr(ips[i], target.value.1, target.value.2) then Match else NoMatch, asked)
  {
    hide ExpandDual, SplitDual;
  }

  /** a (section 5.3 of RFC 7208): matches when an address of the name, under the prefix
      lengths, is the client's. */
  lemma AMeans(r: Resolver, client: Client, domain: string, record: string, lim: Lim,
               before: seq<Term>, t: Term, rest: seq<Term>, redirect: string, at: Lim)
    requires Within(lim) && Reaches(r, client, domain, record, lim, before, t, rest, redirect, at)
    requires t.typ == "a" && at.lookups < 10
    ensures Within(Begun(at))
    ensures var target, asked, res := Target(client, t.value, domain), Begun(at).(calls := at.calls + 1), Evaluate(r, client, domain, record, lim);
            if target == None then res.0 == PermError
            else
              var (name, v4, v6) := target.value;
              match r.ip(at.calls, name)
              case Temporary => res.0 == TempError
              case Failed => res == AfterVoid(r, client, domain, rest, redirect, asked)
              case Found(ips) =>
                if ips == [] then res == AfterVoid(r, client, domain, rest, redirect, asked)
                else if exists i :: 0 <= i < |ips| && client.inCidr(ips[i], v4, v6) then res == (t.qualifier, asked)
                else res == Onward(r, client, domain, rest, redirect, asked)
  {
    hide Evaluate, Onward, AfterVoid, EvalDns, Reaches, Spent, EvalExists, EvalA, EvalMx, EvalInclude, Target;
    StillWithin(r, client, domain, record, lim, before, t, rest, redirect, at);
    assert Within(Begun(at));
    DnsIs(r, client, domain, t, Begun(at));
    AOutcome(r, client, t.value, domain, Begun(at));
    var (out, after) := EvalDns(r, client, domain, t, Begun(at));
    OutcomeMeans(r, client, domain, record, lim, before, t, rest, redirect, at, out, after);
  }

  /** The name and prefix lengths of an a or mx value: the current domain without a name. */
  function Target(client: Client, value: string, domain: string): Option<(string, int, int)> {
    var spec := ExpandDual(client, value, domain);
    var split := if spec == None then None else SplitDual(spec.value);
    if split == None then None
    else
      var (host, v4, v6) := split.value;
      Some((if host == "" then domain else host, v4, v6))
  }

  // ---------- mx ----------

  predicate Nothing(a: Answer<seq<string>>) {
    a.Failed? || (a.Found? && a.value == [])
  }

  predicate Hit(client: Client, a: Answer<seq<string>>, v4: int, v6: int) {
    a.Found? && exists i :: 0 <= i < |a.value| && client.inCidr(a.value[i], v4, v6)
  }

  /** What the address lookup of mail host j answers. */
  function HostAnswer(r: Resolver, hosts: seq<string>, call: nat, j: nat): Answer<seq<string>>
    requires j < |hosts|
  {
    r.ip(call + j, hosts[j])
  }

  /** The address lookups of the first k mail hosts that find nothing. */
  function Voids(r: Resolver, hosts: seq<string>, call: nat, k: nat): nat
    requires k <= |hosts|
  {
    if k == 0 then 0 else Voids(r, hosts, call, k - 1) + if Nothing(HostAnswer(r, hosts, call, k - 1)) then 1 else 0
  }

  /** The lookups of the first k hosts are made and none of them decides. */
  predicate Passed(r: Resolver, client: Client, hosts: seq<string>, call: nat, v4: int, v6: int, k: nat, voids: nat)
    requires k <= |hosts|
  {
    && k <= 10 && voids + Voids(r, hosts, call, k) <= 2
    && forall j :: 0 <= j < k ==> !HostAnswer(r, hosts, call, j).Temporary? && !Hit(client, HostAnswer(r, hosts, call, j), v4, v6)
  }

  /** The first host whose lookup decides: a hit, a temporary failure, one void lookup or
      one host too many; or none. */
  predicate Decided(r: Resolver, client: Client, hosts: seq<string>, call: nat, v4: int, v6: int, k: nat, voids: nat, out: Outcome)
    requires k < |hosts|
  {
    Passed(r, client, hosts, call, v4, v6, k, voids) &&
    match out
    case Match => k < 10 && Hit(client, HostAnswer(r, hosts, call, k), v4, v6)
    case Temp => k < 10 && HostAnswer(r, hosts, call, k).Temporary?
    case Perm => k == 10 || (Nothing(HostAnswer(r, hosts, call, k)) && voids + Voids(r, hosts, call, k) == 2)
    case _ => false
  }

  /** The counters when every host was asked. */
  function AllAsked(r: Resolver, hosts: seq<string>, first: Lim): Lim {
    first.(calls := first.calls + |hosts|, voids := first.voids + Voids(r, hosts, first.calls, |hosts|))
  }

  /** The loop over the mail hosts: a hit, a temporary failure or an error at the first
      host that gives one, and no match when all hosts were asked. */
  lemma {:induction false} HostsMean(r: Resolver, client: Client, hosts: seq<string>, k: nat, v4: int, v6: int, first: Lim)
    requires k <= |hosts| && Within(first) && Passed(r, client, hosts, first.calls, v4, v6, k, first.voids)
    ensures var lim := first.(calls := first.calls + k, voids := first.voids + Voids(r, hosts, first.calls, k));
            var (out, after) := EvalHosts(r, client, hosts, k, v4, v6, lim);
            if Passed(r, client, hosts, first.calls, v4, v6, |hosts|, first.voids)
            then out == NoMatch && after == AllAsked(r, hosts, first)
            else exists j :: k <= j < |hosts| && Decided(r, client, hosts, first.calls, v4, v6, j, first.voids, out)
    decreases |hosts| - k
  {
    PassedBounds(r, client, hosts, first.calls, v4, v6, k, first.voids);
    hide Decided, EvalHosts, Passed, Voids;
    if k == |hosts| {
      NoHostLeft(r, client, hosts, v4, v6, first.(calls := first.calls + k, voids := first.voids + Voids(r, hosts, first.calls, k)));
    } else {
      HostStep(r, client, hosts, k, v4, v6, first);
      if Passed(r, client, hosts, first.calls, v4, v6, k + 1, first.voids) {
        HostsMean(r, client, hosts, k + 1, v4, v6, first);
      } else if Passed(r, client, hosts, first.calls, v4, v6, |hosts|, first.voids) {
        PassedBefore(r, client, hosts, first.calls, v4, v6, k + 1, first.voids);
      }
    }
  }

  lemma PassedBounds(r: Resolver, client: Client, hosts: seq<string>, call: nat, v4: int, v6: int, k: nat, voids: nat)
    requires k <= |hosts| && Passed(r, client, hosts, call, v4, v6, k, voids)
    ensures k <= 10 && voids + Voids(r, hosts, call, k) <= 2
  {}

  lemma NoHostLeft(r: Resolver, client: Client, hosts: seq<string>, v4: int, v6: int, lim: Lim)
    requires Within(lim) && |hosts| <= 10
    ensures EvalHosts(r, client, hosts, |hosts|, v4, v6, lim) == (NoMatch, lim)
  {}

  /** What all hosts pass, the first k pass. */
  lemma PassedBefore(r: Resolver, client: Client, hosts: seq<string>, call: nat, v4: int, v6: int, k: nat, voids: nat)
    requires k <= |hosts| && Passed(r, client, hosts, call, v4, v6, |hosts|, voids)
    ensures Passed(r, client, hosts, call, v4, v6, k, voids)
  {
    VoidsMono(r, hosts, call, k, |hosts|);
    hide Voids;
  }

  lemma {:induction false} VoidsMono(r: Resolver, hosts: seq<string>, call: nat, j: nat, k: nat)
    requires j <= k <= |hosts|
    ensures Voids(r, hosts, call, j) <= Voids(r, hosts, call, k)
  {
    hide Nothing;
    if j < k {
      VoidsMono(r, hosts, call, j, k - 1);
    }
  }

  /** One host: it decides, or the loop goes on with the next. */
  lemma HostStep(r: Resolver, client: Client, hosts: seq<string>, k: nat, v4: int, v6: int, first: Lim)
    requires k < |hosts| && Within(first) && Passed(r, client, hosts, first.calls, v4, v6, k, first.voids)
    ensures var calls, voids := first.calls, first.voids;
            var lim := first.(calls := calls + k, voids := voids + Voids(r, hosts, calls, k));
            var next := first.(calls := calls + k + 1, voids := voids + Voids(r, hosts, calls, k + 1));
            if Passed(r, client, hosts, calls, v4, v6, k + 1, voids)
            then EvalHosts(r, client, hosts, k, v4, v6, lim) == EvalHosts(r, client, hosts, k + 1, v4, v6, next)
            else Decided(r, client, hosts, calls, v4, v6, k, voids, EvalHosts(r, client, hosts, k, v4, v6, lim).0)
  {
    var calls, voids := first.calls, first.voids;
    assert Voids(r, hosts, calls, k + 1) == Voids(r, hosts, calls, k) + if Nothing(HostAnswer(r, hosts, calls, k)) then 1 else 0;
    hide Voids;
  }

  /** The outcome over the mail hosts is the only one that is decided. */
  lemma DecidedOnce(r: Resolver, client: Client, hosts: seq<string>, call: nat, v4: int, v6: int, j: nat, k: nat, voids: nat, a: Outcome, b: Outcome)
    requires j < |hosts| && k < |hosts| && Decided(r, client, hosts, call, v4, v6, j, voids, a) && Decided(r, client, hosts, call, v4, v6, k, voids, b)
    ensures j == k && a == b
  {
    if j < k {
      VoidsGrow(r, hosts, call, j, k);
    } else if k < j {
      VoidsGrow(r, hosts, call, k, j);
    }
    hide Voids;
  }

  lemma {:induction false} VoidsGrow(r: Resolver, hosts: seq<string>, call: nat, j: nat, k: nat)
    requires j < k <= |hosts|
    ensures Voids(r, hosts, call, j) + (if Nothing(HostAnswer(r, hosts, call, j)) then 1 else 0) <= Voids(r, hosts, call, k)
  {
    hide Nothing;
    if j + 1 < k {
      VoidsGrow(r, hosts, call, j, k - 1);
    }
  }

  lemma HostsFromFirst(r: Resolver, client: Client, hosts: seq<string>, v4: int, v6: int, first: Lim)
    requires Within(first)
    ensures var (out, after) := EvalHosts(r, client, hosts, 0, v4, v6, first);
            if Passed(r, client, hosts, first.calls, v4, v6, |hosts|, first.voids)
            then out == NoMatch && after == AllAsked(r, hosts, first)
            else out != NoMatch && out != Void
                 && exists j :: 0 <= j < |hosts| && Decided(r, client, hosts, first.calls, v4, v6, j, first.voids, out)
  {
    assert Passed(r, client, hosts, first.calls, v4, v6, 0, first.voids);
    assert Voids(r, hosts, first.calls, 0) == 0;
    HostsMean(r, client, hosts, 0, v4, v6, first);
    assert first.(calls := first.calls + 0, voids := first.voids + 0) == first;
    hide EvalHosts, Passed, AllAsked, Voids;
  }

  lemma MxOutcome(r: Resolver, client: Client, value: string, domain: string, lim: Lim)
    requires Within(lim)
    ensures var target, asked, res := Target(client, value, domain), lim.(calls := lim.calls + 1), EvalMx(r, client, value, domain, lim);
            if target == None then res.0 == Perm
            else match r.mx(lim.calls, target.value.0)
                 case Temporary => res.0 == Temp
                 case Failed => res == (Void, asked)
                 case Found(hosts) =>
                   if hosts == [] then res == (Void, asked)
                   else if Passed(r, client, hosts, asked.calls, target.value.1, target.value.2, |hosts|, asked.voids)
                   then res == (NoMatch, AllAsked(r, hosts, asked))
                   else res.0 != NoMatch && res.0 != Void
                        && exists k :: 0 <= k < |hosts| && Decided(r, client, hosts, asked.calls, target.value.1, target.value.2, k, asked.voids, res.0)
  {
    hide ExpandDual, SplitDual, EvalHosts, Decided, Passed, AllAsked;
    var target := Target(client, value, domain);
    if target.Some? {
      var asked := lim.(calls := lim.calls + 1);
      var mx := r.mx(lim.calls, target.value.0);
      if mx.Found? && mx.value != [] {
        HostsFromFirst(r, client, mx.value, target.value.1, target.value.2, asked);
      }
    }
  }

  /** mx (section 5.4 of RFC 7208): the qualifier exactly when a mail host among the first
      ten has an address that is the client's, and no host before it decides. */
  lemma MxMeans(r: Resolver, client: Client, domain: string, record: string, lim: Lim,
                before: seq<Term>, t: Term, rest: seq<Term>, redirect: string, at: Lim)
    requires Within(lim) && Reaches(r, client, domain, record, lim, before, t, rest, redirect, at)
    requires t.typ == "mx" && at.lookups < 10
    ensures Within(Begun(at))
    ensures var target, asked, res := Target(client, t.value, domain), Begun(at).(calls := at.calls + 1), Evaluate(r, client, domain, record, lim);
            if target == None then res.0 == PermError
            else
              var (name, v4, v6) := target.value;
              match r.mx(at.calls, name)
              case Temporary => res.0 == TempError
              case Failed => res == AfterVoid(r, client, domain, rest, redirect, asked)
              case Found(hosts) =>
                if hosts == [] then res == AfterVoid(r, client, domain, rest, redirect, asked)
                else if Passed(r, client, hosts, asked.calls, v4, v6, |hosts|, at.voids)
                then Within(AllAsked(r, hosts, asked)) && res == Onward(r, client, domain, rest, redirect, AllAsked(r, hosts, asked))
                else exists k, out :: 0 <= k < |hosts| && Decided(r, client, hosts, asked.calls, v4, v6, k, at.voids, out)
                                   && res.0 == CodeOf(t, out)
  {
    hide Evaluate, Onward, AfterVoid, EvalDns, Reaches, Spent, EvalExists, EvalA, EvalMx, EvalInclude, Target, Decided, Passed, AllAsked;
    StillWithin(r, client, domain, record, lim, before, t, rest, redirect, at);
    assert Within(Begun(at));
    DnsIs(r, client, domain, t, Begun(at));
    MxOutcome(r, client, t.value, domain, Begun(at));
    var (out, after) := EvalDns(r, client, domain, t, Begun(at));
    OutcomeMeans(r, client, domain, record, lim, before, t, rest, redirect, at, out, after);
  }


  /** The result a deciding host gives. */
  function CodeOf(t: Term, out: Outcome): Code {
    if out == Match then t.qualifier else if out == Temp then TempError else PermError
  }

  // ---------- include and redirect ----------

  lemma IncludeOutcome(r: Resolver, client: Client, domain: string, lim: Lim)
    requires Within(lim)
    ensures var asked, res := lim.(calls := lim.calls + 1), EvalInclude(r, client, domain, lim);
            match LookupSpf(r, lim.calls, domain)
            case TempFailure => res.0 == Temp
            case Several => res.0 == Perm
            case Missing => res.0 == Perm
            case Record(record) =>
              var (code, after) := Evaluate(r, client, domain, record, asked);
              res == (if code == Pass then Match else if code == PermError then Perm else if code == TempError then Temp else NoMatch, after)
  {
    hide Evaluate, LookupSpf, Spent;
  }

  /** include (section 5.2 of RFC 7208): the included record is checked over the same
      counters. Pass gives the qualifier, fail, softfail and neutral go on, errors are the
      result, and a name without exactly one record is a permanent error. */
  lemma IncludeMeans(r: Resolver, client: Client, domain: string, record: string, lim: Lim,
                     before: seq<Term>, t: Term, rest: seq<Term>, redirect: string, at: Lim)
    requires Within(lim) && Reaches(r, client, domain, record, lim, before, t, rest, redirect, at)
    requires t.typ == "include" && at.lookups < 10
    ensures Within(Begun(at))
    ensures var target, asked, res := client.expand(t.value, domain), Begun(at).(calls := at.calls + 1), Evaluate(r, client, domain, record, lim);
            if target == None then res.0 == PermError
            else match LookupSpf(r, at.calls, target.value)
              case TempFailure => res.0 == TempError
              case Several => res.0 == PermError
              case Missing => res.0 == PermError
              case Record(included) =>
                var (code, after) := Evaluate(r, client, target.value, included, asked);
                if code == Pass then res == (t.qualifier, after)
                else if code == PermError then res.0 == PermError
                else if code == TempError then res.0 == TempError
                else Within(after) && res == Onward(r, client, domain, rest, redirect, after)
  {
    hide Evaluate, Onward, AfterVoid, EvalDns, Reaches, Spent, EvalExists, EvalA, EvalMx, EvalInclude, LookupSpf;
    StillWithin(r, client, domain, record, lim, before, t, rest, redirect, at);
    assert Within(Begun(at));
    DnsIs(r, client, domain, t, Begun(at));
    if client.expand(t.value, domain).Some? {
      IncludeOutcome(r, client, client.expand(t.value, domain).value, Begun(at));
    }
    var (out, after) := EvalDns(r, client, domain, t, Begun(at));
    OutcomeMeans(r, client, domain, record, lim, before, t, rest, redirect, at, out, after);
  }

  /** redirect (section 6.1 of RFC 7208): when no mechanism decides, the result is that of
      the other record, over the same counters. */
  lemma RedirectMeans(r: Resolver, client: Client, domain: string, record: string, lim: Lim, mechs: seq<Term>, redirect: string, at: Lim)
    requires Within(lim) && Separate(Parse(record), None, []) == Good(redirect, mechs) && EvalTerms(r, client, domain, mechs, lim) == (None, at)
    ensures Within(at)
    ensures redirect == "" ==> Evaluate(r, client, domain, record, lim) == (Neutral, at)
    ensures redirect != "" && at.lookups == 10 ==> Evaluate(r, client, domain, record, lim).0 == PermError
    ensures redirect != "" && at.lookups < 10 ==>
              var target, asked, res := client.expand(redirect, domain), Begun(at).(calls := at.calls + 1), Evaluate(r, client, domain, record, lim);
              if target == None then res.0 == PermError
              else match LookupSpf(r, at.calls, target.value)
                case TempFailure => res.0 == TempError
                case Several => res.0 == PermError
                case Missing => res.0 == PermError
                case Record(other) => res == Evaluate(r, client, target.value, other, asked)
  {
    hide EvalTerms, Separate, Parse, LookupSpf;
  }

  /** A whole check: none without a record, permerror with several, and otherwise the
      result of the one record. A record is found exactly when one text is an SPF record. */
  lemma CheckMeans(r: Resolver, client: Client, domain: string)
    ensures var code := Check(r, client, domain).0;
            match r.txt(0, domain)
            case Temporary => code == TempError
            case Failed => code == NoRecord
            case Found(txts) =>
              && ((forall i :: 0 <= i < |txts| ==> !IsSpf(txts[i])) ==> code == NoRecord)
              && (forall i, j :: 0 <= i < j < |txts| && IsSpf(txts[i]) && IsSpf(txts[j]) ==> code == PermError)
              && (forall i :: 0 <= i < |txts| && OnlyRecord(txts, i) ==>
                    code == Evaluate(r, client, domain, txts[i], Lim(0, 0, 1)).0)
  {
    hide Evaluate, IsSpf;
    if r.txt(0, domain).Found? {
      var txts := r.txt(0, domain).value;
      RecordsCount(txts);
      forall i | 0 <= i < |txts| && OnlyRecord(txts, i) ensures SpfRecords(txts) == [txts[i]] {
        OneRecord(txts, i);
      }
      hide SpfRecords, OnlyRecord;
    }
  }

  predicate OnlyRecord(txts: seq<string>, i: nat)
    requires i < |txts|
  {
    forall j :: 0 <= j < |txts| ==> (IsSpf(txts[j]) <==> j == i)
  }

  lemma {:induction false} RecordsCount(txts: seq<string>)
    ensures (forall i :: 0 <= i < |txts| ==> !IsSpf(txts[i])) <==> SpfRecords(txts) == []
    ensures forall i, j :: 0 <= i < j < |txts| && IsSpf(txts[i]) && IsSpf(txts[j]) ==> |SpfRecords(txts)| > 1
  {
    hide IsSpf;
    if txts != [] {
      var rest := txts[1..];
      RecordsCount(rest);
      assert forall i :: 1 <= i < |txts| ==> txts[i] == rest[i - 1];
      if SpfRecords(rest) == [] {
        forall i | 1 <= i < |txts| ensures !IsSpf(txts[i]) {
          assert !IsSpf(rest[i - 1]);
        }
      }
      forall i, j | 0 <= i < j < |txts| && IsSpf(txts[i]) && IsSpf(txts[j]) ensures |SpfRecords(txts)| > 1 {
        if i > 0 {
          assert IsSpf(rest[i - 1]) && IsSpf(rest[j - 1]);
        } else {
          assert IsSpf(rest[j - 1]);
        }
      }
    }
  }

  lemma {:induction false} OneRecord(txts: seq<string>, i: nat)
    requires i < |txts| && OnlyRecord(txts, i)
    ensures SpfRecords(txts) == [txts[i]]
  {
    hide IsSpf;
    var rest := txts[1..];
    assert forall j :: 1 <= j < |txts| ==> txts[j] == rest[j - 1];
    if i == 0 {
      forall j | 0 <= j < |rest| ensures !IsSpf(rest[j]) {
        assert rest[j] == txts[j + 1];
      }
      RecordsCount(rest);
    } else {
      forall j | 0 <= j < |rest| ensures IsSpf(rest[j]) <==> j == i - 1 {
        assert rest[j] == txts[j + 1];
      }
      OneRecord(rest, i - 1);
      assert !IsSpf(txts[0]);
    }
  }

  // ---------- syntax errors ----------

  /** A term that sections 4.6 and 5 of RFC 7208 allow: a known name, a domain where one is
      needed, and none after all. */
  predicate Proper(t: Term) {
    if t.typ == "redirect" then t.value != ""
    else if t.typ == "exp" then true
    else if t.typ == "include" || t.typ == "exists" then t.value != ""
    else if t.typ == "a" || t.typ == "mx" then t.colon && SplitDual(t.value).Some? ==> SplitDual(t.value).value.0 != ""
    else if t.typ == "all" then !t.colon && t.value == ""
    else t.typ == "ip4" || t.typ == "ip6" || t.typ == "ptr"
  }

  function RedirectCount(terms: seq<Term>): nat {
    if terms == [] then 0 else (if terms[0].typ == "redirect" then 1 else 0) + RedirectCount(terms[1..])
  }

  /** The mechanisms of a record, in order. */
  function MechanismsOf(terms: seq<Term>): seq<Term> {
    if terms == [] then []
    else (if terms[0].typ == "redirect" || terms[0].typ == "exp" then [] else [terms[0]]) + MechanismsOf(terms[1..])
  }

  predicate AllProper(terms: seq<Term>) {
    forall i :: 0 <= i < |terms| ==> Proper(terms[i])
  }

  lemma ProperIs(t: Term)
    requires t.typ != "redirect" && t.typ != "exp"
    ensures Malformed(t) <==> !Proper(t)
  {
    hide SplitDual;
    TypesDiffer();
    assert |"ptr"| == 3 && |"all"| == 3 && |"a"| == 1 && |"mx"| == 2;
    NamesApart(t.typ);
  }

  lemma NamesApart(typ: string)
    ensures typ == "include" ==> typ != "all" && typ != "ip4" && typ != "ip6"
    ensures typ == "exists" ==> typ != "all" && typ != "ip4" && typ != "ip6"
    ensures typ == "a" || typ == "mx" ==> typ != "all" && typ != "ip4" && typ != "ip6"
    ensures typ == "all" ==> typ != "ptr"
  {
    assert |"include"| == 7 && |"exists"| == 6 && |"all"| == 3 && |"ip4"| == 3 && |"ip6"| == 3 && |"a"| == 1 && |"mx"| == 2;
    assert "all"[0] == 'a' && "ptr"[0] == 'p';
  }

  lemma SeparateOne(t: Term, rest: seq<Term>, redirect: Option<string>, mechs: seq<Term>)
    ensures Separate([t] + rest, redirect, mechs) ==
            if t.typ == "redirect" then if redirect.Some? || t.value == "" then Bad else Separate(rest, Some(t.value), mechs)
            else if t.typ == "exp" then Separate(rest, redirect, mechs)
            else if Malformed(t) then Bad else Separate(rest, redirect, mechs + [t])
  {
    hide Malformed;
    assert ([t] + rest)[1..] == rest;
  }

  /** The first pass finds no error if and only if every term is proper and there is at
      most one redirect; then it hands on all mechanisms in order. */
  lemma {:induction false} SeparateIff(terms: seq<Term>, redirect: Option<string>, mechs: seq<Term>)
    ensures var front := Separate(terms, redirect, mechs);
            && (front.Good? <==> AllProper(terms) && RedirectCount(terms) <= if redirect.Some? then 0 else 1)
            && (front.Good? ==> front.mechs == mechs + MechanismsOf(terms))
    decreases terms
  {
    hide Separate, Proper, Malformed;
    if terms == [] {
      NothingToSeparate(redirect, mechs);
      assert mechs + [] == mechs;
    } else {
      var t, rest := terms[0], terms[1..];
      assert terms == [t] + rest;
      SeparateOne(t, rest, redirect, mechs);
      AllProperStep(terms);
      if t.typ == "redirect" {
        assert Proper(t) <==> t.value != "" by { ModifierProper(t); }
        SeparateIff(rest, Some(t.value), mechs);
        assert [] + MechanismsOf(rest) == MechanismsOf(rest);
      } else if t.typ == "exp" {
        assert Proper(t) by { ModifierProper(t); }
        SeparateIff(rest, redirect, mechs);
        assert [] + MechanismsOf(rest) == MechanismsOf(rest);
      } else {
        ProperIs(t);
        SeparateIff(rest, redirect, mechs + [t]);
        assert mechs + [t] + MechanismsOf(rest) == mechs + ([t] + MechanismsOf(rest));
      }
    }
  }

  lemma NothingToSeparate(redirect: Option<string>, mechs: seq<Term>)
    ensures Separate([], redirect, mechs).Good? && Separate([], redirect, mechs).mechs == mechs
  {}

  lemma AllProperStep(terms: seq<Term>)
    requires terms != []
    ensures AllProper(terms) <==> Proper(terms[0]) && AllProper(terms[1..])
  {
    hide Proper;
    assert forall i :: 1 <= i < |terms| ==> terms[i] == terms[1..][i - 1];
    if Proper(terms[0]) && AllProper(terms[1..]) {
      forall i | 0 <= i < |terms| ensures Proper(terms[i]) {
        assert i > 0 ==> Proper(terms[1..][i - 1]);
      }
    }
  }

  lemma ModifierProper(t: Term)
    ensures t.typ == "redirect" ==> (Proper(t) <==> t.value != "")
    ensures t.typ == "exp" ==> Proper(t)
  {
    assert |"redirect"| == 8 && |"exp"| == 3;
  }

  /** A record with a syntax error anywhere is a permanent error, and nothing is looked up
      for it (section 4.6 of RFC 7208). */
  lemma SyntaxErrorMeans(r: Resolver, client: Client, domain: string, record: string, lim: Lim)
    requires Within(lim) && (!AllProper(Parse(record)) || RedirectCount(Parse(record)) > 1)
    ensures Evaluate(r, client, domain, record, lim) == (PermError, lim)
  {
    SeparateIff(Parse(record), None, []);
    hide Separate, Parse, AllProper, RedirectCount, EvalTerms, EvalRedirect;
  }

  /** The version must end after its number (section 4.5 of RFC 7208). */
  lemma VersionEnds(rest: string)
    ensures IsSpf("v=spf1") && IsSpf("v=spf1 " + rest) && IsSpf("V=SPF1 " + rest) && !IsSpf("v=spf10" + rest) && !IsSpf("v=spf2" + rest)
  {
    assert "v=spf1"[..6] == "v=spf1";
    assert ("v=spf1 " + rest)[..6] == "v=spf1" && ("v=spf1 " + rest)[6] == ' ';
    assert ("V=SPF1 " + rest)[..6] == "V=SPF1" && ("V=SPF1 " + rest)[6] == ' ';
    assert Lower("V=SPF1") == Lower("v=spf1");
    assert ("v=spf10" + rest)[6] == '0';
    var s := "v=spf2" + rest;
    assert s[..6] == "v=spf2" && Lower("v=spf2")[5] == '2' && Lower("v=spf1")[5] == '1';
  }
}

/** The SPF checker as it runs: loops over terms and hosts, and one counter object
    shared through the whole recursion. */
module SpfChecker {
  import opened Text
  import opened Spf
  import opened SpfCheck

  /** spfLimits, with the number of resolver calls made so far. */
  class Limits {
    var lookups: nat
    var voids: nat
    var calls: nat

    constructor ()
      ensures State() == Lim(0, 0, 0)
    {
      lookups, voids, calls := 0, 0, 0;
    }

    function State(): Lim
      reads this
    {
      Lim(lookups, voids, calls)
    }
  }

  method ParseSPF(parts: seq<string>) returns (terms: seq<Term>)
    ensures terms == ParseTerms(parts)
  {
    hide ParseTerm;
    terms := [];
    for i := 0 to |parts|
      invariant terms + ParseTerms(parts[i..]) == ParseTerms(parts)
    {
      var t := ParseTerm(parts[i]);
      assert parts[i..][1..] == parts[i + 1..];
      if t.typ != "" {
        terms := terms + [t];
      }
    }
    assert parts[|parts|..] == [];
  }

  method SeparateTerms(terms: seq<Term>) returns (front: Front)
    ensures front == Separate(terms, None, [])
  {
    hide Malformed;
    var redirect: Option<string> := None;
    var mechanisms: seq<Term> := [];
    for i := 0 to |terms|
      invariant Separate(terms[i..], redirect, mechanisms) == Separate(terms, None, [])
    {
      var t := terms[i];
      assert terms[i..][1..] == terms[i + 1..];
      if t.typ == "redirect" {
        if redirect.Some? || t.value == "" {
          return Bad;
        }
        redirect := Some(t.value);
      } else if t.typ == "exp" {
      } else if Malformed(t) {
        return Bad;
      } else {
        mechanisms := mechanisms + [t];
      }
    }
    front := Good(if redirect == None then "" else redirect.value, mechanisms);
  }

  method FindSpf(txts: seq<string>) returns (found: string, count: nat)
    ensures count == |SpfRecords(txts)| && (count > 0 ==> found == SpfRecords(txts)[count - 1])
  {
    hide IsSpf, SpfRecords;
    found, count := "", 0;
    ghost var seen: seq<string> := [];
    for i := 0 to |txts|
      invariant seen + SpfRecords(txts[i..]) == SpfRecords(txts)
      invariant count == |seen| && (count > 0 ==> found == seen[count - 1])
    {
      NextRecord(txts, i);
      if IsSpf(txts[i]) {
        found, count := txts[i], count + 1;
        seen := seen + [txts[i]];
      }
    }
    NoMoreRecords(txts);
  }

  lemma NextRecord(txts: seq<string>, i: nat)
    requires i < |txts|
    ensures SpfRecords(txts[i..]) == (if IsSpf(txts[i]) then [txts[i]] else []) + SpfRecords(txts[i + 1..])
  {
    hide IsSpf;
    assert txts[i..][1..] == txts[i + 1..];
  }

  lemma NoMoreRecords(txts: seq<string>)
    ensures SpfRecords(txts[|txts|..]) == []
  {}

  method LookupSPF(r: Resolver, domain: string, lim: Limits) returns (res: Lookup)
    modifies lim
    ensures res == LookupSpf(r, old(lim.calls), domain)
    ensures lim.State() == old(lim.State()).(calls := old(lim.calls) + 1)
  {
    hide SpfRecords;
    var answer := r.txt(lim.calls, domain);
    lim.calls := lim.calls + 1;
    if answer.Temporary? {
      return TempFailure;
    }
    if answer.Failed? {
      return Missing;
    }
    var found, count := FindSpf(answer.value);
    res := if count > 1 then Several else if count == 1 then Record(found) else Missing;
  }

  method AnyInCidr(client: Client, ips: seq<string>, v4: int, v6: int) returns (res: bool)
    ensures res == SomeIn(client, ips, v4, v6)
  {
    for i := 0 to |ips|
      invariant !SomeIn(client, ips[..i], v4, v6)
    {
      assert ips[..i + 1] == ips[..i] + [ips[i]];
      if client.inCidr(ips[i], v4, v6) {
        return true;
      }
    }
    assert ips[..|ips|] == ips;
    res := false;
  }

  method AnyIp4(client: Client, ips: seq<string>) returns (res: bool)
    ensures res == SomeIp4(client, ips)
  {
    for i := 0 to |ips|
      invariant !SomeIp4(client, ips[..i])
    {
      assert ips[..i + 1] == ips[..i] + [ips[i]];
      if client.isIp4(ips[i]) {
        return true;
      }
    }
    assert ips[..|ips|] == ips;
    res := false;
  }

  method EvaluateA(r: Resolver, client: Client, value: string, domain: string, lim: Limits) returns (out: Outcome)
    modifies lim
    ensures (out, lim.State()) == EvalA(r, client, value, domain, old(lim.State()))
  {
    var spec := ExpandDual(client, value, domain);
    if spec == None || SplitDual(spec.value) == None {
      return Perm;
    }
    var (host, v4, v6) := SplitDual(spec.value).value;
    hide ExpandDual, SplitDual;
    var answer := r.ip(lim.calls, OrDomain(host, domain));
    lim.calls := lim.calls + 1;
    match answer
    case Temporary => out := Temp;
    case Failed => out := Void;
    case Found(ips) =>
      var hit := AnyInCidr(client, ips, v4, v6);
      out := if ips == [] then Void else if hit then Match else NoMatch;
  }

  method EvaluateExists(r: Resolver, client: Client, value: string, domain: string, lim: Limits) returns (out: Outcome)
    modifies lim
    ensures (out, lim.State()) == EvalExists(r, client, value, domain, old(lim.State()))
  {
    var spec := client.expand(value, domain);
    if spec == None {
      return Perm;
    }
    var answer := r.ip(lim.calls, spec.value);
    lim.calls := lim.calls + 1;
    match answer
    case Temporary => out := Temp;
    case Failed => out := Void;
    case Found(ips) =>
      var hit := AnyIp4(client, ips);
      out := if hit then Match else Void;
  }

  /** The loop over the mail hosts, which charges void lookups as it goes. */
  method EvaluateHosts(r: Resolver, client: Client, hosts: seq<string>, v4: int, v6: int, lim: Limits) returns (out: Outcome)
    requires Within(lim.State())
    modifies lim
    ensures (out, lim.State()) == EvalHosts(r, client, hosts, 0, v4, v6, old(lim.State()))
  {
    var i := 0;
    while i < |hosts|
      invariant 0 <= i <= |hosts| && i <= MAX_MX && Within(lim.State())
      invariant EvalHosts(r, client, hosts, i, v4, v6, lim.State()) == EvalHosts(r, client, hosts, 0, v4, v6, old(lim.State()))
    {
      if i >= MAX_MX {
        return Perm;
      }
      var answer := r.ip(lim.calls, hosts[i]);
      lim.calls := lim.calls + 1;
      if answer.Temporary? {
        return Temp;
      }
      var ips := if answer.Found? then answer.value else [];
      if |ips| == 0 {
        lim.voids := lim.voids + 1;
        if lim.voids > MAX_VOIDS {
          return Perm;
        }
      } else {
        var hit := AnyInCidr(client, ips, v4, v6);
        if hit {
          return Match;
        }
      }
      i := i + 1;
    }
    out := NoMatch;
  }

  method EvaluateMX(r: Resolver, client: Client, value: string, domain: string, lim: Limits) returns (out: Outcome)
    requires Within(lim.State())
    modifies lim
    ensures (out, lim.State()) == EvalMx(r, client, value, domain, old(lim.State()))
  {
    var spec := ExpandDual(client, value, domain);
    if spec == None || SplitDual(spec.value) == None {
      return Perm;
    }
    var (host, v4, v6) := SplitDual(spec.value).value;
    hide ExpandDual, SplitDual, EvalHosts;
    var answer := r.mx(lim.calls, OrDomain(host, domain));
    lim.calls := lim.calls + 1;
    match answer
    case Temporary => out := Temp;
    case Failed => out := Void;
    case Found(hosts) =>
      if hosts == [] {
        out := Void;
      } else {
        out := EvaluateHosts(r, client, hosts, v4, v6, lim);
      }
  }

  method EvaluateInclude(r: Resolver, client: Client, domain: string, lim: Limits) returns (out: Outcome)
    requires Within(lim.State())
    modifies lim
    ensures (out, lim.State()) == EvalInclude(r, client, domain, old(lim.State()))
    decreases Left(lim.State()), 4
  {
    hide LookupSpf, Evaluate;
    var found := LookupSPF(r, domain, lim);
    match found
    case TempFailure => out := Temp;
    case Record(record) =>
      var code := EvaluateRecord(r, client, domain, record, lim);
      out := if code == PermError then Perm else if code == TempError then Temp else if code == Pass then Match else NoMatch;
    case _ => out := Perm;
  }

  method EvaluateMechanism(r: Resolver, client: Client, domain: string, t: Term, lim: Limits) returns (out: Outcome)
    requires Within(lim.State())
    modifies lim
    ensures (out, lim.State()) == if IsDnsTerm(t.typ) then EvalDns(r, client, domain, t, old(lim.State()))
                                  else (EvalLocal(client, t), old(lim.State()))
    decreases if t.typ == "include" then Left(lim.State()) + 1 else 0, 0
  {
    hide EvalA, EvalMx, EvalExists, EvalInclude;
    if t.typ == "a" {
      out := EvaluateA(r, client, t.value, domain, lim);
    } else if t.typ == "mx" {
      out := EvaluateMX(r, client, t.value, domain, lim);
    } else if t.typ == "exists" {
      out := EvaluateExists(r, client, t.value, domain, lim);
    } else if t.typ == "include" {
      var spec := client.expand(t.value, domain);
      if spec == None {
        out := Perm;
      } else {
        out := EvaluateInclude(r, client, spec.value, lim);
      }
    } else if t.typ == "ptr" {
      out := NoMatch;
    } else {
      out := if t.typ == "redirect" then Perm else EvalLocal(client, t);
    }
  }

  /** Counts a DNS term; the eleventh is one too many. */
  method CountTerm(t: Term, lim: Limits) returns (over: bool)
    requires Within(lim.State())
    modifies lim
    ensures lim.State() == if IsDnsTerm(t.typ) then old(lim.State()).(lookups := old(lim.lookups) + 1) else old(lim.State())
    ensures over == (lim.lookups > MAX_TERMS)
    ensures !over && t.typ == "include" ==> Left(lim.State()) + 1 == Left(old(lim.State()))
  {
    over := false;
    if IsDnsTerm(t.typ) {
      lim.lookups := lim.lookups + 1;
      over := lim.lookups > MAX_TERMS;
    }
  }

  /** The body of the mechanism loop. */
  method EvaluateTerm(r: Resolver, client: Client, domain: string, t: Term, lim: Limits) returns (res: Option<Code>)
    requires Within(lim.State())
    modifies lim
    ensures (res, lim.State()) == OneTerm(r, client, domain, t, old(lim.State()))
    decreases Left(lim.State()), 1
  {
    hide EvalDns, EvalLocal, IsDnsTerm, Settle, Left;
    var over := CountTerm(t, lim);
    if over {
      return Some(PermError);
    }
    var out := EvaluateMechanism(r, client, domain, t, lim);
    res := SettleTerm(t, out, lim);
  }

  method SettleTerm(t: Term, out: Outcome, lim: Limits) returns (res: Option<Code>)
    requires out != Perm ==> lim.voids <= MAX_VOIDS
    modifies lim
    ensures (res, lim.State()) == Settle(t, out, old(lim.State()))
  {
    if out == Temp {
      return Some(TempError);
    }
    if out == Perm {
      return Some(PermError);
    }
    if out == Void {
      lim.voids := lim.voids + 1;
      if lim.voids > MAX_VOIDS {
        return Some(PermError);
      }
    }
    res := if out == Match then Some(t.qualifier) else None;
  }

  method EvaluateMechanisms(r: Resolver, client: Client, domain: string, mechs: seq<Term>, lim: Limits) returns (res: Option<Code>)
    requires Within(lim.State())
    modifies lim
    ensures (res, lim.State()) == EvalTerms(r, client, domain, mechs, old(lim.State()))
    decreases Left(lim.State()), 2
  {
    hide OneTerm;
    for i := 0 to |mechs|
      invariant Within(lim.State()) && old(lim.lookups) <= lim.lookups
      invariant EvalTerms(r, client, domain, mechs[i..], lim.State()) == EvalTerms(r, client, domain, mechs, old(lim.State()))
    {
      assert mechs[i..][1..] == mechs[i + 1..];
      res := EvaluateTerm(r, client, domain, mechs[i], lim);
      if res.Some? {
        return;
      }
    }
    res := None;
  }

  method EvaluateRecord(r: Resolver, client: Client, domain: string, record: string, lim: Limits) returns (code: Code)
    requires Within(lim.State())
    modifies lim
    ensures (code, lim.State()) == Evaluate(r, client, domain, record, old(lim.State()))
    decreases Left(lim.State()), 3
  {
    hide EvalTerms, EvalRedirect, Separate;
    var terms := ParseSPF(Fields(record));
    var front := SeparateTerms(terms);
    if front.Bad? {
      return PermError;
    }
    var decided := EvaluateMechanisms(r, client, domain, front.mechs, lim);
    if decided.Some? {
      return decided.value;
    }
    if front.redirect == "" {
      return Neutral;
    }
    code := FollowRedirect(r, client, domain, front.redirect, lim);
  }

  method FollowRedirect(r: Resolver, client: Client, domain: string, redirect: string, lim: Limits) returns (code: Code)
    requires Within(lim.State())
    modifies lim
    ensures (code, lim.State()) == EvalRedirect(r, client, domain, redirect, old(lim.State()))
    decreases Left(lim.State()), 2
  {
    hide Evaluate, LookupSpf;
    lim.lookups := lim.lookups + 1;
    if lim.lookups > MAX_TERMS {
      return PermError;
    }
    var target := client.expand(redirect, domain);
    if target == None {
      return PermError;
    }
    var found := LookupSPF(r, target.value, lim);
    match found {
      case TempFailure => code := TempError;
      case Record(next) => code := EvaluateRecord(r, client, target.value, next, lim);
      case _ => code := PermError;
    }
  }

  /** CheckSPF without a cached record: at most 111 resolver calls. */
  method CheckSPF(r: Resolver, client: Client, domain: string) returns (code: Code, spent: Lim)
    ensures (code, spent) == Check(r, client, domain)
  {
    hide Evaluate, LookupSpf;
    var lim := new Limits();
    var found := LookupSPF(r, domain, lim);
    match found {
      case TempFailure => code := TempError;
      case Several => code := PermError;
      case Missing => code := NoRecord;
      case Record(record) => code := EvaluateRecord(r, client, domain, record, lim);
    }
    spent := lim.State();
  }
}

/** The evaluation of SPF records: a specification by mutually recursive functions,
    whose contracts bound every run over every resolver. */
module SpfCheck {
  import opened Text
  import opened Spf

  datatype Outcome = Match | NoMatch | Void | Temp | Perm

  function Min(a: int, b: int): int {
    if a <= b then a else b
  }

  /** From one state of the counters to a later one: each executed DNS term makes
      at most eleven resolver calls, and the eleventh term is never executed. */
  predicate Spent(a: Lim, b: Lim) {
    && a.lookups <= b.lookups <= MAX_TERMS + 1 && a.voids <= b.voids
    && a.calls <= b.calls <= a.calls + 11 * (Min(b.lookups, MAX_TERMS) - a.lookups)
  }

  predicate Within(l: Lim) {
    l.lookups <= MAX_TERMS && l.voids <= MAX_VOIDS
  }

  // ---------- address mechanisms ----------

  predicate SomeIn(client: Client, ips: seq<string>, v4: int, v6: int) {
    exists i :: 0 <= i < |ips| && client.inCidr(ips[i], v4, v6)
  }

  predicate SomeIp4(client: Client, ips: seq<string>) {
    exists i :: 0 <= i < |ips| && client.isIp4(ips[i])
  }

  function OrDomain(host: string, domain: string): string {
    if host == "" then domain else host
  }

  /** Macro expansion of an a or mx value, which keeps its prefix lengths. */
  function ExpandDual(client: Client, value: string, domain: string): Option<string> {
    var split := SplitDual(value);
    if split == None then None
    else
      var host := client.expand(split.value.0, domain);
      if host == None then None else Some(host.value + value[|split.value.0|..])
  }

  function EvalA(r: Resolver, client: Client, value: string, domain: string, lim: Lim): (res: (Outcome, Lim))
    ensures res.1 == lim || res.1 == lim.(calls := lim.calls + 1)
  {
    var spec := ExpandDual(client, value, domain);
    if spec == None || SplitDual(spec.value) == None then (Perm, lim)
    else
      var (host, v4, v6) := SplitDual(spec.value).value;
      var next := lim.(calls := lim.calls + 1);
      match r.ip(lim.calls, OrDomain(host, domain))
      case Temporary => (Temp, next)
      case Failed => (Void, next)
      case Found(ips) => (if ips == [] then Void else if SomeIn(client, ips, v4, v6) then Match else NoMatch, next)
  }

  function EvalExists(r: Resolver, client: Client, value: string, domain: string, lim: Lim): (res: (Outcome, Lim))
    ensures res.1 == lim || res.1 == lim.(calls := lim.calls + 1)
  {
    var spec := client.expand(value, domain);
    if spec == None then (Perm, lim)
    else
      var next := lim.(calls := lim.calls + 1);
      match r.ip(lim.calls, spec.value)
      case Temporary => (Temp, next)
      case Failed => (Void, next)
      case Found(ips) => (if SomeIp4(client, ips) then Match else Void, next)
  }

  /** The loop over the mail hosts of an mx term; k hosts are done. Void address
      lookups count here, one by one. */
  function EvalHosts(r: Resolver, client: Client, hosts: seq<string>, k: nat, v4: int, v6: int, lim: Lim): (res: (Outcome, Lim))
    requires k <= |hosts| && k <= MAX_MX && Within(lim)
    ensures res.1.lookups == lim.lookups && lim.voids <= res.1.voids && lim.calls <= res.1.calls <= lim.calls + (MAX_MX - k)
    ensures res.0 != Perm ==> Within(res.1) && res.0 != Void
    decreases |hosts| - k
  {
    if k == |hosts| then (NoMatch, lim)
    else if k >= MAX_MX then (Perm, lim)
    else
      var next := lim.(calls := lim.calls + 1);
      match r.ip(lim.calls, hosts[k])
      case Temporary => (Temp, next)
      case Found(ips) =>
        if ips == [] then SkipHost(r, client, hosts, k, v4, v6, next)
        else if SomeIn(client, ips, v4, v6) then (Match, next)
        else EvalHosts(r, client, hosts, k + 1, v4, v6, next)
      case Failed => SkipHost(r, client, hosts, k, v4, v6, next)
  }

  function SkipHost(r: Resolver, client: Client, hosts: seq<string>, k: nat, v4: int, v6: int, lim: Lim): (res: (Outcome, Lim))
    requires k < |hosts| && k < MAX_MX && Within(lim)
    ensures res.1.lookups == lim.lookups && lim.voids <= res.1.voids && lim.calls <= res.1.calls <= lim.calls + (MAX_MX - k - 1)
    ensures res.0 != Perm ==> Within(res.1) && res.0 != Void
    decreases |hosts| - k, 0
  {
    var next := lim.(voids := lim.voids + 1);
    if next.voids > MAX_VOIDS then (Perm, next) else EvalHosts(r, client, hosts, k + 1, v4, v6, next)
  }

  function EvalMx(r: Resolver, client: Client, value: string, domain: string, lim: Lim): (res: (Outcome, Lim))
    requires Within(lim)
    ensures res.1.lookups == lim.lookups && lim.voids <= res.1.voids && lim.calls <= res.1.calls <= lim.calls + 11
    ensures res.0 != Perm ==> Within(res.1)
  {
    var spec := ExpandDual(client, value, domain);
    if spec == None || SplitDual(spec.value) == None then (Perm, lim)
    else
      var (host, v4, v6) := SplitDual(spec.value).value;
      var next := lim.(calls := lim.calls + 1);
      match r.mx(lim.calls, OrDomain(host, domain))
      case Temporary => (Temp, next)
      case Failed => (Void, next)
      case Found(hosts) => if hosts == [] then (Void, next) else EvalHosts(r, client, hosts, 0, v4, v6, next)
  }

  // ---------- the recursion ----------

  function Left(lim: Lim): nat {
    if lim.lookups <= MAX_TERMS then MAX_TERMS - lim.lookups else 0
  }

  /** A mechanism that is a DNS term, already counted. */
  function EvalDns(r: Resolver, client: Client, domain: string, t: Term, lim: Lim): (res: (Outcome, Lim))
    requires Within(lim)
    ensures lim.lookups <= res.1.lookups <= MAX_TERMS + 1 && lim.voids <= res.1.voids
    ensures lim.calls <= res.1.calls <= lim.calls + 11 + 11 * (Min(res.1.lookups, MAX_TERMS) - lim.lookups)
    ensures res.0 != Perm ==> Within(res.1)
    decreases Left(lim), 3, 0
  {
    if t.typ == "a" then EvalA(r, client, t.value, domain, lim)
    else if t.typ == "mx" then EvalMx(r, client, t.value, domain, lim)
    else if t.typ == "ptr" then (NoMatch, lim)
    else if t.typ == "exists" then EvalExists(r, client, t.value, domain, lim)
    else if t.typ == "include" then
      var spec := client.expand(t.value, domain);
      if spec == None then (Perm, lim) else EvalInclude(r, client, spec.value, lim)
    else (Perm, lim)
  }

  function EvalInclude(r: Resolver, client: Client, domain: string, lim: Lim): (res: (Outcome, Lim))
    requires Within(lim)
    ensures lim.lookups <= res.1.lookups <= MAX_TERMS + 1 && lim.voids <= res.1.voids
    ensures lim.calls <= res.1.calls <= lim.calls + 1 + 11 * (Min(res.1.lookups, MAX_TERMS) - lim.lookups)
    ensures res.0 != Perm ==> Within(res.1)
    decreases Left(lim), 2, 0
  {
    var next := lim.(calls := lim.calls + 1);
    match LookupSpf(r, lim.calls, domain)
    case TempFailure => (Temp, next)
    case Record(record) =>
      var (code, after) := Evaluate(r, client, domain, record, next);
      (if code == PermError then Perm else if code == TempError then Temp else if code == Pass then Match else NoMatch, after)
    case _ => (Perm, next)
  }

  /** One mechanism: counted if it is a DNS term, evaluated, and its void lookup
      counted; a code if it decides. */
  function OneTerm(r: Resolver, client: Client, domain: string, t: Term, lim: Lim): (res: (Option<Code>, Lim))
    requires Within(lim)
    ensures Spent(lim, res.1)
    ensures res.0 != Some(PermError) ==> Within(res.1)
    decreases Left(lim), 0, 0
  {
    var counted := if IsDnsTerm(t.typ) then lim.(lookups := lim.lookups + 1) else lim;
    if counted.lookups > MAX_TERMS then (Some(PermError), counted)
    else
      var (out, after) :=
        if IsDnsTerm(t.typ) then EvalDns(r, client, domain, t, counted) else (EvalLocal(client, t), counted);
      Settle(t, out, after)
  }

  /** What the outcome of a mechanism decides. */
  function Settle(t: Term, out: Outcome, lim: Lim): (Option<Code>, Lim) {
    var voided := if out == Void then lim.(voids := lim.voids + 1) else lim;
    if out == Temp then (Some(TempError), lim)
    else if out == Perm || voided.voids > MAX_VOIDS then (Some(PermError), voided)
    else if out == Match then (Some(t.qualifier), lim)
    else (None, voided)
  }

  /** The mechanisms from left to right, until one decides. */
  function EvalTerms(r: Resolver, client: Client, domain: string, terms: seq<Term>, lim: Lim): (res: (Option<Code>, Lim))
    requires Within(lim)
    ensures Spent(lim, res.1)
    ensures res.0 != Some(PermError) ==> Within(res.1)
    decreases Left(lim), 0, |terms|
  {
    if terms == [] then (None, lim)
    else
      var (code, after) := OneTerm(r, client, domain, terms[0], lim);
      if code.Some? then (code, after) else EvalTerms(r, client, domain, terms[1..], after)
  }

  /** The mechanisms that need no resolver. */
  function EvalLocal(client: Client, t: Term): Outcome {
    if t.typ == "all" then Match
    else if t.typ == "ip4" || t.typ == "ip6" then
      var v6 := t.typ == "ip6";
      if !client.validIp(t.value, v6) then Perm else if client.matchesIp(t.value, v6) then Match else NoMatch
    else Perm
  }

  /** evaluate: parse, refuse syntax errors, run the mechanisms, then follow a
      redirect when none matched. */
  function Evaluate(r: Resolver, client: Client, domain: string, record: string, lim: Lim): (res: (Code, Lim))
    requires Within(lim)
    ensures Spent(lim, res.1)
    ensures res.0 != PermError ==> Within(res.1)
    decreases Left(lim), 1, 0
  {
    match Separate(Parse(record), None, [])
    case Bad => (PermError, lim)
    case Good(redirect, mechs) =>
      var (code, after) := EvalTerms(r, client, domain, mechs, lim);
      if code.Some? then (code.value, after)
      else if redirect == "" then (Neutral, after)
      else EvalRedirect(r, client, domain, redirect, after)
  }

  function EvalRedirect(r: Resolver, client: Client, domain: string, redirect: string, lim: Lim): (res: (Code, Lim))
    requires Within(lim)
    ensures Spent(lim, res.1)
    ensures res.0 != PermError ==> Within(res.1)
    decreases Left(lim), 0, 0
  {
    var counted := lim.(lookups := lim.lookups + 1);
    var target := client.expand(redirect, domain);
    if counted.lookups > MAX_TERMS || target == None then (PermError, counted)
    else
      var next := counted.(calls := counted.calls + 1);
      match LookupSpf(r, counted.calls, target.value)
      case TempFailure => (TempError, next)
      case Record(record) => Evaluate(r, client, target.value, record, next)
      case _ => (PermError, next)
  }

  /** CheckSPF with an empty cache. */
  function Check(r: Resolver, client: Client, domain: string): (res: (Code, Lim))
    ensures res.1.lookups <= MAX_TERMS + 1 && res.1.calls <= 111
    ensures res.0 != PermError ==> Within(res.1)
  {
    var next := Lim(0, 0, 1);
    match LookupSpf(r, 0, domain)
    case TempFailure => (TempError, next)
    case Several => (PermError, next)
    case Missing => (NoRecord, next)
    case Record(record) => Evaluate(r, client, domain, record, next)
  }

  // ---------- the order of evaluation ----------

  /** Mechanisms are tried from left to right over the same counters, and none is
      tried after one that decides. */
  lemma {:induction false} EvalAppend(r: Resolver, client: Client, domain: string, a: seq<Term>, b: seq<Term>, lim: Lim)
    requires Within(lim)
    ensures EvalTerms(r, client, domain, a + b, lim) ==
              var (code, after) := EvalTerms(r, client, domain, a, lim);
              if code.Some? then (code, after) else EvalTerms(r, client, domain, b, after)
    decreases a
  {
    hide OneTerm;
    if a == [] {
      assert a + b == b;
    } else {
      assert (a + b)[1..] == a[1..] + b;
      var (code, after) := OneTerm(r, client, domain, a[0], lim);
      if code == None {
        EvalAppend(r, client, domain, a[1..], b, after);
      }
    }
  }

  /** An all mechanism always decides: what stands after it, and a redirect, is
      never looked at (section 5.1 of RFC 7208). */
  lemma AllDecides(r: Resolver, client: Client, domain: string, a: seq<Term>, t: Term, b: seq<Term>, lim: Lim)
    requires Within(lim) && t.typ == "all"
    ensures EvalTerms(r, client, domain, a + [t] + b, lim) == EvalTerms(r, client, domain, a + [t], lim)
    ensures EvalTerms(r, client, domain, a + [t], lim).0.Some?
    ensures var (code, after) := EvalTerms(r, client, domain, a, lim);
            code == None ==> EvalTerms(r, client, domain, a + [t] + b, lim) == (Some(t.qualifier), after)
  {
    EvalAppend(r, client, domain, a + [t], b, lim);
    EvalAppend(r, client, domain, a, [t], lim);
    var (code, after) := EvalTerms(r, client, domain, a, lim);
    if code == None {
      assert OneTerm(r, client, domain, t, after) == (Some(t.qualifier), after);
      assert EvalTerms(r, client, domain, [t], after) == (Some(t.qualifier), after);
    }
  }
}

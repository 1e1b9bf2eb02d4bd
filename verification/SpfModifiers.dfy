/** Modifiers may stand anywhere: moving redirect=, exp= and unknown modifiers
    around in any records of a zone never changes a result. */
module SpfModifiers {
  import opened Text
  import opened Spf
  import opened SpfCheck

  predicate IsModifierWord(w: string) {
    ParseTerm(w).typ in {"", "redirect", "exp"}
  }

  function Mechanisms(words: seq<string>): seq<string> {
    if words == [] then [] else (if IsModifierWord(words[0]) then [] else [words[0]]) + Mechanisms(words[1..])
  }

  function Modifiers(words: seq<string>): seq<string> {
    if words == [] then [] else (if IsModifierWord(words[0]) then [words[0]] else []) + Modifiers(words[1..])
  }

  /** The same mechanisms in the same order, the same modifiers in any order. */
  predicate Shuffled(a: string, b: string) {
    && Mechanisms(Fields(a)) == Mechanisms(Fields(b))
    && multiset(Modifiers(Fields(a))) == multiset(Modifiers(Fields(b)))
  }

  // ---------- the first pass ----------

  /** The redirect targets among words. */
  function Redirects(words: seq<string>): seq<string> {
    if words == [] then []
    else (if ParseTerm(words[0]).typ == "redirect" then [ParseTerm(words[0]).value] else []) + Redirects(words[1..])
  }

  function MechanismTerms(words: seq<string>): seq<Term> {
    seq(|words|, i requires 0 <= i < |words| => ParseTerm(words[i]))
  }

  /** What the first pass depends on: the mechanisms in order and the redirects. */
  function FrontOf(redirect: Option<string>, redirects: seq<string>, mechs: seq<Term>, terms: seq<Term>): Front {
    var all := (if redirect.Some? then [redirect.value] else []) + redirects;
    if |all| > 1 || "" in redirects || (exists i :: 0 <= i < |terms| && Malformed(terms[i])) then Bad
    else Good(if all == [] then "" else all[0], mechs + terms)
  }

  lemma MechanismsCons(words: seq<string>)
    requires words != []
    ensures IsModifierWord(words[0]) ==> MechanismTerms(Mechanisms(words)) == MechanismTerms(Mechanisms(words[1..]))
    ensures !IsModifierWord(words[0]) ==>
              MechanismTerms(Mechanisms(words)) == [ParseTerm(words[0])] + MechanismTerms(Mechanisms(words[1..]))
  {
    hide ParseTerm, IsModifierWord;
    if !IsModifierWord(words[0]) {
      TermsCons(words[0], Mechanisms(words[1..]));
    }
  }

  lemma TermsCons(w: string, words: seq<string>)
    ensures MechanismTerms([w] + words) == [ParseTerm(w)] + MechanismTerms(words)
  {
    hide ParseTerm;
  }

  lemma SeparateMechanism(redirect: Option<string>, redirects: seq<string>, mechs: seq<Term>, t: Term, terms: seq<Term>)
    ensures FrontOf(redirect, redirects, mechs, [t] + terms) ==
              if Malformed(t) then Bad else FrontOf(redirect, redirects, mechs + [t], terms)
  {
    hide Malformed;
    var ts := [t] + terms;
    assert ts[0] == t && forall i :: 0 <= i < |terms| ==> ts[i + 1] == terms[i];
    assert mechs + [t] + terms == mechs + ts;
    if i :| 0 <= i < |terms| && Malformed(terms[i]) {
      assert Malformed(ts[i + 1]);
    }
    assert Malformed(t) ==> Malformed(ts[0]);
    if j :| 0 <= j < |ts| && Malformed(ts[j]) {
      if j > 0 {
        assert ts[j] == terms[j - 1];
      }
    }
  }

  lemma SeparateRedirect(redirect: Option<string>, value: string, redirects: seq<string>, mechs: seq<Term>, terms: seq<Term>)
    ensures FrontOf(redirect, [value] + redirects, mechs, terms) ==
              if redirect.Some? || value == "" then Bad else FrontOf(Some(value), redirects, mechs, terms)
  {
    hide Malformed;
    var more := [value] + redirects;
    assert more[0] == value;
    assert "" in more <==> value == "" || "" in redirects;
    assert redirect == None ==> [] + more == more;
  }

  /** The front depends on nothing but the mechanisms in order and the redirects. */
  lemma {:induction false} SeparateIs(words: seq<string>, redirect: Option<string>, mechs: seq<Term>)
    ensures Separate(ParseTerms(words), redirect, mechs) == FrontOf(redirect, Redirects(words), mechs, MechanismTerms(Mechanisms(words)))
    decreases words
  {
    hide ParseTerm, Malformed;
    if words == [] {
      assert mechs + [] == mechs;
    } else {
      var t, rest := ParseTerm(words[0]), words[1..];
      var terms := MechanismTerms(Mechanisms(rest));
      hide FrontOf, Separate;
      MechanismsCons(words);
      SeparateStep(t, ParseTerms(rest), redirect, mechs);
      if t.typ == "redirect" {
        SeparateIs(rest, Some(t.value), mechs);
        SeparateRedirect(redirect, t.value, Redirects(rest), mechs, terms);
      } else {
        assert Redirects(words) == Redirects(rest);
        if t.typ == "exp" || t.typ == "" {
          assert t.typ == "" ==> ParseTerms(words) == ParseTerms(rest);
          SeparateIs(rest, redirect, mechs);
        } else {
          SeparateIs(rest, redirect, mechs + [t]);
          SeparateMechanism(redirect, Redirects(rest), mechs, t, terms);
        }
      }
    }
  }

  lemma SeparateStep(t: Term, terms: seq<Term>, redirect: Option<string>, mechs: seq<Term>)
    ensures Separate([t] + terms, redirect, mechs) ==
              if t.typ == "redirect" then
                if redirect.Some? || t.value == "" then Bad else Separate(terms, Some(t.value), mechs)
              else if t.typ == "exp" then Separate(terms, redirect, mechs)
              else if Malformed(t) then Bad
              else Separate(terms, redirect, mechs + [t])
  {
    hide Malformed;
    assert ([t] + terms)[1..] == terms;
  }

  // ---------- modifiers as a multiset ----------

  lemma {:induction false} RedirectsAmong(words: seq<string>)
    ensures Redirects(words) == Redirects(Modifiers(words))
  {
    hide ParseTerm;
    if words != [] {
      RedirectsAmong(words[1..]);
      if IsModifierWord(words[0]) {
        RedirectsAppend([words[0]], Modifiers(words[1..]));
        assert [words[0]][1..] == [];
      } else {
        assert Modifiers(words) == Modifiers(words[1..]);
      }
    }
  }

  lemma {:induction false} RedirectsAppend(a: seq<string>, b: seq<string>)
    ensures Redirects(a + b) == Redirects(a) + Redirects(b)
  {
    hide ParseTerm;
    if a == [] {
      assert a + b == b;
    } else {
      assert (a + b)[1..] == a[1..] + b;
      RedirectsAppend(a[1..], b);
    }
  }

  lemma {:induction false} RedirectsPermuted(a: seq<string>, b: seq<string>)
    requires multiset(a) == multiset(b)
    ensures multiset(Redirects(a)) == multiset(Redirects(b))
    decreases |a|
  {
    hide Redirects;
    if a == [] {
      assert |b| == |multiset(b)| == 0;
    } else {
      var i := TakeOut(a, b);
      RedirectsPermuted(a[1..], b[..i] + b[i + 1..]);
      RedirectsWithout(a, 0);
      RedirectsWithout(b, i);
      assert a[..0] + a[1..] == a[1..];
    }
  }

  lemma TakeOut(a: seq<string>, b: seq<string>) returns (i: nat)
    requires a != [] && multiset(a) == multiset(b)
    ensures i < |b| && b[i] == a[0] && multiset(a[1..]) == multiset(b[..i] + b[i + 1..])
  {
    assert a[0] in multiset(b);
    i :| 0 <= i < |b| && b[i] == a[0];
    WithoutOne(a, 0);
    WithoutOne(b, i);
    assert a[..0] + a[1..] == a[1..];
    assert multiset(a[1..]) == multiset(a) - multiset{a[0]};
    assert multiset(b[..i] + b[i + 1..]) == multiset(b) - multiset{b[i]};
  }

  lemma RedirectsWithout(b: seq<string>, i: nat)
    requires i < |b|
    ensures multiset(Redirects(b)) == multiset(Redirects([b[i]])) + multiset(Redirects(b[..i] + b[i + 1..]))
  {
    hide Redirects;
    assert b == b[..i] + ([b[i]] + b[i + 1..]);
    RedirectsAppend(b[..i], [b[i]] + b[i + 1..]);
    RedirectsAppend([b[i]], b[i + 1..]);
    RedirectsAppend(b[..i], b[i + 1..]);
  }

  lemma WithoutOne(b: seq<string>, i: nat)
    requires i < |b|
    ensures multiset(b) == multiset{b[i]} + multiset(b[..i] + b[i + 1..])
  {
    assert b == b[..i] + [b[i]] + b[i + 1..];
  }

  lemma FrontPermuted(a: seq<string>, b: seq<string>, terms: seq<Term>)
    requires multiset(a) == multiset(b)
    ensures FrontOf(None, a, [], terms) == FrontOf(None, b, [], terms)
  {
    hide Malformed;
    assert |a| == |multiset(a)| == |multiset(b)| == |b|;
    assert "" in a <==> "" in multiset(a);
    assert "" in b <==> "" in multiset(b);
    assert [] + a == a && [] + b == b;
    if |a| == 1 {
      assert a[0] in multiset(b);
      assert a == [a[0]] && b == [b[0]];
    }
  }

  /** Records that differ only in where their modifiers stand have the same front. */
  lemma SameFront(a: string, b: string)
    requires Shuffled(a, b)
    ensures Separate(Parse(a), None, []) == Separate(Parse(b), None, [])
  {
    var x, y := Fields(a), Fields(b);
    SeparateIs(x, None, []);
    SeparateIs(y, None, []);
    RedirectsAmong(x);
    RedirectsAmong(y);
    RedirectsPermuted(Modifiers(x), Modifiers(y));
    hide FrontOf, Redirects, Separate, Fields;
    FrontPermuted(Redirects(x), Redirects(y), MechanismTerms(Mechanisms(x)));
  }

  // ---------- zones ----------

  predicate SameRecord(a: string, b: string) {
    a == b || (IsSpf(a) && IsSpf(b) && Shuffled(a, b))
  }

  predicate SameTexts(a: seq<string>, b: seq<string>) {
    |a| == |b| && forall i :: 0 <= i < |a| ==> SameRecord(a[i], b[i])
  }

  predicate SameAnswer(a: Answer<seq<string>>, b: Answer<seq<string>>) {
    match a
    case Found(x) => b.Found? && SameTexts(x, b.value)
    case _ => a == b
  }

  /** Two resolvers that answer alike up to the position of modifiers, call by call. */
  ghost predicate SameZone(r: Resolver, s: Resolver) {
    && s == Resolver(s.txt, r.ip, r.mx)
    && forall n: nat, d: string :: SameAnswer(r.txt(n, d), s.txt(n, d))
  }

  lemma {:induction false} SameSpfRecords(a: seq<string>, b: seq<string>)
    requires SameTexts(a, b)
    ensures |SpfRecords(a)| == |SpfRecords(b)|
    ensures forall i :: 0 <= i < |SpfRecords(a)| ==> Shuffled(SpfRecords(a)[i], SpfRecords(b)[i])
  {
    hide Shuffled, IsSpf;
    if a != [] {
      SameSpfRecords(a[1..], b[1..]);
      assert SameRecord(a[0], b[0]);
      ShuffledSelf(a[0]);
    }
  }

  lemma ShuffledSelf(a: string)
    ensures Shuffled(a, a)
  {}

  predicate SameLookup(a: Lookup, b: Lookup) {
    match a
    case Record(x) => b.Record? && Shuffled(x, b.record)
    case _ => a == b
  }

  lemma LookupSame(r: Resolver, s: Resolver, call: nat, domain: string)
    requires SameZone(r, s)
    ensures SameLookup(LookupSpf(r, call, domain), LookupSpf(s, call, domain))
  {
    hide Shuffled;
    assert SameAnswer(r.txt(call, domain), s.txt(call, domain));
    if r.txt(call, domain).Found? {
      SameSpfRecords(r.txt(call, domain).value, s.txt(call, domain).value);
      hide SpfRecords;
    }
  }

  lemma {:induction false} HostsSame(r: Resolver, s: Resolver, client: Client, hosts: seq<string>, k: nat, v4: int, v6: int, lim: Lim)
    requires SameZone(r, s) && k <= |hosts| && k <= MAX_MX && Within(lim)
    ensures EvalHosts(r, client, hosts, k, v4, v6, lim) == EvalHosts(s, client, hosts, k, v4, v6, lim)
    decreases |hosts| - k
  {
    hide SameAnswer;
    if k < |hosts| && k < MAX_MX {
      var next := lim.(calls := lim.calls + 1);
      HostsSame(r, s, client, hosts, k + 1, v4, v6, next);
      if lim.voids + 1 <= MAX_VOIDS {
        HostsSame(r, s, client, hosts, k + 1, v4, v6, next.(voids := next.voids + 1));
      }
    }
  }

  lemma MxSame(r: Resolver, s: Resolver, client: Client, value: string, domain: string, lim: Lim)
    requires SameZone(r, s) && Within(lim)
    ensures EvalMx(r, client, value, domain, lim) == EvalMx(s, client, value, domain, lim)
  {
    hide SameAnswer, EvalHosts, ExpandDual;
    var spec := ExpandDual(client, value, domain);
    if spec.Some? && SplitDual(spec.value).Some? {
      var (host, v4, v6) := SplitDual(spec.value).value;
      hide SplitDual;
      var next := lim.(calls := lim.calls + 1);
      var answer := r.mx(lim.calls, OrDomain(host, domain));
      if answer.Found? {
        HostsSame(r, s, client, answer.value, 0, v4, v6, next);
      }
    }
  }

  lemma {:induction false} DnsSame(r: Resolver, s: Resolver, client: Client, domain: string, t: Term, lim: Lim)
    requires SameZone(r, s) && Within(lim)
    ensures EvalDns(r, client, domain, t, lim) == EvalDns(s, client, domain, t, lim)
    decreases Left(lim), 3, 0
  {
    hide SameAnswer, EvalMx, ExpandDual, SplitDual, EvalInclude;
    if t.typ == "mx" {
      MxSame(r, s, client, t.value, domain, lim);
    } else if t.typ == "include" {
      var spec := client.expand(t.value, domain);
      if spec.Some? {
        IncludeSame(r, s, client, spec.value, lim);
      }
    }
  }

  lemma {:induction false} IncludeSame(r: Resolver, s: Resolver, client: Client, domain: string, lim: Lim)
    requires SameZone(r, s) && Within(lim)
    ensures EvalInclude(r, client, domain, lim) == EvalInclude(s, client, domain, lim)
    decreases Left(lim), 2, 0
  {
    LookupSame(r, s, lim.calls, domain);
    hide SameZone, Shuffled, LookupSpf, Evaluate;
    var next := lim.(calls := lim.calls + 1);
    var a, b := LookupSpf(r, lim.calls, domain), LookupSpf(s, lim.calls, domain);
    if a.Record? {
      EvaluateSame(r, s, client, domain, a.record, b.record, next);
    }
  }

  lemma {:induction false} OneSame(r: Resolver, s: Resolver, client: Client, domain: string, t: Term, lim: Lim)
    requires SameZone(r, s) && Within(lim)
    ensures OneTerm(r, client, domain, t, lim) == OneTerm(s, client, domain, t, lim)
    decreases Left(lim), 0, 0
  {
    hide SameZone, EvalDns, IsDnsTerm, EvalLocal;
    var counted := lim.(lookups := lim.lookups + 1);
    if IsDnsTerm(t.typ) && counted.lookups <= MAX_TERMS {
      DnsSame(r, s, client, domain, t, counted);
    }
  }

  lemma {:induction false} TermsSame(r: Resolver, s: Resolver, client: Client, domain: string, terms: seq<Term>, lim: Lim)
    requires SameZone(r, s) && Within(lim)
    ensures EvalTerms(r, client, domain, terms, lim) == EvalTerms(s, client, domain, terms, lim)
    decreases Left(lim), 0, |terms|
  {
    hide SameZone, OneTerm;
    if terms != [] {
      OneSame(r, s, client, domain, terms[0], lim);
      var (code, after) := OneTerm(r, client, domain, terms[0], lim);
      if code == None {
        TermsSame(r, s, client, domain, terms[1..], after);
      }
    }
  }

  /** For every zone, every client and every start of the counters: the same
      code, the same counters and the same number of resolver calls. */
  lemma {:induction false} EvaluateSame(r: Resolver, s: Resolver, client: Client, domain: string, a: string, b: string, lim: Lim)
    requires SameZone(r, s) && Shuffled(a, b) && Within(lim)
    ensures Evaluate(r, client, domain, a, lim) == Evaluate(s, client, domain, b, lim)
    decreases Left(lim), 1, 0
  {
    SameFront(a, b);
    hide SameZone, Shuffled, Separate, Parse, EvalTerms, EvalRedirect;
    var front := Separate(Parse(a), None, []);
    if front.Good? {
      TermsSame(r, s, client, domain, front.mechs, lim);
      var (code, after) := EvalTerms(r, client, domain, front.mechs, lim);
      if code == None && front.redirect != "" {
        RedirectSame(r, s, client, domain, front.redirect, after);
      }
    }
  }

  lemma {:induction false} RedirectSame(r: Resolver, s: Resolver, client: Client, domain: string, redirect: string, lim: Lim)
    requires SameZone(r, s) && Within(lim)
    ensures EvalRedirect(r, client, domain, redirect, lim) == EvalRedirect(s, client, domain, redirect, lim)
    decreases Left(lim), 0, 0
  {
    hide SameZone, Shuffled, LookupSpf, Evaluate;
    var counted := lim.(lookups := lim.lookups + 1);
    var target := client.expand(redirect, domain);
    if counted.lookups <= MAX_TERMS && target.Some? {
      LookupSame(r, s, counted.calls, target.value);
      var next := counted.(calls := counted.calls + 1);
      var a, b := LookupSpf(r, counted.calls, target.value), LookupSpf(s, counted.calls, target.value);
      if a.Record? {
        EvaluateSame(r, s, client, target.value, a.record, b.record, next);
      }
    }
  }

  /** A whole check gives the same result in both zones. */
  lemma CheckSame(r: Resolver, s: Resolver, client: Client, domain: string)
    requires SameZone(r, s)
    ensures Check(r, client, domain) == Check(s, client, domain)
  {
    LookupSame(r, s, 0, domain);
    hide SameZone, Shuffled, LookupSpf, Evaluate;
    var a, b := LookupSpf(r, 0, domain), LookupSpf(s, 0, domain);
    if a.Record? {
      EvaluateSame(r, s, client, domain, a.record, b.record, Lim(0, 0, 1));
    }
  }
}

/** SPF records as text: what is published reads back term by term, and what the record of
    the commonest shape makes of a check. */
module SpfText {
  import opened Text
  import opened Spf
  import opened SpfCheck
  import opened SpfMeaning

  // ---------- terms ----------

  /** The qualifier characters (section 4.6.2 of RFC 7208). */
  function QualifierChar(q: Code): string {
    match q
    case Fail => "-"
    case SoftFail => "~"
    case Neutral => "?"
    case _ => "+"
  }

  predicate IsQualifier(q: Code) {
    q == Pass || q == Fail || q == SoftFail || q == Neutral
  }

  predicate IsModifier(typ: string) {
    typ == "redirect" || typ == "exp"
  }

  function PrintTerm(t: Term): string {
    if IsModifier(t.typ) then t.typ + "=" + t.value
    else QualifierChar(t.qualifier) + t.typ + (if t.colon then ":" + t.value else t.value)
  }

  predicate Special(c: char) {
    c == ':' || c == '/' || c == '='
  }

  /** A name as records use it: lower case, no special character, no white space. */
  predicate CleanName(s: string) {
    s != "" && IsLower(s) && NoSpace(s) && forall i :: 0 <= i < |s| ==> !Special(s[i])
  }

  /** A term with a value after a colon, a or mx with prefix lengths, or a bare name; or a
      modifier. */
  predicate Printable(t: Term) {
    && CleanName(t.typ) && NoSpace(t.value)
    && if IsModifier(t.typ) then t.qualifier == Pass && !t.colon
       else IsQualifier(t.qualifier) &&
            (t.colon || t.value == "" || ((t.typ == "a" || t.typ == "mx") && t.value[0] == '/' && ':' !in t.value))
  }

  lemma {:induction false} IndexAnyAt(a: string, c: char, b: string)
    requires (forall i :: 0 <= i < |a| ==> !Special(a[i])) && Special(c)
    ensures IndexAny(a + [c] + b) == |a|
  {
    var s := a + [c] + b;
    if a != "" {
      assert s[1..] == a[1..] + [c] + b;
      IndexAnyAt(a[1..], c, b);
    }
  }

  lemma {:induction false} IndexAnyNone(a: string)
    requires forall i :: 0 <= i < |a| ==> !Special(a[i])
    ensures IndexAny(a) == -1
  {
    if a != "" {
      IndexAnyNone(a[1..]);
    }
  }

  lemma QualifierReads(q: Code, part: string)
    requires IsQualifier(q)
    ensures Qualifier(QualifierChar(q) + part) == (q, part)
  {
    var c := QualifierChar(q);
    assert (c + part)[0] == c[0] && (c + part)[1..] == part;
  }

  /** A term without a qualifier passes. */
  lemma NoQualifier(name: string, more: string)
    requires name != "" && name[0] !in ['+', '-', '~', '?']
    ensures Qualifier(name + more) == (Pass, name + more)
  {
    assert (name + more)[0] == name[0];
  }

  lemma ColonTerm(q: Code, typ: string, value: string)
    requires CleanName(typ)
    ensures TermOf(q, typ + ":" + value) == Term(q, typ, value, true)
  {
    var part := typ + ":" + value;
    IndexAnyAt(typ, ':', value);
    assert ':' !in typ;
    IndexOfAt(typ, ':', value);
    LowerOfLower(typ);
    hide IndexAny, IndexOf;
    assert part[|typ|] == ':' && part[..|typ|] == typ && part[|typ| + 1..] == value;
  }

  lemma SlashTerm(q: Code, typ: string, value: string)
    requires CleanName(typ) && (typ == "a" || typ == "mx") && value != "" && value[0] == '/' && ':' !in value
    ensures TermOf(q, typ + value) == Term(q, typ, value, false)
  {
    var part := typ + value;
    assert value == "/" + value[1..];
    assert part == typ + "/" + value[1..];
    IndexAnyAt(typ, '/', value[1..]);
    assert '/' !in typ && ':' !in typ;
    IndexOfAt(typ, '/', value[1..]);
    assert ':' !in part;
    LowerOfLower(typ);
    hide IndexAny, IndexOf;
    assert part[|typ|] == '/' && part[..|typ|] == typ && part[|typ|..] == value;
  }

  lemma BareTerm(q: Code, typ: string)
    requires CleanName(typ)
    ensures TermOf(q, typ) == Term(q, typ, "", false)
  {
    IndexAnyNone(typ);
    assert ':' !in typ && '/' !in typ;
    LowerOfLower(typ);
    hide IndexAny, IndexOf;
  }

  lemma ModifierTerm(q: Code, typ: string, value: string)
    requires CleanName(typ) && IsModifier(typ)
    ensures TermOf(q, typ + "=" + value) == Term(q, typ, value, false)
  {
    var part := typ + "=" + value;
    IndexAnyAt(typ, '=', value);
    LowerOfLower(typ);
    hide IndexAny, IndexOf;
    assert part[|typ|] == '=' && part[..|typ|] == typ && part[|typ| + 1..] == value;
  }

  /** Every printable term reads back: its qualifier, name and value. */
  lemma TermReadsBack(t: Term)
    requires Printable(t)
    ensures ParseTerm(PrintTerm(t)) == t
  {
    if IsModifier(t.typ) {
      ModifierReadsBack(t);
    } else {
      MechanismReadsBack(t);
    }
  }

  lemma ModifierReadsBack(t: Term)
    requires Printable(t) && IsModifier(t.typ)
    ensures ParseTerm(PrintTerm(t)) == t
  {
    hide TermOf, Qualifier, CleanName, NoSpace;
    assert "redirect"[0] == 'r' && "exp"[0] == 'e' && t.typ != "";
    NoQualifier(t.typ, "=" + t.value);
    ModifierTerm(Pass, t.typ, t.value);
    assert t.typ + ("=" + t.value) == t.typ + "=" + t.value;
  }

  lemma MechanismReadsBack(t: Term)
    requires Printable(t) && !IsModifier(t.typ)
    ensures ParseTerm(PrintTerm(t)) == t
  {
    hide TermOf, Qualifier, CleanName, NoSpace, QualifierChar;
    var tail := if t.colon then ":" + t.value else t.value;
    QualifierReads(t.qualifier, t.typ + tail);
    PrintedIs(t, tail);
    if t.colon {
      ColonTerm(t.qualifier, t.typ, t.value);
      assert t.typ + tail == t.typ + ":" + t.value;
    } else if t.value == "" {
      BareTerm(t.qualifier, t.typ);
      assert t.typ + tail == t.typ;
    } else {
      SlashTerm(t.qualifier, t.typ, t.value);
    }
  }

  lemma PrintedIs(t: Term, tail: string)
    requires !IsModifier(t.typ) && tail == if t.colon then ":" + t.value else t.value
    ensures PrintTerm(t) == QualifierChar(t.qualifier) + (t.typ + tail)
  {
    hide QualifierChar;
  }

  // ---------- records ----------

  function Words(terms: seq<Term>): string {
    if terms == [] then "" else " " + PrintTerm(terms[0]) + Words(terms[1..])
  }

  function PrintRecord(terms: seq<Term>): string {
    "v=spf1" + Words(terms)
  }

  predicate AllPrintable(terms: seq<Term>) {
    forall i :: 0 <= i < |terms| ==> Printable(terms[i])
  }

  lemma {:induction false} WordEndAt(w: string, rest: string)
    requires w != "" && NoSpace(w) && (rest == "" || IsSpace(rest[0]))
    ensures WordEnd(w + rest) == |w|
  {
    var s := w + rest;
    if |w| > 1 {
      assert s[1..] == w[1..] + rest;
      WordEndAt(w[1..], rest);
    }
  }

  lemma FirstField(w: string, rest: string)
    requires w != "" && NoSpace(w) && (rest == "" || IsSpace(rest[0]))
    ensures Fields(w + rest) == [w] + Fields(rest)
  {
    WordEndAt(w, rest);
    var s := w + rest;
    assert s[0] == w[0] && s[..|w|] == w && s[|w|..] == rest;
    hide WordEnd;
  }

  lemma PrintedPlain(t: Term)
    requires Printable(t)
    ensures PrintTerm(t) != "" && NoSpace(PrintTerm(t))
  {
    var c := QualifierChar(t.qualifier);
    assert NoSpace(c) && NoSpace("=") && NoSpace(":");
  }

  lemma {:induction false} FieldsOfWords(terms: seq<Term>)
    requires AllPrintable(terms)
    ensures ParseTerms(Fields(Words(terms))) == terms
  {
    hide PrintTerm, ParseTerm, Printable, NoSpace, Fields, ParseTerms;
    if terms == [] {
      NoWords();
    } else {
      var w, rest := PrintTerm(terms[0]), Words(terms[1..]);
      PrintedPlain(terms[0]);
      TermReadsBack(terms[0]);
      FieldsOfWords(terms[1..]);
      WordsStart(terms[1..]);
      WordsStep(terms);
      SkipSpace(w + rest);
      FirstField(w, rest);
      OneMore(w, Fields(rest), terms[0]);
      TypNotEmpty(terms[0]);
      assert terms == [terms[0]] + terms[1..];
    }
  }

  lemma NoWords()
    ensures ParseTerms(Fields(Words([]))) == []
  {}

  lemma WordsStep(terms: seq<Term>)
    requires terms != []
    ensures Words(terms) == " " + (PrintTerm(terms[0]) + Words(terms[1..]))
  {
    hide PrintTerm;
  }

  lemma TypNotEmpty(t: Term)
    requires Printable(t)
    ensures t.typ != ""
  {}

  lemma WordsStart(terms: seq<Term>)
    ensures Words(terms) == "" || IsSpace(Words(terms)[0])
  {
    hide PrintTerm;
  }

  lemma SkipSpace(s: string)
    ensures Fields(" " + s) == Fields(s)
  {
    assert (" " + s)[1..] == s && (" " + s)[0] == ' ';
  }

  lemma OneMore(w: string, words: seq<string>, t: Term)
    requires ParseTerm(w) == t
    ensures ParseTerms([w] + words) == (if t.typ == "" then [] else [t]) + ParseTerms(words)
  {
    hide ParseTerm;
    assert ([w] + words)[1..] == words;
  }

  lemma VersionTerm()
    ensures ParseTerm("v=spf1").typ == "" && NoSpace("v=spf1")
  {
    assert "v=spf1" == "v" + "=" + "spf1";
    IndexAnyAt("v", '=', "spf1");
    assert Qualifier("v=spf1") == (Pass, "v=spf1");
    assert "v=spf1"[..1] == "v" && Lower("v") == "v";
    assert |"redirect"| == 8 && |"exp"| == 3;
    hide IndexAny;
  }

  /** A published record reads back as its terms, in order. */
  lemma RecordReadsBack(terms: seq<Term>)
    requires AllPrintable(terms)
    ensures Parse(PrintRecord(terms)) == terms && IsSpf(PrintRecord(terms))
  {
    VersionTerm();
    FieldsOfWords(terms);
    WordsStart(terms);
    FirstField("v=spf1", Words(terms));
    OneMore("v=spf1", Fields(Words(terms)), ParseTerm("v=spf1"));
    SpfVersion(Words(terms));
    WordsSpace(terms);
    hide Words, Fields, ParseTerms, ParseTerm, IsSpf;
    assert [] + terms == terms;
  }

  lemma WordsSpace(terms: seq<Term>)
    ensures Words(terms) == "" || Words(terms)[0] == ' '
  {
    hide PrintTerm;
  }

  lemma SpfVersion(rest: string)
    ensures rest == "" || rest[0] == ' ' ==> IsSpf("v=spf1" + rest)
  {
    var record := "v=spf1" + rest;
    assert record[..6] == "v=spf1";
    assert rest != "" ==> record[6] == rest[0];
  }

  // ---------- prefix lengths ----------

  /** Every slash is followed by another character. */
  predicate SingleSlashes(a: string) {
    forall i :: 0 <= i < |a| && a[i] == '/' ==> i + 1 < |a| && a[i + 1] != '/'
  }

  lemma {:induction false} DoubleSlashAt(a: string, b: string)
    requires SingleSlashes(a)
    ensures DoubleSlash(a + "//" + b) == |a|
  {
    var s := a + "//" + b;
    if a == "" {
      assert s[0] == '/' && s[1] == '/';
    } else {
      var rest := a[1..];
      assert s[1..] == rest + "//" + b;
      assert s[0] == a[0] && s[1] == if |a| > 1 then a[1] else '/';
      assert SingleSlashes(rest) by {
        forall i | 0 <= i < |rest| && rest[i] == '/' ensures i + 1 < |rest| && rest[i + 1] != '/' {
          assert a[i + 1] == '/' && rest[i] == a[i + 1];
        }
      }
      DoubleSlashAt(rest, b);
      assert !(s[0] == '/' && s[1] == '/');
    }
  }

  lemma {:induction false} NoDoubleSlash(s: string)
    requires '/' !in s
    ensures DoubleSlash(s) == -1 && LastSlash(s) == -1
  {
    if s != "" {
      NoDoubleSlash(s[1..]);
      NoSlashLast(s);
    }
  }

  lemma {:induction false} NoSlashLast(s: string)
    requires '/' !in s
    ensures LastSlash(s) == -1
  {
    if s != "" {
      NoSlashLast(s[..|s| - 1]);
    }
  }

  lemma {:induction false} LastSlashAt(a: string, b: string)
    requires '/' !in b
    ensures LastSlash(a + "/" + b) == |a|
    decreases |b|
  {
    var s := a + "/" + b;
    if b == "" {
      assert s[|s| - 1] == '/';
    } else {
      var n := |b| - 1;
      assert s[..|s| - 1] == a + "/" + b[..n];
      assert s[|s| - 1] == b[n];
      LastSlashAt(a, b[..n]);
    }
  }

  lemma LengthReads(n: nat, most: nat)
    requires n <= most <= MAX_INT64
    ensures PrefixLength(Itoa(n), most) == Some(n) && '/' !in Itoa(n) && Itoa(n) != ""
  {
    AtoiItoa(n);
    ItoaValue(n);
  }

  /** host/n//m names the host and both prefix lengths; a bare host stands for single
      addresses (section 5.6 of RFC 7208). */
  lemma PrefixesRead(host: string, v4: nat, v6: nat)
    requires '/' !in host && v4 <= 32 && v6 <= 128
    ensures SplitDual(host + "/" + Itoa(v4) + "//" + Itoa(v6)) == Some((host, v4, v6))
    ensures SplitDual(host) == Some((host, 32, 128))
  {
    LengthReads(v4, 32);
    LengthReads(v6, 128);
    var a, b := Itoa(v4), Itoa(v6);
    hide Itoa, PrefixLength;
    var front := host + "/" + a;
    var value := front + "//" + b;
    assert SingleSlashes(front) by {
      forall i | 0 <= i < |front| && front[i] == '/' ensures i + 1 < |front| && front[i + 1] != '/' {
        assert i == |host|;
        assert front[i + 1] == a[0] && a[0] in a;
      }
    }
    DoubleSlashAt(front, b);
    LastSlashAt(host, a);
    NoDoubleSlash(host);
    hide DoubleSlash, LastSlash;
    assert value == host + "/" + a + "//" + b;
    assert value[..|front|] == front && value[|front| + 2..] == b;
    assert front[..|host|] == host && front[|host| + 1..] == a;
  }

  // ---------- the commonest record ----------

  /** Include another domain's senders and refuse all others. */
  function IncludeRecord(d: string): seq<Term> {
    [Term(Pass, "include", d, true), Term(Fail, "all", "", false)]
  }

  lemma IncludeFront(d: string)
    requires d != "" && NoSpace(d)
    ensures AllPrintable(IncludeRecord(d))
    ensures Separate(IncludeRecord(d), None, []) == Good("", IncludeRecord(d))
  {
    var ts := IncludeRecord(d);
    IncludeNames();
    hide CleanName, IsModifier;
    assert Printable(ts[0]) && Printable(ts[1]);
    assert !Malformed(ts[0]) && !Malformed(ts[1]);
    hide Malformed, Printable;
    NextMechanism(ts[0], ts[1..], []);
    NextMechanism(ts[1], [], [ts[0]]);
    assert ts == [ts[0]] + ts[1..] && ts[1..] == [ts[1]] + [];
    assert [] + [ts[0]] == [ts[0]] && [ts[0]] + [ts[1]] == ts;
  }

  lemma IncludeNames()
    ensures CleanName("include") && CleanName("all") && !IsModifier("include") && !IsModifier("all")
    ensures "include" != "all" && "include" != "a" && "include" != "mx" && "all" != "a" && "all" != "mx" && "all" != "exists"
  {
    assert |"include"| == 7 && |"all"| == 3 && |"redirect"| == 8 && |"exp"| == 3 && "all"[0] == 'a' && "exp"[0] == 'e';
    assert |"a"| == 1 && |"mx"| == 2 && |"exists"| == 6;
  }

  lemma NextMechanism(t: Term, terms: seq<Term>, mechs: seq<Term>)
    requires !IsModifier(t.typ) && !Malformed(t)
    ensures Separate([t] + terms, None, mechs) == Separate(terms, None, mechs + [t])
  {
    hide Malformed;
    assert ([t] + terms)[1..] == terms;
  }

  /** A domain that publishes include:d and -all: its mail passes if and only if the
      included record passes, and fails if that fails, softfails or is neutral. */
  lemma IncludeOrFail(r: Resolver, client: Client, domain: string, d: string, other: string, included: string)
    requires d != "" && NoSpace(d) && client.expand(d, domain) == Some(other)
    requires r.txt(0, domain) == Found([PrintRecord(IncludeRecord(d))])
    requires LookupSpf(r, 1, other) == Record(included)
    ensures var code, inner := Check(r, client, domain).0, Evaluate(r, client, other, included, Lim(1, 0, 2)).0;
            && (inner == Pass ==> code == Pass)
            && (inner == Fail || inner == SoftFail || inner == Neutral ==> code == Fail)
            && (inner == TempError ==> code == TempError) && (inner == PermError ==> code == PermError)
  {
    var record, ts, lim := PrintRecord(IncludeRecord(d)), IncludeRecord(d), Lim(0, 0, 1);
    IncludeFront(d);
    RecordReadsBack(ts);
    CheckMeans(r, client, domain);
    hide Check, Evaluate, PrintRecord, IsSpf, LookupSpf, Parse, Separate, Onward, NoSpace, AllPrintable;
    assert OnlyRecord([record], 0);
    assert Check(r, client, domain).0 == Evaluate(r, client, domain, record, lim).0;
    assert ts == [] + [ts[0]] + [ts[1]];
    assert Reaches(r, client, domain, record, lim, [], ts[0], [ts[1]], "", lim);
    IncludeMeans(r, client, domain, record, lim, [], ts[0], [ts[1]], "", lim);
    var (inner, after) := Evaluate(r, client, other, included, Lim(1, 0, 2));
    if inner == Fail || inner == SoftFail || inner == Neutral {
      AllOnward(r, client, domain, ts[1], after);
    }
  }

  lemma AllOnward(r: Resolver, client: Client, domain: string, t: Term, lim: Lim)
    requires Within(lim) && t.typ == "all"
    ensures Onward(r, client, domain, [t], "", lim).0 == t.qualifier
  {
    OneAlone(r, client, domain, t, lim);
    OneLocal(r, client, domain, t, lim);
    hide OneTerm, EvalTerms;
  }
}

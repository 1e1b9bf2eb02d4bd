/** The bytes of signed fields determine every one of them: two messages hash to the same
    input only if each h= entry covers the same canonical field in both. */
module SignedFields {
  import opened Text
  import opened DkimHeaders

  // ---------- lines ----------

  /** Text that ends with its only line feed. */
  predicate IsLine(s: string) {
    s != "" && s[|s| - 1] == '\n' && forall i :: 0 <= i < |s| - 1 ==> s[i] != '\n'
  }

  predicate AllLines(ls: seq<string>) {
    forall i :: 0 <= i < |ls| ==> IsLine(ls[i])
  }

  function Concat(ls: seq<string>): string {
    if ls == [] then "" else Concat(ls[..|ls| - 1]) + ls[|ls| - 1]
  }

  lemma {:induction false} ConcatEnds(ls: seq<string>)
    requires AllLines(ls)
    ensures ls == [] <==> Concat(ls) == ""
    ensures ls != [] ==> Concat(ls)[|Concat(ls)| - 1] == '\n'
  {
    if ls != [] {
      ConcatEnds(ls[..|ls| - 1]);
      assert IsLine(ls[|ls| - 1]);
    }
  }

  lemma NoShorter(p: string, q: string, l: string, m: string)
    requires p + l == q + m && IsLine(l) && IsLine(m) && (q == "" || q[|q| - 1] == '\n')
    ensures |q| <= |p|
  {
    var s := p + l;
    assert forall i :: |p| <= i < |s| - 1 ==> s[i] == l[i - |p|] != '\n';
    assert q != "" ==> s[|q| - 1] == '\n' && |q| <= |s| - 1;
  }

  /** The last line can be told from what stands before it. */
  lemma LastLine(p: string, q: string, l: string, m: string)
    requires p + l == q + m && IsLine(l) && IsLine(m)
    requires (p == "" || p[|p| - 1] == '\n') && (q == "" || q[|q| - 1] == '\n')
    ensures l == m && p == q
  {
    NoShorter(p, q, l, m);
    NoShorter(q, p, m, l);
    var s := p + l;
    assert p == s[..|p|] && q == s[..|q|] && l == s[|p|..] && m == s[|q|..];
  }

  /** Lines put together determine the lines. */
  lemma {:induction false} LinesUnique(a: seq<string>, b: seq<string>)
    requires AllLines(a) && AllLines(b) && Concat(a) == Concat(b)
    ensures a == b
  {
    ConcatEnds(a);
    ConcatEnds(b);
    if a != [] {
      var m, n := |a| - 1, |b| - 1;
      ConcatEnds(a[..m]);
      ConcatEnds(b[..n]);
      assert IsLine(a[m]) && IsLine(b[n]);
      LastLine(Concat(a[..m]), Concat(b[..n]), a[m], b[n]);
      LinesUnique(a[..m], b[..n]);
      assert a == a[..m] + [a[m]] && b == b[..n] + [b[n]];
    }
  }

  // ---------- the canonical form of a field is one line ----------

  lemma {:induction false} NoLineFeed(s: string)
    ensures '\n' !in RemoveLF(s)
  {
    if s != "" {
      NoLineFeed(s[1..]);
    }
  }

  lemma {:induction false} CollapseKeeps(s: string)
    ensures forall c :: c in CollapseRuns(s) ==> c in s || c == ' '
  {
    if s != "" {
      CollapseKeeps(s[1..]);
    }
  }

  lemma {:induction false} TrimKeeps(s: string)
    ensures forall c :: c in TrimWsp(s) ==> c in s
    decreases |s|
  {
    if s != "" && IsWsp(s[0]) {
      TrimKeeps(s[1..]);
    } else if s != "" && IsWsp(s[|s| - 1]) {
      TrimKeeps(s[..|s| - 1]);
    }
  }

  function RelaxedValue(value: string): (v: string) {
    TrimWsp(CollapseRuns(RemoveLF(RemoveCRLF(value))))
  }

  lemma RelaxedIsLine(name: string, value: string)
    requires '\n' !in name
    ensures IsLine(CanonicalizeRelaxed(name, value)) && HasPrefix(CanonicalizeRelaxed(name, value), Lower(name) + ":")
  {
    var flat := RemoveLF(RemoveCRLF(value));
    NoLineFeed(RemoveCRLF(value));
    CollapseKeeps(flat);
    TrimKeeps(CollapseRuns(flat));
    var v := RelaxedValue(value);
    assert '\n' !in v;
    hide TrimWsp, CollapseRuns, RemoveLF, RemoveCRLF;
    var n := Lower(name);
    forall i | 0 <= i < |n| ensures n[i] != '\n' {
      assert name[i] in name;
    }
    Assemble(n, v);
    assert CanonicalizeRelaxed(name, value) == n + ":" + v + CRLF;
  }

  lemma Assemble(n: string, v: string)
    requires '\n' !in n && '\n' !in v
    ensures IsLine(n + ":" + v + CRLF) && HasPrefix(n + ":" + v + CRLF, n + ":")
  {
    var s := n + ":" + v + CRLF;
    forall i | 0 <= i < |s| - 1 ensures s[i] != '\n' {
      if i < |n| {
        assert s[i] == n[i] && n[i] in n;
      } else if |n| < i < |n| + 1 + |v| {
        assert s[i] == v[i - |n| - 1] && v[i - |n| - 1] in v;
      }
    }
    assert s[..|n| + 1] == n + ":";
  }

  /** A field name of an h= list. */
  predicate FieldName(x: string) {
    x != "" && ':' !in x && '\n' !in x && Lower(x) == x
  }

  predicate FieldNames(list: seq<string>) {
    forall i :: 0 <= i < |list| ==> FieldName(list[i])
  }

  /** Whether line l is a field of this name. */
  predicate Named(l: string, x: string) {
    HasPrefix(l, x + ":")
  }

  lemma NameNoShorter(l: string, x: string, y: string)
    requires Named(l, x) && Named(l, y) && ':' !in y
    ensures |y| <= |x|
  {
    assert l[|x|] == (x + ":")[|x|];
    assert forall i :: 0 <= i < |y| ==> l[i] == (y + ":")[i] == y[i] && y[i] in y;
  }

  lemma NamedOnce(l: string, x: string, y: string)
    requires Named(l, x) && Named(l, y) && ':' !in x && ':' !in y
    ensures x == y
  {
    NameNoShorter(l, x, y);
    NameNoShorter(l, y, x);
    assert l[..|x| + 1] == x + ":" && l[..|y| + 1] == y + ":";
    assert x == l[..|x|] && y == l[..|y|];
  }

  // ---------- what each entry covers ----------

  lemma CoveredIs(h: Headers, list: seq<string>, j: nat)
    requires UniqueFold(h) && j < |list| && FieldName(list[j])
    ensures var piece := Covered(h, list, j, "relaxed");
            && (piece != "" <==> Mentions(list[..j], list[j]) < Instances(h, list[j]))
            && (piece != "" ==> IsLine(piece) && Named(piece, list[j]))
  {
    hide Mentions;
    var x := list[j];
    var (field, values) := LookupField(h, x);
    var before := Mentions(list[..j], x);
    if before < |values| {
      assert Lower(field) == x && '\n' !in field by {
        FieldIs(h, x);
      }
      RelaxedIsLine(field, values[|values| - 1 - before]);
    }
    hide LookupField, CanonicalizeRelaxed;
  }

  lemma FieldIs(h: Headers, x: string)
    requires UniqueFold(h) && FieldName(x)
    ensures Lower(LookupField(h, x).0) == x && '\n' !in LookupField(h, x).0
  {
    var field := LookupField(h, x).0;
    if k :| k in h && Lower(k) == Lower(x) {
      assert field == k;
    } else {
      assert field == x;
    }
    hide LookupField;
    forall i | 0 <= i < |field| ensures field[i] != '\n' {
      assert x[i] == LowerChar(field[i]) && x[i] in x;
    }
  }

  /** The lines that the first n entries cover. */
  function FieldLines(h: Headers, list: seq<string>, n: nat): seq<string>
    requires UniqueFold(h) && n <= |list|
  {
    if n == 0 then []
    else
      var piece := Covered(h, list, n - 1, "relaxed");
      FieldLines(h, list, n - 1) + if piece == "" then [] else [piece]
  }

  lemma CoveredPrefix(h: Headers, list: seq<string>, n: nat, j: nat)
    requires UniqueFold(h) && j < n <= |list|
    ensures Covered(h, list[..n], j, "relaxed") == Covered(h, list, j, "relaxed")
  {
    assert list[..n][..j] == list[..j];
  }

  lemma InputStep(h: Headers, list: seq<string>, n: nat)
    requires UniqueFold(h) && 0 < n <= |list|
    ensures HashInput(h, list[..n], "relaxed") == HashInput(h, list[..n - 1], "relaxed") + Covered(h, list, n - 1, "relaxed")
  {
    CoveredPrefix(h, list, n, n - 1);
    hide Covered;
    assert list[..n][..n - 1] == list[..n - 1];
  }

  lemma LinesStep(ls: seq<string>, piece: string)
    requires AllLines(ls) && (piece != "" ==> IsLine(piece))
    ensures var all := ls + if piece == "" then [] else [piece]; AllLines(all) && Concat(all) == Concat(ls) + piece
  {
    hide IsLine;
    assert ls + [] == ls && (ls + [piece])[..|ls|] == ls;
  }

  lemma {:induction false} InputIsLines(h: Headers, list: seq<string>, n: nat)
    requires UniqueFold(h) && n <= |list| && FieldNames(list)
    ensures HashInput(h, list[..n], "relaxed") == Concat(FieldLines(h, list, n)) && AllLines(FieldLines(h, list, n))
  {
    hide Covered, AllLines, Concat;
    if n == 0 {
      assert FieldLines(h, list, n) == [];
      NoLines();
    } else {
      hide HashInput, FieldLines, IsLine;
      InputIsLines(h, list, n - 1);
      CoveredIs(h, list, n - 1);
      InputStep(h, list, n);
      FieldLinesStep(h, list, n);
      LinesStep(FieldLines(h, list, n - 1), Covered(h, list, n - 1, "relaxed"));
    }
  }

  lemma NoLines()
    ensures AllLines([]) && Concat([]) == ""
  {}

  function CountNamed(ls: seq<string>, x: string): nat {
    if ls == [] then 0 else CountNamed(ls[..|ls| - 1], x) + if Named(ls[|ls| - 1], x) then 1 else 0
  }

  function Smaller(a: nat, b: nat): nat {
    if a < b then a else b
  }

  /** A message has as many lines of a name as the list mentions it, up to its instances. */
  lemma {:induction false} CountIs(h: Headers, list: seq<string>, n: nat, x: string)
    requires UniqueFold(h) && n <= |list| && FieldNames(list) && FieldName(x)
    ensures CountNamed(FieldLines(h, list, n), x) == Smaller(Mentions(list[..n], x), Instances(h, x))
  {
    if n > 0 {
      CountIs(h, list, n - 1, x);
      CoveredIs(h, list, n - 1);
      var y, piece, before := list[n - 1], Covered(h, list, n - 1, "relaxed"), FieldLines(h, list, n - 1);
      assert FieldName(y);
      assert list[..n][..n - 1] == list[..n - 1];
      hide Covered, IsLine, Instances, FieldLines;
      assert before + [] == before && (before + [piece])[..|before|] == before;
      if piece != "" {
        if Named(piece, x) {
          NamedOnce(piece, x, y);
        }
      }
      FieldLinesStep(h, list, n);
    }
  }

  lemma FieldLinesStep(h: Headers, list: seq<string>, n: nat)
    requires UniqueFold(h) && 0 < n <= |list|
    ensures var piece := Covered(h, list, n - 1, "relaxed");
            FieldLines(h, list, n) == FieldLines(h, list, n - 1) + if piece == "" then [] else [piece]
  {
    hide Covered;
  }

  /** Two messages with the same lines cover the same entries. */
  lemma SamePattern(h: Headers, g: Headers, list: seq<string>, j: nat)
    requires UniqueFold(h) && UniqueFold(g) && FieldNames(list) && j < |list|
    requires FieldLines(h, list, |list|) == FieldLines(g, list, |list|)
    ensures Covered(h, list, j, "relaxed") == "" <==> Covered(g, list, j, "relaxed") == ""
  {
    var x := list[j];
    assert FieldName(x);
    CountIs(h, list, |list|, x);
    CountIs(g, list, |list|, x);
    CoveredIs(h, list, j);
    CoveredIs(g, list, j);
    assert list[..|list|] == list;
    MentionedAgain(list, j);
    hide Covered, FieldLines, Instances, CountNamed, Mentions;
  }

  lemma {:induction false} MentionsUpTo(list: seq<string>, j: nat, n: nat, x: string)
    requires j <= n <= |list|
    ensures Mentions(list[..j], x) <= Mentions(list[..n], x)
    decreases n
  {
    if j < n {
      MentionsUpTo(list, j, n - 1, x);
      assert list[..n][..n - 1] == list[..n - 1];
    }
  }

  lemma MentionedAgain(list: seq<string>, j: nat)
    requires j < |list| && Lower(list[j]) == list[j]
    ensures Mentions(list[..j], list[j]) < Mentions(list, list[j])
  {
    assert list[..j + 1][..j] == list[..j];
    MentionsUpTo(list, j + 1, |list|, list[j]);
    assert list[..|list|] == list;
  }

  lemma {:induction false} SamePieces(h: Headers, g: Headers, list: seq<string>, n: nat, j: nat)
    requires UniqueFold(h) && UniqueFold(g) && n <= |list| && j < n
    requires FieldLines(h, list, n) == FieldLines(g, list, n)
    requires forall i :: 0 <= i < n ==> (Covered(h, list, i, "relaxed") == "" <==> Covered(g, list, i, "relaxed") == "")
    ensures Covered(h, list, j, "relaxed") == Covered(g, list, j, "relaxed")
  {
    hide Covered;
    var a, b := FieldLines(h, list, n - 1), FieldLines(g, list, n - 1);
    var p, q := Covered(h, list, n - 1, "relaxed"), Covered(g, list, n - 1, "relaxed");
    if p == "" {
      assert a == b by {
        assert a == FieldLines(h, list, n) && b == FieldLines(g, list, n);
      }
    } else {
      assert a + [p] == b + [q];
      assert a == (a + [p])[..|a|] && b == (b + [q])[..|b|] && |a| == |b|;
      assert p == (a + [p])[|a|] && q == (b + [q])[|b|];
    }
    if j < n - 1 {
      SamePieces(h, g, list, n - 1, j);
    }
  }

  /** Two messages hash to the same input if and only if every entry of the list covers the
      same canonical field in both, or none in both. */
  lemma SameInputIff(h: Headers, g: Headers, list: seq<string>)
    requires UniqueFold(h) && UniqueFold(g) && FieldNames(list)
    ensures HashInput(h, list, "relaxed") == HashInput(g, list, "relaxed") <==>
            forall j :: 0 <= j < |list| ==> Covered(h, list, j, "relaxed") == Covered(g, list, j, "relaxed")
  {
    var n := |list|;
    InputIsLines(h, list, n);
    InputIsLines(g, list, n);
    assert list[..n] == list;
    if HashInput(h, list, "relaxed") == HashInput(g, list, "relaxed") {
      LinesUnique(FieldLines(h, list, n), FieldLines(g, list, n));
      forall j | 0 <= j < n ensures Covered(h, list, j, "relaxed") == "" <==> Covered(g, list, j, "relaxed") == "" {
        SamePattern(h, g, list, j);
      }
      forall j | 0 <= j < n ensures Covered(h, list, j, "relaxed") == Covered(g, list, j, "relaxed") {
        SamePieces(h, g, list, n, j);
      }
    }
    if forall j :: 0 <= j < n ==> Covered(h, list, j, "relaxed") == Covered(g, list, j, "relaxed") {
      SameLines(h, g, list, n);
    }
  }

  lemma {:induction false} SameLines(h: Headers, g: Headers, list: seq<string>, n: nat)
    requires UniqueFold(h) && UniqueFold(g) && n <= |list|
    requires forall j :: 0 <= j < n ==> Covered(h, list, j, "relaxed") == Covered(g, list, j, "relaxed")
    ensures FieldLines(h, list, n) == FieldLines(g, list, n)
  {
    hide Covered;
    if n > 0 {
      SameLines(h, g, list, n - 1);
    }
  }
}

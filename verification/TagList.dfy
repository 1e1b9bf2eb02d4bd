/** DKIM tag lists (section 3.2 of RFC 6376): the parser and the printer used by
    DKIM signatures, ARC sets and MTA-STS records, and the two ways of emptying b=. */
module TagList {
  import opened Sequences
  import opened Text

  datatype Tags = Tags(m: map<string, string>, dup: bool) {
    /** Go map lookup: a missing tag reads as the empty string. */
    function Get(tag: string): string {
      if tag in m then m[tag] else ""
    }
  }

  predicate IsFoldingSpace(c: char) {
    c in {' ', '\t', '\r', '\n'}
  }

  function RemoveWhitespace(s: string): string {
    if s == "" then ""
    else if IsFoldingSpace(s[0]) then RemoveWhitespace(s[1..])
    else [s[0]] + RemoveWhitespace(s[1..])
  }

  /** One `tag=value` segment added to the tags read so far; anything without a
      name before its first `=` is ignored. */
  function ParsePair(segment: string, t: Tags): Tags {
    var s := TrimSpace(segment);
    var idx := IndexOf(s, '=');
    if idx > 0 then
      var tag := TrimSpace(s[..idx]);
      var raw := TrimSpace(s[idx + 1..]);
      var value := if tag == "b" || tag == "bh" then RemoveWhitespace(raw) else raw;
      Tags(t.m[tag := value], t.dup || tag in t.m)
    else t
  }

  function FoldPairs(segments: seq<string>): Tags {
    if segments == [] then Tags(map[], false)
    else ParsePair(segments[|segments| - 1], FoldPairs(segments[..|segments| - 1]))
  }

  function ParseTags(s: string): Tags {
    FoldPairs(Split(s, ';'))
  }

  /** r with x appended to its last part. */
  function Grown(r: seq<string>, x: char): seq<string>
    requires r != []
  {
    r[..|r| - 1] + [r[|r| - 1] + [x]]
  }

  lemma GrownAfter(first: string, rest: seq<string>, x: char)
    requires rest != []
    ensures Grown([first] + rest, x) == [first] + Grown(rest, x)
  {
    var r := [first] + rest;
    assert r[..|r| - 1] == [first] + rest[..|rest| - 1] && r[|r| - 1] == rest[|rest| - 1];
  }

  lemma GrownFirst(a: char, rest: seq<string>, x: char)
    requires rest != []
    ensures var g := Grown(rest, x);
            Grown([[a] + rest[0]] + rest[1..], x) == [[a] + g[0]] + g[1..]
  {
    var g := Grown(rest, x);
    if |rest| == 1 {
      assert rest[1..] == [] && g[1..] == [];
      assert [a] + (rest[0] + [x]) == [a] + rest[0] + [x];
    } else {
      GrownAfter(rest[0], rest[1..], x);
      assert [rest[0]] + rest[1..] == rest;
      GrownAfter([a] + rest[0], rest[1..], x);
    }
  }

  lemma {:induction false} SplitGrow(s: string, c: char, x: char)
    requires x != c
    ensures Split(s + [x], c) == Grown(Split(s, c), x)
  {
    if s == "" {
      assert s + [x] == [x] && [x][1..] == "" && [x] + "" == "" + [x];
    } else {
      SplitGrow(s[1..], c, x);
      var t := s + [x];
      assert t[0] == s[0] && t[1..] == s[1..] + [x];
      var rest := Split(s[1..], c);
      GrownAfter("", rest, x);
      GrownFirst(s[0], rest, x);
      hide Grown;
    }
  }

  lemma SplitSnoc(s: string, c: char, x: char, parsed: seq<string>, current: string)
    requires Split(s, c) == parsed + [current]
    ensures Split(s + [x], c) == if x == c then parsed + [current] + [""] else parsed + [current + [x]]
  {
    var r := parsed + [current];
    assert r[..|r| - 1] == parsed;
    if x == c {
      SplitAppend(s, c, "");
      assert s + [c] + "" == s + [c];
    } else {
      SplitGrow(s, c, x);
    }
  }

  lemma FoldSnoc(parsed: seq<string>, current: string)
    ensures FoldPairs(parsed + [current]) == ParsePair(current, FoldPairs(parsed))
  {
    hide ParsePair;
    assert (parsed + [current])[..|parsed|] == parsed;
  }

  /** The source's single pass over the characters computes ParseTags. */
  method ParseTagValueListDup(s: string) returns (m: map<string, string>, dup: bool)
    ensures Tags(m, dup) == ParseTags(s)
  {
    m, dup := map[], false;
    var current := "";
    ghost var parsed: seq<string> := [];
    assert s[..0] == "";
    for i := 0 to |s|
      invariant Split(s[..i], ';') == parsed + [current]
      invariant Tags(m, dup) == FoldPairs(parsed)
    {
      hide ParsePair, Split, FoldPairs;
      SplitSnoc(s[..i], ';', s[i], parsed, current);
      assert s[..i + 1] == s[..i] + [s[i]];
      if s[i] == ';' {
        FoldSnoc(parsed, current);
        var t := ParsePair(current, Tags(m, dup));
        m, dup := t.m, t.dup;
        parsed, current := parsed + [current], "";
      } else {
        current := current + [s[i]];
      }
    }
    assert s[..|s|] == s;
    FoldSnoc(parsed, current);
    if |current| > 0 {
      var t := ParsePair(current, Tags(m, dup));
      m, dup := t.m, t.dup;
    } else {
      EmptyPair(Tags(m, dup));
    }
  }

  lemma EmptyPair(t: Tags)
    ensures ParsePair("", t) == t
  {}

  // ---------- printing ----------

  type Pair = (string, string)

  function Field(p: Pair): string {
    p.0 + "=" + p.1
  }

  /** `t0=v0; t1=v1; ...`, the shape of every signature header the server writes. */
  function PrintTags(ps: seq<Pair>): string
    requires ps != []
  {
    if |ps| == 1 then Field(ps[0]) else PrintTags(ps[..|ps| - 1]) + "; " + Field(ps[|ps| - 1])
  }

  predicate CleanTag(tag: string) {
    tag != "" && NoSpace(tag) && ';' !in tag && '=' !in tag
  }

  predicate CleanValue(v: string) {
    ';' !in v && NoSpace(v)
  }

  predicate CleanFields(ps: seq<Pair>) {
    ps != [] && forall i :: 0 <= i < |ps| ==> CleanTag(ps[i].0) && CleanValue(ps[i].1)
  }

  predicate Once(ps: seq<Pair>) {
    forall i, j :: 0 <= i < j < |ps| ==> ps[i].0 != ps[j].0
  }

  predicate Clean(ps: seq<Pair>) {
    CleanFields(ps) && Once(ps)
  }

  function Segments(ps: seq<Pair>): seq<string> {
    seq(|ps|, i requires 0 <= i < |ps| => if i == 0 then Field(ps[i]) else " " + Field(ps[i]))
  }

  lemma {:induction false} PrintSegments(ps: seq<Pair>)
    requires CleanFields(ps)
    ensures Split(PrintTags(ps), ';') == Segments(ps)
  {
    var n := |ps| - 1;
    var f := Field(ps[n]);
    assert ';' !in f;
    hide Field, Split;
    if n == 0 {
      SplitNone(f, ';');
    } else {
      PrintSegments(ps[..n]);
      var head := PrintTags(ps[..n]);
      assert PrintTags(ps) == head + [';'] + (" " + f);
      SplitAppend(head, ';', " " + f);
      SplitNone(" " + f, ';');
      assert Segments(ps) == Segments(ps[..n]) + [" " + f];
    }
  }

  lemma {:induction false} RemoveWhitespaceNone(s: string)
    requires NoSpace(s)
    ensures RemoveWhitespace(s) == s
  {
    if s != "" {
      RemoveWhitespaceNone(s[1..]);
      assert s == [s[0]] + s[1..];
    }
  }

  lemma TrimField(p: Pair)
    requires CleanTag(p.0) && CleanValue(p.1)
    ensures TrimSpace(Field(p)) == TrimSpace(" " + Field(p)) == Field(p)
    ensures IndexOf(Field(p), '=') == |p.0|
    ensures Field(p)[..|p.0|] == p.0 && Field(p)[|p.0| + 1..] == p.1
  {
    var f := Field(p);
    TrimSpaceLead(f);
    assert !IsSpace(f[|f| - 1]) by {
      if p.1 == "" { assert f[|f| - 1] == '='; } else { assert f[|f| - 1] == p.1[|p.1| - 1]; }
    }
    assert f[0] == p.0[0];
    TrimSpaceNone(f);
    IndexOfAt(p.0, '=', p.1);
    assert f == p.0 + ['='] + p.1;
  }

  lemma ParseField(p: Pair, t: Tags, segment: string)
    requires CleanTag(p.0) && CleanValue(p.1)
    requires segment == Field(p) || segment == " " + Field(p)
    ensures ParsePair(segment, t) == Tags(t.m[p.0 := p.1], t.dup || p.0 in t.m)
  {
    TrimField(p);
    TrimSpaceNone(p.0);
    TrimSpaceNone(p.1);
    RemoveWhitespaceNone(p.1);
  }

  lemma {:induction false} MapOfKeys(ps: seq<Pair>)
    ensures forall k :: k in MapOf(ps) ==> exists i :: 0 <= i < |ps| && ps[i].0 == k
  {
    if ps != [] {
      var init := ps[..|ps| - 1];
      MapOfKeys(init);
      forall k | k in MapOf(ps) ensures exists i :: 0 <= i < |ps| && ps[i].0 == k {
        if k == ps[|ps| - 1].0 {
        } else {
          assert k in MapOf(init);
          var i :| 0 <= i < |init| && init[i].0 == k;
          assert ps[i].0 == k;
        }
      }
    }
  }

  lemma {:induction false} FoldSegments(ps: seq<Pair>)
    requires Clean(ps)
    ensures FoldPairs(Segments(ps)) == Tags(MapOf(ps), false)
  {
    var n := |ps| - 1;
    var segs := Segments(ps);
    assert segs[..n] == Segments(ps[..n]);
    if n > 0 {
      FoldSegments(ps[..n]);
      MapOfKeys(ps[..n]);
    } else {
      assert ps[..n] == [];
    }
    ParseField(ps[n], FoldPairs(segs[..n]), segs[n]);
  }

  lemma {:induction false} MapOfHas(ps: seq<Pair>, i: nat)
    requires i < |ps|
    ensures ps[i].0 in MapOf(ps)
  {
    if i < |ps| - 1 {
      MapOfHas(ps[..|ps| - 1], i);
    }
  }

  lemma OnceStep(ps: seq<Pair>)
    requires ps != []
    ensures var n := |ps| - 1; Once(ps) <==> Once(ps[..n]) && ps[n].0 !in MapOf(ps[..n])
  {
    var n := |ps| - 1;
    MapOfKeys(ps[..n]);
    forall i | 0 <= i < n ensures ps[i].0 in MapOf(ps[..n]) {
      MapOfHas(ps[..n], i);
    }
    hide MapOf;
    if ps[n].0 in MapOf(ps[..n]) {
      var i :| 0 <= i < n && ps[..n][i].0 == ps[n].0;
      assert ps[i].0 == ps[n].0;
    }
    assert forall i :: 0 <= i < n ==> ps[..n][i] == ps[i];
  }

  lemma FoldLast(ps: seq<Pair>)
    requires CleanFields(ps)
    ensures var n := |ps| - 1;
            && |Segments(ps)| == |ps| && FoldPairs(Segments(ps)) == ParsePair(Segments(ps)[n], FoldPairs(Segments(ps[..n])))
            && (Segments(ps)[n] == Field(ps[n]) || Segments(ps)[n] == " " + Field(ps[n]))
  {
    hide ParsePair, Field;
    var n := |ps| - 1;
    assert Segments(ps)[..n] == Segments(ps[..n]);
  }

  lemma {:induction false} FoldAny(ps: seq<Pair>)
    requires CleanFields(ps)
    ensures FoldPairs(Segments(ps)) == Tags(MapOf(ps), !Once(ps))
  {
    hide ParsePair, FoldPairs, Segments, CleanTag, CleanValue, Once;
    var n := |ps| - 1;
    OnceStep(ps);
    FoldLast(ps);
    if n > 0 {
      FoldAny(ps[..n]);
    } else {
      NothingFolded(ps[..n]);
    }
    ParseField(ps[n], FoldPairs(Segments(ps[..n])), Segments(ps)[n]);
  }

  lemma NothingFolded(ps: seq<Pair>)
    requires ps == []
    ensures FoldPairs(Segments(ps)) == Tags(map[], false) && MapOf(ps) == map[] && Once(ps)
  {}

  /** With a tag given twice, parsing says so, and the last value stands. */
  lemma ParseAnyPrint(ps: seq<Pair>)
    requires CleanFields(ps)
    ensures var t := ParseTags(PrintTags(ps)); t.m == MapOf(ps) && (t.dup <==> !Once(ps))
  {
    PrintSegments(ps);
    FoldAny(ps);
  }

  /** Parsing what was printed recovers every pair and sees no duplicate. */
  lemma ParsePrint(ps: seq<Pair>)
    requires Clean(ps)
    ensures ParseTags(PrintTags(ps)) == Tags(MapOf(ps), false)
    ensures forall i :: 0 <= i < |ps| ==> ParseTags(PrintTags(ps)).Get(ps[i].0) == ps[i].1
    ensures forall k :: k in MapOf(ps) <==> exists i :: 0 <= i < |ps| && ps[i].0 == k
  {
    PrintSegments(ps);
    FoldSegments(ps);
    MapOfKeys(ps);
    forall i | 0 <= i < |ps| ensures ps[i].0 in MapOf(ps) && MapOf(ps)[ps[i].0] == ps[i].1 {
      MapOfAt(ps, i);
    }
  }

  lemma {:induction false} MapOfAt(ps: seq<Pair>, i: nat)
    requires Clean(ps) && i < |ps|
    ensures ps[i].0 in MapOf(ps) && MapOf(ps)[ps[i].0] == ps[i].1
  {
    if i < |ps| - 1 {
      MapOfAt(ps[..|ps| - 1], i);
    }
  }

  function TagsOf(ps: seq<Pair>): seq<string> {
    seq(|ps|, i requires 0 <= i < |ps| => ps[i].0)
  }

  /** Tag names that may stand in one list. */
  predicate CleanTags(tags: seq<string>) {
    && tags != []
    && (forall i :: 0 <= i < |tags| ==> CleanTag(tags[i]))
    && (forall i, j :: 0 <= i < j < |tags| ==> tags[i] != tags[j])
  }

  lemma CleanByTags(ps: seq<Pair>, tags: seq<string>)
    requires TagsOf(ps) == tags && CleanTags(tags)
    requires forall i :: 0 <= i < |ps| ==> CleanValue(ps[i].1)
    ensures Clean(ps)
  {
    assert forall i :: 0 <= i < |ps| ==> ps[i].0 == tags[i];
  }

  lemma PrintedTag(ps: seq<Pair>, i: nat, tag: string)
    requires Clean(ps) && i < |ps| && ps[i].0 == tag
    ensures var t := ParseTags(PrintTags(ps)); tag in t.m && t.m[tag] == ps[i].1 && !t.dup
  {
    PrintSegments(ps);
    FoldSegments(ps);
    MapOfAt(ps, i);
  }

  lemma MissingTag(ps: seq<Pair>, tag: string)
    requires Clean(ps) && tag !in TagsOf(ps)
    ensures tag !in ParseTags(PrintTags(ps)).m
  {
    PrintSegments(ps);
    FoldSegments(ps);
    MapOfKeys(ps);
    assert forall i :: 0 <= i < |ps| ==> TagsOf(ps)[i] == ps[i].0;
  }

  // ---------- emptying b= ----------

  function FoldingLead(s: string): (n: nat)
    ensures n <= |s|
  {
    if s != "" && IsFoldingSpace(s[0]) then 1 + FoldingLead(s[1..]) else 0
  }

  /** arcStripB on one segment. */
  function StripSegment(p: string): string {
    var trimmed := TrimSpace(p);
    var idx := IndexOf(trimmed, '=');
    if idx > 0 && TrimSpace(trimmed[..idx]) == "b" then p[..FoldingLead(p)] + "b=" else p
  }

  function StripB(value: string): string {
    var parts := Split(value, ';');
    Join(seq(|parts|, i requires 0 <= i < |parts| => StripSegment(parts[i])), ";")
  }

  predicate IsRegexSpace(c: char) {
    c in {'\t', '\n', '\U{0c}', '\r', ' '}
  }

  function SkipSpace(s: string, i: nat): (j: nat)
    requires i <= |s|
    ensures i <= j <= |s|
    decreases |s| - i
  {
    if i < |s| && IsRegexSpace(s[i]) then SkipSpace(s, i + 1) else i
  }

  /** The regular expression `(^|;)(\s*)b(\s*)=[^;]*` on one segment: the match
      runs to the end of the segment and keeps only its part up to `=`. */
  function BlankSegment(p: string): string {
    var i := SkipSpace(p, 0);
    if i < |p| && p[i] == 'b' then
      var j := SkipSpace(p, i + 1);
      if j < |p| && p[j] == '=' then p[..j + 1] else p
    else p
  }

  function BlankB(value: string): string {
    var parts := Split(value, ';');
    Join(seq(|parts|, i requires 0 <= i < |parts| => BlankSegment(parts[i])), ";")
  }

  lemma StripField(p: Pair, i: nat, segment: string)
    requires CleanTag(p.0) && CleanValue(p.1)
    requires segment == if i == 0 then Field(p) else " " + Field(p)
    ensures StripSegment(segment) == if p.0 != "b" then segment
                                     else if i == 0 then "b=" else " b="
  {
    TrimField(p);
    TrimSpaceNone(p.0);
    assert segment[if i == 0 then 0 else 1] == p.0[0];
    if i == 0 {
      assert FoldingLead(segment) == 0;
    } else {
      assert segment[1..] == Field(p) && Field(p)[0] == p.0[0];
      assert FoldingLead(segment) == 1;
    }
  }

  lemma BlankField(p: Pair, i: nat, segment: string)
    requires CleanTag(p.0) && CleanValue(p.1)
    requires segment == if i == 0 then Field(p) else " " + Field(p)
    ensures BlankSegment(segment) == if p.0 != "b" then segment
                                     else if i == 0 then "b=" else " b="
  {
    var k := if i == 0 then 0 else 1;
    assert forall x :: 0 <= x < |p.0| ==> segment[k + x] == p.0[x];
    assert segment[k + |p.0|] == '=';
    assert SkipSpace(segment, 0) == k;
    assert |p.0| > 1 ==> SkipSpace(segment, k + 1) == k + 1 && segment[k + 1] == p.0[1] != '=';
  }

  lemma CleanEmpty(ps: seq<Pair>, sig: string)
    requires Clean(ps + [("b", sig)])
    ensures Clean(ps + [("b", "")])
  {
    var qs, es := ps + [("b", sig)], ps + [("b", "")];
    assert forall i :: 0 <= i < |es| ==> es[i].0 == qs[i].0 && (i < |ps| ==> es[i] == qs[i]);
  }

  lemma EmptySegment(ps: seq<Pair>, sig: string, i: nat)
    requires Clean(ps + [("b", sig)]) && i <= |ps| && ps != []
    ensures var segs, target := Segments(ps + [("b", sig)]), Segments(ps + [("b", "")]);
            StripSegment(segs[i]) == target[i] && BlankSegment(segs[i]) == target[i]
  {
    var qs, es := ps + [("b", sig)], ps + [("b", "")];
    var segs, target := Segments(qs), Segments(es);
    StripField(qs[i], i, segs[i]);
    BlankField(qs[i], i, segs[i]);
    if i < |ps| {
      assert es[i] == qs[i] && qs[i].0 != qs[|ps|].0 == "b";
    } else {
      assert " " + Field(es[i]) == " b=";
    }
  }

  lemma EmptySegments(value: string, target: seq<string>)
    requires var segs := Split(value, ';');
             && |segs| == |target|
             && forall i :: 0 <= i < |segs| ==> StripSegment(segs[i]) == target[i] && BlankSegment(segs[i]) == target[i]
    ensures StripB(value) == Join(target, ";") && BlankB(value) == Join(target, ";")
  {
    var segs := Split(value, ';');
    assert seq(|segs|, i requires 0 <= i < |segs| => StripSegment(segs[i])) == target;
    assert seq(|segs|, i requires 0 <= i < |segs| => BlankSegment(segs[i])) == target;
  }

  lemma PrintWithB(ps: seq<Pair>, sig: string)
    requires ps != []
    ensures PrintTags(ps + [("b", sig)]) == PrintTags(ps + [("b", "")]) + sig
  {
    assert (ps + [("b", sig)])[..|ps|] == ps && (ps + [("b", "")])[..|ps|] == ps;
    assert Field(("b", sig)) == Field(("b", "")) + sig;
  }

  /** Emptying b= undoes appending a signature, whatever the signature. */
  lemma EmptyB(ps: seq<Pair>, sig: string)
    requires ps != [] && Clean(ps + [("b", sig)])
    ensures StripB(PrintTags(ps + [("b", sig)])) == PrintTags(ps + [("b", "")])
    ensures BlankB(PrintTags(ps + [("b", sig)])) == PrintTags(ps + [("b", "")])
    ensures PrintTags(ps + [("b", sig)]) == PrintTags(ps + [("b", "")]) + sig
  {
    var qs, es := ps + [("b", sig)], ps + [("b", "")];
    CleanEmpty(ps, sig);
    PrintSegments(qs);
    PrintSegments(es);
    JoinSplit(PrintTags(es), ';');
    var segs, target := Segments(qs), Segments(es);
    forall i | 0 <= i < |segs|
      ensures StripSegment(segs[i]) == target[i] && BlankSegment(segs[i]) == target[i]
    {
      EmptySegment(ps, sig, i);
    }
    EmptySegments(PrintTags(qs), target);
    PrintWithB(ps, sig);
  }
}

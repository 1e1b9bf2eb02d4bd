/** Message body canonicalization (sections 3.4.3 and 3.4.4 of RFC 6376). */
module DkimBody {
  import opened Text

  predicate EndsCRLF(b: string) {
    |b| >= 2 && b[|b| - 2] == '\r' && b[|b| - 1] == '\n'
  }

  predicate EndsDoubleCRLF(b: string) {
    |b| >= 4 && b[|b| - 4] == '\r' && b[|b| - 3] == '\n' && EndsCRLF(b)
  }

  // ---------- reference: simple ----------

  function StripCRLFs(b: string): string {
    if EndsCRLF(b) then StripCRLFs(b[..|b| - 2]) else b
  }

  /** All trailing CRLFs removed, one put back. */
  function Simple(b: string): string {
    StripCRLFs(b) + CRLF
  }

  // ---------- reference: relaxed, line by line ----------

  function DropCR(line: string): string {
    if line != "" && line[|line| - 1] == '\r' then line[..|line| - 1] else line
  }

  /** Every run of SP and TAB becomes one SP. */
  function Collapse(s: string): string {
    if s == "" then ""
    else
      var n := |s| - 1;
      if !IsWsp(s[n]) then Collapse(s[..n]) + [s[n]]
      else if n > 0 && IsWsp(s[n - 1]) then Collapse(s[..n])
      else Collapse(s[..n]) + " "
  }

  function TrimRightWsp(s: string): string {
    if s != "" && IsWsp(s[|s| - 1]) then TrimRightWsp(s[..|s| - 1]) else s
  }

  function CanonLine(line: string): string {
    TrimRightWsp(Collapse(DropCR(line)))
  }

  function CanonLines(lines: seq<string>): seq<string> {
    seq(|lines|, i requires 0 <= i < |lines| => CanonLine(lines[i]))
  }

  function DropTrailingEmpty(lines: seq<string>): seq<string> {
    if lines != [] && lines[|lines| - 1] == "" then DropTrailingEmpty(lines[..|lines| - 1]) else lines
  }

  /** Every line followed by CRLF. */
  function JoinLines(lines: seq<string>): string {
    if lines == [] then "" else JoinLines(lines[..|lines| - 1]) + lines[|lines| - 1] + CRLF
  }

  function Relaxed(b: string): string {
    JoinLines(DropTrailingEmpty(CanonLines(Split(b, '\n'))))
  }

  // ---------- simple: the loop ----------

  method CanonicalizeBodySimple(body: string) returns (r: string)
    ensures r == Simple(body)
  {
    if |body| == 0 {
      return "\r\n";
    }
    r := body;
    while |r| >= 2 && r[|r| - 2] == '\r' && r[|r| - 1] == '\n'
      invariant StripCRLFs(r) == StripCRLFs(body)
      decreases |r|
    {
      if |r| >= 4 && r[|r| - 4] == '\r' && r[|r| - 3] == '\n' {
        r := r[..|r| - 2];
      } else {
        assert StripCRLFs(r[..|r| - 2]) == r[..|r| - 2];
        assert r == r[..|r| - 2] + CRLF;
        return;
      }
    }
    r := r + ['\r', '\n'];
  }

  lemma {:induction false} StripCRLFsAgain(b: string)
    ensures StripCRLFs(StripCRLFs(b)) == StripCRLFs(b)
  {
    if EndsCRLF(b) {
      StripCRLFsAgain(b[..|b| - 2]);
    }
  }

  /** Exactly the line ends at the end do not matter: any number of them counts as one. */
  lemma SimpleMeans(b: string)
    ensures Simple(b + CRLF) == Simple(b)
    ensures !EndsCRLF(b) ==> Simple(b) == b + CRLF
  {
    var c := b + CRLF;
    assert EndsCRLF(c) && c[..|c| - 2] == b;
  }

  /** Canonicalizing a simple-canonical body again changes nothing. */
  lemma SimpleIdempotent(b: string)
    ensures Simple(Simple(b)) == Simple(b)
  {
    var s := StripCRLFs(b);
    StripCRLFsAgain(b);
    assert (s + CRLF)[..|s|] == s;
    assert EndsCRLF(s + CRLF);
  }

  // ---------- relaxed: the loop ----------

  /** The two branches of the inner loop: white space is held back until a
      character that is not white space arrives. */
  lemma EmitStep(s: string, c: char)
    ensures !IsWsp(c) ==> TrimRightWsp(Collapse(s + [c])) == Collapse(s) + [c]
    ensures IsWsp(c) ==> TrimRightWsp(Collapse(s + [c])) == TrimRightWsp(Collapse(s))
    ensures Collapse(s) == TrimRightWsp(Collapse(s)) + if s != "" && IsWsp(s[|s| - 1]) then " " else ""
  {
    var t := s + [c];
    assert t[..|t| - 1] == s;
    HeldBack(s);
    if IsWsp(c) && (s == "" || !IsWsp(s[|s| - 1])) {
      assert (Collapse(s) + " ")[..|Collapse(s)|] == Collapse(s);
    }
  }

  lemma {:induction false} HeldBack(s: string)
    ensures Collapse(s) == TrimRightWsp(Collapse(s)) + if s != "" && IsWsp(s[|s| - 1]) then " " else ""
  {
    if s != "" {
      var n := |s| - 1;
      HeldBack(s[..n]);
      if IsWsp(s[n]) && !(n > 0 && IsWsp(s[n - 1])) {
        assert (Collapse(s[..n]) + " ")[..|Collapse(s[..n])|] == Collapse(s[..n]);
      }
    }
  }

  method EmitLine(out: string, line: string) returns (r: string)
    ensures r == out + TrimRightWsp(Collapse(line))
  {
    r := out;
    var inWS := false;
    for j := 0 to |line|
      invariant r == out + TrimRightWsp(Collapse(line[..j]))
      invariant inWS == (j > 0 && IsWsp(line[j - 1]))
    {
      EmitStep(line[..j], line[j]);
      assert line[..j + 1] == line[..j] + [line[j]];
      if line[j] == ' ' || line[j] == '\t' {
        inWS := true;
        continue;
      }
      if inWS {
        r := r + " ";
        inWS := false;
      }
      r := r + [line[j]];
    }
    assert line[..|line|] == line;
  }

  predicate NoLF(lines: seq<string>) {
    forall i :: 0 <= i < |lines| ==> '\n' !in lines[i]
  }

  function StripToOne(b: string): string {
    if EndsDoubleCRLF(b) then StripToOne(b[..|b| - 2]) else b
  }

  lemma EndsWithLine(front: string, last: string)
    requires '\n' !in last
    ensures var out := front + last + CRLF;
            && EndsCRLF(out) && (last != "" ==> |out| > 2 && StripToOne(out) == out)
            && (last == "" && EndsCRLF(front) ==> StripToOne(out) == StripToOne(front))
  {
    var out := front + last + CRLF;
    if last != "" {
      assert out[|out| - 3] == last[|last| - 1];
      assert last[|last| - 1] in last;
    } else {
      assert out[..|out| - 2] == front;
    }
  }

  /** The end of the source's function: exactly one trailing CRLF, and nothing
      at all when that is all there is. */
  lemma {:induction false} FinishLines(lines: seq<string>)
    requires lines != [] && NoLF(lines)
    ensures EndsCRLF(JoinLines(lines))
    ensures var s := StripToOne(JoinLines(lines));
            JoinLines(DropTrailingEmpty(lines)) == (if |s| == 2 then "" else s)
  {
    var n := |lines| - 1;
    var init, last := lines[..n], lines[n];
    EndsWithLine(JoinLines(init), last);
    if n == 0 {
      assert JoinLines(init) == "" && (last == "" ==> JoinLines(lines) == CRLF);
      assert last == "" ==> DropTrailingEmpty(lines) == [];
    } else if last == "" {
      FinishLines(init);
      hide StripToOne, EndsCRLF;
    }
  }

  lemma {:induction false} JoinEnds(lines: seq<string>)
    requires lines != [] && NoLF(lines)
    ensures var n := |lines| - 1; var out := Join(lines, CRLF);
            && JoinLines(lines) == out + CRLF
            && (lines[n] == "" && n > 0 ==> out == JoinLines(lines[..n]))
            && (EndsCRLF(out) <==> lines[n] == "" && n > 0)
  {
    var n := |lines| - 1;
    JoinIsJoinLines(lines);
    var out, last := Join(lines, CRLF), lines[n];
    if n > 0 {
      assert out == JoinLines(lines[..n]) + last;
      FinishLines(lines[..n]);
      if last != "" {
        assert out[|out| - 1] == last[|last| - 1];
        assert last[|last| - 1] in last;
      } else {
        assert out == JoinLines(lines[..n]);
      }
    } else {
      assert out == last;
    }
  }

  lemma {:induction false} JoinIsJoinLines(lines: seq<string>)
    requires lines != []
    ensures Join(lines, CRLF) == JoinLines(lines[..|lines| - 1]) + lines[|lines| - 1]
  {
    var n := |lines| - 1;
    if n == 0 {
      assert lines[..0] == [];
    } else {
      var tail := lines[1..];
      JoinIsJoinLines(tail);
      assert tail[..|tail| - 1] == lines[1..n];
      JoinLinesCons(lines[..n]);
      assert lines[..n][1..] == lines[1..n];
      assert lines[0] + CRLF + (JoinLines(lines[1..n]) + lines[n]) == lines[0] + CRLF + JoinLines(lines[1..n]) + lines[n];
    }
  }

  lemma {:induction false} JoinLinesCons(lines: seq<string>)
    requires lines != []
    ensures JoinLines(lines) == lines[0] + CRLF + JoinLines(lines[1..])
  {
    var n := |lines| - 1;
    if n == 0 {
      assert lines[..0] == [] && lines[1..] == [];
      assert JoinLines(lines) == "" + lines[0] + CRLF;
    } else {
      JoinLinesCons(lines[..n]);
      assert lines[..n][1..] == lines[1..][..n - 1];
    }
  }

  lemma CanonLinesNoLF(lines: seq<string>)
    requires NoLF(lines)
    ensures NoLF(CanonLines(lines))
  {
    forall i | 0 <= i < |lines| ensures '\n' !in CanonLine(lines[i]) {
      CollapseNoLF(DropCR(lines[i]));
      TrimNoLF(Collapse(DropCR(lines[i])));
    }
  }

  lemma {:induction false} CollapseNoLF(s: string)
    requires '\n' !in s
    ensures '\n' !in Collapse(s)
  {
    if s != "" {
      CollapseNoLF(s[..|s| - 1]);
    }
  }

  lemma {:induction false} TrimNoLF(s: string)
    requires '\n' !in s
    ensures '\n' !in TrimRightWsp(s)
  {
    if s != "" && IsWsp(s[|s| - 1]) {
      TrimNoLF(s[..|s| - 1]);
    }
  }

  /** Reading on from an LF: the lines so far, and those of the rest. */
  lemma SplitAtLF(b: string, i: nat, end: nat)
    requires i <= end <= |b| && '\n' !in b[i..end]
    requires end < |b| ==> b[end] == '\n'
    ensures Split(b[i..], '\n') == [b[i..end]] + (if end < |b| then Split(b[end + 1..], '\n') else [])
  {
    SplitNone(b[i..end], '\n');
    if end < |b| {
      assert b[i..] == b[i..end] + ['\n'] + b[end + 1..];
      SplitAppend(b[i..end], '\n', b[end + 1..]);
    } else {
      assert b[i..] == b[i..end];
    }
  }

  lemma {:induction false} JoinSnoc(lines: seq<string>, l: string)
    requires lines != []
    ensures Join(lines + [l], CRLF) == Join(lines, CRLF) + CRLF + l
  {
    if |lines| == 1 {
      assert (lines + [l])[1..] == [l];
    } else {
      JoinSnoc(lines[1..], l);
      assert (lines + [l])[1..] == lines[1..] + [l];
      assert lines[0] + CRLF + (Join(lines[1..], CRLF) + CRLF + l) == lines[0] + CRLF + Join(lines[1..], CRLF) + CRLF + l;
    }
  }

  /** One line canonicalized onto the output, CRLF before every line but the first. */
  lemma JoinNext(read: seq<string>, raw: string, rest: seq<string>)
    ensures Join(CanonLines(read + [raw]), CRLF)
         == (if read == [] then "" else Join(CanonLines(read), CRLF) + CRLF) + CanonLine(raw)
    ensures read + ([raw] + rest) == read + [raw] + rest
  {
    assert CanonLines(read + [raw]) == CanonLines(read) + [CanonLine(raw)];
    if read != [] {
      JoinSnoc(CanonLines(read), CanonLine(raw));
    }
  }

  method LineEnd(body: string, i: nat) returns (end: nat)
    requires i <= |body|
    ensures i <= end <= |body|
    ensures Split(body[i..], '\n') == [body[i..end]] + (if end < |body| then Split(body[end + 1..], '\n') else [])
  {
    end := i;
    while end < |body| && body[end] != '\n'
      invariant i <= end <= |body|
      invariant '\n' !in body[i..end]
    {
      assert body[i..end + 1] == body[i..end] + [body[end]];
      end := end + 1;
    }
    SplitAtLF(body, i, end);
  }

  method AppendLine(joined: string, isFirst: bool, raw: string) returns (out: string)
    ensures out == (if isFirst then joined else joined + CRLF) + CanonLine(raw)
  {
    var line := raw;
    if |line| > 0 && line[|line| - 1] == '\r' {
      line := line[..|line| - 1];
    }
    out := joined;
    if !isFirst {
      out := out + ['\r', '\n'];
    }
    out := EmitLine(out, line);
  }

  method WalkLines(body: string) returns (out: string)
    ensures out == Join(CanonLines(Split(body, '\n')), CRLF)
  {
    out := "";
    var i := 0;
    var isFirst := true;
    ghost var read: seq<string> := [];
    assert body[0..] == body;
    while true
      invariant 0 <= i <= |body|
      invariant Split(body, '\n') == read + Split(body[i..], '\n')
      invariant isFirst <==> read == []
      invariant out == if isFirst then "" else Join(CanonLines(read), CRLF)
      decreases |body| - i, true
    {
      var end := LineEnd(body, i);
      out := AppendLine(out, isFirst, body[i..end]);
      JoinNext(read, body[i..end], if end < |body| then Split(body[end + 1..], '\n') else []);
      read := read + [body[i..end]];
      isFirst := false;
      if end >= |body| {
        assert Split(body, '\n') == read + [];
        assert read + [] == read;
        return;
      }
      i := end + 1;
    }
  }

  method FinishBody(joined: string, ghost lines: seq<string>) returns (out: string)
    requires lines != [] && NoLF(lines) && joined == Join(lines, CRLF)
    ensures out == JoinLines(DropTrailingEmpty(lines))
  {
    out := joined;
    ghost var n := |lines| - 1;
    ghost var kept := if lines[n] == "" && n > 0 then lines[..n] else lines;
    JoinEnds(lines);
    FinishLines(kept);
    assert DropTrailingEmpty(kept) == DropTrailingEmpty(lines);
    if !EndsCRLF(out) {
      out := out + ['\r', '\n'];
    }
    assert out == JoinLines(kept);
    while EndsDoubleCRLF(out)
      invariant StripToOne(out) == StripToOne(JoinLines(kept))
      decreases |out|
    {
      out := out[..|out| - 2];
    }
    if |out| == 2 {
      out := out[..0];
    }
  }

  /** The source's byte-by-byte walk computes the line-by-line reference. */
  method CanonicalizeBodyRelaxed(body: string) returns (out: string)
    ensures out == Relaxed(body)
  {
    ghost var lines := CanonLines(Split(body, '\n'));
    SplitParts(body, '\n');
    CanonLinesNoLF(Split(body, '\n'));
    if |body| == 0 {
      assert lines == [""];
      assert DropTrailingEmpty(lines) == [];
      return "";
    }
    out := WalkLines(body);
    out := FinishBody(out, lines);
  }

  // ---------- relaxed: idempotence ----------

  /** A line in canonical form: single SP between other characters, none at the end. */
  predicate Tidy(s: string) {
    forall i :: 0 <= i < |s| && IsWsp(s[i]) ==> s[i] == ' ' && i + 1 < |s| && !IsWsp(s[i + 1])
  }

  /** Canonical up to a single SP at the end. */
  predicate NearlyTidy(s: string) {
    forall i :: 0 <= i < |s| && IsWsp(s[i]) ==> s[i] == ' ' && (i + 1 < |s| ==> !IsWsp(s[i + 1]))
  }

  lemma {:induction false} CollapseTidies(s: string)
    ensures NearlyTidy(Collapse(s))
    ensures Collapse(s) != "" ==> s != "" && (IsWsp(Collapse(s)[|Collapse(s)| - 1]) <==> IsWsp(s[|s| - 1]))
  {
    if s != "" {
      CollapseTidies(s[..|s| - 1]);
    }
  }

  lemma {:induction false} TidyFixed(s: string)
    requires NearlyTidy(s)
    ensures Collapse(s) == s
  {
    if s != "" {
      var n := |s| - 1;
      TidyFixed(s[..n]);
      assert s == s[..n] + [s[n]];
      assert n > 0 && IsWsp(s[n - 1]) ==> !IsWsp(s[n]);
    }
  }

  lemma CanonLineTidy(line: string)
    ensures Tidy(CanonLine(line))
  {
    var c := Collapse(DropCR(line));
    CollapseTidies(DropCR(line));
    if c != "" && IsWsp(c[|c| - 1]) {
      var d := c[..|c| - 1];
      assert d != "" ==> !IsWsp(d[|d| - 1]);
      assert TrimRightWsp(c) == d;
    }
  }

  lemma CanonLineFixed(line: string)
    requires Tidy(line)
    ensures CanonLine(line + "\r") == line
  {
    assert (line + "\r")[..|line|] == line;
    TidyFixed(line);
  }

  function WithCR(lines: seq<string>): seq<string> {
    seq(|lines|, i requires 0 <= i < |lines| => lines[i] + "\r")
  }

  lemma {:induction false} SplitJoinLines(lines: seq<string>)
    requires NoLF(lines)
    ensures Split(JoinLines(lines), '\n') == WithCR(lines) + [""]
  {
    if lines == [] {
      assert WithCR(lines) == [];
    } else {
      SplitJoinLines(lines[1..]);
      JoinLinesCons(lines);
      var l, rest := lines[0] + "\r", JoinLines(lines[1..]);
      assert JoinLines(lines) == l + ['\n'] + rest;
      SplitAppend(l, '\n', rest);
      SplitNone(l, '\n');
      assert WithCR(lines) == [l] + WithCR(lines[1..]);
    }
  }

  lemma {:induction false} DropTrailingEmptyIs(lines: seq<string>)
    ensures var d := DropTrailingEmpty(lines);
            d <= lines && (d != [] ==> d[|d| - 1] != "")
  {
    if lines != [] && lines[|lines| - 1] == "" {
      DropTrailingEmptyIs(lines[..|lines| - 1]);
    }
  }

  lemma CanonLinesFixed(lines: seq<string>)
    requires forall i :: 0 <= i < |lines| ==> Tidy(lines[i])
    ensures CanonLines(WithCR(lines) + [""]) == lines + [""]
  {
    forall i | 0 <= i < |lines| ensures CanonLine(WithCR(lines)[i]) == lines[i] {
      CanonLineFixed(lines[i]);
    }
    assert CanonLine("") == "";
  }

  /** Canonicalizing a relaxed-canonical body again changes nothing. */
  lemma RelaxedIdempotent(b: string)
    ensures Relaxed(Relaxed(b)) == Relaxed(b)
  {
    var raw := CanonLines(Split(b, '\n'));
    var lines := DropTrailingEmpty(raw);
    SplitParts(b, '\n');
    CanonLinesNoLF(Split(b, '\n'));
    DropTrailingEmptyIs(raw);
    forall i | 0 <= i < |lines| ensures Tidy(lines[i]) && '\n' !in lines[i] {
      assert lines[i] == raw[i];
      CanonLineTidy(Split(b, '\n')[i]);
    }
    SplitJoinLines(lines);
    CanonLinesFixed(lines);
    hide Split, CanonLines, Tidy, JoinLines, NoLF, WithCR;
    assert (lines + [""])[..|lines|] == lines;
    assert DropTrailingEmpty(lines + [""]) == DropTrailingEmpty(lines) == lines;
  }
}

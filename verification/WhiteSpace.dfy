/** What relaxed canonicalization keeps of white space (sections 3.4.2 and 3.4.4 of
    RFC 6376): the words, and in a body line whether one starts with white space. */
module WhiteSpace {
  import opened Text
  import opened DkimBody
  import opened DkimHeaders

  /** The maximal runs of other characters than SP and TAB. */
  function Words(s: string): (ws: seq<string>)
    ensures s != "" && !IsWsp(s[|s| - 1]) ==> ws != []
  {
    if s == "" then []
    else
      var n := |s| - 1;
      var before := Words(s[..n]);
      if IsWsp(s[n]) then before
      else if n > 0 && !IsWsp(s[n - 1]) then before[|before| - 1 := before[|before| - 1] + [s[n]]]
      else before + [[s[n]]]
  }

  /** The words with one space between them, after one more space if asked for. */
  function Unwords(lead: bool, ws: seq<string>): string {
    if ws == [] then ""
    else if |ws| == 1 then (if lead then " " else "") + ws[0]
    else Unwords(lead, ws[..|ws| - 1]) + " " + ws[|ws| - 1]
  }

  predicate Leads(s: string) {
    s != "" && IsWsp(s[0])
  }

  predicate Trails(s: string) {
    s != "" && IsWsp(s[|s| - 1])
  }

  lemma UnwordsGrow(lead: bool, ws: seq<string>, c: char)
    requires ws != []
    ensures Unwords(lead, ws[|ws| - 1 := ws[|ws| - 1] + [c]]) == Unwords(lead, ws) + [c]
  {
    var n := |ws| - 1;
    assert ws[n := ws[n] + [c]][..n] == ws[..n];
  }

  lemma UnwordsMore(lead: bool, ws: seq<string>, w: string)
    ensures Unwords(lead, ws + [w]) == if ws == [] then (if lead then " " else "") + w else Unwords(lead, ws) + " " + w
  {
    assert (ws + [w])[..|ws|] == ws;
    if ws == [] {
      assert ws + [w] == [w];
    }
  }

  lemma LastStep(s: string)
    requires s != ""
    ensures var n := |s| - 1;
            var before, t := Words(s[..n]), s[..n];
            && (IsWsp(s[n]) ==> Words(s) == before && Collapse(s) == Collapse(t) + if Trails(t) then "" else " ")
            && (!IsWsp(s[n]) ==> Collapse(s) == Collapse(t) + [s[n]])
            && (!IsWsp(s[n]) && t != "" && !Trails(t) ==> before != [] && Words(s) == before[|before| - 1 := before[|before| - 1] + [s[n]]])
            && (!IsWsp(s[n]) && (t == "" || Trails(t)) ==> Words(s) == before + [[s[n]]])
            && (t != "" ==> Leads(s) == Leads(t)) && Trails(s) == IsWsp(s[n])
  {
    hide IsWsp;
    assert Collapse(s[..|s| - 1]) + "" == Collapse(s[..|s| - 1]);
  }

  /** What collapsing makes of text. */
  predicate Collapsed(s: string) {
    if Words(s) == [] then Collapse(s) == (if s == "" then "" else " ") && (s != "" ==> Trails(s) && Leads(s))
    else Collapse(s) == Unwords(Leads(s), Words(s)) + if Trails(s) then " " else ""
  }

  lemma EmptyCollapsed()
    ensures Collapsed("") && Words("") == [] && Collapse("") == ""
  {}

  lemma SpaceCollapsed(s: string)
    requires s != "" && IsWsp(s[|s| - 1]) && Collapsed(s[..|s| - 1])
    ensures Collapsed(s)
  {
    var t := s[..|s| - 1];
    LastStep(s);
    EmptyCollapsed();
    hide Words, Collapse, Unwords, IsWsp;
    if t == "" {
      assert Leads(s) && "" + " " == " ";
    } else if Words(t) != [] {
      var u := Unwords(Leads(t), Words(t));
      assert u + " " + "" == u + " " && u + "" + " " == u + " ";
    } else {
      assert " " + "" == " ";
    }
  }

  lemma LetterCollapsed(s: string)
    requires s != "" && !IsWsp(s[|s| - 1]) && Collapsed(s[..|s| - 1])
    ensures Collapsed(s)
  {
    var n := |s| - 1;
    var t := s[..n];
    var before := Words(t);
    LastStep(s);
    EmptyCollapsed();
    assert t == "" ==> !Leads(s);
    hide Words, Collapse, Unwords, IsWsp;
    if t != "" && !Trails(t) {
      UnwordsGrow(Leads(s), before, s[n]);
      var u := Unwords(Leads(t), before);
      assert u + "" == u && u + [s[n]] + "" == u + [s[n]];
    } else {
      UnwordsMore(Leads(s), before, [s[n]]);
      var u := Unwords(Leads(s), before + [[s[n]]]);
      assert u + "" == u;
    }
  }

  /** Collapsing runs keeps the words, and one space where white space stands. */
  lemma {:induction false} CollapseIs(s: string)
    ensures Collapsed(s)
  {
    if s == "" {
      EmptyCollapsed();
    } else {
      hide Collapsed;
      CollapseIs(s[..|s| - 1]);
      if IsWsp(s[|s| - 1]) {
        SpaceCollapsed(s);
      } else {
        LetterCollapsed(s);
      }
    }
  }

  lemma {:induction false} UnwordsEnds(lead: bool, ws: seq<string>)
    requires ws != [] && ws[|ws| - 1] != "" && !Trails(ws[|ws| - 1])
    ensures Unwords(lead, ws) != "" && !Trails(Unwords(lead, ws))
  {}

  lemma {:induction false} WordsPlain(s: string)
    ensures forall i :: 0 <= i < |Words(s)| ==> Words(s)[i] != "" && forall j :: 0 <= j < |Words(s)[i]| ==> !IsWsp(Words(s)[i][j])
  {
    if s != "" {
      WordsPlain(s[..|s| - 1]);
    }
  }

  /** A body line in relaxed form: its words, and one space before them if white space
      stood there. So two lines have the same form if and only if they differ in nothing
      but the amount and kind of white space, and in what stands at the end. */
  lemma LineIs(line: string)
    ensures CanonLine(line) == Unwords(Leads(DropCR(line)), Words(DropCR(line)))
  {
    var s := DropCR(line);
    CollapseIs(s);
    WordsPlain(s);
    if Words(s) != [] {
      var u := Unwords(Leads(s), Words(s));
      UnwordsEnds(Leads(s), Words(s));
      assert TrimRightWsp(u) == u;
      if Trails(s) {
        assert (u + " ")[..|u + " "| - 1] == u;
      } else {
        assert u + "" == u;
      }
    } else {
      assert TrimRightWsp(" ") == "" by { assert " "[..0] == ""; }
    }
  }

  lemma {:induction false} RunsSnoc(s: string, c: char)
    ensures CollapseRuns(s + [c]) ==
            if !IsWsp(c) then CollapseRuns(s) + [c] else if Trails(s) then CollapseRuns(s) else CollapseRuns(s) + " "
  {
    var t := s + [c];
    if s == "" {
      assert t[1..] == "";
      assert CollapseRuns("") + [c] == [c];
    } else {
      RunsSnoc(s[1..], c);
      assert t[1..] == s[1..] + [c];
      assert t[0] == s[0] && (|s| > 1 ==> t[1] == s[1]);
      if |s| == 1 {
        assert t[1] == c && s[1..] == "";
      }
    }
  }

  /** Header values and body lines collapse alike. */
  lemma {:induction false} RunsAreCollapsed(s: string)
    ensures CollapseRuns(s) == Collapse(s)
  {
    if s != "" {
      var n := |s| - 1;
      RunsAreCollapsed(s[..n]);
      RunsSnoc(s[..n], s[n]);
      assert s == s[..n] + [s[n]];
    }
  }

  lemma {:induction false} UnwordsStarts(ws: seq<string>)
    requires ws != [] && ws[0] != ""
    ensures Unwords(false, ws) != "" && Unwords(false, ws)[0] == ws[0][0] && Unwords(true, ws) == " " + Unwords(false, ws)
  {
    var n := |ws| - 1;
    if n > 0 {
      UnwordsStarts(ws[..n]);
      var u := Unwords(false, ws[..n]);
      assert (" " + u) + " " + ws[n] == " " + (u + " " + ws[n]);
    }
  }

  lemma TrimNothing()
    ensures TrimWsp("") == "" && TrimWsp(" ") == ""
  {
    assert " "[1..] == "";
  }

  /** A header value in relaxed form: its words with one space between them. */
  lemma ValueIs(s: string)
    ensures TrimWsp(CollapseRuns(s)) == Unwords(false, Words(s))
  {
    RunsAreCollapsed(s);
    CollapseIs(s);
    WordsPlain(s);
    var ws := Words(s);
    if ws == [] {
      TrimNothing();
    } else {
      var u := Unwords(false, ws);
      UnwordsStarts(ws);
      UnwordsEnds(false, ws);
      hide TrimWsp, CollapseRuns, Collapse, Words, Unwords, IsWsp;
      TrimBoth(u, Leads(s), Trails(s));
      assert "" + u == u;
      assert Collapse(s) == (if Leads(s) then " " else "") + u + (if Trails(s) then " " else "");
    }
  }

  lemma TrimBoth(u: string, lead: bool, trail: bool)
    requires u != "" && !Leads(u) && !Trails(u)
    ensures TrimWsp((if lead then " " else "") + u + (if trail then " " else "")) == u
  {
    var t := u + if trail then " " else "";
    assert t[0] == u[0] && (trail ==> t[..|t| - 1] == u) && (!trail ==> t == u);
    assert TrimWsp(u) == u;
    assert TrimWsp(t) == u;
    var v := (if lead then " " else "") + t;
    assert v == (if lead then " " else "") + u + (if trail then " " else "");
    assert lead ==> v[1..] == t && v[0] == ' ';
    assert !lead ==> v == t;
  }
}

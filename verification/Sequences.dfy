/** Sequences: order, distinctness, and the map of a list of pairs. */
module Sequences {

  predicate Ascending(s: seq<int>) {
    forall i, j :: 0 <= i < j < |s| ==> s[i] < s[j]
  }

  ghost predicate SameElements(s: seq<int>, t: seq<int>) {
    forall x :: x in s <==> x in t
  }

  /** An ascending sequence is determined by its elements. */
  lemma {:induction false} AscendingUnique(s: seq<int>, t: seq<int>)
    requires Ascending(s) && Ascending(t) && SameElements(s, t)
    ensures s == t
  {
    if s == [] {
      HasElement(t);
    } else {
      var x := s[|s| - 1];
      assert x in s;
      var y := t[|t| - 1];
      assert y in t;
      assert x == y;
      var s', t' := s[..|s| - 1], t[..|t| - 1];
      forall z ensures z in s' <==> z in t' {
        WithoutLast(s, z);
        WithoutLast(t, z);
      }
      AscendingUnique(s', t');
    }
  }

  lemma HasElement(s: seq<int>)
    ensures s != [] ==> exists x :: x in s
  {
    if s != [] {
      var x := s[0];
      assert x in s;
    }
  }

  lemma WithoutLast(s: seq<int>, z: int)
    requires Ascending(s) && s != []
    ensures z in s[..|s| - 1] <==> z in s && z != s[|s| - 1]
  {}

  predicate Distinct<T(==)>(s: seq<T>) {
    forall i, j :: 0 <= i < j < |s| ==> s[i] != s[j]
  }

  /** Later pairs win. */
  function MapOf(ps: seq<(string, string)>): map<string, string> {
    if ps == [] then map[] else MapOf(ps[..|ps| - 1])[ps[|ps| - 1].0 := ps[|ps| - 1].1]
  }

  // ---------- sets of numbers in order ----------

  predicate Least(s: set<nat>, m: nat) {
    forall x :: x in s ==> m <= x
  }

  lemma {:induction false} HasLeast(s: set<nat>) returns (m: nat)
    requires s != {}
    ensures m in s && Least(s, m)
  {
    var x :| x in s;
    var rest := s - {x};
    m := x;
    if rest != {} {
      var y := HasLeast(rest);
      m := if x < y then x else y;
    }
    forall z | z in s ensures m <= z {
      assert z == x || z in rest;
    }
  }

  lemma LeastExists(s: set<nat>)
    requires s != {}
    ensures exists m :: m in s && Least(s, m)
  {
    hide Least;
    var m := HasLeast(s);
  }

  function LeastOf(s: set<nat>): (m: nat)
    requires s != {}
    ensures m in s && Least(s, m)
  {
    LeastExists(s);
    var m :| m in s && Least(s, m);
    m
  }

  lemma AscendingCons(m: nat, rest: seq<nat>, s: set<nat>)
    requires m in s && Least(s, m) && Ascending(rest) && |rest| == |s - {m}| && forall x :: x in rest <==> x in s - {m}
    ensures var xs := [m] + rest; Ascending(xs) && |xs| == |s| && forall x :: x in xs <==> x in s
  {
    assert forall i :: 0 <= i < |rest| ==> rest[i] in rest;
  }

  function InOrder(s: set<nat>): (xs: seq<nat>)
    ensures Ascending(xs) && |xs| == |s| && forall x :: x in xs <==> x in s
    decreases |s|
  {
    if s == {} then []
    else
      var m := LeastOf(s);
      var rest := InOrder(s - {m});
      AscendingCons(m, rest, s);
      [m] + rest
  }
}

/** Header canonicalization (sections 3.4.1, 3.4.2 and 5.4.2 of RFC 6376): which
    instance of a field each h= entry covers, and what oversigning protects. */
module DkimHeaders {
  import opened Text

  type Headers = map<string, seq<string>>

  /** At most one map key per field name: with two, the source's result would
      depend on Go's map iteration order. */
  ghost predicate UniqueFold(h: Headers) {
    forall k, l :: k in h && l in h && Lower(k) == Lower(l) ==> k == l
  }

  // ---------- one field ----------

  function RemoveCRLF(s: string): string {
    if s == "" then ""
    else if HasPrefix(s, CRLF) then RemoveCRLF(s[2..])
    else [s[0]] + RemoveCRLF(s[1..])
  }

  function RemoveLF(s: string): string {
    if s == "" then ""
    else if s[0] == '\n' then RemoveLF(s[1..])
    else [s[0]] + RemoveLF(s[1..])
  }

  function CollapseRuns(s: string): string {
    if s == "" then ""
    else if !IsWsp(s[0]) then [s[0]] + CollapseRuns(s[1..])
    else if |s| > 1 && IsWsp(s[1]) then CollapseRuns(s[1..])
    else " " + CollapseRuns(s[1..])
  }

  function TrimWsp(s: string): string {
    if s != "" && IsWsp(s[0]) then TrimWsp(s[1..])
    else if s != "" && IsWsp(s[|s| - 1]) then TrimWsp(s[..|s| - 1])
    else s
  }

  function CanonicalizeRelaxed(name: string, value: string): string {
    Lower(name) + ":" + TrimWsp(CollapseRuns(RemoveLF(RemoveCRLF(value)))) + CRLF
  }

  function CanonicalizeSimple(name: string, value: string): string {
    name + ": " + value + CRLF
  }

  function CanonicalizeHeader(name: string, value: string, canon: string): string {
    if canon == "relaxed" then CanonicalizeRelaxed(name, value) else CanonicalizeSimple(name, value)
  }

  // ---------- which instance an h= entry covers ----------

  /** The name and the values an h= entry refers to: the exact key when it has
      values, otherwise the key that matches case-insensitively. */
  function LookupField(h: Headers, name: string): (r: (string, seq<string>))
    requires UniqueFold(h)
    ensures forall k :: k in h && Lower(k) == Lower(name) ==> r == (k, h[k])
    ensures (forall k :: k in h ==> Lower(k) != Lower(name)) ==> r == (name, [])
  {
    if name in h && h[name] != [] then (name, h[name])
    else if exists k :: k in h && Lower(k) == Lower(name) then
      var k :| k in h && Lower(k) == Lower(name);
      (k, h[k])
    else (name, [])
  }

  /** How often a field name is mentioned in an h= list. */
  function Mentions(list: seq<string>, lower: string): nat {
    if list == [] then 0
    else Mentions(list[..|list| - 1], lower) + if Lower(list[|list| - 1]) == lower then 1 else 0
  }

  /** What entry j contributes: the j-th mention of a field covers its j-th
      instance from the bottom; mentions beyond the last instance cover nothing. */
  function Covered(h: Headers, list: seq<string>, j: nat, canon: string): string
    requires UniqueFold(h) && j < |list|
  {
    var (field, values) := LookupField(h, list[j]);
    var before := Mentions(list[..j], Lower(list[j]));
    if before < |values| then CanonicalizeHeader(field, values[|values| - 1 - before], canon) else ""
  }

  function HashInput(h: Headers, list: seq<string>, canon: string): string
    requires UniqueFold(h)
  {
    if list == [] then ""
    else
      var n := |list| - 1;
      HashInput(h, list[..n], canon) + Covered(h, list, n, canon)
  }

  method CanonicalizeHeaders(h: Headers, list: seq<string>, canon: string) returns (result: string)
    requires UniqueFold(h)
    ensures result == HashInput(h, list, canon)
  {
    hide CanonicalizeHeader, LookupField;
    result := "";
    var used: map<string, nat> := map[];
    for i := 0 to |list|
      invariant result == HashInput(h, list[..i], canon)
      invariant forall l :: Mentions(list[..i], l) == if l in used then used[l] else 0
    {
      var lower := Lower(list[i]);
      var (field, values) := LookupField(h, list[i]);
      var n := if lower in used then used[lower] else 0;
      var idx := |values| - 1 - n;
      assert list[..i + 1][..i] == list[..i];
      used := used[lower := n + 1];
      if idx < 0 {
        continue;
      }
      result := result + CanonicalizeHeader(field, values[idx], canon);
    }
    assert list[..|list|] == list;
  }

  // ---------- adding a field on top ----------

  function Prepend(h: Headers, key: string, v: string): Headers {
    h[key := [v] + if key in h then h[key] else []]
  }

  function Instances(h: Headers, lower: string): nat
    requires UniqueFold(h)
  {
    |LookupField(h, lower).1|
  }

  /** Entry by entry: nothing moves, except that the mention just past the old
      instances now covers the new field. */
  lemma CoveredAfterPrepend(h: Headers, list: seq<string>, j: nat, canon: string, key: string, v: string)
    requires UniqueFold(h) && UniqueFold(Prepend(h, key, v)) && j < |list|
    ensures Covered(Prepend(h, key, v), list, j, canon)
         == if Lower(list[j]) == Lower(key) && Mentions(list[..j], Lower(key)) == Instances(h, Lower(key))
            then CanonicalizeHeader(key, v, canon) else Covered(h, list, j, canon)
  {
    if Lower(list[j]) == Lower(key) {
      NewLookup(h, key, v, list[j]);
    } else {
      SameLookup(h, key, v, list[j]);
    }
    hide CanonicalizeHeader, LookupField, Mentions, Instances;
  }

  lemma NewLookup(h: Headers, key: string, v: string, name: string)
    requires UniqueFold(h) && UniqueFold(Prepend(h, key, v)) && Lower(name) == Lower(key)
    ensures var was, now := LookupField(h, name), LookupField(Prepend(h, key, v), name);
            && now == (key, [v] + was.1) && (was.1 != [] ==> was.0 == key)
            && |was.1| == Instances(h, Lower(key))
  {
    var h' := Prepend(h, key, v);
    LowerIdempotent(key);
    assert key in h' && LookupField(h', name) == (key, h'[key]);
    if key in h {
      assert LookupField(h, name) == (key, h[key]) && LookupField(h, Lower(key)) == (key, h[key]);
    } else {
      assert forall k :: k in h ==> k in h' && Lower(k) != Lower(key);
    }
  }

  lemma SameLookup(h: Headers, key: string, v: string, name: string)
    requires UniqueFold(h) && UniqueFold(Prepend(h, key, v)) && Lower(name) != Lower(key)
    ensures LookupField(Prepend(h, key, v), name) == LookupField(h, name)
  {
    var h' := Prepend(h, key, v);
    if k :| k in h && Lower(k) == Lower(name) {
      assert k in h' && h'[k] == h[k];
    } else {
      assert forall k :: k in h' ==> Lower(k) != Lower(name);
    }
  }

  lemma SameInstances(h: Headers, name: string, lower: string)
    requires UniqueFold(h) && Lower(name) == lower
    ensures |LookupField(h, name).1| == Instances(h, lower)
  {
    LowerIdempotent(name);
    if k :| k in h && Lower(k) == lower {
      assert LookupField(h, name) == (k, h[k]) == LookupField(h, lower);
    }
  }

  lemma {:induction false} InputAfterPrepend(h: Headers, list: seq<string>, canon: string, key: string, v: string)
    requires UniqueFold(h) && UniqueFold(Prepend(h, key, v))
    ensures var m, n := Mentions(list, Lower(key)), Instances(h, Lower(key));
            var before, after := HashInput(h, list, canon), HashInput(Prepend(h, key, v), list, canon);
            if m <= n then after == before else |after| == |before| + |CanonicalizeHeader(key, v, canon)|
  {
    if list != [] {
      var n := |list| - 1;
      InputAfterPrepend(h, list[..n], canon, key, v);
      CoveredAfterPrepend(h, list, n, canon, key, v);
      if Lower(list[n]) == Lower(key) {
        SameInstances(h, list[n], Lower(key));
      }
      hide CanonicalizeHeader, LookupField, Instances, Prepend, Lower;
    }
  }

  /** A field put on top of a message leaves the signed bytes unchanged if and
      only if the h= list mentions it no more often than it already occurs. */
  lemma PrependUnchangedIff(h: Headers, list: seq<string>, canon: string, key: string, v: string)
    requires UniqueFold(h) && UniqueFold(Prepend(h, key, v))
    ensures HashInput(Prepend(h, key, v), list, canon) == HashInput(h, list, canon)
       <==> Mentions(list, Lower(key)) <= Instances(h, Lower(key))
  {
    InputAfterPrepend(h, list, canon, key, v);
    assert |CanonicalizeHeader(key, v, canon)| >= |CRLF|;
  }

  // ---------- the h= list the signer chooses ----------

  const OPTIONAL_SIGNED: seq<string> :=
    ["cc", "reply-to", "in-reply-to", "references", "mime-version", "content-type", "content-transfer-encoding"]

  const CORE_SIGNED: seq<string> := ["from", "to", "subject", "date", "message-id"]

  predicate Present(h: Headers, name: string) {
    exists k :: k in h && |h[k]| > 0 && EqualFold(k, name)
  }

  function PresentOf(h: Headers, names: seq<string>): (r: seq<string>)
    ensures forall x :: x in r <==> x in names && Present(h, x)
    ensures |r| <= |names|
  {
    if names == [] then []
    else
      var rest := PresentOf(h, names[..|names| - 1]);
      if Present(h, names[|names| - 1]) then rest + [names[|names| - 1]] else rest
  }

  function SignedHeaderList(h: Headers): seq<string> {
    CORE_SIGNED + PresentOf(h, OPTIONAL_SIGNED) + ["from"]
  }

  method DkimSignedHeaderList(h: Headers) returns (list: seq<string>)
    ensures list == SignedHeaderList(h)
  {
    list := ["from", "to", "subject", "date", "message-id"];
    for i := 0 to |OPTIONAL_SIGNED|
      invariant list == CORE_SIGNED + PresentOf(h, OPTIONAL_SIGNED[..i])
    {
      var name := OPTIONAL_SIGNED[i];
      assert OPTIONAL_SIGNED[..i + 1][..i] == OPTIONAL_SIGNED[..i];
      if exists k :: k in h && |h[k]| > 0 && EqualFold(k, name) {
        list := list + [name];
      }
    }
    assert OPTIONAL_SIGNED[..|OPTIONAL_SIGNED|] == OPTIONAL_SIGNED;
    list := list + ["from"];
  }

  lemma {:induction false} MentionsAppend(a: seq<string>, b: seq<string>, l: string)
    ensures Mentions(a + b, l) == Mentions(a, l) + Mentions(b, l)
  {
    if b == [] {
      assert a + b == a;
    } else {
      MentionsAppend(a, b[..|b| - 1], l);
      assert (a + b)[..|a + b| - 1] == a + b[..|b| - 1];
    }
  }

  lemma {:induction false} MentionsNone(a: seq<string>, l: string)
    requires forall i :: 0 <= i < |a| ==> Lower(a[i]) != l
    ensures Mentions(a, l) == 0
  {
    if a != [] {
      MentionsNone(a[..|a| - 1], l);
    }
  }

  lemma NoFromIn(a: seq<string>)
    requires forall i :: 0 <= i < |a| ==> a[i] != "" && LowerChar(a[i][0]) != 'f'
    ensures Mentions(a, "from") == 0
  {
    forall i | 0 <= i < |a| ensures Lower(a[i]) != "from" {
      assert Lower(a[i])[0] == LowerChar(a[i][0]);
    }
    MentionsNone(a, "from");
  }

  lemma OneFrom()
    ensures Mentions(["from"], "from") == 1
  {
    assert ["from"][..0] == [];
    assert Lower("from") == "from";
  }

  lemma CoreMentions()
    ensures Mentions(CORE_SIGNED, "from") == 1
  {
    var rest := ["to", "subject", "date", "message-id"];
    assert CORE_SIGNED == ["from"] + rest;
    MentionsAppend(["from"], rest, "from");
    OneFrom();
    NoFromIn(rest);
  }

  lemma OptionalMentions(h: Headers)
    ensures Mentions(PresentOf(h, OPTIONAL_SIGNED), "from") == 0
  {
    var opt := PresentOf(h, OPTIONAL_SIGNED);
    forall i | 0 <= i < |opt| ensures opt[i] != "" && LowerChar(opt[i][0]) != 'f' {
      assert opt[i] in opt;
    }
    NoFromIn(opt);
  }

  /** The signer lists From twice, whatever the message. */
  lemma FromListedTwice(h: Headers)
    ensures Mentions(SignedHeaderList(h), "from") == 2
  {
    var opt := PresentOf(h, OPTIONAL_SIGNED);
    CoreMentions();
    OptionalMentions(h);
    OneFrom();
    MentionsAppend(CORE_SIGNED, opt, "from");
    MentionsAppend(CORE_SIGNED + opt, ["from"], "from");
  }

  /** With one From in the message, no From can be prepended unnoticed. */
  lemma PrependedFromIsNoticed(h: Headers, canon: string, key: string, v: string)
    requires UniqueFold(h) && UniqueFold(Prepend(h, key, v))
    requires Lower(key) == "from" && Instances(h, "from") == 1
    ensures HashInput(Prepend(h, key, v), SignedHeaderList(h), canon) != HashInput(h, SignedHeaderList(h), canon)
  {
    FromListedTwice(h);
    PrependUnchangedIff(h, SignedHeaderList(h), canon, key, v);
  }
}

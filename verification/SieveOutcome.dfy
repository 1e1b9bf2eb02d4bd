/** What a user can rely on when the script of their filters has run. */
module SieveOutcome {
  import opened Text
  import opened SieveScript
  import opened SieveRun
  import opened SieveCompiler
  import opened SieveMeaning
  import opened SieveTheorem

  /** The run of the filters' script on the message ended with these actions. */
  predicate Ran(w: World, msg: Message, fs: seq<Filter>, out: seq<Action>) {
    ScriptText(w, fs) != "" && Run(w, msg, ScriptText(w, fs)) == Some(out)
  }

  /** The message itself stays in a mailbox of its owner. */
  predicate IsLocal(a: Action) {
    a.Kept? || (a.Filed? && !a.copy)
  }

  function Locals(out: seq<Action>): nat {
    if out == [] then 0 else (if IsLocal(out[0]) then 1 else 0) + Locals(out[1..])
  }

  function Settling(acts: seq<FilterAction>): nat {
    if acts == [] then 0 else (if Settles(acts[0]) then 1 else 0) + Settling(acts[1..])
  }

  function AllFlags(acts: seq<FilterAction>): seq<string> {
    AddFlags([], FlagNames(acts))
  }

  lemma {:induction false} LocalsAppend(a: seq<Action>, b: seq<Action>)
    ensures Locals(a + b) == Locals(a) + Locals(b)
  {
    hide IsLocal;
    if a == [] {
      assert a + b == b;
    } else {
      LocalsAppend(a[1..], b);
      assert (a + b)[1..] == a[1..] + b;
    }
  }

  lemma DeliveryLocals(w: World, flags: seq<string>, sent: seq<string>, a: FilterAction)
    ensures Locals(Delivery(w, flags, sent, a)) == if Settles(a) then 1 else 0
  {
    hide EqualFold, ValidFolder, Holds, Forwards, Usable;
    var ds := Delivery(w, flags, sent, a);
    if ds != [] {
      assert ds[1..] == [];
    }
  }

  lemma {:induction false} DeliveriesLocals(w: World, flags: seq<string>, sent: seq<string>, acts: seq<FilterAction>)
    ensures Locals(Deliveries(w, flags, sent, acts)) == Settling(acts)
    decreases acts
  {
    hide Settles, Delivery, Locals;
    if acts == [] {
      assert Locals([]) == 0 by { LocalsNone(); }
    } else {
      var first := Delivery(w, flags, sent, acts[0]);
      var rest := Deliveries(w, flags, sent + Addresses(first), acts[1..]);
      DeliveriesLocals(w, flags, sent + Addresses(first), acts[1..]);
      DeliveryLocals(w, flags, sent, acts[0]);
      DeliveriesCons(w, flags, sent, acts);
      LocalsAppend(first, rest);
    }
  }

  lemma LocalsNone()
    ensures Locals([]) == 0
  {}

  lemma {:induction false} SettlingIff(acts: seq<FilterAction>)
    ensures Settled(acts) <==> Settling(acts) > 0
  {
    hide Settles;
    if acts != [] {
      SettlingIff(acts[1..]);
      assert forall i :: 1 <= i < |acts| ==> acts[i] == acts[1..][i - 1];
    }
  }

  lemma RanIs(w: World, msg: Message, fs: seq<Filter>, out: seq<Action>)
    requires Ran(w, msg, fs, out)
    ensures var acts := Fired(w, msg, fs);
            out == Deliveries(w, AllFlags(acts), [], acts) + if Settled(acts) then [] else [Kept(AllFlags(acts))]
  {
    MeaningPreserved(w, msg, fs);
    hide Run, ScriptText, Fits, Bearable, Fired, Deliveries, Settled, AddFlags, FlagNames;
  }

  lemma OneKept(flags: seq<string>)
    ensures Locals([Kept(flags)]) == 1
  {
    assert [Kept(flags)][1..] == [];
  }

  /** The message itself is kept or filed once for every action that settles where it
      goes, and once when there is none. */
  lemma LocalCopies(w: World, msg: Message, fs: seq<Filter>, out: seq<Action>)
    requires Ran(w, msg, fs, out)
    ensures var n := Settling(Fired(w, msg, fs)); Locals(out) == if n == 0 then 1 else n
  {
    hide Run, ScriptText, Fired, Deliveries, Settled, Settling, AddFlags, FlagNames, Locals;
    var acts := Fired(w, msg, fs);
    var flags := AllFlags(acts);
    RanIs(w, msg, fs, out);
    DeliveriesLocals(w, flags, [], acts);
    SettlingIff(acts);
    OneKept(flags);
    var ds := Deliveries(w, flags, [], acts);
    LocalsAppend(ds, [Kept(flags)]);
    assert ds + [] == ds;
  }

  lemma {:induction false} LocalAt(out: seq<Action>) returns (i: nat)
    requires Locals(out) > 0
    ensures i < |out| && IsLocal(out[i])
  {
    if IsLocal(out[0]) {
      i := 0;
    } else {
      var j := LocalAt(out[1..]);
      i := j + 1;
    }
  }

  /** No run loses a message: it is kept, or filed other than as a copy. */
  lemma NothingLost(w: World, msg: Message, fs: seq<Filter>, out: seq<Action>)
    requires Ran(w, msg, fs, out)
    ensures exists i :: 0 <= i < |out| && (out[i].Kept? || (out[i].Filed? && !out[i].copy))
  {
    LocalCopies(w, msg, fs, out);
    hide Ran, Fired, Settling, Locals;
    var i := LocalAt(out);
  }

  /** Forwards and copies leave the message in the inbox: when no action settles where it
      goes, the run ends with a keep under all flags, and all before it are copies. */
  lemma InboxCopy(w: World, msg: Message, fs: seq<Filter>, out: seq<Action>)
    requires Ran(w, msg, fs, out) && !Settled(Fired(w, msg, fs))
    ensures out != [] && out[|out| - 1] == Kept(AllFlags(Fired(w, msg, fs)))
    ensures forall i :: 0 <= i < |out| - 1 ==> (out[i].Filed? || out[i].Sent?) && out[i].copy
  {
    hide Run, ScriptText, Fired, Deliveries, Settled, AddFlags, FlagNames;
    var acts := Fired(w, msg, fs);
    RanIs(w, msg, fs, out);
    CopiesIff(w, AllFlags(acts), [], acts);
  }

  /** What a firing filter's action must leave in the outcome. */
  predicate CarriedOut(w: World, a: FilterAction, flags: seq<string>, out: seq<Action>) {
    && (a.kind == "move" && EqualFold(a.target, "INBOX") ==> Kept(flags) in out)
    && (a.kind == "move" && !EqualFold(a.target, "INBOX") && ValidFolder(a.target) ==>
          (if Usable(a.target) then Filed(a.target, false, flags) else Kept(flags)) in out)
    && (a.kind == "copy" && !EqualFold(a.target, "INBOX") && ValidFolder(a.target) && Usable(a.target) ==>
          Filed(a.target, true, flags) in out)
    && (a.kind == "delete" ==> Filed("Trash", false, flags) in out)
    && (a.kind == "markSpam" ==> Filed("Junk", false, flags) in out)
    && (a.kind == "forward" && Forwards(w, a).Some? ==> SentTo(out, Forwards(w, a).value))
  }

  predicate SentTo(out: seq<Action>, to: string) {
    exists i :: 0 <= i < |out| && out[i].Sent? && EqualFold(out[i].to, to)
  }

  lemma SentToIff(out: seq<Action>, to: string)
    ensures SentTo(out, to) <==> Holds(Addresses(out), to)
  {
    hide EqualFold;
    if SentTo(out, to) {
      var i :| 0 <= i < |out| && out[i].Sent? && EqualFold(out[i].to, to);
      var j := AddressAt(out, i);
    }
    if Holds(Addresses(out), to) {
      var j :| 0 <= j < |Addresses(out)| && EqualFold(Addresses(out)[j], to);
      var i := SentAt(out, j);
    }
  }

  lemma {:induction false} AddressAt(out: seq<Action>, i: nat) returns (j: nat)
    requires i < |out| && out[i].Sent?
    ensures j < |Addresses(out)| && Addresses(out)[j] == out[i].to
  {
    if i == 0 {
      j := 0;
    } else {
      var k := AddressAt(out[1..], i - 1);
      j := k + if out[0].Sent? then 1 else 0;
    }
  }

  lemma {:induction false} SentAt(out: seq<Action>, j: nat) returns (i: nat)
    requires j < |Addresses(out)|
    ensures i < |out| && out[i].Sent? && out[i].to == Addresses(out)[j]
  {
    if out[0].Sent? && j == 0 {
      i := 0;
    } else {
      var k := SentAt(out[1..], j - if out[0].Sent? then 1 else 0);
      i := k + 1;
    }
  }

  lemma CarriedOutMore(w: World, a: FilterAction, flags: seq<string>, out: seq<Action>, before: seq<Action>, after: seq<Action>)
    requires CarriedOut(w, a, flags, out)
    ensures CarriedOut(w, a, flags, before + out + after)
  {
    var all := before + out + after;
    assert forall x :: x in out ==> x in all;
    assert forall i :: 0 <= i < |out| ==> all[|before| + i] == out[i];
    hide EqualFold, ValidFolder, Usable, Forwards;
    if a.kind == "forward" && Forwards(w, a).Some? {
      var i :| 0 <= i < |out| && out[i].Sent? && EqualFold(out[i].to, Forwards(w, a).value);
      assert all[|before| + i] == out[i];
    }
  }

  lemma DeliveryCarriedOut(w: World, flags: seq<string>, earlier: seq<Action>, a: FilterAction)
    ensures CarriedOut(w, a, flags, earlier + Delivery(w, flags, Addresses(earlier), a))
  {
    var ds := Delivery(w, flags, Addresses(earlier), a);
    var all := earlier + ds;
    hide ValidFolder, Usable;
    KindsDiffer(a.kind);
    if ds != [] {
      assert all[|earlier|] == ds[0];
    }
    if a.kind == "forward" && Forwards(w, a).Some? {
      var to := Forwards(w, a).value;
      if Holds(Addresses(earlier), to) {
        SentToIff(earlier, to);
        var i :| 0 <= i < |earlier| && earlier[i].Sent? && EqualFold(earlier[i].to, to);
        assert all[i] == earlier[i];
      } else {
        assert EqualFold(all[|earlier|].to, to);
      }
    }
  }

  lemma KindsDiffer(k: string)
    ensures k == "move" ==> k != "copy" && k != "delete" && k != "markSpam" && k != "forward"
    ensures k == "copy" ==> k != "delete" && k != "markSpam" && k != "forward"
    ensures k == "delete" ==> k != "markSpam" && k != "forward"
    ensures k == "markSpam" ==> k != "forward"
  {
    assert |"move"| == 4 && |"copy"| == 4 && "move"[0] == 'm' && "copy"[0] == 'c' && |"delete"| == 6 && |"markSpam"| == 8 && |"forward"| == 7;
  }

  lemma {:induction false} DeliveriesCarriedOut(w: World, flags: seq<string>, earlier: seq<Action>, acts: seq<FilterAction>, i: nat)
    requires i < |acts|
    ensures CarriedOut(w, acts[i], flags, earlier + Deliveries(w, flags, Addresses(earlier), acts))
    decreases acts
  {
    hide CarriedOut, Delivery, Deliveries, Addresses;
    var first := Delivery(w, flags, Addresses(earlier), acts[0]);
    var rest := Deliveries(w, flags, Addresses(earlier) + Addresses(first), acts[1..]);
    DeliveriesCons(w, flags, Addresses(earlier), acts);
    AddressesAppend(earlier, first);
    assert earlier + (first + rest) == earlier + first + rest;
    if i == 0 {
      DeliveryCarriedOut(w, flags, earlier, acts[0]);
      CarriedOutMore(w, acts[0], flags, earlier + first, [], rest);
      assert [] + (earlier + first) + rest == earlier + first + rest;
    } else {
      DeliveriesCarriedOut(w, flags, earlier + first, acts[1..], i - 1);
    }
  }

  /** Every action of every firing filter is carried out, under the flags of all. */
  lemma AllCarriedOut(w: World, msg: Message, fs: seq<Filter>, out: seq<Action>, i: nat)
    requires Ran(w, msg, fs, out) && i < |Fired(w, msg, fs)|
    ensures CarriedOut(w, Fired(w, msg, fs)[i], AllFlags(Fired(w, msg, fs)), out)
  {
    hide Run, ScriptText, Fired, Deliveries, Settled, AddFlags, FlagNames, CarriedOut;
    var acts := Fired(w, msg, fs);
    var flags := AllFlags(acts);
    RanIs(w, msg, fs, out);
    assert Addresses([]) == [];
    DeliveriesCarriedOut(w, flags, [], acts, i);
    var ds := Deliveries(w, flags, [], acts);
    var tail := if Settled(acts) then [] else [Kept(flags)];
    assert [] + ds == ds && [] + ds + tail == ds + tail;
    CarriedOutMore(w, acts[i], flags, ds, [], tail);
  }

  // ---------- forwards ----------

  /** No address, in any letter case, twice. */
  predicate OnceEach(to: seq<string>) {
    forall i, j :: 0 <= i < j < |to| ==> !EqualFold(to[i], to[j])
  }

  lemma OnceEachMore(to: seq<string>, x: string)
    requires OnceEach(to) && !Holds(to, x)
    ensures OnceEach(to + [x])
  {}

  lemma {:induction false} ForwardsOnce(w: World, flags: seq<string>, sent: seq<string>, acts: seq<FilterAction>)
    requires OnceEach(sent)
    ensures OnceEach(sent + Addresses(Deliveries(w, flags, sent, acts)))
    decreases acts
  {
    hide OnceEach, Delivery, Deliveries, Addresses;
    if acts == [] {
      assert Addresses(Deliveries(w, flags, sent, acts)) == [] by { NoDeliveries(w, flags, sent); }
      assert sent + [] == sent;
    } else {
      var first := Delivery(w, flags, sent, acts[0]);
      var rest := Deliveries(w, flags, sent + Addresses(first), acts[1..]);
      NewAddress(w, flags, sent, acts[0]);
      ForwardsOnce(w, flags, sent + Addresses(first), acts[1..]);
      DeliveriesCons(w, flags, sent, acts);
      AddressesAppend(first, rest);
      assert sent + Addresses(first) + Addresses(rest) == sent + (Addresses(first) + Addresses(rest));
    }
  }

  lemma NoDeliveries(w: World, flags: seq<string>, sent: seq<string>)
    ensures Deliveries(w, flags, sent, []) == [] && Addresses([]) == []
  {}

  lemma NewAddress(w: World, flags: seq<string>, sent: seq<string>, a: FilterAction)
    requires OnceEach(sent)
    ensures OnceEach(sent + Addresses(Delivery(w, flags, sent, a)))
  {
    hide EqualFold, ValidFolder, Usable, Forwards;
    var ds := Delivery(w, flags, sent, a);
    if ds == [] {
      assert sent + [] == sent;
    } else {
      assert ds[1..] == [];
      if ds[0].Sent? {
        OnceEachMore(sent, ds[0].to);
        assert Addresses(ds) == [ds[0].to] + [] == [ds[0].to];
      } else {
        assert Addresses(ds) == [] + [] && sent + [] == sent;
      }
    }
  }

  /** However many filters forward a message, no address gets it twice. */
  lemma ForwardedOnce(w: World, msg: Message, fs: seq<Filter>, out: seq<Action>)
    requires Ran(w, msg, fs, out)
    ensures OnceEach(Addresses(out))
  {
    hide Run, ScriptText, Fired, Deliveries, Settled, AddFlags, FlagNames, Addresses;
    var acts := Fired(w, msg, fs);
    var flags := AllFlags(acts);
    RanIs(w, msg, fs, out);
    ForwardsOnce(w, flags, [], acts);
    var ds := Deliveries(w, flags, [], acts);
    var tail := if Settled(acts) then [] else [Kept(flags)];
    AddressesAppend(ds, tail);
    NoAddress(flags);
    assert [] + Addresses(ds) == Addresses(ds) && Addresses(ds) + [] == Addresses(ds);
  }

  lemma NoAddress(flags: seq<string>)
    ensures Addresses([]) == [] && Addresses([Kept(flags)]) == []
  {
    assert [Kept(flags)][1..] == [];
  }

  /** The limits of a run: 256 actions, 16 redirects, 200000 operations. */
  lemma LimitsHold(w: World, msg: Message, fs: seq<Filter>, out: seq<Action>)
    requires Ran(w, msg, fs, out)
    ensures |Delivered(w, msg, fs)| <= 256 && |Addresses(Delivered(w, msg, fs))| <= 16
    ensures RulesWork(w, msg, fs, true) + RulesWork(w, msg, fs, false) <= 200000
  {
    MeaningPreserved(w, msg, fs);
    hide Run, ScriptText, Fits, Delivered, RulesWork, Addresses, Expected;
  }
}

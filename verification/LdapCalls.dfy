/** What each call of the LDAP pool does when no other thread is in its way: the steps of
    the state machine put together. */
module LdapCalls {
  import opened Text
  import opened LdapPool

  /** Thread p is idle and nobody holds the lock. */
  predicate Ready(s: State, p: nat) {
    p < |s.procs| && s.procs[p] == Idle && s.owner == None
  }

  /** The steps of thread p alone. */
  function Alone(s: State, p: nat, oracles: seq<bool>): Option<State>
    requires p < |s.procs|
    decreases oracles
  {
    if oracles == [] then Some(s)
    else
      var t := Go(s, p, oracles[0]);
      if t == None || |t.value.procs| != |s.procs| then None else Alone(t.value, p, oracles[1..])
  }

  function Steps(p: nat, oracles: seq<bool>): seq<Step> {
    seq(|oracles|, i requires 0 <= i < |oracles| => Advance(p, oracles[i]))
  }

  lemma {:induction false} AloneIsRun(s: State, p: nat, oracles: seq<bool>)
    requires p < |s.procs| && Alone(s, p, oracles).Some?
    ensures Run(s, Steps(p, oracles)) == Alone(s, p, oracles)
    decreases oracles
  {
    hide Go;
    if oracles != [] {
      var t := Go(s, p, oracles[0]).value;
      AloneIsRun(t, p, oracles[1..]);
      assert Steps(p, oracles)[0] == Advance(p, oracles[0]);
      assert Steps(p, oracles)[1..] == Steps(p, oracles[1..]);
    }
  }

  /** A whole call: its start and the steps after it. */
  function Call(s: State, p: nat, call: LdapPool.Call, oracles: seq<bool>): Option<State>
    requires p < |s.procs|
  {
    var t := Begin(s, p, call);
    if t == None || |t.value.procs| != |s.procs| then None else Alone(t.value, p, oracles)
  }

  lemma CallIsRun(s: State, p: nat, call: LdapPool.Call, oracles: seq<bool>)
    requires p < |s.procs| && Call(s, p, call, oracles).Some?
    ensures Run(s, [Start(p, call)] + Steps(p, oracles)) == Call(s, p, call, oracles)
  {
    hide Begin, Alone, Run;
    var t := Begin(s, p, call).value;
    AloneIsRun(t, p, oracles);
    RunFirst(s, Start(p, call), Steps(p, oracles));
  }

  lemma RunFirst(s: State, step: Step, rest: seq<Step>)
    ensures Run(s, [step] + rest) == var t := Next(s, step); if t == None then None else Run(t.value, rest)
  {
    hide Next;
    assert ([step] + rest)[1..] == rest;
  }

  lemma AloneFirst(s: State, p: nat, o: bool, rest: seq<bool>)
    requires p < |s.procs|
    ensures Alone(s, p, [o] + rest) ==
            var t := Go(s, p, o); if t == None || |t.value.procs| != |s.procs| then None else Alone(t.value, p, rest)
  {
    hide Go;
    assert ([o] + rest)[1..] == rest && ([o] + rest)[0] == o;
  }

  lemma AloneOne(s: State, p: nat, o: bool)
    requires p < |s.procs| && Go(s, p, o).Some? && |Go(s, p, o).value.procs| == |s.procs|
    ensures Alone(s, p, [o]) == Go(s, p, o)
  {
    hide Go;
    assert [o] + [] == [o];
    AloneFirst(s, p, o, []);
  }

  lemma BackToIdle(s: State, p: nat, pc: Pc)
    requires p < |s.procs| && s.procs[p] == Idle
    ensures s.procs[p := pc][p := Idle] == s.procs
  {}

  // ---------- acquire ----------

  /** A warm connection is handed out, the one that waited longest. */
  lemma AcquireWarm(s: State, p: nat)
    requires Ready(s, p) && s.buf != []
    ensures Call(s, p, Acquire, [false]) == Some(s.(held := s.held + {s.buf[0]}, buf := s.buf[1..]))
  {
    hide Alone;
    var a := At(s, p, Acquiring);
    AloneOne(a, p, false);
    BackToIdle(s, p, Acquiring);
  }

  /** One that is closing is closed and never handed out; the search goes on. */
  lemma AcquireStale(s: State, p: nat, o: bool)
    requires Ready(s, p) && s.buf != []
    ensures Call(s, p, Acquire, [true, o]) == Some(At(s, p, Acquiring).(buf := s.buf[1..], closes := s.closes + multiset{s.buf[0]}))
  {
    hide Alone;
    var a := At(s, p, Acquiring);
    var b := Receive(a, p, true);
    assert [true, o] == [true] + [o];
    AloneFirst(a, p, true, [o]);
    AloneOne(b, p, o);
    assert s.procs[p := Acquiring][p := Stale(s.buf[0])][p := Acquiring] == s.procs[p := Acquiring];
  }

  /** Without a warm connection an open pool dials a new one, and a failed dial leaves
      everything as it was. */
  lemma AcquireDials(s: State, p: nat, ok: bool)
    requires Ready(s, p) && s.buf == [] && !s.closed && !s.chanClosed
    ensures Call(s, p, Acquire, [true, true, true, true, ok]) ==
            Some(if ok then s.(held := s.held + {s.dialed}, dialed := s.dialed + 1) else s)
  {
    hide Alone;
    var a := At(s, p, Acquiring);
    var b := At(a, p, ReadWait);
    var c := At(b, p, Reading).(owner := Some(p));
    var d := At(c, p, ReadUnlock(false));
    var e := At(d, p, Dialing).(owner := None);
    assert [true, true, true, true, ok] == [true] + ([true] + ([true] + ([true] + [ok])));
    AloneFirst(a, p, true, [true] + ([true] + ([true] + [ok])));
    AloneFirst(b, p, true, [true] + ([true] + [ok]));
    AloneFirst(c, p, true, [true] + [ok]);
    AloneFirst(d, p, true, [ok]);
    AloneOne(e, p, ok);
    assert e.procs == s.procs[p := Dialing];
    BackToIdle(s, p, Dialing);
  }

  /** A closed pool hands out nothing and dials nothing. */
  lemma AcquireClosed(s: State, p: nat, o: bool)
    requires Ready(s, p) && s.buf == [] && s.closed
    ensures Call(s, p, Acquire, if s.chanClosed then [o] else [o, o, o, o]) == Some(s)
  {
    hide Alone;
    var a := At(s, p, Acquiring);
    BackToIdle(s, p, Acquiring);
    if s.chanClosed {
      AloneOne(a, p, o);
    } else {
      var b := At(a, p, ReadWait);
      var c := At(b, p, Reading).(owner := Some(p));
      var d := At(c, p, ReadUnlock(true));
      assert [o, o, o, o] == [o] + ([o] + ([o] + [o]));
      AloneFirst(a, p, o, [o] + ([o] + [o]));
      AloneFirst(b, p, o, [o] + [o]);
      AloneFirst(c, p, o, [o]);
      AloneOne(d, p, o);
      assert d.procs[p := Idle] == s.procs;
    }
  }

  // ---------- release and discard ----------

  /** A healthy connection is kept warm while there is room in an open pool. */
  lemma ReleaseKept(s: State, p: nat, c: Conn, o: bool)
    requires Ready(s, p) && c in s.held && !s.closed && !s.chanClosed && |s.buf| < s.maxSize
    ensures Call(s, p, Release(c), [false, o, o, o, o]) == Some(s.(held := s.held - {c}, buf := s.buf + [c]))
  {
    hide Alone;
    var a := At(s, p, Releasing(c)).(held := s.held - {c});
    var b := At(a, p, SendWait(c));
    var d := At(b, p, Checking(c)).(owner := Some(p));
    var e := At(d, p, Sending(c));
    var f := At(e, p, Unlocking).(buf := s.buf + [c]);
    assert [false, o, o, o, o] == [false] + ([o] + ([o] + ([o] + [o])));
    AloneFirst(a, p, false, [o] + ([o] + ([o] + [o])));
    AloneFirst(b, p, o, [o] + ([o] + [o]));
    AloneFirst(d, p, o, [o] + [o]);
    AloneFirst(e, p, o, [o]);
    AloneOne(f, p, o);
    assert f.procs[p := Idle] == s.procs;
  }

  /** In a full pool it is closed instead. */
  lemma ReleaseFull(s: State, p: nat, c: Conn, o: bool)
    requires Ready(s, p) && c in s.held && !s.closed && !s.chanClosed && |s.buf| >= s.maxSize
    ensures Call(s, p, Release(c), [false, o, o, o, o, o]) == Some(s.(held := s.held - {c}, closes := s.closes + multiset{c}))
  {
    hide Alone;
    var a := At(s, p, Releasing(c)).(held := s.held - {c});
    var b := At(a, p, SendWait(c));
    var d := At(b, p, Checking(c)).(owner := Some(p));
    var e := At(d, p, Sending(c));
    var f := At(e, p, Dropping(c));
    var g := At(f, p, Unlocking).(closes := s.closes + multiset{c});
    assert [false, o, o, o, o, o] == [false] + ([o] + ([o] + ([o] + ([o] + [o]))));
    AloneFirst(a, p, false, [o] + ([o] + ([o] + ([o] + [o]))));
    AloneFirst(b, p, o, [o] + ([o] + ([o] + [o])));
    AloneFirst(d, p, o, [o] + ([o] + [o]));
    AloneFirst(e, p, o, [o] + [o]);
    AloneFirst(f, p, o, [o]);
    AloneOne(g, p, o);
    assert g.procs[p := Idle] == s.procs;
  }

  /** A connection that is closing is closed, whatever the pool's state. */
  lemma ReleaseClosing(s: State, p: nat, c: Conn, o: bool)
    requires Ready(s, p) && c in s.held
    ensures Call(s, p, Release(c), [true, o]) == Some(s.(held := s.held - {c}, closes := s.closes + multiset{c}))
  {
    hide Alone;
    var a := At(s, p, Releasing(c)).(held := s.held - {c});
    var z := At(a, p, Closing(c));
    assert [true, o] == [true] + [o];
    AloneFirst(a, p, true, [o]);
    AloneOne(z, p, o);
    assert z.procs[p := Idle] == s.procs;
  }

  /** So is any connection given back to a closed pool. */
  lemma ReleaseLate(s: State, p: nat, c: Conn, o: bool)
    requires Ready(s, p) && c in s.held && s.closed
    ensures Call(s, p, Release(c), [false, o, o, o, o]) == Some(s.(held := s.held - {c}, closes := s.closes + multiset{c}))
  {
    hide Alone;
    var a := At(s, p, Releasing(c)).(held := s.held - {c});
    var b := At(a, p, SendWait(c));
    var d := At(b, p, Checking(c)).(owner := Some(p));
    var e := At(d, p, GiveUp(c));
    var f := At(e, p, Closing(c)).(owner := None);
    assert [false, o, o, o, o] == [false] + ([o] + ([o] + ([o] + [o])));
    AloneFirst(a, p, false, [o] + ([o] + ([o] + [o])));
    AloneFirst(b, p, o, [o] + ([o] + [o]));
    AloneFirst(d, p, o, [o] + [o]);
    AloneFirst(e, p, o, [o]);
    AloneOne(f, p, o);
    assert f.procs[p := Idle] == s.procs;
  }

  /** A discarded connection is closed, whatever the pool's state. */
  lemma DiscardCloses(s: State, p: nat, c: Conn, o: bool)
    requires Ready(s, p) && c in s.held
    ensures Call(s, p, Discard(c), [o]) == Some(s.(held := s.held - {c}, closes := s.closes + multiset{c}))
  {
    hide Alone;
    var a := At(s, p, Closing(c)).(held := s.held - {c});
    AloneOne(a, p, o);
    assert a.procs[p := Idle] == s.procs;
  }

  // ---------- close ----------

  function Falses(n: nat): seq<bool> {
    if n == 0 then [] else [false] + Falses(n - 1)
  }

  lemma DrainEmpty(s: State, p: nat)
    requires p < |s.procs| && s.procs[p] == Draining && s.buf == []
    ensures Alone(s, p, Falses(2)) == Some(s.(procs := s.procs[p := Idle], owner := None))
  {
    hide Alone;
    var u := At(s, p, Unlocking);
    assert Falses(2) == [false] + [false] by { assert Falses(1) == [false] + Falses(0); }
    AloneFirst(s, p, false, [false]);
    AloneOne(u, p, false);
    assert u.procs[p := Idle] == s.procs[p := Idle];
  }

  /** Draining takes out one connection and closes it. */
  lemma DrainFirst(s: State, p: nat, rest: seq<bool>)
    requires p < |s.procs| && s.procs[p] == Draining && s.buf != []
    ensures Alone(s, p, [false] + ([false] + rest)) == Alone(Drained(s), p, rest)
  {
    hide Alone;
    var c, d := s.buf[0], At(s, p, DrainOne(s.buf[0])).(buf := s.buf[1..]);
    AloneFirst(s, p, false, [false] + rest);
    AloneFirst(d, p, false, rest);
    assert s.procs[p := DrainOne(c)][p := Draining] == s.procs;
  }

  function Drained(s: State): State
    requires s.buf != []
  {
    s.(buf := s.buf[1..], closes := s.closes + multiset{s.buf[0]})
  }

  lemma FalsesTwo(n: nat)
    ensures Falses(n + 2) == [false] + ([false] + Falses(n))
  {
    assert Falses(n + 2) == [false] + Falses(n + 1);
  }

  lemma {:induction false} DrainAll(s: State, p: nat)
    requires p < |s.procs| && s.procs[p] == Draining
    ensures Alone(s, p, Falses(2 * |s.buf| + 2)) ==
            Some(s.(procs := s.procs[p := Idle], owner := None, buf := [], closes := s.closes + multiset(s.buf)))
    decreases |s.buf|
  {
    hide Alone, Falses;
    if s.buf == [] {
      DrainEmpty(s, p);
      assert s.closes + multiset(s.buf) == s.closes;
    } else {
      FalsesTwo(2 * |s.buf|);
      DrainFirst(s, p, Falses(2 * |s.buf|));
      DrainAll(Drained(s), p);
      assert s.buf == [s.buf[0]] + s.buf[1..];
      assert s.closes + multiset{s.buf[0]} + multiset(s.buf[1..]) == s.closes + multiset(s.buf);
    }
  }

  /** Closing an open pool closes every warm connection, each once. */
  lemma CloseDrains(s: State, p: nat)
    requires Ready(s, p) && !s.closed && !s.chanClosed
    ensures Call(s, p, Close, [false] + ([false] + ([false] + Falses(2 * |s.buf| + 2)))) ==
            Some(s.(closed := true, chanClosed := true, buf := [], closes := s.closes + multiset(s.buf)))
  {
    hide Alone, Falses;
    var a := At(s, p, CloseWait);
    var b := At(a, p, CloseCheck).(owner := Some(p));
    var c := At(b, p, CloseChannel).(closed := true);
    var d := At(c, p, Draining).(chanClosed := true);
    var rest := Falses(2 * |s.buf| + 2);
    AloneFirst(a, p, false, [false] + ([false] + rest));
    AloneFirst(b, p, false, [false] + rest);
    AloneFirst(c, p, false, rest);
    DrainAll(d, p);
    assert d.procs[p := Idle] == s.procs;
  }

  /** Closing it again does nothing. */
  lemma CloseTwice(s: State, p: nat)
    requires Ready(s, p) && s.closed
    ensures Call(s, p, Close, [false] + ([false] + [false])) == Some(s)
  {
    hide Alone;
    var a := At(s, p, CloseWait);
    var b := At(a, p, CloseCheck).(owner := Some(p));
    var u := At(b, p, Unlocking);
    AloneFirst(a, p, false, [false] + [false]);
    AloneFirst(b, p, false, [false]);
    AloneOne(u, p, false);
    assert u.procs[p := Idle] == s.procs;
  }
}

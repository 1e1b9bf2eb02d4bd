/** The LDAP connection pool as a state machine: any number of threads run acquire,
    release, discard and close, one atomic step at a time, in any order. */
module LdapPool {
  import opened Text

  type Conn = nat

  /** Where a thread stands. */
  datatype Pc =
    | Idle
    | Acquiring                // at the select of acquire
    | Stale(c: Conn)           // received a closing connection, about to close it
    | ReadWait                 // nothing buffered, about to take the lock
    | Reading                  // lock held, about to read closed
    | ReadUnlock(seen: bool)   // lock held, about to release it
    | Dialing                  // saw an open pool, about to dial
    | Releasing(c: Conn)       // about to ask whether the connection is closing
    | Closing(c: Conn)         // about to close a connection of its own
    | SendWait(c: Conn)        // about to take the lock
    | Checking(c: Conn)        // lock held, about to read closed
    | GiveUp(c: Conn)          // lock held, pool closed, about to release the lock
    | Sending(c: Conn)         // lock held, about to send on the channel
    | Dropping(c: Conn)        // lock held, buffer full, about to close the connection
    | Unlocking                // lock held, about to release it
    | CloseWait                // about to take the lock for close
    | CloseCheck               // lock held, about to read and set closed
    | CloseChannel             // lock held, about to close the channel
    | Draining                 // lock held, about to receive what is buffered
    | DrainOne(c: Conn)        // lock held, about to close a drained connection

  datatype State = State(
    procs: seq<Pc>,
    held: set<Conn>,           // connections in the hands of callers
    buf: seq<Conn>,            // the channel's buffer
    chanClosed: bool,
    closed: bool,              // the lock-guarded field
    owner: Option<nat>,        // who holds the lock
    closes: multiset<Conn>,    // every Close call the pool has made
    dialed: nat,               // connections 0 to dialed - 1 exist
    maxSize: nat,
    panicked: bool)            // sent on, or closed, a closed channel

  const DEFAULT_SIZE := 10

  function Init(threads: nat, maxSize: int): State {
    State(seq(threads, _ => Idle), {}, [], false, false, None, multiset{}, 0,
          if maxSize <= 0 then DEFAULT_SIZE else maxSize, false)
  }

  datatype Call = Acquire | Release(c: Conn) | Discard(c: Conn) | Close

  /** A step: an idle thread makes a call, or a thread in a call advances. The
      oracle decides what the pool does not: whether a connection is closing and
      whether a dial succeeds. */
  datatype Step = Start(p: nat, call: Call) | Advance(p: nat, oracle: bool)

  function At(s: State, p: nat, pc: Pc): State
    requires p < |s.procs|
  {
    s.(procs := s.procs[p := pc])
  }

  function TakeLock(s: State, p: nat, pc: Pc): Option<State>
    requires p < |s.procs|
  {
    if s.owner == None then Some(At(s, p, pc).(owner := Some(p))) else None
  }

  function FreeLock(s: State, p: nat, pc: Pc): State
    requires p < |s.procs|
  {
    At(s, p, pc).(owner := None)
  }

  function CloseConn(s: State, p: nat, c: Conn, pc: Pc): State
    requires p < |s.procs|
  {
    At(s, p, pc).(closes := s.closes + multiset{c})
  }

  /** Callers give back only what they hold. */
  function Begin(s: State, p: nat, call: Call): Option<State>
    requires p < |s.procs|
  {
    if s.procs[p] != Idle then None
    else match call
      case Acquire => Some(At(s, p, Acquiring))
      case Release(c) => if c in s.held then Some(At(s, p, Releasing(c)).(held := s.held - {c})) else None
      case Discard(c) => if c in s.held then Some(At(s, p, Closing(c)).(held := s.held - {c})) else None
      case Close => Some(At(s, p, CloseWait))
  }

  /** acquire at its select: a buffered connection, the end of the channel, or the
      default branch. */
  function Receive(s: State, p: nat, oracle: bool): State
    requires p < |s.procs|
  {
    if s.buf != [] then
      var c, t := s.buf[0], s.(buf := s.buf[1..]);
      if oracle then At(t, p, Stale(c)) else At(t, p, Idle).(held := s.held + {c})
    else At(s, p, if s.chanClosed then Idle else ReadWait)
  }

  function Dial(s: State, p: nat, oracle: bool): State
    requires p < |s.procs|
  {
    if oracle then At(s, p, Idle).(held := s.held + {s.dialed}, dialed := s.dialed + 1) else At(s, p, Idle)
  }

  /** A thread that does not hold the lock. */
  function Outside(s: State, p: nat, oracle: bool): Option<State>
    requires p < |s.procs|
  {
    match s.procs[p]
    case Acquiring => Some(Receive(s, p, oracle))
    case Stale(c) => Some(CloseConn(s, p, c, Acquiring))
    case ReadWait => TakeLock(s, p, Reading)
    case Dialing => Some(Dial(s, p, oracle))
    case Releasing(c) => Some(At(s, p, if oracle then Closing(c) else SendWait(c)))
    case Closing(c) => Some(CloseConn(s, p, c, Idle))
    case SendWait(c) => TakeLock(s, p, Checking(c))
    case CloseWait => TakeLock(s, p, CloseCheck)
    case _ => None
  }

  function Send(s: State, p: nat, c: Conn): State
    requires p < |s.procs|
  {
    if s.chanClosed then s.(panicked := true)
    else if |s.buf| < s.maxSize then At(s, p, Unlocking).(buf := s.buf + [c])
    else At(s, p, Dropping(c))
  }

  function Drain(s: State, p: nat): State
    requires p < |s.procs|
  {
    if s.buf != [] then At(s, p, DrainOne(s.buf[0])).(buf := s.buf[1..]) else At(s, p, Unlocking)
  }

  /** The thread that holds the lock. */
  function Inside(s: State, p: nat): Option<State>
    requires p < |s.procs|
  {
    match s.procs[p]
    case Reading => Some(At(s, p, ReadUnlock(s.closed)))
    case ReadUnlock(seen) => Some(FreeLock(s, p, if seen then Idle else Dialing))
    case Checking(c) => Some(At(s, p, if s.closed then GiveUp(c) else Sending(c)))
    case GiveUp(c) => Some(FreeLock(s, p, Closing(c)))
    case Sending(c) => Some(Send(s, p, c))
    case Dropping(c) => Some(CloseConn(s, p, c, Unlocking))
    case Unlocking => Some(FreeLock(s, p, Idle))
    case CloseCheck => Some(if s.closed then At(s, p, Unlocking) else At(s, p, CloseChannel).(closed := true))
    case CloseChannel => Some(if s.chanClosed then s.(panicked := true) else At(s, p, Draining).(chanClosed := true))
    case Draining => Some(Drain(s, p))
    case DrainOne(c) => Some(CloseConn(s, p, c, Draining))
    case _ => None
  }

  function Go(s: State, p: nat, oracle: bool): Option<State>
    requires p < |s.procs|
  {
    if HoldsLock(s.procs[p]) then Inside(s, p) else Outside(s, p, oracle)
  }

  /** One step of the whole system, None when it is not enabled. */
  function Next(s: State, step: Step): Option<State> {
    if step.p >= |s.procs| then None
    else match step
      case Start(p, call) => Begin(s, p, call)
      case Advance(p, oracle) => Go(s, p, oracle)
  }

  function Run(s: State, steps: seq<Step>): Option<State>
    decreases steps
  {
    if steps == [] then Some(s)
    else
      var t := Next(s, steps[0]);
      if t == None then None else Run(t.value, steps[1..])
  }

  // ---------- the invariant ----------

  predicate HoldsLock(pc: Pc) {
    || pc.Reading? || pc.ReadUnlock? || pc.Checking? || pc.GiveUp? || pc.Sending? || pc.Dropping? || pc.Unlocking?
    || pc.CloseCheck? || pc.CloseChannel? || pc.Draining? || pc.DrainOne?
  }

  /** Whether a thread carries c from one place to another. */
  function Carries(pc: Pc, c: Conn): nat {
    if (pc.Stale? || pc.Releasing? || pc.Closing? || pc.SendWait? || pc.Checking? || pc.GiveUp? || pc.Sending? || pc.Dropping? || pc.DrainOne?)
       && pc.c == c
    then 1
    else 0
  }

  function InFlight(procs: seq<Pc>, c: Conn): nat {
    if procs == [] then 0 else Carries(procs[0], c) + InFlight(procs[1..], c)
  }

  function InHand(held: set<Conn>, c: Conn): nat {
    if c in held then 1 else 0
  }

  /** How often a connection occurs: in a caller's hands, under way in a thread,
      in the buffer, or among the Close calls. */
  function Places(s: State, c: Conn): nat {
    InHand(s.held, c) + InFlight(s.procs, c) + multiset(s.buf)[c] + s.closes[c]
  }

  ghost predicate Conserved(s: State) {
    forall c: Conn :: Places(s, c) == if c < s.dialed then 1 else 0
  }

  /** What a thread's position says about the shared state. */
  predicate Fits(s: State, p: nat)
    requires p < |s.procs|
  {
    && (HoldsLock(s.procs[p]) <==> s.owner == Some(p))
    && (s.procs[p].Sending? || s.procs[p].Dropping? ==> !s.closed)
    && (s.procs[p].CloseChannel? ==> s.closed && !s.chanClosed)
    && (s.procs[p].Draining? || s.procs[p].DrainOne? ==> s.chanClosed)
  }

  predicate IsDraining(s: State) {
    s.owner.Some? && s.owner.value < |s.procs| && (s.procs[s.owner.value].Draining? || s.procs[s.owner.value].DrainOne?)
  }

  predicate ClosingChannel(s: State) {
    s.owner.Some? && s.owner.value < |s.procs| && s.procs[s.owner.value].CloseChannel?
  }

  predicate Shared(s: State) {
    && !s.panicked && |s.buf| <= s.maxSize
    && (s.owner.Some? ==> s.owner.value < |s.procs|)
    && (s.chanClosed ==> s.closed)
    && (s.closed && !s.chanClosed ==> ClosingChannel(s))
    && (s.chanClosed && s.buf != [] ==> IsDraining(s))
  }

  predicate AllFit(s: State) {
    forall p :: 0 <= p < |s.procs| ==> Fits(s, p)
  }

  ghost predicate Inv(s: State) {
    Shared(s) && Conserved(s) && AllFit(s)
  }

  // ---------- every step keeps it ----------

  lemma {:induction false} InFlightUpdate(procs: seq<Pc>, p: nat, pc: Pc, c: Conn)
    requires p < |procs|
    ensures InFlight(procs[p := pc], c) + Carries(procs[p], c) == InFlight(procs, c) + Carries(pc, c)
    decreases p
  {
    hide Carries;
    if p == 0 {
      assert procs[p := pc][1..] == procs[1..];
    } else {
      assert procs[p := pc][1..] == procs[1..][p - 1 := pc];
      InFlightUpdate(procs[1..], p - 1, pc, c);
    }
  }

  /** The places thread p can move a connection between. */
  function Local(s: State, p: nat, c: Conn): nat
    requires p < |s.procs|
  {
    InHand(s.held, c) + Carries(s.procs[p], c) + multiset(s.buf)[c] + s.closes[c]
  }

  lemma LocalMove(s: State, t: State, p: nat, c: Conn)
    requires p < |s.procs| == |t.procs| && t.procs == s.procs[p := t.procs[p]]
    ensures Places(t, c) - Places(s, c) == Local(t, p, c) - Local(s, p, c)
  {
    InFlightUpdate(s.procs, p, t.procs[p], c);
    hide Carries, InFlight, InHand;
  }

  /** Nothing is in two places. */
  lemma OncePerPlace(s: State, c: Conn)
    requires Conserved(s)
    ensures c in s.buf ==> c !in s.held
    ensures c >= s.dialed ==> c !in s.held
  {
    assert Places(s, c) <= 1;
    hide Conserved, InFlight;
    assert c in s.buf ==> multiset(s.buf)[c] >= 1;
  }

  lemma FitsOthers(s: State, t: State, p: nat, q: nat)
    requires p < |s.procs| == |t.procs| && q < |s.procs| && p != q && t.procs[q] == s.procs[q]
    requires Fits(s, p) && Fits(s, q)
    requires t.owner == s.owner || (s.owner == None && t.owner == Some(p)) || (s.owner == Some(p) && t.owner == None)
    requires (t.closed == s.closed && t.chanClosed == s.chanClosed) || s.owner == Some(p)
    ensures Fits(t, q)
  {}

  /** The frame every step keeps to. */
  predicate Framed(s: State, t: State, p: nat) {
    && p < |s.procs| == |t.procs| && t.procs == s.procs[p := t.procs[p]]
    && (t.owner == s.owner || (s.owner == None && t.owner == Some(p)) || (s.owner == Some(p) && t.owner == None))
    && ((t.closed == s.closed && t.chanClosed == s.chanClosed) || s.owner == Some(p))
  }

  lemma OthersFit(s: State, t: State, p: nat)
    requires AllFit(s) && Framed(s, t, p) && Fits(t, p)
    ensures AllFit(t)
  {
    forall q | 0 <= q < |t.procs| ensures Fits(t, q) {
      if q != p {
        FitsOthers(s, t, p, q);
      }
    }
  }

  // ---------- starting a call ----------

  lemma BeginFits(s: State, p: nat, call: Call)
    requires AllFit(s) && Shared(s) && p < |s.procs| && Begin(s, p, call).Some?
    ensures AllFit(Begin(s, p, call).value) && Shared(Begin(s, p, call).value)
  {
    var t := Begin(s, p, call).value;
    assert Fits(s, p);
    assert Fits(t, p);
    OthersFit(s, t, p);
    SharedElsewhere(s, t, p);
  }

  lemma BeginMoves(s: State, p: nat, call: Call, c: Conn)
    requires p < |s.procs| && Begin(s, p, call).Some?
    ensures Places(Begin(s, p, call).value, c) == Places(s, c)
  {
    var t := Begin(s, p, call).value;
    LocalMove(s, t, p, c);
    hide Places;
  }

  /** A thread without the lock leaves close and drain to their thread. */
  lemma SharedElsewhere(s: State, t: State, p: nat)
    requires Shared(s) && AllFit(s) && Framed(s, t, p) && s.owner != Some(p)
    requires t.panicked == s.panicked && t.maxSize == s.maxSize && t.closed == s.closed && t.chanClosed == s.chanClosed
    requires |t.buf| <= |s.buf|
    ensures Shared(t)
  {
    if s.owner.Some? {
      assert t.procs[s.owner.value] == s.procs[s.owner.value];
    }
  }

  // ---------- advancing without the lock ----------

  lemma OutsideFits(s: State, p: nat, oracle: bool)
    requires AllFit(s) && Shared(s) && p < |s.procs| && !HoldsLock(s.procs[p]) && Outside(s, p, oracle).Some?
    ensures AllFit(Outside(s, p, oracle).value) && Shared(Outside(s, p, oracle).value)
  {
    var t := Outside(s, p, oracle).value;
    assert Fits(s, p);
    assert Framed(s, t, p) && Fits(t, p);
    OthersFit(s, t, p);
    assert |t.buf| <= |s.buf|;
    SharedElsewhere(s, t, p);
  }

  lemma ReceiveMoves(s: State, p: nat, oracle: bool, c: Conn)
    requires Conserved(s) && p < |s.procs| && s.procs[p].Acquiring?
    ensures Places(Receive(s, p, oracle), c) == Places(s, c)
  {
    var t := Receive(s, p, oracle);
    LocalMove(s, t, p, c);
    if s.buf != [] {
      OncePerPlace(s, s.buf[0]);
      Popped(s);
    }
    hide Places, Conserved;
  }

  lemma DialMoves(s: State, p: nat, oracle: bool, c: Conn)
    requires Conserved(s) && p < |s.procs| && s.procs[p].Dialing?
    ensures var t := Dial(s, p, oracle);
            Places(t, c) == if c < t.dialed then 1 else 0
  {
    var t := Dial(s, p, oracle);
    assert Places(s, c) == if c < s.dialed then 1 else 0;
    LocalMove(s, t, p, c);
    OncePerPlace(s, s.dialed);
    hide Places, Conserved;
  }

  /** Closing what the thread carries. */
  lemma CloseMoves(s: State, p: nat, x: Conn, pc: Pc, c: Conn)
    requires p < |s.procs| && Carries(s.procs[p], x) == 1 && (pc.Idle? || pc.Acquiring? || pc.Unlocking? || pc.Draining?)
    ensures Places(CloseConn(s, p, x, pc), c) == Places(s, c)
  {
    LocalMove(s, CloseConn(s, p, x, pc), p, c);
    hide Places;
  }

  /** Moving on with the same connection, or with none. */
  lemma SameMoves(s: State, t: State, p: nat, pc: Pc, c: Conn)
    requires p < |s.procs| && t.procs == s.procs[p := pc] && Carries(pc, c) == Carries(s.procs[p], c)
    requires t.held == s.held && t.buf == s.buf && t.closes == s.closes
    ensures Places(t, c) == Places(s, c)
  {
    LocalMove(s, t, p, c);
    hide Places, Carries;
  }

  /** Taking the lock, or asking whether a connection is closing. */
  lemma WaitMoves(s: State, p: nat, oracle: bool, c: Conn)
    requires p < |s.procs| && (s.procs[p].Releasing? || s.procs[p].ReadWait? || s.procs[p].SendWait? || s.procs[p].CloseWait?)
    requires Outside(s, p, oracle).Some?
    ensures var t := Outside(s, p, oracle).value;
            t.dialed == s.dialed && Places(t, c) == Places(s, c)
  {
    hide Places;
    var t := Outside(s, p, oracle).value;
    if s.procs[p].Releasing? {
      SameMoves(s, t, p, t.procs[p], c);
    } else if s.procs[p].ReadWait? {
      SameMoves(s, t, p, Reading, c);
    } else if s.procs[p].SendWait? {
      SameMoves(s, t, p, Checking(s.procs[p].c), c);
    } else {
      SameMoves(s, t, p, CloseCheck, c);
    }
  }

  lemma OutsideMoves(s: State, p: nat, oracle: bool, c: Conn)
    requires Conserved(s) && p < |s.procs| && !HoldsLock(s.procs[p]) && Outside(s, p, oracle).Some?
    ensures var t := Outside(s, p, oracle).value;
            Places(t, c) == if c < t.dialed then 1 else 0
  {
    assert Places(s, c) == if c < s.dialed then 1 else 0;
    hide Places, Conserved, TakeLock, Dial, HoldsLock;
    if s.procs[p].Acquiring? {
      ReceiveMoves(s, p, oracle, c);
    } else if s.procs[p].Dialing? {
      DialMoves(s, p, oracle, c);
    } else if s.procs[p].Stale? {
      CloseMoves(s, p, s.procs[p].c, Acquiring, c);
    } else if s.procs[p].Closing? {
      CloseMoves(s, p, s.procs[p].c, Idle, c);
    } else {
      WaitMoves(s, p, oracle, c);
    }
  }

  lemma Popped(s: State)
    requires s.buf != []
    ensures multiset(s.buf) == multiset{s.buf[0]} + multiset(s.buf[1..])
  {
    assert s.buf == [s.buf[0]] + s.buf[1..];
  }

  // ---------- advancing with the lock ----------

  lemma InsideFits(s: State, p: nat)
    requires AllFit(s) && Shared(s) && p < |s.procs| && HoldsLock(s.procs[p]) && Inside(s, p).Some?
    ensures AllFit(Inside(s, p).value) && Shared(Inside(s, p).value)
  {
    var t := Inside(s, p).value;
    assert Fits(s, p);
    assert Framed(s, t, p) && Fits(t, p);
    OthersFit(s, t, p);
  }

  lemma SendMoves(s: State, p: nat, x: Conn, c: Conn)
    requires p < |s.procs| && s.procs[p] == Sending(x)
    ensures Places(Send(s, p, x), c) == Places(s, c)
  {
    LocalMove(s, Send(s, p, x), p, c);
    hide Places;
  }

  lemma DrainMoves(s: State, p: nat, c: Conn)
    requires p < |s.procs| && s.procs[p].Draining?
    ensures Places(Drain(s, p), c) == Places(s, c)
  {
    LocalMove(s, Drain(s, p), p, c);
    if s.buf != [] {
      Popped(s);
    }
    hide Places;
  }

  /** Reading closed, and releasing the lock. */
  lemma ReadMoves(s: State, p: nat, c: Conn)
    requires p < |s.procs| && (s.procs[p].Reading? || s.procs[p].ReadUnlock? || s.procs[p].Checking? || s.procs[p].GiveUp? || s.procs[p].Unlocking?)
    ensures Inside(s, p).Some?
    ensures var t := Inside(s, p).value;
            t.dialed == s.dialed && Places(t, c) == Places(s, c)
  {
    hide Places, Send, Drain;
    var t := Inside(s, p).value;
    SameMoves(s, t, p, t.procs[p], c);
  }

  lemma MarkMoves(s: State, p: nat, c: Conn)
    requires p < |s.procs| && (s.procs[p].CloseCheck? || s.procs[p].CloseChannel?)
    ensures Inside(s, p).Some?
    ensures var t := Inside(s, p).value;
            t.dialed == s.dialed && Places(t, c) == Places(s, c)
  {
    hide Places, Send, Drain;
    var t := Inside(s, p).value;
    SameMoves(s, t, p, t.procs[p], c);
  }

  lemma InsideMoves(s: State, p: nat, c: Conn)
    requires p < |s.procs| && HoldsLock(s.procs[p]) && Inside(s, p).Some?
    ensures var t := Inside(s, p).value;
            t.dialed == s.dialed && Places(t, c) == Places(s, c)
  {
    hide Places;
    if s.procs[p].Sending? {
      SendMoves(s, p, s.procs[p].c, c);
    } else if s.procs[p].Draining? {
      DrainMoves(s, p, c);
    } else if s.procs[p].Dropping? {
      CloseMoves(s, p, s.procs[p].c, Unlocking, c);
    } else if s.procs[p].DrainOne? {
      CloseMoves(s, p, s.procs[p].c, Draining, c);
    } else if s.procs[p].CloseCheck? || s.procs[p].CloseChannel? {
      MarkMoves(s, p, c);
    } else {
      ReadMoves(s, p, c);
    }
  }

  // ---------- runs ----------

  lemma NextConserves(s: State, step: Step, c: Conn)
    requires Inv(s) && Next(s, step).Some?
    ensures var t := Next(s, step).value;
            Places(t, c) == if c < t.dialed then 1 else 0
  {
    assert Places(s, c) == if c < s.dialed then 1 else 0;
    match step
    case Start(p, call) =>
      hide Places, Conserved, Shared, AllFit;
      BeginMoves(s, p, call, c);
    case Advance(p, oracle) =>
      hide Places, Conserved, Shared, AllFit, Inside, Outside;
      if HoldsLock(s.procs[p]) {
        InsideMoves(s, p, c);
      } else {
        OutsideMoves(s, p, oracle, c);
      }
  }

  lemma NextFits(s: State, step: Step)
    requires Inv(s) && Next(s, step).Some?
    ensures AllFit(Next(s, step).value) && Shared(Next(s, step).value)
  {
    hide Conserved, Shared, AllFit, Inside, Outside, Begin, HoldsLock;
    match step
    case Start(p, call) => BeginFits(s, p, call);
    case Advance(p, oracle) =>
      if HoldsLock(s.procs[p]) {
        InsideFits(s, p);
      } else {
        OutsideFits(s, p, oracle);
      }
  }

  lemma SizeKept(s: State, step: Step)
    requires Next(s, step).Some?
    ensures Next(s, step).value.maxSize == s.maxSize
  {
    hide HoldsLock;
  }

  /** Every step of every thread keeps the invariant. */
  lemma NextKeeps(s: State, step: Step)
    requires Inv(s) && Next(s, step).Some?
    ensures Inv(Next(s, step).value) && Next(s, step).value.maxSize == s.maxSize
  {
    hide Next, Places, Shared, AllFit;
    NextFits(s, step);
    SizeKept(s, step);
    var t := Next(s, step).value;
    forall c: Conn ensures Places(t, c) == if c < t.dialed then 1 else 0 {
      NextConserves(s, step, c);
    }
  }

  lemma {:induction false} NoneInFlight(procs: seq<Pc>, c: Conn)
    requires forall p :: 0 <= p < |procs| ==> procs[p].Idle?
    ensures InFlight(procs, c) == 0
    decreases procs
  {
    if procs != [] {
      NoneInFlight(procs[1..], c);
    }
  }

  lemma InitInv(threads: nat, maxSize: int)
    ensures Inv(Init(threads, maxSize))
  {
    var s := Init(threads, maxSize);
    forall c: Conn ensures Places(s, c) == 0 {
      NoneInFlight(s.procs, c);
    }
  }

  lemma {:induction false} RunKeeps(s: State, steps: seq<Step>)
    requires Inv(s) && Run(s, steps).Some?
    ensures Inv(Run(s, steps).value) && Run(s, steps).value.maxSize == s.maxSize
    decreases steps
  {
    hide Inv, Next;
    if steps != [] {
      NextKeeps(s, steps[0]);
      RunKeeps(Next(s, steps[0]).value, steps[1..]);
    }
  }

  // ---------- what it gives ----------

  /** In every state any interleaving reaches: each dialed connection is in exactly
      one place, the buffer stays within its bound, and no closed channel is
      written to or closed again. */
  lemma Safe(threads: nat, maxSize: int, steps: seq<Step>)
    requires Run(Init(threads, maxSize), steps).Some?
    ensures var s := Run(Init(threads, maxSize), steps).value;
            && (forall c: Conn :: Places(s, c) == if c < s.dialed then 1 else 0)
            && |s.buf| <= (if maxSize <= 0 then DEFAULT_SIZE else maxSize)
            && !s.panicked
  {
    InitInv(threads, maxSize);
    RunKeeps(Init(threads, maxSize), steps);
    hide Run, Places;
  }

  /** Once the pool is closed, no thread is inside a call and no caller holds a
      connection, every connection ever dialed has been closed exactly once. */
  lemma AllClosed(threads: nat, maxSize: int, steps: seq<Step>, c: Conn)
    requires Run(Init(threads, maxSize), steps).Some?
    requires var s := Run(Init(threads, maxSize), steps).value;
             s.closed && s.held == {} && forall p :: 0 <= p < |s.procs| ==> s.procs[p].Idle?
    ensures var s := Run(Init(threads, maxSize), steps).value;
            s.closes[c] == if c < s.dialed then 1 else 0
  {
    InitInv(threads, maxSize);
    RunKeeps(Init(threads, maxSize), steps);
    hide Run;
    var s := Run(Init(threads, maxSize), steps).value;
    NoneInFlight(s.procs, c);
    assert s.buf == [];
    assert Places(s, c) == if c < s.dialed then 1 else 0;
  }
}

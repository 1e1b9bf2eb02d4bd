/** Every run of rotations, failed writes, crashes and restarts. */
module JwtRuns {
  import opened Sequences
  import opened Text
  import opened JwtKeys

  /** What a server starts with: the persisted set, or the configured secret. */
  function Boot(secret: string, disk: Option<Record>): Keyset {
    var loaded := if disk == None then None else Load(disk.value, secret);
    if loaded == None then Keyset(map[LEGACY := secret], LEGACY) else loaded.value
  }

  ghost function Rotated(ks: Keyset, ts: nat, newSecret: string): Keyset {
    Keyset(Prune(ks.keys[Kid(ts) := newSecret], Kid(ts), MAX_KEYS), Kid(ts))
  }

  // ---------- the server object ----------

  class KeyServer {
    const secret: string
    var jwtSecrets: Keys
    var currentKid: string
    var disk: Option<Record>

    function Memory(): Keyset
      reads this
    {
      Keyset(jwtSecrets, currentKid)
    }

    constructor (secret: string, disk: Option<Record>)
      ensures this.secret == secret && this.disk == disk && Memory() == Boot(secret, disk)
    {
      this.secret := secret;
      this.disk := disk;
      jwtSecrets := map[LEGACY := secret];
      currentKid := LEGACY;
      new;
      LoadJWTKeys();
    }

    /** A record that lacks its current key is ignored. */
    method LoadJWTKeys()
      modifies this
      ensures disk == old(disk)
      ensures Memory() == var loaded := if old(disk) == None then None else Load(old(disk).value, secret);
                          if loaded == None then old(Memory()) else loaded.value
    {
      if disk == None {
        return;
      }
      var loaded := Load(disk.value, secret);
      if loaded.Some? {
        jwtSecrets, currentKid := loaded.value.keys, loaded.value.current;
      }
    }

    /** The next set is built aside, written, and only then published; a failed
        write leaves memory and disk as they were. */
    method HandleJWTRotate(ts: nat, newSecret: string, writeOk: bool) returns (ok: bool)
      modifies this
      ensures ok == writeOk
      ensures Memory() == if ok then Rotated(old(Memory()), ts, newSecret) else old(Memory())
      ensures disk == if ok then Some(Persist(Memory(), secret)) else old(disk)
    {
      hide Prune, Persist;
      var newKid := Kid(ts);
      var keys, _ := PruneJWTSecrets(jwtSecrets[newKid := newSecret], newKid, MAX_KEYS);
      var rec := BuildRecord(Keyset(keys, newKid), secret);
      if !writeOk {
        return false;
      }
      disk := Some(rec);
      jwtSecrets, currentKid := keys, newKid;
      ok := true;
    }
  }

  // ---------- runs ----------

  /** How a rotation ends: the write fails, the server dies before or after the
      write, or the new set is published. */
  datatype Fate = Refused | Lost | Unseen | Done

  datatype Event = Rotate(ts: nat, newSecret: string, fate: Fate) | Crash | Restart

  /** Memory is gone while the server is down. */
  datatype State = State(mem: Option<Keyset>, disk: Option<Record>)

  ghost function Next(secret: string, s: State, e: Event): Option<State> {
    match e
    case Crash => Some(State(None, s.disk))
    case Restart => Some(State(Some(Boot(secret, s.disk)), s.disk))
    case Rotate(ts, newSecret, fate) =>
      if s.mem == None then None
      else
        var ks := Rotated(s.mem.value, ts, newSecret);
        match fate
        case Refused => Some(s)
        case Lost => Some(State(None, s.disk))
        case Unseen => Some(State(None, Some(Persist(ks, secret))))
        case Done => Some(State(Some(ks), Some(Persist(ks, secret))))
  }

  ghost function Run(secret: string, s: State, events: seq<Event>): Option<State>
    decreases events
  {
    if events == [] then Some(s)
    else
      var t := Next(secret, s, events[0]);
      if t == None then None else Run(secret, t.value, events[1..])
  }

  function Start(secret: string): State {
    State(Some(Boot(secret, None)), None)
  }

  // ---------- history ----------

  type Entry = (string, string)

  /** The keys that reached the disk, in order. */
  function Written(h: seq<Entry>, e: Event): seq<Entry> {
    if e.Rotate? && (e.fate == Unseen || e.fate == Done) then h + [(Kid(e.ts), e.newSecret)] else h
  }

  function History(h: seq<Entry>, events: seq<Event>): seq<Entry>
    decreases events
  {
    if events == [] then h else History(Written(h, events[0]), events[1..])
  }

  /** The clock is ahead of every kid written so far. */
  predicate Timely(h: seq<Entry>, e: Event)
    requires h != []
  {
    e.Rotate? ==> Stamp(h[|h| - 1].0) < e.ts <= MAX_INT64 && e.newSecret != ""
  }

  predicate AllTimely(h: seq<Entry>, events: seq<Event>)
    requires h != []
    decreases events
  {
    events != [] ==> Timely(h, events[0]) && AllTimely(Written(h, events[0]), events[1..])
  }

  predicate Ordered(es: seq<Entry>) {
    && (forall i, j :: 0 <= i < j < |es| ==> Stamp(es[i].0) < Stamp(es[j].0))
    && (forall i :: 0 <= i < |es| ==> es[i].1 != "")
  }

  function Last(h: seq<Entry>): seq<Entry> {
    if |h| <= MAX_KEYS then h else h[|h| - MAX_KEYS..]
  }

  /** The newest five keys of a history. */
  function Newest(h: seq<Entry>): Keyset
    requires h != []
  {
    Keyset(MapOf(Last(h)), h[|h| - 1].0)
  }

  lemma {:induction false} MapOfIs(es: seq<Entry>, k: string)
    requires Ordered(es)
    ensures k in MapOf(es) <==> exists i :: 0 <= i < |es| && es[i].0 == k
    ensures forall i :: 0 <= i < |es| && es[i].0 == k ==> MapOf(es)[k] == es[i].1
    ensures |MapOf(es)| == |es|
  {
    hide Stamp;
    if es != [] {
      var front, last := es[..|es| - 1], es[|es| - 1];
      MapOfIs(front, k);
      MapOfIs(front, last.0);
      assert forall i :: 0 <= i < |front| ==> front[i] == es[i];
      assert forall i :: 0 <= i < |front| ==> es[i].0 != last.0;
      assert last.0 !in MapOf(front);
      Grown(MapOf(front), last.0, last.1);
    }
  }

  lemma Grown(keys: Keys, k: string, v: string)
    requires k !in keys
    ensures |keys[k := v]| == |keys| + 1
  {
    assert keys[k := v].Keys == keys.Keys + {k};
  }

  lemma OrderedSlice(es: seq<Entry>, a: nat, b: nat)
    requires Ordered(es) && a <= b <= |es|
    ensures Ordered(es[a..b])
  {
    hide Stamp;
  }

  /** The first entry is the oldest key. */
  lemma FirstIsOldest(es: seq<Entry>)
    requires Ordered(es) && |es| >= 2
    ensures IsOldest(MapOf(es), es[|es| - 1].0, es[0].0)
  {
    hide Stamp;
    var current := es[|es| - 1].0;
    MapOfIs(es, es[0].0);
    forall j | j in MapOf(es) && j != current && j != es[0].0 ensures Older(es[0].0, j) {
      MapOfIs(es, j);
      var i :| 0 <= i < |es| && es[i].0 == j;
    }
  }

  lemma WithoutFirst(es: seq<Entry>)
    requires Ordered(es) && es != []
    ensures MapOf(es) - {es[0].0} == MapOf(es[1..])
  {
    OrderedSlice(es, 1, |es|);
    assert es[1..|es|] == es[1..];
    var a, b := MapOf(es) - {es[0].0}, MapOf(es[1..]);
    forall k ensures (k in a <==> k in b) && (k in a ==> a[k] == b[k]) {
      SameWithoutFirst(es, k);
    }
    hide MapOf, Ordered;
  }

  lemma SameWithoutFirst(es: seq<Entry>, k: string)
    requires Ordered(es) && es != [] && Ordered(es[1..])
    ensures k in MapOf(es[1..]) <==> k in MapOf(es) && k != es[0].0
    ensures k in MapOf(es[1..]) ==> MapOf(es)[k] == MapOf(es[1..])[k]
  {
    hide MapOf, Stamp;
    MapOfIs(es, k);
    MapOfIs(es[1..], k);
    assert forall i :: 0 <= i < |es[1..]| ==> es[1..][i] == es[i + 1];
    if k in MapOf(es) && k != es[0].0 {
      var i :| 0 <= i < |es| && es[i].0 == k;
      assert es[1..][i - 1] == es[i];
    }
  }

  lemma PruneTail(es: seq<Entry>)
    requires Ordered(es) && es != [] && |es| <= MAX_KEYS + 1
    ensures Prune(MapOf(es), es[|es| - 1].0, MAX_KEYS) == MapOf(Last(es))
  {
    var current := es[|es| - 1].0;
    MapOfIs(es, current);
    if |es| == MAX_KEYS + 1 {
      OnlyOne(MapOf(es), current);
      FirstIsOldest(es);
      OldestUnique(MapOf(es), current, es[0].0, Oldest(MapOf(es), current));
      WithoutFirst(es);
      OrderedSlice(es, 1, |es|);
      assert es[1..|es|] == es[1..] == Last(es);
      MapOfIs(es[1..], current);
      hide MapOf, IsOldest, Ordered;
    }
  }

  /** One rotation of the newest five is the newest five of the longer history. */
  lemma RotateNewest(h: seq<Entry>, ts: nat, newSecret: string)
    requires h != [] && Ordered(h + [(Kid(ts), newSecret)])
    ensures Rotated(Newest(h), ts, newSecret) == Newest(h + [(Kid(ts), newSecret)])
  {
    var e := (Kid(ts), newSecret);
    var es := Last(h) + [e];
    LastStep(h, e);
    MapOfAppend(Last(h), e);
    PruneTail(es);
    hide MapOf, Ordered, Prune, Kid;
    assert es[|es| - 1] == e;
  }

  lemma LastStep(h: seq<Entry>, e: Entry)
    requires Ordered(h + [e])
    ensures Ordered(Last(h) + [e]) && Last(Last(h) + [e]) == Last(h + [e])
  {
    var all := h + [e];
    OrderedSlice(all, |h| - |Last(h)|, |all|);
    hide Ordered;
    LastSlices(h, e);
  }

  lemma LastSlices(h: seq<Entry>, e: Entry)
    ensures var all := h + [e];
            all[|h| - |Last(h)|..|all|] == Last(h) + [e] && Last(Last(h) + [e]) == Last(all)
  {}

  lemma MapOfAppend(es: seq<Entry>, e: Entry)
    ensures MapOf(es + [e]) == MapOf(es)[e.0 := e.1]
  {
    assert (es + [e])[..|es|] == es;
  }

  lemma KidStamp(ts: nat)
    requires ts <= MAX_INT64
    ensures Stamp(Kid(ts)) == ts && Stamp(LEGACY) == MIN_INT64
  {
    AtoiItoa(ts);
    assert Kid(ts)[..1] == "k" && Kid(ts)[1..] == Itoa(ts);
    hide Atoi, Itoa;
    assert LEGACY[..1] == "d";
  }

  lemma Extended(h: seq<Entry>, e: Event)
    requires h != [] && Ordered(h) && Timely(h, e)
    ensures Ordered(Written(h, e))
  {
    if e.Rotate? {
      KidStamp(e.ts);
      OrderedAppend(h, (Kid(e.ts), e.newSecret));
    }
    hide Ordered;
  }

  lemma OrderedAppend(h: seq<Entry>, e: Entry)
    requires h != [] && Ordered(h) && Stamp(h[|h| - 1].0) < Stamp(e.0) && e.1 != ""
    ensures Ordered(h + [e])
  {
    hide Stamp;
  }

  /** The newest set survives the disk. */
  lemma BootNewest(secret: string, h: seq<Entry>)
    requires secret != "" && h != [] && Ordered(h)
    ensures Boot(secret, Some(Persist(Newest(h), secret))) == Newest(h)
  {
    var ks := Newest(h);
    var es := Last(h);
    OrderedSlice(h, |h| - |es|, |h|);
    assert es == h[|h| - |es|..|h|];
    forall k | k in ks.keys ensures ks.keys[k] != "" {
      MapOfIs(es, k);
    }
    MapOfIs(es, ks.current);
    assert es[|es| - 1].0 == ks.current;
    PersistLoad(ks, secret);
    hide Persist, Load, MapOf;
  }

  /** Memory, when there is a server, and disk both hold the newest five. */
  predicate Inv(secret: string, s: State, h: seq<Entry>) {
    && h != [] && Ordered(h) && Boot(secret, s.disk) == Newest(h)
    && (s.mem.Some? ==> s.mem.value == Newest(h))
  }

  lemma NextKeeps(secret: string, s: State, h: seq<Entry>, e: Event)
    requires secret != "" && Inv(secret, s, h) && Timely(h, e) && Next(secret, s, e).Some?
    ensures Inv(secret, Next(secret, s, e).value, Written(h, e))
  {
    hide Boot, Newest, Persist, Rotated, Timely, Ordered, Written;
    if e.Rotate? && (e.fate == Unseen || e.fate == Done) {
      WrittenKeeps(secret, h, e);
    } else {
      NotWritten(h, e);
    }
  }

  lemma NotWritten(h: seq<Entry>, e: Event)
    requires !(e.Rotate? && (e.fate == Unseen || e.fate == Done))
    ensures Written(h, e) == h
  {}

  lemma WrittenKeeps(secret: string, h: seq<Entry>, e: Event)
    requires secret != "" && h != [] && Ordered(h) && Timely(h, e) && e.Rotate? && (e.fate == Unseen || e.fate == Done)
    ensures var after, ks := Written(h, e), Rotated(Newest(h), e.ts, e.newSecret);
            after != [] && Ordered(after) && ks == Newest(after) && Boot(secret, Some(Persist(ks, secret))) == ks
  {
    Extended(h, e);
    hide Boot, Newest, Persist, Rotated, Timely, Ordered, Kid;
    RotateNewest(h, e.ts, e.newSecret);
    BootNewest(secret, Written(h, e));
  }

  lemma {:induction false} RunKeeps(secret: string, s: State, h: seq<Entry>, events: seq<Event>)
    requires secret != "" && Inv(secret, s, h) && AllTimely(h, events) && Run(secret, s, events).Some?
    ensures Inv(secret, Run(secret, s, events).value, History(h, events))
    decreases events
  {
    hide Inv, Next;
    if events != [] {
      assert h != [] by { NotEmpty(secret, s, h); }
      NextKeeps(secret, s, h, events[0]);
      RunKeeps(secret, Next(secret, s, events[0]).value, Written(h, events[0]), events[1..]);
    }
  }

  lemma NotEmpty(secret: string, s: State, h: seq<Entry>)
    requires Inv(secret, s, h)
    ensures h != []
  {}

  lemma StartInv(secret: string)
    requires secret != ""
    ensures Inv(secret, Start(secret), [(LEGACY, secret)])
  {
    var h := [(LEGACY, secret)];
    assert h[..0] == [];
    assert MapOf(h) == map[LEGACY := secret];
  }

  // ---------- what it gives ----------

  /** After any run, memory is what a restart would load; it holds exactly the
      newest five keys ever written, at most five, the current one among them. */
  lemma AfterRun(secret: string, events: seq<Event>)
    requires secret != "" && AllTimely([(LEGACY, secret)], events) && Run(secret, Start(secret), events).Some?
    ensures var s, h := Run(secret, Start(secret), events).value, History([(LEGACY, secret)], events);
            && h != [] && Ordered(h) && Boot(secret, s.disk) == Newest(h)
            && (s.mem.Some? ==> s.mem.value == Boot(secret, s.disk))
            && |Newest(h).keys| == (if |h| <= MAX_KEYS then |h| else MAX_KEYS)
            && Newest(h).current in Newest(h).keys
  {
    StartInv(secret);
    RunKeeps(secret, Start(secret), [(LEGACY, secret)], events);
    hide Run, History, Boot, Newest, Ordered;
    NewestSize(History([(LEGACY, secret)], events));
  }

  lemma NewestSize(h: seq<Entry>)
    requires h != [] && Ordered(h)
    ensures |Newest(h).keys| == (if |h| <= MAX_KEYS then |h| else MAX_KEYS)
    ensures Newest(h).current in Newest(h).keys
  {
    hide Stamp;
    var es := Last(h);
    OrderedSlice(h, |h| - |es|, |h|);
    assert es == h[|h| - |es|..|h|];
    MapOfIs(es, Newest(h).current);
    hide MapOf, Ordered;
    assert es[|es| - 1].0 == Newest(h).current;
  }

  /** A written key is usable, with its secret, exactly until four more keys have
      been written after it. */
  lemma KeyLifetime(h: seq<Entry>, i: nat)
    requires h != [] && Ordered(h) && i < |h|
    ensures h[i].0 in Newest(h).keys <==> |h| - 1 - i <= 4
    ensures h[i].0 in Newest(h).keys ==> Newest(h).keys[h[i].0] == h[i].1
  {
    hide Stamp;
    var es := Last(h);
    var from := |h| - |es|;
    OrderedSlice(h, from, |h|);
    assert es == h[from..|h|];
    MapOfIs(es, h[i].0);
    hide MapOf;
    if from <= i {
      assert es[i - from] == h[i];
    } else {
      forall j | 0 <= j < |es| ensures es[j].0 != h[i].0 {
        assert es[j] == h[from + j];
      }
    }
  }
}

/** Content-addressed mail: rows point to blobs by hash, and the quota counter
    charges every blob once. */
module MailQuota {
  import opened Text

  /** A row's place: mailbox and UID. */
  type Key = (string, nat)

  /** The rows of an account, its stored blobs, the quota counter, and the next UID
      of each mailbox. */
  datatype Mail = Mail(rows: map<Key, string>, blobs: map<string, string>, used: int, next: map<string, nat>)

  /** The content hash and the account's limit; no limit when not positive. */
  datatype Account = Account(digest: string -> string, limit: int)

  function NextUid(m: Mail, mailbox: string): nat {
    if mailbox in m.next then m.next[mailbox] else 1
  }

  predicate IsReferenced(m: Mail, hash: string) {
    hash in m.rows.Values
  }

  // ---------- the sum of blob sizes ----------

  ghost function Total(blobs: map<string, string>): nat {
    if blobs == map[] then 0
    else
      var h :| h in blobs;
      |blobs[h]| + Total(blobs - {h})
  }

  lemma {:induction false} TotalWithout(blobs: map<string, string>, h: string)
    requires h in blobs
    ensures Total(blobs) == |blobs[h]| + Total(blobs - {h})
    decreases |blobs|
  {
    var k :| k in blobs && Total(blobs) == |blobs[k]| + Total(blobs - {k});
    if k != h {
      var rest := blobs - {k};
      assert rest.Keys == blobs.Keys - {k};
      TotalWithout(rest, h);
      assert rest - {h} == (blobs - {h}) - {k};
      TotalWithout(blobs - {h}, k);
    }
  }

  lemma TotalWith(blobs: map<string, string>, h: string, content: string)
    requires h !in blobs
    ensures Total(blobs[h := content]) == |content| + Total(blobs)
  {
    TotalWithout(blobs[h := content], h);
    assert blobs[h := content] - {h} == blobs;
  }

  // ---------- the invariant ----------

  /** The counter is the sum of the sizes of the distinct blobs that some row
      references, each of them is stored, and nothing else is. */
  ghost predicate Valid(acc: Account, m: Mail) {
    && m.blobs.Keys == m.rows.Values
    && m.used == Total(m.blobs)
    && (forall h :: h in m.blobs ==> acc.digest(m.blobs[h]) == h)
    && (forall k :: k in m.rows ==> k.1 < NextUid(m, k.0))
  }

  // ---------- operations ----------

  /** IncrementQuota for a charge: None when refused. */
  function Charge(acc: Account, used: int, size: nat): Option<int> {
    var base := if used < 0 then 0 else used;
    if size > 0 && (base > MAX_INT64 - size || (acc.limit > 0 && base + size > acc.limit)) then None else Some(base + size)
  }

  /** IncrementQuota for a release, which never goes below zero. */
  function Released(used: int, size: nat): int {
    var base := if used < 0 then 0 else used;
    if base - size < 0 then 0 else base - size
  }

  /** The reference-aware delete of a blob, with its bytes given back. */
  function RemoveBlob(m: Mail, hash: string): Mail {
    if hash in m.blobs && !IsReferenced(m, hash) then
      m.(blobs := m.blobs - {hash}, used := if |m.blobs[hash]| > 0 then Released(m.used, |m.blobs[hash]|) else m.used)
    else m
  }

  function StoreBlob(acc: Account, m: Mail, raw: string): Mail {
    if acc.digest(raw) in m.blobs then m else m.(blobs := m.blobs[acc.digest(raw) := raw])
  }

  /** Charges a stored blob unless a row references it; a refused blob is removed. */
  function ChargeNewBlob(acc: Account, m: Mail, hash: string, size: nat): (bool, Mail) {
    if size == 0 || IsReferenced(m, hash) then (true, m)
    else
      var used := Charge(acc, m.used, size);
      if used == None then (false, m.(blobs := m.blobs - {hash})) else (true, m.(used := used.value))
  }

  function AddRow(m: Mail, mailbox: string, hash: string): Mail {
    var uid := NextUid(m, mailbox);
    m.(rows := m.rows[(mailbox, uid) := hash], next := m.next[mailbox := uid + 1])
  }

  function SaveSent(acc: Account, m: Mail, raw: string): (bool, Mail) {
    var hash := acc.digest(raw);
    var (ok, charged) := ChargeNewBlob(acc, StoreBlob(acc, m, raw), hash, |raw|);
    if ok then (true, AddRow(charged, "Sent", hash)) else (false, charged)
  }

  /** Destination first, then the source row goes. */
  function MoveOne(m: Mail, from: string, to: string, uid: nat, hash: string): Mail {
    var added := AddRow(m, to, hash);
    added.(rows := added.rows - {(from, uid)})
  }

  function WithoutHash(rows: map<Key, string>, hash: string): map<Key, string> {
    map k | k in rows && rows[k] != hash :: rows[k]
  }

  function DeletePlain(m: Mail, hash: string): Mail {
    RemoveBlob(m.(rows := WithoutHash(m.rows, hash)), hash)
  }

  function DeleteQualified(m: Mail, key: Key, hash: string): Mail {
    if key in m.rows && m.rows[key] == hash then
      var dropped := m.(rows := m.rows - {key});
      if IsReferenced(dropped, hash) then dropped else RemoveBlob(dropped, hash)
    else m
  }

  // ---------- each operation keeps it ----------

  lemma RemoveBlobExact(acc: Account, m: Mail, hash: string)
    requires m.used == Total(m.blobs) && m.blobs.Keys == m.rows.Values + {hash} && hash !in m.rows.Values
    requires forall h :: h in m.blobs ==> acc.digest(m.blobs[h]) == h
    requires forall k :: k in m.rows ==> k.1 < NextUid(m, k.0)
    ensures Valid(acc, RemoveBlob(m, hash))
  {
    TotalWithout(m.blobs, hash);
    hide NextUid;
    var r := RemoveBlob(m, hash);
    assert r.blobs.Keys == m.blobs.Keys - {hash};
  }

  lemma ValuesAdd(rows: map<Key, string>, k: Key, v: string)
    requires k !in rows
    ensures rows[k := v].Values == rows.Values + {v}
  {
    var r := rows[k := v];
    assert r[k] == v;
    forall x | x in rows.Values ensures x in r.Values {
      var j :| j in rows && rows[j] == x;
      assert r[j] == x;
    }
  }

  lemma AddRowKeeps(acc: Account, m: Mail, mailbox: string, hash: string)
    requires forall k :: k in m.rows ==> k.1 < NextUid(m, k.0)
    ensures var r := AddRow(m, mailbox, hash);
            && (mailbox, NextUid(m, mailbox)) !in m.rows && r.rows.Values == m.rows.Values + {hash}
            && forall k :: k in r.rows ==> k.1 < NextUid(r, k.0)
  {
    ValuesAdd(m.rows, (mailbox, NextUid(m, mailbox)), hash);
  }

  /** The blob of a save is stored and paid for, or nothing has changed. */
  ghost predicate Paid(acc: Account, m: Mail, hash: string, ok: bool, r: Mail) {
    if !ok then r == m
    else
      && r.rows == m.rows && r.next == m.next && r.blobs.Keys == m.rows.Values + {hash}
      && r.used == Total(r.blobs) && forall h :: h in r.blobs ==> acc.digest(r.blobs[h]) == h
  }

  lemma KnownBlob(acc: Account, m: Mail, raw: string)
    requires Valid(acc, m) && acc.digest(raw) in m.blobs
    ensures var (ok, r) := ChargeNewBlob(acc, StoreBlob(acc, m, raw), acc.digest(raw), |raw|);
            Paid(acc, m, acc.digest(raw), ok, r)
  {
    hide NextUid, Charge, Total;
    assert m.rows.Values + {acc.digest(raw)} == m.rows.Values;
  }

  lemma NewBlob(acc: Account, m: Mail, raw: string)
    requires Valid(acc, m) && acc.digest(raw) !in m.blobs
    ensures var (ok, r) := ChargeNewBlob(acc, StoreBlob(acc, m, raw), acc.digest(raw), |raw|);
            Paid(acc, m, acc.digest(raw), ok, r)
  {
    var hash := acc.digest(raw);
    TotalWith(m.blobs, hash, raw);
    hide NextUid, Total;
    assert m.blobs[hash := raw] - {hash} == m.blobs;
    assert m.blobs[hash := raw].Keys == m.rows.Values + {hash};
  }

  /** A save keeps the invariant; a refused save changes nothing. */
  lemma SaveKeeps(acc: Account, m: Mail, raw: string)
    requires Valid(acc, m)
    ensures Valid(acc, SaveSent(acc, m, raw).1)
    ensures !SaveSent(acc, m, raw).0 ==> SaveSent(acc, m, raw).1 == m
  {
    var hash := acc.digest(raw);
    if hash in m.blobs {
      KnownBlob(acc, m, raw);
    } else {
      NewBlob(acc, m, raw);
    }
    hide ChargeNewBlob, StoreBlob;
    var (ok, charged) := ChargeNewBlob(acc, StoreBlob(acc, m, raw), hash, |raw|);
    if ok {
      assert forall k :: k in charged.rows ==> k.1 < NextUid(charged, k.0) by { SameNext(m, charged); }
      AddRowKeeps(acc, charged, "Sent", hash);
      hide NextUid, Total;
    }
  }

  /** A row may be moved to another mailbox: its hash stays referenced. */
  predicate Movable(m: Mail, from: string, uid: nat, hash: string) {
    hash in m.rows.Values && ((from, uid) in m.rows ==> m.rows[(from, uid)] == hash)
  }

  lemma MoveKeeps(acc: Account, m: Mail, from: string, to: string, uid: nat, hash: string)
    requires Valid(acc, m) && from != to && Movable(m, from, uid, hash)
    ensures var r := MoveOne(m, from, to, uid, hash);
            && Valid(acc, r) && r.blobs == m.blobs && r.used == m.used && r.rows.Values == m.rows.Values
            && forall k: Key :: k.0 == from && k in r.rows ==> k in m.rows && r.rows[k] == m.rows[k]
  {
    AddRowKeeps(acc, m, to, hash);
    var added := AddRow(m, to, hash);
    assert added.rows.Values == m.rows.Values;
    ValuesWithout(added.rows, (from, uid), (to, NextUid(m, to)));
    SameNext(added, MoveOne(m, from, to, uid, hash));
    hide NextUid, Total;
  }

  lemma ValuesWithout(rows: map<Key, string>, gone: Key, twin: Key)
    requires gone != twin && twin in rows && (gone in rows ==> rows[gone] == rows[twin])
    ensures (rows - {gone}).Values == rows.Values
  {
    var r := rows - {gone};
    forall x ensures x in r.Values <==> x in rows.Values {
      if x in rows.Values {
        var j :| j in rows && rows[j] == x;
        var k := if j == gone then twin else j;
        assert k in r && r[k] == x;
      }
    }
  }

  lemma DeletePlainKeeps(acc: Account, m: Mail, hash: string)
    requires Valid(acc, m)
    ensures Valid(acc, DeletePlain(m, hash)) && !IsReferenced(DeletePlain(m, hash), hash) && hash !in DeletePlain(m, hash).blobs
    ensures DeletePlain(m, hash).rows == WithoutHash(m.rows, hash)
  {
    var dropped := m.(rows := WithoutHash(m.rows, hash));
    forall x ensures x in dropped.rows.Values <==> x in m.rows.Values && x != hash {
      if x in m.rows.Values && x != hash {
        var j :| j in m.rows && m.rows[j] == x;
        assert dropped.rows[j] == x;
      }
    }
    hide NextUid;
    if hash in m.blobs {
      assert forall k :: k in dropped.rows ==> k.1 < NextUid(dropped, k.0) by { SameNext(m, dropped); }
      RemoveBlobExact(acc, dropped, hash);
    } else {
      assert dropped.rows.Values == m.rows.Values;
      SameNext(m, dropped);
    }
  }

  lemma SameNext(m: Mail, r: Mail)
    requires r.next == m.next && r.rows.Keys <= m.rows.Keys && forall k :: k in m.rows ==> k.1 < NextUid(m, k.0)
    ensures forall k :: k in r.rows ==> k.1 < NextUid(r, k.0)
  {
    forall k | k in r.rows ensures k.1 < NextUid(r, k.0) {
      assert k in m.rows.Keys;
    }
  }

  lemma DeleteQualifiedKeeps(acc: Account, m: Mail, key: Key, hash: string)
    requires Valid(acc, m)
    ensures var r := DeleteQualified(m, key, hash);
            && Valid(acc, r)
            && r.rows == (if key in m.rows && m.rows[key] == hash then m.rows - {key} else m.rows)
  {
    if key in m.rows && m.rows[key] == hash {
      var dropped := m.(rows := m.rows - {key});
      forall x ensures x in m.rows.Values <==> x in dropped.rows.Values || x == hash {
        if x in m.rows.Values && x != hash {
          var j :| j in m.rows && m.rows[j] == x;
          assert dropped.rows[j] == x;
        }
      }
      SameNext(m, dropped);
      hide NextUid;
      if IsReferenced(dropped, hash) {
        assert dropped.rows.Values == m.rows.Values;
      } else {
        RemoveBlobExact(acc, dropped, hash);
      }
    }
  }

  // ---------- runs ----------

  /** A validated batch: rows of one mailbox with the hashes they were found with. */
  type Plan = seq<(nat, string)>

  predicate Planned(m: Mail, from: string, plan: Plan) {
    forall i :: 0 <= i < |plan| ==> Movable(m, from, plan[i].0, plan[i].1)
  }

  function MoveAll(m: Mail, from: string, to: string, plan: Plan): Mail
    decreases plan
  {
    if plan == [] then m else MoveAll(MoveOne(m, from, to, plan[0].0, plan[0].1), from, to, plan[1..])
  }

  lemma PlannedRest(acc: Account, m: Mail, from: string, to: string, plan: Plan)
    requires Valid(acc, m) && from != to && Planned(m, from, plan) && plan != []
    ensures var next := MoveOne(m, from, to, plan[0].0, plan[0].1); Valid(acc, next) && Planned(next, from, plan[1..])
  {
    hide Valid, MoveOne;
    var next := MoveOne(m, from, to, plan[0].0, plan[0].1);
    MoveKeeps(acc, m, from, to, plan[0].0, plan[0].1);
    forall i | 0 <= i < |plan[1..]| ensures Movable(next, from, plan[1..][i].0, plan[1..][i].1) {
      assert plan[1..][i] == plan[i + 1];
      assert Movable(m, from, plan[i + 1].0, plan[i + 1].1);
    }
  }

  /** A batch of moves writes no blob and leaves the counter alone. */
  lemma {:induction false} MoveAllKeeps(acc: Account, m: Mail, from: string, to: string, plan: Plan)
    requires Valid(acc, m) && from != to && Planned(m, from, plan)
    ensures var r := MoveAll(m, from, to, plan);
            Valid(acc, r) && r.blobs == m.blobs && r.used == m.used && r.rows.Values == m.rows.Values
    decreases plan
  {
    hide Valid, MoveOne, Movable;
    if plan != [] {
      MoveKeeps(acc, m, from, to, plan[0].0, plan[0].1);
      PlannedRest(acc, m, from, to, plan);
      MoveAllKeeps(acc, MoveOne(m, from, to, plan[0].0, plan[0].1), from, to, plan[1..]);
    }
  }

  // ---------- copies ----------

  /** The number of rows that hold the hash. */
  ghost function Copies(rows: map<Key, string>, hash: string): nat {
    |set k | k in rows && rows[k] == hash|
  }

  ghost predicate SameCopies(a: map<Key, string>, b: map<Key, string>) {
    forall h :: Copies(a, h) == Copies(b, h)
  }

  lemma CopiesWith(rows: map<Key, string>, k: Key, v: string, h: string)
    requires k !in rows
    ensures Copies(rows[k := v], h) == Copies(rows, h) + if v == h then 1 else 0
  {
    var r := rows[k := v];
    var before, after := set j | j in rows && rows[j] == h, set j | j in r && r[j] == h;
    assert after == if v == h then before + {k} else before;
  }

  lemma CopiesWithout(rows: map<Key, string>, k: Key, h: string)
    ensures Copies(rows - {k}, h) == Copies(rows, h) - if k in rows && rows[k] == h then 1 else 0
  {
    if k in rows {
      CopiesWith(rows - {k}, k, rows[k], h);
      assert (rows - {k})[k := rows[k]] == rows;
    } else {
      assert rows - {k} == rows;
    }
  }

  /** A move adds a copy exactly when the row to move is already gone. */
  lemma MoveCopies(acc: Account, m: Mail, from: string, to: string, uid: nat, hash: string, h: string)
    requires Valid(acc, m) && from != to && Movable(m, from, uid, hash)
    ensures var r := MoveOne(m, from, to, uid, hash);
            Copies(r.rows, h) == Copies(m.rows, h) + if h == hash && (from, uid) !in m.rows then 1 else 0
  {
    AddRowKeeps(acc, m, to, hash);
    CopiesWith(m.rows, (to, NextUid(m, to)), hash, h);
    CopiesWithout(AddRow(m, to, hash).rows, (from, uid), h);
    hide NextUid, Total, Copies;
  }

  /** The planned rows are there, and no row is planned twice. */
  predicate TakesOnce(rows: map<Key, string>, from: string, plan: Plan) {
    && (forall i :: 0 <= i < |plan| ==> (from, plan[i].0) in rows)
    && (forall i, j :: 0 <= i < j < |plan| ==> plan[i].0 != plan[j].0)
  }

  lemma TakesFirst(m: Mail, from: string, to: string, plan: Plan)
    requires from != to && plan != []
    ensures TakesOnce(m.rows, from, plan) <==>
            (from, plan[0].0) in m.rows && TakesOnce(MoveOne(m, from, to, plan[0].0, plan[0].1).rows, from, plan[1..])
  {
    hide NextUid;
    var next, rest := MoveOne(m, from, to, plan[0].0, plan[0].1).rows, plan[1..];
    assert forall u :: (from, u) in next <==> (from, u) in m.rows && u != plan[0].0;
    assert forall i :: 0 < i < |plan| ==> plan[i] == rest[i - 1];
    if (from, plan[0].0) in m.rows && TakesOnce(next, from, rest) {
      forall i | 0 < i < |plan| ensures (from, plan[i].0) in next {
        assert plan[i] == rest[i - 1];
      }
    }
  }

  lemma CopiesChain(a: map<Key, string>, b: map<Key, string>, c: map<Key, string>, hash: string, grows: bool)
    requires forall h :: Copies(b, h) == Copies(a, h) + if h == hash && grows then 1 else 0
    requires forall h :: Copies(c, h) >= Copies(b, h)
    ensures forall h :: Copies(c, h) >= Copies(a, h)
    ensures SameCopies(c, a) <==> !grows && SameCopies(c, b)
  {
    hide Copies;
    assert SameCopies(c, a) ==> Copies(c, hash) == Copies(a, hash);
  }

  /** A batch never loses a copy of anything, and duplicates none if and only if it takes
      every row once. */
  lemma {:induction false} MoveAllCopies(acc: Account, m: Mail, from: string, to: string, plan: Plan)
    requires Valid(acc, m) && from != to && Planned(m, from, plan)
    ensures var r := MoveAll(m, from, to, plan);
            && (forall h :: Copies(r.rows, h) >= Copies(m.rows, h))
            && (SameCopies(r.rows, m.rows) <==> TakesOnce(m.rows, from, plan))
    decreases plan
  {
    hide Valid, Copies, Movable, MoveOne, TakesOnce;
    if plan == [] {
      assert TakesOnce(m.rows, from, []) by { TakesNone(m.rows, from); }
    } else {
      var (uid, hash) := plan[0];
      var next := MoveOne(m, from, to, uid, hash);
      var grows := (from, uid) !in m.rows;
      forall h ensures Copies(next.rows, h) == Copies(m.rows, h) + if h == hash && grows then 1 else 0 {
        MoveCopies(acc, m, from, to, uid, hash, h);
      }
      PlannedRest(acc, m, from, to, plan);
      MoveAllCopies(acc, next, from, to, plan[1..]);
      CopiesChain(m.rows, next.rows, MoveAll(m, from, to, plan).rows, hash, grows);
      TakesFirst(m, from, to, plan);
    }
  }

  lemma TakesNone(rows: map<Key, string>, from: string)
    ensures TakesOnce(rows, from, [])
  {}

  /** Rows a batch does not take stay as they are. */
  lemma {:induction false} OthersStay(acc: Account, m: Mail, from: string, to: string, plan: Plan, k: Key)
    requires Valid(acc, m) && from != to && Planned(m, from, plan)
    requires k in m.rows && (k.0 == from ==> forall i :: 0 <= i < |plan| ==> plan[i].0 != k.1)
    ensures var r := MoveAll(m, from, to, plan); k in r.rows && r.rows[k] == m.rows[k]
    decreases plan
  {
    if plan != [] {
      AddRowKeeps(acc, m, to, plan[0].1);
      PlannedRest(acc, m, from, to, plan);
      hide NextUid, Total, Valid;
      OthersStay(acc, MoveOne(m, from, to, plan[0].0, plan[0].1), from, to, plan[1..], k);
    }
  }

  datatype Op =
    | Save(raw: string)
    | Move(from: string, to: string, plan: Plan)
    | Plain(hash: string)
    | Qualified(key: Key, hash: string)

  /** One request; a move that is not validated changes nothing. */
  function Step(acc: Account, m: Mail, op: Op): Mail {
    match op
    case Save(raw) => SaveSent(acc, m, raw).1
    case Move(from, to, plan) => if from != to && Planned(m, from, plan) then MoveAll(m, from, to, plan) else m
    case Plain(hash) => DeletePlain(m, hash)
    case Qualified(key, hash) => DeleteQualified(m, key, hash)
  }

  function Run(acc: Account, m: Mail, ops: seq<Op>): Mail
    decreases ops
  {
    if ops == [] then m else Run(acc, Step(acc, m, ops[0]), ops[1..])
  }

  const EMPTY: Mail := Mail(map[], map[], 0, map[])

  /** After every run the counter is still the sum of the sizes of the distinct
      referenced blobs, and exactly those are stored. An empty account is a start. */
  lemma {:induction false} RunKeeps(acc: Account, m: Mail, ops: seq<Op>)
    requires Valid(acc, m)
    ensures Valid(acc, Run(acc, m, ops))
    decreases ops
  {
    hide Valid, Step;
    if ops != [] {
      StepKeeps(acc, m, ops[0]);
      RunKeeps(acc, Step(acc, m, ops[0]), ops[1..]);
    }
  }

  lemma StepKeeps(acc: Account, m: Mail, op: Op)
    requires Valid(acc, m)
    ensures Valid(acc, Step(acc, m, op))
  {
    hide Valid, SaveSent, DeletePlain, DeleteQualified;
    match op
    case Save(raw) => SaveKeeps(acc, m, raw);
    case Move(from, to, plan) =>
      if from != to && Planned(m, from, plan) {
        MoveAllKeeps(acc, m, from, to, plan);
      }
    case Plain(hash) => DeletePlainKeeps(acc, m, hash);
    case Qualified(key, hash) => DeleteQualifiedKeeps(acc, m, key, hash);
  }

  lemma EmptyValid(acc: Account)
    ensures Valid(acc, EMPTY)
  {}

  // ---------- the limit ----------

  /** The counter is within the account's limit and 64 bits. */
  predicate WithinLimit(acc: Account, m: Mail) {
    m.used <= MAX_INT64 && (acc.limit > 0 ==> m.used <= acc.limit)
  }

  /** A save is refused if and only if it would add bytes over the limit: a message that
      some row already holds costs nothing. */
  lemma SaveRefusedIff(acc: Account, m: Mail, raw: string)
    requires Valid(acc, m)
    ensures !SaveSent(acc, m, raw).0 <==>
            && acc.digest(raw) !in m.rows.Values && |raw| > 0
            && (m.used + |raw| > MAX_INT64 || (acc.limit > 0 && m.used + |raw| > acc.limit))
  {
    hide NextUid, Total;
  }

  lemma SaveWithin(acc: Account, m: Mail, raw: string)
    requires Valid(acc, m) && WithinLimit(acc, m)
    ensures WithinLimit(acc, SaveSent(acc, m, raw).1)
  {
    hide NextUid, Total;
  }

  lemma RemoveWithin(acc: Account, m: Mail, hash: string)
    requires WithinLimit(acc, m) && m.used >= 0
    ensures WithinLimit(acc, RemoveBlob(m, hash))
  {}

  lemma StepWithin(acc: Account, m: Mail, op: Op)
    requires Valid(acc, m) && WithinLimit(acc, m)
    ensures WithinLimit(acc, Step(acc, m, op))
  {
    match op
    case Save(raw) => SaveWithin(acc, m, raw);
    case Move(from, to, plan) =>
      if from != to && Planned(m, from, plan) {
        MoveAllKeeps(acc, m, from, to, plan);
        hide Valid, Planned, MoveAll;
      }
    case Plain(hash) =>
      RemoveWithin(acc, m.(rows := WithoutHash(m.rows, hash)), hash);
      hide Valid, RemoveBlob;
    case Qualified(key, hash) =>
      RemoveWithin(acc, m.(rows := m.rows - {key}), hash);
      hide Valid, RemoveBlob;
  }

  /** No run takes an account over its limit. */
  lemma {:induction false} RunWithin(acc: Account, m: Mail, ops: seq<Op>)
    requires Valid(acc, m) && WithinLimit(acc, m)
    ensures WithinLimit(acc, Run(acc, m, ops))
    decreases ops
  {
    hide Valid, Step, WithinLimit;
    if ops != [] {
      StepWithin(acc, m, ops[0]);
      StepKeeps(acc, m, ops[0]);
      RunWithin(acc, Step(acc, m, ops[0]), ops[1..]);
    }
  }

  // ---------- where moved messages are ----------

  ghost predicate Holds(rows: map<Key, string>, mailbox: string, hash: string) {
    exists k: Key :: k in rows && k.0 == mailbox && rows[k] == hash
  }

  lemma MovedOne(acc: Account, m: Mail, from: string, to: string, uid: nat, hash: string, h: string)
    requires Valid(acc, m) && from != to && Movable(m, from, uid, hash)
    ensures var r := MoveOne(m, from, to, uid, hash);
            && (h == hash || Holds(m.rows, to, h) ==> Holds(r.rows, to, h)) && (from, uid) !in r.rows
            && forall k: Key :: k.0 == from && k !in m.rows ==> k !in r.rows
  {
    AddRowKeeps(acc, m, to, hash);
    var r, key := MoveOne(m, from, to, uid, hash), (to, NextUid(m, to));
    hide NextUid, Total;
    assert key in r.rows && r.rows[key] == hash;
    if Holds(m.rows, to, h) {
      var k: Key :| k in m.rows && k.0 == to && m.rows[k] == h;
      assert k in r.rows && r.rows[k] == h;
    }
  }

  /** After a batch every message it took is in the destination, and none of the rows it
      took is left in the source. */
  lemma {:induction false} MovedThere(acc: Account, m: Mail, from: string, to: string, plan: Plan, i: nat, h: string)
    requires Valid(acc, m) && from != to && Planned(m, from, plan)
    ensures var r := MoveAll(m, from, to, plan);
            && (Holds(m.rows, to, h) ==> Holds(r.rows, to, h))
            && (forall k: Key :: k.0 == from && k !in m.rows ==> k !in r.rows)
            && (i < |plan| ==> (from, plan[i].0) !in r.rows && (h == plan[i].1 ==> Holds(r.rows, to, h)))
    decreases plan
  {
    hide Valid, Holds, Movable, MoveOne;
    if plan != [] {
      var (uid, hash) := plan[0];
      var next := MoveOne(m, from, to, uid, hash);
      assert Movable(m, from, plan[0].0, plan[0].1);
      MovedOne(acc, m, from, to, uid, hash, h);
      PlannedRest(acc, m, from, to, plan);
      MovedThere(acc, next, from, to, plan[1..], if i > 0 then i - 1 else 0, h);
    }
  }

  // ---------- UIDs ----------

  lemma {:induction false} MoveAllUids(acc: Account, m: Mail, from: string, to: string, plan: Plan, mailbox: string)
    ensures NextUid(m, mailbox) <= NextUid(MoveAll(m, from, to, plan), mailbox)
    decreases plan
  {
    if plan != [] {
      var next := MoveOne(m, from, to, plan[0].0, plan[0].1);
      assert NextUid(m, mailbox) <= NextUid(next, mailbox);
      hide MoveOne, NextUid;
      MoveAllUids(acc, next, from, to, plan[1..], mailbox);
    }
  }

  /** The next UID of a mailbox never goes back, so a UID is never given out twice. */
  lemma {:induction false} UidsGrow(acc: Account, m: Mail, ops: seq<Op>, mailbox: string)
    ensures NextUid(m, mailbox) <= NextUid(Run(acc, m, ops), mailbox)
    decreases ops
  {
    if ops != [] {
      var next := Step(acc, m, ops[0]);
      StepUids(acc, m, ops[0], mailbox);
      hide Step, NextUid;
      UidsGrow(acc, next, ops[1..], mailbox);
    }
  }

  lemma StepUids(acc: Account, m: Mail, op: Op, mailbox: string)
    ensures NextUid(m, mailbox) <= NextUid(Step(acc, m, op), mailbox)
  {
    if op.Move? {
      MoveAllUids(acc, m, op.from, op.to, op.plan, mailbox);
      hide MoveAll, NextUid, Planned;
    }
  }
}

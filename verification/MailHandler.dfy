/** The mail handler: message ids, the loops over an account's rows, and the
    requests that change rows, blobs and the quota counter. */
module MailHandler {
  import opened Text
  import opened MailQuota
  import opened Sequences

  // ---------- copy-qualified ids ----------

  /** Base64 without padding, as a pair of functions. */
  datatype Codec = Codec(encode: string -> string, decode: string -> Option<string>)

  ghost predicate Inverse(c: Codec) {
    forall s :: c.decode(c.encode(s)) == Some(s)
  }

  const MAX_UINT32 := 0xffff_ffff

  function QualifiedId(c: Codec, hash: string, mailbox: string, uid: nat): string {
    hash + "_" + Itoa(uid) + "_" + c.encode(mailbox)
  }

  /** strings.SplitN with the separator underscore and at most three parts. */
  function SplitThree(id: string): Option<(string, string, string)> {
    var i := IndexOf(id, '_');
    if i < 0 then None
    else
      var rest := id[i + 1..];
      var j := IndexOf(rest, '_');
      if j < 0 then None else Some((id[..i], rest[..j], rest[j + 1..]))
  }

  function ParseUint32(s: string): Option<nat> {
    if s == "" || !AllDigits(s) || DigitsValue(s) > MAX_UINT32 then None else Some(DigitsValue(s))
  }

  function ParseQualified(c: Codec, id: string): Option<(string, Key)> {
    var parts := SplitThree(id);
    if parts == None || parts.value.0 == "" then None
    else
      var uid, name := ParseUint32(parts.value.1), c.decode(parts.value.2);
      if uid == None || name == None || name.value == "" then None else Some((parts.value.0, (name.value, uid.value)))
  }

  lemma SplitThreeAt(a: string, b: string, rest: string)
    requires '_' !in a && '_' !in b
    ensures SplitThree(a + "_" + b + "_" + rest) == Some((a, b, rest))
  {
    var id := a + "_" + b + "_" + rest;
    var tail := b + "_" + rest;
    assert id == a + ['_'] + tail && tail == b + ['_'] + rest;
    IndexOfAt(a, '_', tail);
    IndexOfAt(b, '_', rest);
    hide IndexOf;
    assert id[..|a|] == a && id[|a| + 1..] == tail;
    assert tail[..|b|] == b && tail[|b| + 1..] == rest;
  }

  lemma DigitsNoUnderscore(n: nat)
    ensures '_' !in Itoa(n) && ParseUint32(Itoa(n)) == if n <= MAX_UINT32 then Some(n) else None
  {
    ItoaValue(n);
    hide Itoa, DigitsValue;
  }

  /** A qualified id names exactly the row it was made for, even though the encoded
      mailbox may itself hold underscores; a plain hash is never taken for one. */
  lemma QualifiedRoundTrip(c: Codec, hash: string, mailbox: string, uid: nat)
    requires Inverse(c) && hash != "" && '_' !in hash && mailbox != "" && uid <= MAX_UINT32
    ensures ParseQualified(c, QualifiedId(c, hash, mailbox, uid)) == Some((hash, (mailbox, uid)))
    ensures ParseQualified(c, hash) == None
  {
    DigitsNoUnderscore(uid);
    SplitThreeAt(hash, Itoa(uid), c.encode(mailbox));
    hide SplitThree, Itoa, ParseUint32;
    NoUnderscore(hash);
  }

  lemma NoUnderscore(s: string)
    requires '_' !in s
    ensures SplitThree(s) == None
  {}

  // ---------- the handler ----------

  class Handler {
    const acc: Account
    const codec: Codec
    var rows: map<Key, string>
    var blobs: map<string, string>
    var used: int
    var next: map<string, nat>

    constructor (acc: Account, codec: Codec)
      ensures this.acc == acc && this.codec == codec && State() == EMPTY && Ok()
    {
      this.acc, this.codec := acc, codec;
      rows, blobs, used, next := map[], map[], 0, map[];
      new;
      EmptyValid(acc);
    }

    function State(): Mail
      reads this
    {
      Mail(rows, blobs, used, next)
    }

    ghost predicate Ok()
      reads this
    {
      Valid(acc, State())
    }

    /** The number of rows that hold the hash, by a scan in arbitrary order. */
    method CountHash(hash: string) returns (n: nat)
      ensures n == Copies(rows, hash)
      ensures n > 0 <==> IsReferenced(State(), hash)
    {
      n := 0;
      var rest := rows.Keys;
      ghost var seen: set<Key> := {};
      while rest != {}
        invariant rest <= rows.Keys
        invariant seen == set k | k in rows && k !in rest && rows[k] == hash
        invariant n == |seen|
        decreases |rest|
      {
        var k :| k in rest;
        rest := rest - {k};
        if rows[k] == hash {
          seen := seen + {k};
          n := n + 1;
        }
      }
      ghost var all := set k | k in rows && rows[k] == hash;
      assert seen == all;
      if hash in rows.Values {
        var k :| k in rows && rows[k] == hash;
        assert k in all;
      } else {
        assert all == {};
      }
    }

    /** Drops every row that holds the hash. */
    method DeleteMessageMetadata(hash: string)
      modifies this`rows
      ensures rows == WithoutHash(old(rows), hash)
    {
      var rest := rows.Keys;
      while rest != {}
        invariant rest <= old(rows).Keys && rest <= rows.Keys
        invariant forall k :: k in rows <==> k in old(rows) && (k in rest || old(rows)[k] != hash)
        invariant forall k :: k in rows ==> rows[k] == old(rows)[k]
        decreases |rest|
      {
        var k :| k in rest;
        rest := rest - {k};
        if rows[k] == hash {
          rows := rows - {k};
        }
      }
      assert rows == WithoutHash(old(rows), hash);
    }

    /** The store's delete: refused while a row still uses the blob. */
    method DeleteBlob(hash: string) returns (removed: bool)
      modifies this`blobs
      ensures removed == (hash in old(blobs) && !old(IsReferenced(State(), hash)))
      ensures blobs == if removed then old(blobs) - {hash} else old(blobs)
    {
      var n := CountHash(hash);
      removed := hash in blobs && n == 0;
      if removed {
        blobs := blobs - {hash};
      }
    }

    method QuotaAdjust(delta: int) returns (ok: bool)
      modifies this`used
      ensures delta >= 0 ==> ok == Charge(acc, old(used), delta).Some?
      ensures delta >= 0 && ok ==> used == Charge(acc, old(used), delta).value
      ensures delta < 0 ==> ok && used == Released(old(used), -delta)
      ensures !ok ==> used == old(used)
    {
      var current := if used < 0 then 0 else used;
      if delta > 0 && (current > MAX_INT64 - delta || (acc.limit > 0 && current + delta > acc.limit)) {
        return false;
      }
      used := if delta < 0 && current + delta < 0 then 0 else current + delta;
      ok := true;
    }

    method ChargeBlob(hash: string, size: nat) returns (ok: bool)
      modifies this`blobs, this`used
      ensures (ok, State()) == ChargeNewBlob(acc, old(State()), hash, size)
    {
      if size == 0 {
        return true;
      }
      var n := CountHash(hash);
      if n > 0 {
        return true;
      }
      ok := QuotaAdjust(size);
      if !ok {
        var before := blobs;
        var removed := DeleteBlob(hash);
        assert hash !in before ==> before - {hash} == before;
      }
    }

    method ReleaseBlob(hash: string)
      modifies this`blobs, this`used
      ensures State() == RemoveBlob(old(State()), hash)
    {
      var size := if hash in blobs then |blobs[hash]| else 0;
      var removed := DeleteBlob(hash);
      if removed && size > 0 {
        var _ := QuotaAdjust(-size);
      }
    }

    /** saveSentCopy: store, charge, then add the row. */
    method SaveSentCopy(raw: string) returns (ok: bool)
      requires Ok()
      modifies this
      ensures Ok() && (ok, State()) == SaveSent(acc, old(State()), raw)
      ensures !ok ==> State() == old(State())
    {
      SaveKeeps(acc, State(), raw);
      hide Valid, ChargeNewBlob;
      var hash := acc.digest(raw);
      if hash !in blobs {
        blobs := blobs[hash := raw];
      }
      ok := ChargeBlob(hash, |raw|);
      if ok {
        AppendRow("Sent", hash);
      }
    }

    method AppendRow(mailbox: string, hash: string)
      modifies this`rows, this`next
      ensures State() == AddRow(old(State()), mailbox, hash)
    {
      var uid := NextUid(State(), mailbox);
      rows := rows[(mailbox, uid) := hash];
      next := next[mailbox := uid + 1];
    }

    /** handleMailDelete, for both kinds of id. */
    method HandleMailDelete(id: string)
      requires Ok()
      modifies this
      ensures Ok()
      ensures State() == var q := ParseQualified(codec, id);
                         if q.Some? then DeleteQualified(old(State()), q.value.1, q.value.0) else DeletePlain(old(State()), id)
    {
      hide ParseQualified;
      var q := ParseQualified(codec, id);
      if q.Some? {
        var (hash, key) := q.value;
        DeleteQualifiedKeeps(acc, State(), key, hash);
        hide Valid;
        if key in rows && rows[key] == hash {
          rows := rows - {key};
          var n := CountHash(hash);
          if n == 0 {
            ReleaseBlob(hash);
          }
        }
      } else {
        DeletePlainKeeps(acc, State(), id);
        hide Valid;
        DeleteMessageMetadata(id);
        ReleaseBlob(id);
      }
    }

    /** The UIDs of a mailbox, in the order of the store's keys. */
    method GetMessageUIDs(mailbox: string) returns (uids: seq<nat>)
      ensures Ascending(uids) && forall u :: u in uids <==> (mailbox, u) in rows
    {
      uids := InOrder(set k | k in rows && k.0 == mailbox :: k.1);
    }

    /** findUIDByMessageID: a qualified id names one row of one mailbox, a plain id
        the first row of the mailbox that holds the hash. */
    method FindUid(mailbox: string, id: string) returns (found: bool, uid: nat, hash: string)
      ensures found <==> Present(rows, codec, mailbox, id)
      ensures found ==> Names(rows, codec, mailbox, id, uid, hash)
    {
      hide ParseQualified;
      var q := ParseQualified(codec, id);
      found, uid, hash := false, 0, "";
      if q.Some? {
        var key := q.value.1;
        if key.0 == mailbox && key in rows && rows[key] == q.value.0 {
          return true, key.1, q.value.0;
        }
        return;
      }
      var uids := GetMessageUIDs(mailbox);
      for i := 0 to |uids|
        invariant forall j :: 0 <= j < i ==> (mailbox, uids[j]) in rows && rows[(mailbox, uids[j])] != id
      {
        assert uids[i] in uids;
        if rows[(mailbox, uids[i])] == id {
          FirstFound(rows, mailbox, uids, i, id);
          return true, uids[i], id;
        }
      }
      assert forall k :: k in rows && k.0 == mailbox ==> k.1 in uids;
    }

    /** The first half of a batch move: every id is looked up before anything moves. */
    method PlanMove(ids: seq<string>, from: string, to: string) returns (ok: bool, plan: Plan)
      ensures ok <==> forall i :: 0 <= i < |ids| ==> MayMove(rows, codec, from, to, ids[i])
      ensures ok ==> NamedBy(rows, codec, from, ids, plan)
    {
      hide ParseQualified, Present, Names;
      plan := [];
      for i := 0 to |ids|
        invariant NamedBy(rows, codec, from, ids[..i], plan)
        invariant forall j :: 0 <= j < i ==> MayMove(rows, codec, from, to, ids[j])
      {
        var found, uid, hash := FindUid(from, ids[i]);
        var there, _, _ := FindUid(to, ids[i]);
        var qualified := ParseQualified(codec, ids[i]).Some?;
        if !found || (there && !qualified) {
          return false, [];
        }
        plan := plan + [(uid, hash)];
      }
      assert ids[..|ids|] == ids;
      ok := true;
    }

    /** The second half of handleMailMove: all ids are valid and all move, or
        nothing changes. Blobs and counter stay as they are. */
    method MoveBatch(ids: seq<string>, from: string, to: string) returns (ok: bool)
      requires Ok() && from != to
      modifies this
      ensures Ok() && blobs == old(blobs) && used == old(used) && rows.Values == old(rows.Values)
      ensures ok <==> forall i :: 0 <= i < |ids| ==> MayMove(old(rows), codec, from, to, ids[i])
      ensures !ok ==> State() == old(State())
      ensures ok ==> exists plan ::
                       && NamedBy(old(rows), codec, from, ids, plan) && State() == MoveAll(old(State()), from, to, plan)
                       && (SameCopies(rows, old(rows)) <==> TakesOnce(old(rows), from, plan))
    {
      hide ParseQualified, Present;
      var planned, plan := PlanMove(ids, from, to);
      if !planned {
        return false;
      }
      NamedPlanned(State(), codec, from, ids, plan);
      MoveAllKeeps(acc, State(), from, to, plan);
      MoveAllCopies(acc, State(), from, to, plan);
      hide Valid, Planned, NamedBy, TakesOnce, SameCopies, Copies;
      ghost var start := State();
      for i := 0 to |plan|
        invariant MoveAll(State(), from, to, plan[i..]) == MoveAll(start, from, to, plan)
      {
        assert plan[i..][1..] == plan[i + 1..];
        var (uid, hash) := plan[i];
        AppendRow(to, hash);
        rows := rows - {(from, uid)};
      }
      ok := true;
    }

    /** handleMailMove: a request with one id and a list of them, the folders as far as
        their names resolve, and the mailboxes of the account. */
    method HandleMailMove(id: string, more: seq<string>, from: Option<string>, to: Option<string>, boxes: set<string>)
      returns (ok: bool)
      requires Ok()
      modifies this
      ensures Ok() && blobs == old(blobs) && used == old(used) && rows.Values == old(rows.Values)
      ensures ok <==> MoveAllowed(old(rows), codec, [id] + more, from, to, boxes)
      ensures !ok ==> State() == old(State())
      ensures ok ==> exists plan ::
                       && NamedBy(old(rows), codec, from.value, Firsts([id] + more), plan)
                       && State() == MoveAll(old(State()), from.value, to.value, plan)
                       && (SameCopies(rows, old(rows)) <==> TakesOnce(old(rows), from.value, plan))
    {
      var ids := CollectIds([id] + more);
      hide Firsts, MayMove, ValidMessageId, NamedBy, TakesOnce, SameCopies, MoveAll, Valid;
      if ids == None || |ids.value| == 0 || |ids.value| > MAX_MOVE_IDS {
        return false;
      }
      if from == None || to == None || from == to {
        return false;
      }
      if from.value !in boxes || to.value !in boxes {
        return false;
      }
      ok := MoveBatch(ids.value, from.value, to.value);
    }
  }

  // ---------- the ids of a request ----------

  const MAX_MOVE_IDS := 1000

  predicate IsControl(c: char) {
    c as int < 0x20 || 0x7f <= c as int <= 0x9f
  }

  predicate ValidMessageId(id: string) {
    0 < |id| <= 512 && forall i :: 0 <= i < |id| ==> !IsControl(id[i])
  }

  /** The first of each, without the empty one. */
  function Firsts(raws: seq<string>): (ids: seq<string>)
    ensures Distinct(ids) && forall x :: x in ids <==> x in raws && x != ""
  {
    if raws == [] then []
    else
      var n := |raws| - 1;
      var ids := Firsts(raws[..n]);
      assert raws == raws[..n] + [raws[n]];
      if raws[n] == "" || raws[n] in ids then ids else ids + [raws[n]]
  }

  method CollectIds(raws: seq<string>) returns (ids: Option<seq<string>>)
    ensures ids == if forall x :: x in raws ==> x == "" || ValidMessageId(x) then Some(Firsts(raws)) else None
  {
    hide ValidMessageId;
    var found: seq<string> := [];
    var seen: set<string> := {};
    for i := 0 to |raws|
      invariant found == Firsts(raws[..i]) && forall x :: x in seen <==> x in found
      invariant forall j :: 0 <= j < i ==> raws[j] == "" || ValidMessageId(raws[j])
    {
      assert raws[..i + 1][..i] == raws[..i] && raws[..i + 1][i] == raws[i];
      if raws[i] == "" {
        continue;
      }
      if !ValidMessageId(raws[i]) {
        assert raws[i] in raws;
        return None;
      }
      if raws[i] !in seen {
        seen := seen + {raws[i]};
        found := found + [raws[i]];
      }
    }
    assert raws[..|raws|] == raws;
    ids := Some(found);
  }

  /** What a move needs: well-formed ids, some and not too many, two different folders that
      exist, and every message where it should be. */
  predicate MoveAllowed(rows: map<Key, string>, codec: Codec, raws: seq<string>, from: Option<string>, to: Option<string>, boxes: set<string>) {
    var ids := Firsts(raws);
    && (forall x :: x in raws ==> x == "" || ValidMessageId(x)) && 0 < |ids| <= MAX_MOVE_IDS
    && from.Some? && to.Some? && from != to && from.value in boxes && to.value in boxes
    && forall i :: 0 <= i < |ids| ==> MayMove(rows, codec, from.value, to.value, ids[i])
  }

  predicate Present(rows: map<Key, string>, codec: Codec, mailbox: string, id: string) {
    var q := ParseQualified(codec, id);
    if q.Some? then q.value.1.0 == mailbox && q.value.1 in rows && rows[q.value.1] == q.value.0
    else exists k :: k in rows && k.0 == mailbox && rows[k] == id
  }

  /** The row is the mailbox's first that holds the hash. */
  predicate IsFirst(rows: map<Key, string>, mailbox: string, uid: nat, hash: string) {
    && (mailbox, uid) in rows && rows[(mailbox, uid)] == hash
    && forall k :: k in rows && k.0 == mailbox && rows[k] == hash ==> uid <= k.1
  }

  lemma FirstFound(rows: map<Key, string>, mailbox: string, uids: seq<nat>, i: nat, hash: string)
    requires Ascending(uids) && (forall u :: u in uids <==> (mailbox, u) in rows) && i < |uids|
    requires forall j :: 0 <= j < i ==> (mailbox, uids[j]) in rows && rows[(mailbox, uids[j])] != hash
    requires (mailbox, uids[i]) in rows && rows[(mailbox, uids[i])] == hash
    ensures IsFirst(rows, mailbox, uids[i], hash)
  {
    forall k | k in rows && k.0 == mailbox && rows[k] == hash ensures uids[i] <= k.1 {
      assert k == (mailbox, k.1);
      var j :| 0 <= j < |uids| && uids[j] == k.1;
    }
  }

  /** The row an id stands for, and its hash. */
  predicate Names(rows: map<Key, string>, codec: Codec, mailbox: string, id: string, uid: nat, hash: string) {
    var q := ParseQualified(codec, id);
    if q.Some? then q.value == (hash, (mailbox, uid)) && (mailbox, uid) in rows && rows[(mailbox, uid)] == hash
    else hash == id && IsFirst(rows, mailbox, uid, id)
  }

  predicate NamedBy(rows: map<Key, string>, codec: Codec, mailbox: string, ids: seq<string>, plan: Plan) {
    |plan| == |ids| && forall i :: 0 <= i < |ids| ==> Names(rows, codec, mailbox, ids[i], plan[i].0, plan[i].1)
  }

  /** A list of ids stands for one plan only. */
  lemma PlanUnique(rows: map<Key, string>, codec: Codec, mailbox: string, ids: seq<string>, p: Plan, q: Plan)
    requires NamedBy(rows, codec, mailbox, ids, p) && NamedBy(rows, codec, mailbox, ids, q)
    ensures p == q
  {
    hide ParseQualified;
    forall i | 0 <= i < |ids| ensures p[i] == q[i] {
      assert Names(rows, codec, mailbox, ids[i], p[i].0, p[i].1) && Names(rows, codec, mailbox, ids[i], q[i].0, q[i].1);
    }
  }

  lemma NamedPlanned(m: Mail, codec: Codec, from: string, ids: seq<string>, plan: Plan)
    requires NamedBy(m.rows, codec, from, ids, plan)
    ensures Planned(m, from, plan)
  {
    hide ParseQualified;
    forall i | 0 <= i < |plan| ensures Movable(m, from, plan[i].0, plan[i].1) {
      assert Names(m.rows, codec, from, ids[i], plan[i].0, plan[i].1);
      assert m.rows[(from, plan[i].0)] == plan[i].1;
    }
  }

  /** Distinct ids that are all plain, or all as the listing prints copies, take every
      row once. */
  lemma OneKindTakesOnce(rows: map<Key, string>, codec: Codec, from: string, ids: seq<string>, plan: Plan)
    requires NamedBy(rows, codec, from, ids, plan) && Distinct(ids)
    requires (forall i :: 0 <= i < |ids| ==> ParseQualified(codec, ids[i]) == None)
             || (forall i :: 0 <= i < |ids| ==> ids[i] == QualifiedId(codec, plan[i].1, from, plan[i].0))
    ensures TakesOnce(rows, from, plan)
  {
    hide ParseQualified, QualifiedId;
    forall i | 0 <= i < |plan| ensures (from, plan[i].0) in rows && rows[(from, plan[i].0)] == plan[i].1 {
      assert Names(rows, codec, from, ids[i], plan[i].0, plan[i].1);
    }
    forall i, j | 0 <= i < j < |plan| ensures plan[i].0 != plan[j].0 {
      assert Names(rows, codec, from, ids[i], plan[i].0, plan[i].1) && Names(rows, codec, from, ids[j], plan[j].0, plan[j].1);
    }
  }

  /** One row under its plain id and under its qualified id: both ids are accepted, and the
      batch of the two leaves one copy too many. */
  lemma NamedTwice(acc: Account, m: Mail, codec: Codec, from: string, to: string, uid: nat, hash: string)
    requires Valid(acc, m) && Inverse(codec) && hash != "" && '_' !in hash && from != "" && from != to && uid <= MAX_UINT32
    requires IsFirst(m.rows, from, uid, hash) && forall k :: k in m.rows && k.0 == to ==> m.rows[k] != hash
    ensures var ids, plan := [hash, QualifiedId(codec, hash, from, uid)], [(uid, hash), (uid, hash)];
            && ids[0] != ids[1] && MayMove(m.rows, codec, from, to, ids[0]) && MayMove(m.rows, codec, from, to, ids[1])
            && NamedBy(m.rows, codec, from, ids, plan) && !SameCopies(MoveAll(m, from, to, plan).rows, m.rows)
  {
    QualifiedRoundTrip(codec, hash, from, uid);
    hide ParseQualified, QualifiedId;
    var ids, plan := [hash, QualifiedId(codec, hash, from, uid)], [(uid, hash), (uid, hash)];
    assert (from, uid) in m.rows;
    assert NamedBy(m.rows, codec, from, ids, plan);
    NamedPlanned(m, codec, from, ids, plan);
    MoveAllCopies(acc, m, from, to, plan);
    assert plan[0].0 == plan[1].0;
    hide Valid, SameCopies, MoveAll;
  }

  /** A message must be in the source; a plain id must not be in the destination. */
  predicate MayMove(rows: map<Key, string>, codec: Codec, from: string, to: string, id: string) {
    Present(rows, codec, from, id) && (ParseQualified(codec, id).Some? || !Present(rows, codec, to, id))
  }
}

/** Rotation of the JWT signing keys: pruning, the persisted record, and a server
    object whose memory follows its disk. */
module JwtKeys {
  import opened Text

  type Keys = map<string, string>

  const MAX_KEYS := 5
  const LEGACY: string := "default"
  const MIN_INT64: int := -MAX_INT64 - 1

  // ---------- age ----------

  function Kid(ts: nat): string {
    "k" + Itoa(ts)
  }

  /** Rotated kids carry their time; any other kid predates every rotation. */
  function Stamp(kid: string): int {
    var n := Atoi(TrimPrefix(kid, "k"));
    if n == None || !HasPrefix(kid, "k") then MIN_INT64 else n.value
  }

  /** Go's string order. */
  predicate StringLess(a: string, b: string) {
    b != "" && (a == "" || a[0] < b[0] || (a[0] == b[0] && StringLess(a[1..], b[1..])))
  }

  predicate Older(a: string, b: string) {
    Stamp(a) < Stamp(b) || (Stamp(a) == Stamp(b) && StringLess(a, b))
  }

  lemma {:induction false} StringTotal(a: string, b: string)
    ensures a != b ==> StringLess(a, b) || StringLess(b, a)
    ensures StringLess(a, b) ==> !StringLess(b, a)
  {
    if a != "" && b != "" {
      StringTotal(a[1..], b[1..]);
      assert a == [a[0]] + a[1..] && b == [b[0]] + b[1..];
    }
  }

  lemma {:induction false} StringTransitive(a: string, b: string, c: string)
    requires StringLess(a, b) && StringLess(b, c)
    ensures StringLess(a, c)
  {
    if a != "" && a[0] == b[0] && b[0] == c[0] {
      StringTransitive(a[1..], b[1..], c[1..]);
    }
  }

  lemma OlderOrder(a: string, b: string, c: string)
    ensures a != b ==> Older(a, b) || Older(b, a)
    ensures Older(a, b) ==> !Older(b, a)
    ensures Older(a, b) && Older(b, c) ==> Older(a, c)
  {
    StringTotal(a, b);
    if StringLess(a, b) && StringLess(b, c) {
      StringTransitive(a, b, c);
    }
    hide StringLess, Stamp;
  }

  // ---------- pruning ----------

  /** The oldest kid other than current. */
  predicate IsOldest(keys: Keys, current: string, k: string) {
    k in keys && k != current && forall j :: j in keys && j != current && j != k ==> Older(k, j)
  }

  lemma OldestUnique(keys: Keys, current: string, a: string, b: string)
    requires IsOldest(keys, current, a) && IsOldest(keys, current, b)
    ensures a == b
  {
    OlderOrder(a, b, a);
    hide Older;
  }

  lemma {:induction false} OldestExists(keys: Keys, current: string)
    requires !(keys.Keys <= {current})
    ensures exists k :: IsOldest(keys, current, k)
    decreases |keys|
  {
    hide Older;
    var a :| a in keys && a != current;
    var rest := keys - {a};
    Smaller(keys, a);
    assert forall j :: j in keys && j != a ==> j in rest.Keys;
    if rest.Keys <= {current} {
      assert IsOldest(keys, current, a);
    } else {
      OldestExists(rest, current);
      var b :| IsOldest(rest, current, b);
      OlderOrder(a, b, a);
      if Older(a, b) {
        forall j | j in keys && j != current && j != a ensures Older(a, j) {
          OlderOrder(a, b, j);
        }
        assert IsOldest(keys, current, a);
      } else {
        assert IsOldest(keys, current, b);
      }
    }
  }

  ghost function Oldest(keys: Keys, current: string): (k: string)
    requires !(keys.Keys <= {current})
    ensures IsOldest(keys, current, k)
  {
    OldestExists(keys, current);
    var k :| IsOldest(keys, current, k);
    k
  }

  /** keys without the oldest kids other than current that exceed the limit. */
  ghost function Prune(keys: Keys, current: string, limit: nat): Keys
    decreases |keys|
  {
    if |keys| <= limit || keys.Keys <= {current} then keys
    else
      Smaller(keys, Oldest(keys, current));
      Prune(keys - {Oldest(keys, current)}, current, limit)
  }

  /** What pruning leaves: the limit is met, the current key stays, nothing is
      altered, and whatever went was older than whatever stayed. */
  lemma {:induction false} PruneKeepsNewest(keys: Keys, current: string, limit: nat)
    requires limit >= 1 && current in keys
    ensures var r := Prune(keys, current, limit);
            && |r| == (if |keys| <= limit then |keys| else limit)
            && current in r && (forall k :: k in r ==> k in keys && r[k] == keys[k])
            && (forall a, b :: a in keys && a !in r && b in r && b != current ==> Older(a, b))
    decreases |keys|
  {
    hide Older;
    if |keys| > limit {
      OnlyOne(keys, current);
      var k := Oldest(keys, current);
      Smaller(keys, k);
      PruneKeepsNewest(keys - {k}, current, limit);
      var r := Prune(keys, current, limit);
      forall a, b | a in keys && a !in r && b in r && b != current ensures Older(a, b) {
        if a == k {
          assert b in keys && b != k;
        }
      }
    }
  }

  lemma OnlyOne(keys: Keys, current: string)
    requires |keys| > 1
    ensures !(keys.Keys <= {current})
  {
    if keys.Keys <= {current} {
      SubsetSize(keys.Keys, {current});
    }
  }

  lemma {:induction false} SubsetSize(a: set<string>, b: set<string>)
    requires a <= b
    ensures |a| <= |b|
    decreases a
  {
    if a != {} {
      var x :| x in a;
      SubsetSize(a - {x}, b - {x});
    }
  }

  /** The inner loop: map iteration order is arbitrary, the result is not. */
  method FindOldest(keys: Keys, current: string) returns (oldest: string, found: bool)
    ensures found <==> !(keys.Keys <= {current})
    ensures found ==> IsOldest(keys, current, oldest)
  {
    hide Older, Stamp;
    oldest, found := "", false;
    var oldestTs := 0;
    var rest := keys.Keys;
    while rest != {}
      invariant rest <= keys.Keys
      invariant !found ==> forall j :: j in keys && j !in rest ==> j == current
      invariant found ==> oldest in keys && oldest != current && oldestTs == Stamp(oldest)
      invariant found ==> forall j :: j in keys && j !in rest && j != current && j != oldest ==> Older(oldest, j)
      decreases |rest|
    {
      var kid :| kid in rest;
      rest := rest - {kid};
      if kid != current {
        var ts := Stamp(kid);
        var before := Before(ts, oldestTs, kid, oldest);
        if !found || before {
          forall j | found && j in keys && j !in rest && j != current && j != kid ensures Older(kid, j) {
            OlderOrder(kid, oldest, j);
          }
          oldest, oldestTs, found := kid, ts, true;
        } else {
          OlderOrder(oldest, kid, kid);
        }
      }
    }
  }

  function Before(ts: int, oldestTs: int, kid: string, oldest: string): (r: bool)
    ensures ts == Stamp(kid) && oldestTs == Stamp(oldest) ==> (r <==> Older(kid, oldest))
  {
    ts < oldestTs || (ts == oldestTs && StringLess(kid, oldest))
  }

  method PruneJWTSecrets(initial: Keys, current: string, limit: nat) returns (keys: Keys, pruned: seq<string>)
    ensures keys == Prune(initial, current, limit)
    ensures keys == initial - (set i | 0 <= i < |pruned| :: pruned[i])
  {
    hide IsOldest, Older, Prune;
    keys, pruned := initial, [];
    ghost var gone: set<string> := {};
    while |keys| > limit
      invariant Prune(keys, current, limit) == Prune(initial, current, limit)
      invariant gone == (set i | 0 <= i < |pruned| :: pruned[i]) && keys == initial - gone
      decreases |keys|
    {
      var oldest, found := FindOldest(keys, current);
      if !found {
        break;
      }
      PruneFirst(keys, current, limit, oldest);
      Smaller(keys, oldest);
      keys := keys - {oldest};
      gone := gone + {oldest};
      pruned := pruned + [oldest];
      assert gone == (set i | 0 <= i < |pruned| :: pruned[i]) by { Gone(pruned[..|pruned| - 1], oldest, pruned); }
    }
    PruneDone(keys, current, limit);
  }

  lemma PruneFirst(keys: Keys, current: string, limit: nat, oldest: string)
    requires |keys| > limit && IsOldest(keys, current, oldest)
    ensures oldest in keys && Prune(keys, current, limit) == Prune(keys - {oldest}, current, limit)
  {
    hide Older;
    OldestIn(keys, current, oldest);
    OldestUnique(keys, current, oldest, Oldest(keys, current));
  }

  lemma PruneDone(keys: Keys, current: string, limit: nat)
    requires |keys| <= limit || keys.Keys <= {current}
    ensures Prune(keys, current, limit) == keys
  {}

  lemma OldestIn(keys: Keys, current: string, k: string)
    requires IsOldest(keys, current, k)
    ensures k in keys && k != current
  {
    hide Older;
  }

  lemma Smaller(keys: Keys, k: string)
    requires k in keys
    ensures |keys - {k}| == |keys| - 1
  {
    assert (keys - {k}).Keys == keys.Keys - {k};
  }

  lemma Gone(a: seq<string>, k: string, b: seq<string>)
    requires b == a + [k]
    ensures (set i | 0 <= i < |b| :: b[i]) == (set i | 0 <= i < |a| :: a[i]) + {k}
  {
    assert b[|a|] == k && forall i :: 0 <= i < |a| ==> b[i] == a[i];
  }

  // ---------- the persisted record ----------

  /** The record as it is sealed: the legacy kid is a marker, never a copy of the
      configured secret. */
  datatype Record = Record(current: string, keys: Keys, legacy: bool)

  datatype Keyset = Keyset(keys: Keys, current: string)

  predicate IsLegacy(ks: Keyset, secret: string) {
    LEGACY in ks.keys && ks.keys[LEGACY] == secret
  }

  function Persist(ks: Keyset, secret: string): Record {
    Record(ks.current, if IsLegacy(ks, secret) then ks.keys - {LEGACY} else ks.keys, IsLegacy(ks, secret))
  }

  function NonEmpty(keys: Keys): Keys {
    map k | k in keys && keys[k] != "" :: keys[k]
  }

  /** None when the record lacks its current key and is ignored. */
  function Load(rec: Record, secret: string): Option<Keyset> {
    var keys := if rec.legacy then NonEmpty(rec.keys)[LEGACY := secret] else NonEmpty(rec.keys);
    if rec.current in keys then Some(Keyset(keys, rec.current)) else None
  }

  /** Loading gives back what was persisted exactly when the current key is there
      and no secret is empty. */
  lemma PersistLoad(ks: Keyset, secret: string)
    requires secret != ""
    ensures Load(Persist(ks, secret), secret) == Some(ks) <==>
            ks.current in ks.keys && forall k :: k in ks.keys ==> ks.keys[k] != ""
  {
    var rec := Persist(ks, secret);
    var loaded := Load(rec, secret);
    if ks.current in ks.keys && forall k :: k in ks.keys ==> ks.keys[k] != "" {
      if rec.legacy {
        assert NonEmpty(rec.keys)[LEGACY := secret] == ks.keys;
      } else {
        assert NonEmpty(rec.keys) == ks.keys;
      }
    } else if loaded == Some(ks) {
      forall k | k in ks.keys ensures ks.keys[k] != "" {
        if k != LEGACY || !rec.legacy {
          assert k in NonEmpty(rec.keys);
        }
      }
    }
  }

  /** The configured secret stays out of the record: whatever it is, the record written
      for the same rotated keys is the same. */
  lemma SecretKeptOut(ks: Keyset, a: string, b: string)
    ensures Persist(ks.(keys := ks.keys[LEGACY := a]), a) == Persist(ks.(keys := ks.keys[LEGACY := b]), b)
  {
    assert ks.keys[LEGACY := a] - {LEGACY} == ks.keys[LEGACY := b] - {LEGACY};
  }

  /** The loop over the keys to be stored, in arbitrary order. */
  method BuildRecord(ks: Keyset, secret: string) returns (rec: Record)
    ensures rec == Persist(ks, secret)
  {
    var keys: Keys, legacy := map[], false;
    var rest := ks.keys.Keys;
    while rest != {}
      invariant rest <= ks.keys.Keys
      invariant legacy <==> IsLegacy(ks, secret) && LEGACY !in rest
      invariant forall k :: k in keys <==> k in ks.keys && k !in rest && !(k == LEGACY && IsLegacy(ks, secret))
      invariant forall k :: k in keys ==> keys[k] == ks.keys[k]
      decreases |rest|
    {
      var kid :| kid in rest;
      rest := rest - {kid};
      if kid == LEGACY && ks.keys[kid] == secret {
        legacy := true;
      } else {
        keys := keys[kid := ks.keys[kid]];
      }
    }
    rec := Record(ks.current, keys, legacy);
    assert keys == Persist(ks, secret).keys;
  }
}

/** Open addressing with linear probing, as a value: what a table of buckets answers, tombstones and keys with
    reserved hashes included, and when that is what a map would answer. */
module Probing {
  import opened Int64
  import opened Powers

  const EMPTY_HASH: nat := 0
  const TOMBSTONE_HASH: nat := 1

  datatype Bucket<V> = Bucket(hash: nat, key: string, value: V)

  type Hash = string -> nat

  /** The key does not hash to one of the two reserved values. */
  predicate Proper(hash: Hash, k: string) { hash(k) > TOMBSTONE_HASH }

  predicate IsCapacity(n: nat) { n == Pow2(Log2(n)) && n > 0 }

  /** The bucket holds an entry; otherwise it is vacant or a tombstone, and free. */
  predicate Occupied<V>(b: Bucket<V>) { b.hash > TOMBSTONE_HASH }

  predicate Vacant<V>(b: Bucket<V>) { b.hash == EMPTY_HASH }

  /** The j-th bucket probed from `home` in a table of n. */
  function Probe(home: nat, j: nat, n: nat): (i: nat)
    requires home < n && j < n
    ensures i < n
  {
    if home + j < n then home + j else home + j - n
  }

  function Home(h: nat, n: nat): (i: nat)
    requires IsCapacity(n)
    ensures i < n
  {
    MaskIsRemainder(h, Log2(n));
    BitAnd(h, n - 1)
  }

  /** How many probes from `home` lead to bucket i. */
  function Distance(home: nat, i: nat, n: nat): (j: nat)
    requires home < n && i < n
    ensures j < n && Probe(home, j, n) == i
  {
    if i >= home then i - home else i + n - home
  }

  /** The j-th bucket on the way of a probe for a key with hash h. */
  function OnWay<V>(bs: seq<Bucket<V>>, h: nat, j: nat): Bucket<V>
    requires IsCapacity(|bs|) && j < |bs|
  {
    bs[Probe(Home(h, |bs|), j, |bs|)]
  }

  /** Nothing vacant comes before bucket i. */
  ghost predicate Reaches<V>(bs: seq<Bucket<V>>, h: nat, i: nat)
    requires IsCapacity(|bs|) && i < |bs|
  {
    forall j: nat {:trigger OnWay(bs, h, j)} :: j < Distance(Home(h, |bs|), i, |bs|) ==> !Vacant(OnWay(bs, h, j))
  }

  /** Nothing free comes before bucket i. */
  ghost predicate AllTaken<V>(bs: seq<Bucket<V>>, h: nat, i: nat)
    requires IsCapacity(|bs|) && i < |bs|
  {
    forall j: nat {:trigger OnWay(bs, h, j)} :: j < Distance(Home(h, |bs|), i, |bs|) ==> Occupied(OnWay(bs, h, j))
  }

  /** Entries carry the hash of their key, no key has two entries, and no probe for a key stops short of it. */
  ghost predicate BucketOk<V>(hash: Hash, bs: seq<Bucket<V>>, i: nat)
    requires IsCapacity(|bs|) && i < |bs|
  {
    Occupied(bs[i]) ==> bs[i].hash == hash(bs[i].key) && Reaches(bs, bs[i].hash, i)
  }

  ghost predicate TableOk<V>(hash: Hash, bs: seq<Bucket<V>>) {
    && IsCapacity(|bs|)
    && (forall i {:trigger BucketOk(hash, bs, i)} :: 0 <= i < |bs| ==> BucketOk(hash, bs, i))
    && (forall i, j {:trigger Unlike(bs, i, j)} :: 0 <= i < j < |bs| ==> Unlike(bs, i, j))
  }

  /** Two buckets do not hold entries for one key. */
  predicate Unlike<V>(bs: seq<Bucket<V>>, i: nat, j: nat)
    requires i < |bs| && j < |bs|
  {
    !(Occupied(bs[i]) && Occupied(bs[j]) && bs[i].key == bs[j].key)
  }

  ghost predicate HasEntry<V>(bs: seq<Bucket<V>>, k: string, i: nat) {
    i < |bs| && Occupied(bs[i]) && bs[i].key == k
  }

  /** The map that the entries represent. */
  ghost predicate Represents<V>(bs: seq<Bucket<V>>, m: map<string, V>) {
    && (forall i {:trigger Mapped(bs, m, i)} :: 0 <= i < |bs| ==> Mapped(bs, m, i))
    && (forall k {:trigger Stores(bs, k)} :: k in m ==> Stores(bs, k))
  }

  ghost predicate Mapped<V>(bs: seq<Bucket<V>>, m: map<string, V>, i: nat)
    requires i < |bs|
  {
    Occupied(bs[i]) ==> bs[i].key in m && m[bs[i].key] == bs[i].value
  }

  ghost predicate Stores<V>(bs: seq<Bucket<V>>, k: string) {
    exists i: nat :: HasEntry(bs, k, i)
  }

  // ----- probing -----

  datatype Slot = NoSlot | At(i: nat)

  /** Where a probe for k ends that has made j probes and met its first tombstone at `tomb`. */
  function Look<V>(hash: Hash, bs: seq<Bucket<V>>, k: string, j: nat, tomb: Slot): (r: Slot)
    requires IsCapacity(|bs|) && j <= |bs| && (tomb.At? ==> tomb.i < |bs|)
    ensures r.At? ==> r.i < |bs|
    decreases |bs| - j
  {
    if j == |bs| then tomb
    else
      var i := Probe(Home(hash(k), |bs|), j, |bs|);
      if bs[i].hash == EMPTY_HASH then if tomb.At? then tomb else At(i)
      else if bs[i].hash == TOMBSTONE_HASH then Look(hash, bs, k, j + 1, if tomb.At? then tomb else At(i))
      else if bs[i].hash == hash(k) && bs[i].key == k then At(i)
      else Look(hash, bs, k, j + 1, tomb)
  }

  function SlotOf<V>(hash: Hash, bs: seq<Bucket<V>>, k: string): (r: Slot)
    requires |bs| > 0 ==> IsCapacity(|bs|)
    ensures r.At? ==> r.i < |bs|
  {
    if |bs| == 0 then NoSlot else Look(hash, bs, k, 0, NoSlot)
  }

  /** What get answers: whatever value stands where the probe ends. */
  function Answer<V>(hash: Hash, bs: seq<Bucket<V>>, undefined: V, k: string): V
    requires |bs| > 0 ==> IsCapacity(|bs|)
  {
    match SlotOf(hash, bs, k)
    case NoSlot => undefined
    case At(i) => bs[i].value
  }

  /** What a probe for k is to find: its entry, or else the first free bucket on its way, or neither in a full table. */
  ghost predicate Finds<V>(hash: Hash, bs: seq<Bucket<V>>, k: string, s: Slot)
    requires IsCapacity(|bs|)
  {
    match s
    case NoSlot => !Stores(bs, k) && forall x :: 0 <= x < |bs| ==> Occupied(bs[x])
    case At(i) => i < |bs| && (HasEntry(bs, k, i) || (!Stores(bs, k) && !Occupied(bs[i]) && AllTaken(bs, hash(k), i)))
  }

  /** The first j probes met neither a vacant bucket nor the key, and their first tombstone at `tomb`. */
  ghost predicate Passed<V>(hash: Hash, bs: seq<Bucket<V>>, k: string, j: nat, tomb: Slot)
    requires IsCapacity(|bs|) && j <= |bs|
  {
    && (forall x: nat {:trigger OnWay(bs, hash(k), x)} :: x < j ==>
          !Vacant(OnWay(bs, hash(k), x)) && !(Occupied(OnWay(bs, hash(k), x)) && OnWay(bs, hash(k), x).key == k))
    && match tomb
       case NoSlot => forall x: nat {:trigger OnWay(bs, hash(k), x)} :: x < j ==> Occupied(OnWay(bs, hash(k), x))
       case At(i) => i < |bs| && !Occupied(bs[i]) && AllTaken(bs, hash(k), i)
  }

  /** A vacant bucket ends the probe: the key would have been stored no later. */
  lemma EmptyMeansAbsent<V>(hash: Hash, bs: seq<Bucket<V>>, k: string, j: nat, tomb: Slot)
    requires TableOk(hash, bs) && j < |bs| && Passed(hash, bs, k, j, tomb) && Vacant(OnWay(bs, hash(k), j))
    ensures !Stores(bs, k)
  {
    var n, home := |bs|, Home(hash(k), |bs|);
    forall x: nat | x < n ensures !HasEntry(bs, k, x) {
      assert BucketOk(hash, bs, x);
      assert OnWay(bs, hash(k), Distance(home, x, n)) == bs[x];
    }
  }

  /** A probe all around met every bucket. */
  lemma FullMeansAbsent<V>(hash: Hash, bs: seq<Bucket<V>>, k: string, tomb: Slot)
    requires TableOk(hash, bs) && Passed(hash, bs, k, |bs|, tomb)
    ensures !Stores(bs, k) && (tomb.NoSlot? ==> forall x :: 0 <= x < |bs| ==> Occupied(bs[x]))
  {
    var n, home := |bs|, Home(hash(k), |bs|);
    forall x: nat | x < n ensures !HasEntry(bs, k, x) && (tomb.NoSlot? ==> Occupied(bs[x])) {
      assert OnWay(bs, hash(k), Distance(home, x, n)) == bs[x];
    }
  }

  lemma {:induction false} LookFinds<V>(hash: Hash, bs: seq<Bucket<V>>, k: string, j: nat, tomb: Slot)
    requires TableOk(hash, bs) && j <= |bs| && Passed(hash, bs, k, j, tomb)
    ensures Finds(hash, bs, k, Look(hash, bs, k, j, tomb))
    decreases |bs| - j
  {
    if j == |bs| {
      FullMeansAbsent(hash, bs, k, tomb);
    } else {
      var i := Probe(Home(hash(k), |bs|), j, |bs|);
      var b := OnWay(bs, hash(k), j);
      assert b == bs[i] && Distance(Home(hash(k), |bs|), i, |bs|) == j;
      if Vacant(b) {
        EmptyMeansAbsent(hash, bs, k, j, tomb);
      } else if !Occupied(b) {
        LookFinds(hash, bs, k, j + 1, if tomb.At? then tomb else At(i));
      } else if b.key == k {
        assert BucketOk(hash, bs, i);
      } else {
        LookFinds(hash, bs, k, j + 1, tomb);
      }
    }
  }

  lemma SlotFinds<V>(hash: Hash, bs: seq<Bucket<V>>, k: string)
    requires TableOk(hash, bs)
    ensures Finds(hash, bs, k, SlotOf(hash, bs, k))
  {
    LookFinds(hash, bs, k, 0, NoSlot);
  }

  /** A key that has an entry has only one. */
  lemma OneEntry<V>(hash: Hash, bs: seq<Bucket<V>>, k: string, i: nat, x: nat)
    requires TableOk(hash, bs) && i < |bs| && x < |bs|
    ensures HasEntry(bs, k, i) && HasEntry(bs, k, x) ==> i == x
  {
    if x < i { assert Unlike(bs, x, i); } else if i < x { assert Unlike(bs, i, x); }
  }

  /** There is one place for a probe to end. */
  lemma FindsUnique<V>(hash: Hash, bs: seq<Bucket<V>>, k: string, s: Slot)
    requires TableOk(hash, bs) && Finds(hash, bs, k, s)
    ensures s == SlotOf(hash, bs, k)
  {
    SlotFinds(hash, bs, k);
    var r := SlotOf(hash, bs, k);
    if s.At? && r.At? {
      if HasEntry(bs, k, s.i) {
        OneEntry(hash, bs, k, s.i, r.i);
      } else {
        var home, n := Home(hash(k), |bs|), |bs|;
        assert OnWay(bs, hash(k), Distance(home, s.i, n)) == bs[s.i];
        assert OnWay(bs, hash(k), Distance(home, r.i, n)) == bs[r.i];
        assert Distance(home, s.i, n) == Distance(home, r.i, n);
      }
    }
  }

  // ----- the way of an absent key -----

  /** The first free bucket on the way of a probe for a key with hash h, from its j-th on. */
  function NextFree<V>(bs: seq<Bucket<V>>, h: nat, j: nat): (r: Slot)
    requires IsCapacity(|bs|) && j <= |bs|
    ensures r.At? ==> r.i < |bs| && !Occupied(bs[r.i]) && j <= Distance(Home(h, |bs|), r.i, |bs|)
    decreases |bs| - j
  {
    if j == |bs| then NoSlot
    else if Occupied(OnWay(bs, h, j)) then NextFree(bs, h, j + 1)
    else
      assert Distance(Home(h, |bs|), Probe(Home(h, |bs|), j, |bs|), |bs|) == j;
      At(Probe(Home(h, |bs|), j, |bs|))
  }

  /** What stands there. */
  function ValueIn<V>(bs: seq<Bucket<V>>, undefined: V, s: Slot): V
    requires s.At? ==> s.i < |bs|
  {
    match s
    case NoSlot => undefined
    case At(i) => bs[i].value
  }

  /** The probes from the j-th to the x-th met entries only. */
  ghost predicate TakenFrom<V>(bs: seq<Bucket<V>>, h: nat, j: nat, x: nat)
    requires IsCapacity(|bs|) && x <= |bs|
  {
    forall y: nat {:trigger OnWay(bs, h, y)} :: j <= y < x ==> Occupied(OnWay(bs, h, y))
  }

  lemma {:induction false} FreeIsFirst<V>(bs: seq<Bucket<V>>, h: nat, j: nat)
    requires IsCapacity(|bs|) && j <= |bs|
    ensures match NextFree(bs, h, j)
      case NoSlot => TakenFrom(bs, h, j, |bs|)
      case At(i) => TakenFrom(bs, h, j, Distance(Home(h, |bs|), i, |bs|))
    decreases |bs| - j
  {
    if j < |bs| && Occupied(OnWay(bs, h, j)) { FreeIsFirst(bs, h, j + 1); }
  }

  lemma {:induction false} FreeAfter<V>(bs: seq<Bucket<V>>, h: nat, j: nat, x: nat)
    requires IsCapacity(|bs|) && j <= x <= |bs| && TakenFrom(bs, h, j, x)
    ensures NextFree(bs, h, j) == NextFree(bs, h, x)
    decreases x - j
  {
    if j < x {
      assert Occupied(OnWay(bs, h, j));
      FreeAfter(bs, h, j + 1, x);
    }
  }

  /** Behind bucket i its contents do not matter. */
  lemma {:induction false} FreeBehind<V>(bs: seq<Bucket<V>>, t: seq<Bucket<V>>, h: nat, i: nat, j: nat)
    requires IsCapacity(|bs|) && |t| == |bs| && i < |bs| && Distance(Home(h, |bs|), i, |bs|) < j <= |bs|
    requires forall y :: 0 <= y < |bs| && y != i ==> t[y] == bs[y]
    ensures NextFree(t, h, j) == NextFree(bs, h, j)
    decreases |bs| - j
  {
    if j < |bs| {
      assert Distance(Home(h, |bs|), Probe(Home(h, |bs|), j, |bs|), |bs|) == j;
      FreeBehind(bs, t, h, i, j + 1);
    }
  }

  /** The probe for an absent key ends there. */
  lemma AbsentSlot<V>(hash: Hash, bs: seq<Bucket<V>>, q: string)
    requires TableOk(hash, bs) && !Stores(bs, q)
    ensures SlotOf(hash, bs, q) == NextFree(bs, hash(q), 0)
  {
    var s, home := NextFree(bs, hash(q), 0), Home(hash(q), |bs|);
    FreeIsFirst(bs, hash(q), 0);
    if s.NoSlot? {
      forall x | 0 <= x < |bs| ensures Occupied(bs[x]) {
        assert OnWay(bs, hash(q), Distance(home, x, |bs|)) == bs[x];
      }
    }
    FindsUnique(hash, bs, q, s);
  }

  // ----- storing -----

  /** Only a vacant bucket gets the key and its hash; a tombstone keeps its own. */
  function Stored<V>(bs: seq<Bucket<V>>, i: nat, h: nat, k: string, v: V): (t: seq<Bucket<V>>)
    requires i < |bs|
    ensures |t| == |bs| && forall x :: 0 <= x < |bs| && x != i ==> t[x] == bs[x]
  {
    bs[i := if Vacant(bs[i]) then Bucket(h, k, v) else bs[i].(value := v)]
  }

  /** The key becomes an entry: it has no reserved hash, and no tombstone is in its way. */
  predicate Enters<V>(hash: Hash, bs: seq<Bucket<V>>, k: string)
    requires |bs| > 0 ==> IsCapacity(|bs|)
  {
    Proper(hash, k) && match SlotOf(hash, bs, k) case NoSlot => true case At(i) => Vacant(bs[i])
  }

  lemma StoreKeepsTable<V>(hash: Hash, bs: seq<Bucket<V>>, k: string, v: V, i: nat)
    requires TableOk(hash, bs) && Finds(hash, bs, k, At(i))
    ensures TableOk(hash, Stored(bs, i, hash(k), k, v))
  {
    var t := Stored(bs, i, hash(k), k, v);
    assert Distance(Home(hash(k), |bs|), i, |bs|) < |bs|;
    forall x | 0 <= x < |t| ensures BucketOk(hash, t, x) {
      assert BucketOk(hash, bs, x);
      if Occupied(t[x]) { WayKept(bs, t, t[x].hash, x, i); }
    }
    forall x, y | 0 <= x < y < |t| ensures Unlike(t, x, y) {
      assert Unlike(bs, x, y);
      if x == i || y == i { StoredAlone(hash, bs, k, i, if x == i then y else x); }
    }
  }

  /** Storing makes no bucket vacant. */
  lemma WayKept<V>(bs: seq<Bucket<V>>, t: seq<Bucket<V>>, h: nat, x: nat, i: nat)
    requires IsCapacity(|bs|) && |t| == |bs| && x < |bs| && i < |bs|
    requires forall y :: 0 <= y < |bs| && y != i ==> t[y] == bs[y]
    requires Vacant(t[i]) ==> Vacant(bs[i])
    ensures Reaches(bs, h, x) ==> Reaches(t, h, x)
    ensures x == i && AllTaken(bs, h, x) ==> Reaches(t, h, x)
  {
    forall j: nat | j < Distance(Home(h, |bs|), x, |bs|)
      ensures Vacant(OnWay(t, h, j)) ==> Vacant(OnWay(bs, h, j))
    {
    }
    if AllTaken(bs, h, x) {
      forall j: nat | j < Distance(Home(h, |bs|), x, |bs|) ensures x == i ==> !Vacant(OnWay(t, h, j)) {
        assert Occupied(OnWay(bs, h, j));
      }
    }
  }

  /** No other bucket holds the key that ends its probe at i. */
  lemma StoredAlone<V>(hash: Hash, bs: seq<Bucket<V>>, k: string, i: nat, x: nat)
    requires TableOk(hash, bs) && Finds(hash, bs, k, At(i)) && x < |bs| && x != i
    ensures !(Occupied(bs[x]) && bs[x].key == k)
  {
    OneEntry(hash, bs, k, i, x);
    assert Occupied(bs[x]) && bs[x].key == k ==> HasEntry(bs, k, x);
  }

  /** The map after the store: unchanged if the key does not become an entry. */
  function Updated<V>(hash: Hash, bs: seq<Bucket<V>>, m: map<string, V>, k: string, v: V): map<string, V>
    requires |bs| > 0 ==> IsCapacity(|bs|)
  {
    if k in m || Enters(hash, bs, k) then m[k := v] else m
  }

  lemma StoreUpdatesMap<V>(hash: Hash, bs: seq<Bucket<V>>, m: map<string, V>, k: string, v: V, i: nat)
    requires TableOk(hash, bs) && Represents(bs, m) && SlotOf(hash, bs, k) == At(i)
    ensures Represents(Stored(bs, i, hash(k), k, v), Updated(hash, bs, m, k, v))
    ensures k in m <==> Occupied(bs[i])
  {
    SlotFinds(hash, bs, k);
    var t, after := Stored(bs, i, hash(k), k, v), Updated(hash, bs, m, k, v);
    assert Mapped(bs, m, i);
    assert k in m <==> Stores(bs, k);
    assert k in after && (k in m || Enters(hash, bs, k)) ==> HasEntry(t, k, i);
    forall x | 0 <= x < |t| ensures Mapped(t, after, x) {
      assert Mapped(bs, m, x);
      if x != i { StoredAlone(hash, bs, k, i, x); }
    }
    forall q | q in after ensures Stores(t, q) {
      if q != k {
        assert Stores(bs, q);
        var x: nat :| HasEntry(bs, q, x);
        assert HasEntry(t, q, x);
      }
    }
  }

  // ----- what get answers after a set -----

  /** The same probe in a table that differs in a bucket that is not where it ends. */
  lemma OtherSlot<V>(hash: Hash, bs: seq<Bucket<V>>, t: seq<Bucket<V>>, q: string, i: nat)
    requires TableOk(hash, bs) && TableOk(hash, t) && |t| == |bs| && i < |bs|
    requires forall y :: 0 <= y < |bs| && y != i ==> t[y] == bs[y]
    requires !HasEntry(bs, q, i) && !HasEntry(t, q, i) && (Occupied(bs[i]) ==> Occupied(t[i]))
    requires SlotOf(hash, bs, q) != At(i)
    ensures SlotOf(hash, t, q) == SlotOf(hash, bs, q)
  {
    SlotFinds(hash, bs, q);
    var s := SlotOf(hash, bs, q);
    assert Stores(t, q) ==> Stores(bs, q) by {
      if x: nat :| HasEntry(t, q, x) { assert HasEntry(bs, q, x); }
    }
    if s.At? {
      forall j: nat | j < Distance(Home(hash(q), |bs|), s.i, |bs|)
        ensures Occupied(OnWay(bs, hash(q), j)) ==> Occupied(OnWay(t, hash(q), j))
      {
      }
    }
    FindsUnique(hash, t, q, s);
  }

  /** After set(k, v) get(k) answers v, in every table and for every key. */
  lemma GetAfterSet<V>(hash: Hash, bs: seq<Bucket<V>>, undefined: V, k: string, v: V, i: nat)
    requires TableOk(hash, bs) && SlotOf(hash, bs, k) == At(i)
    ensures var t := Stored(bs, i, hash(k), k, v);
      TableOk(hash, t) && SlotOf(hash, t, k) == At(i) && Answer(hash, t, undefined, k) == v
  {
    var t := Stored(bs, i, hash(k), k, v);
    SlotFinds(hash, bs, k);
    StoreKeepsTable(hash, bs, k, v, i);
    if !Occupied(t[i]) {
      forall x: nat ensures !HasEntry(t, k, x) { assert !HasEntry(bs, k, x); }
      var home := Home(hash(k), |bs|);
      forall j: nat | j < Distance(home, i, |bs|) ensures Occupied(OnWay(t, hash(k), j)) {
        assert Occupied(OnWay(bs, hash(k), j));
      }
    }
    FindsUnique(hash, t, k, At(i));
  }

  /** Once bucket i is an entry, the probe for an absent key that ended there goes on to the next free bucket. */
  lemma MovesOn<V>(hash: Hash, bs: seq<Bucket<V>>, t: seq<Bucket<V>>, q: string, i: nat)
    requires TableOk(hash, bs) && TableOk(hash, t) && |t| == |bs| && i < |bs|
    requires forall y :: 0 <= y < |bs| && y != i ==> t[y] == bs[y]
    requires SlotOf(hash, bs, q) == At(i) && Occupied(t[i]) && !Stores(bs, q) && !Stores(t, q)
    ensures SlotOf(hash, t, q) == NextFree(bs, hash(q), Distance(Home(hash(q), |bs|), i, |bs|) + 1)
  {
    var h := hash(q);
    var d := Distance(Home(h, |bs|), i, |bs|);
    AbsentSlot(hash, bs, q);
    AbsentSlot(hash, t, q);
    FreeIsFirst(bs, h, 0);
    forall y: nat | 0 <= y < d + 1 ensures Occupied(OnWay(t, h, y)) {
      if y < d { assert Occupied(OnWay(bs, h, y)); }
    }
    FreeAfter(t, h, 0, d + 1);
    FreeBehind(bs, t, h, i, d + 1);
  }

  /** For every other key: its probe ends where it did, except for the absent keys whose probe ended in the same bucket.
      They see v, or move on to the next free bucket if that one became an entry. */
  lemma OthersAfterSet<V>(hash: Hash, bs: seq<Bucket<V>>, undefined: V, k: string, v: V, i: nat, q: string)
    requires TableOk(hash, bs) && SlotOf(hash, bs, k) == At(i) && q != k
    ensures var t := Stored(bs, i, hash(k), k, v);
      TableOk(hash, t)
      && (SlotOf(hash, bs, q) != At(i) ==> Answer(hash, t, undefined, q) == Answer(hash, bs, undefined, q))
      && (SlotOf(hash, bs, q) == At(i) && !Occupied(t[i]) ==> Answer(hash, t, undefined, q) == v)
      && (SlotOf(hash, bs, q) == At(i) && Occupied(t[i]) ==>
            SlotOf(hash, t, q) == NextFree(bs, hash(q), Distance(Home(hash(q), |bs|), i, |bs|) + 1))
  {
    var t := Stored(bs, i, hash(k), k, v);
    SlotFinds(hash, bs, k);
    SlotFinds(hash, bs, q);
    StoreKeepsTable(hash, bs, k, v, i);
    if SlotOf(hash, bs, q) != At(i) {
      if HasEntry(bs, q, i) { FindsUnique(hash, bs, q, At(i)); }
      OtherSlot(hash, bs, t, q, i);
    } else {
      forall x: nat ensures !HasEntry(t, q, x) { assert !HasEntry(bs, q, x); }
      if !Occupied(t[i]) {
        forall j: nat | j < Distance(Home(hash(q), |bs|), i, |bs|) ensures Occupied(OnWay(t, hash(q), j)) {
          assert Occupied(OnWay(bs, hash(q), j));
        }
        FindsUnique(hash, t, q, At(i));
      } else {
        MovesOn(hash, bs, t, q, i);
      }
    }
  }

  // ----- when the table is a map -----

  /** get answers for every key what the map does. */
  ghost predicate Refines<V>(hash: Hash, bs: seq<Bucket<V>>, undefined: V, m: map<string, V>)
    requires |bs| > 0 ==> IsCapacity(|bs|)
  {
    forall q {:trigger Answer(hash, bs, undefined, q)} ::
        Answer(hash, bs, undefined, q) == if q in m then m[q] else undefined
  }

  ghost predicate FreeUndefined<V>(bs: seq<Bucket<V>>, undefined: V) {
    forall x {:trigger Occupied(bs[x])} :: 0 <= x < |bs| && !Occupied(bs[x]) ==> bs[x].value == undefined
  }

  lemma AnswerIs<V>(hash: Hash, bs: seq<Bucket<V>>, undefined: V, m: map<string, V>, q: string)
    requires TableOk(hash, bs) && Represents(bs, m)
    ensures q in m ==> Answer(hash, bs, undefined, q) == m[q]
    ensures q !in m && FreeUndefined(bs, undefined) ==> Answer(hash, bs, undefined, q) == undefined
  {
    SlotFinds(hash, bs, q);
    if q in m { assert Stores(bs, q); }
    match SlotOf(hash, bs, q)
    case NoSlot =>
    case At(i) => assert Mapped(bs, m, i);
  }

  lemma CleanRefines<V>(hash: Hash, bs: seq<Bucket<V>>, undefined: V, m: map<string, V>)
    requires TableOk(hash, bs) && Represents(bs, m) && FreeUndefined(bs, undefined)
    ensures Refines(hash, bs, undefined, m)
  {
    forall q
      ensures Answer(hash, bs, undefined, q) == if q in m then m[q] else undefined
    {
      AnswerIs(hash, bs, undefined, m, q);
    }
  }

  // ----- keys with reserved hashes -----

  /** Such a key is no entry, but get sees its value, as long as its bucket is left alone; the next set of it ends in
      the same bucket, which is still vacant, and counted again, if the hash is the one for vacant buckets. */
  lemma ReservedKey<V>(hash: Hash, bs: seq<Bucket<V>>, undefined: V, m: map<string, V>, k: string, v: V, i: nat)
    requires TableOk(hash, bs) && Represents(bs, m) && !Proper(hash, k) && SlotOf(hash, bs, k) == At(i)
    ensures var t := Stored(bs, i, hash(k), k, v);
      TableOk(hash, t) && k !in m && Represents(t, m)
      && Answer(hash, t, undefined, k) == v && SlotOf(hash, t, k) == At(i)
      && (Vacant(t[i]) <==> Vacant(bs[i]) && hash(k) == EMPTY_HASH)
  {
    SlotFinds(hash, bs, k);
    assert BucketOk(hash, bs, i) && (k in m ==> Stores(bs, k));
    StoreUpdatesMap(hash, bs, m, k, v, i);
    GetAfterSet(hash, bs, undefined, k, v, i);
  }

  /** Another key that enters the table in the bucket where k left its value: get answers what stands in the next free
      bucket instead. */
  lemma ReservedOverwritten<V>(hash: Hash, bs: seq<Bucket<V>>, undefined: V, k: string, i: nat, q: string, w: V)
    requires TableOk(hash, bs) && SlotOf(hash, bs, k) == At(i) && SlotOf(hash, bs, q) == At(i) && q != k
        && Enters(hash, bs, q)
    ensures TableOk(hash, Stored(bs, i, hash(q), q, w))
        && Answer(hash, Stored(bs, i, hash(q), q, w), undefined, k)
            == ValueIn(bs, undefined, NextFree(bs, hash(k), Distance(Home(hash(k), |bs|), i, |bs|) + 1))
  {
    OthersAfterSet(hash, bs, undefined, q, w, i, k);
  }

  // ----- removing -----

  /** The bucket becomes a tombstone; its value stays. */
  function Removed<V>(bs: seq<Bucket<V>>, i: nat): (t: seq<Bucket<V>>)
    requires i < |bs|
    ensures |t| == |bs| && forall x :: 0 <= x < |bs| && x != i ==> t[x] == bs[x]
  {
    bs[i := Bucket(TOMBSTONE_HASH, "", bs[i].value)]
  }

  lemma RemoveKeepsTable<V>(hash: Hash, bs: seq<Bucket<V>>, m: map<string, V>, k: string, i: nat)
    requires TableOk(hash, bs) && Represents(bs, m) && SlotOf(hash, bs, k) == At(i)
    ensures TableOk(hash, Removed(bs, i)) && Represents(Removed(bs, i), m - {k})
  {
    var t := Removed(bs, i);
    SlotFinds(hash, bs, k);
    forall x | 0 <= x < |t| ensures BucketOk(hash, t, x) && Mapped(t, m - {k}, x) {
      assert BucketOk(hash, bs, x) && Mapped(bs, m, x);
      if x != i { StoredAlone(hash, bs, k, i, x); }
      if Occupied(t[x]) { WayKept(bs, t, t[x].hash, x, i); }
    }
    forall x, y | 0 <= x < y < |t| ensures Unlike(t, x, y) { assert Unlike(bs, x, y); }
    forall q | q in m - {k} ensures Stores(t, q) {
      assert Stores(bs, q);
      var x: nat :| HasEntry(bs, q, x);
      assert HasEntry(t, q, x);
    }
  }

  /** The first free bucket on the way of a probe for a key with hash h, once bucket i is free. */
  function FreeOrAt<V>(bs: seq<Bucket<V>>, h: nat, i: nat): (r: Slot)
    requires IsCapacity(|bs|) && i < |bs|
    ensures r.At? && r.i < |bs|
  {
    var s := NextFree(bs, h, 0);
    if s.At? && Distance(Home(h, |bs|), s.i, |bs|) < Distance(Home(h, |bs|), i, |bs|) then s else At(i)
  }

  lemma FreedSlot<V>(bs: seq<Bucket<V>>, h: nat, i: nat)
    requires IsCapacity(|bs|) && i < |bs|
    ensures NextFree(Removed(bs, i), h, 0) == FreeOrAt(bs, h, i)
  {
    var t, s := Removed(bs, i), FreeOrAt(bs, h, i);
    var d := Distance(Home(h, |bs|), s.i, |bs|);
    FreeIsFirst(bs, h, 0);
    forall y: nat | 0 <= y < d ensures Occupied(OnWay(t, h, y)) { assert Occupied(OnWay(bs, h, y)); }
    FreeAfter(t, h, 0, d);
    assert OnWay(t, h, d) == t[s.i];
  }

  /** After remove(k), a key without an entry, k included, sees what stands in the first free bucket on its way: the
      removed value, unless there is a free bucket before it. */
  lemma GetAfterRemove<V>(hash: Hash, bs: seq<Bucket<V>>, undefined: V, m: map<string, V>, k: string, i: nat,
      q: string)
    requires TableOk(hash, bs) && Represents(bs, m) && SlotOf(hash, bs, k) == At(i) && q !in m - {k}
    ensures TableOk(hash, Removed(bs, i)) && SlotOf(hash, Removed(bs, i), q) == FreeOrAt(bs, hash(q), i)
    ensures Answer(hash, Removed(bs, i), undefined, q) == bs[FreeOrAt(bs, hash(q), i).i].value
  {
    RemoveKeepsTable(hash, bs, m, k, i);
    forall x: nat | x < |bs| ensures !HasEntry(Removed(bs, i), q, x) { assert Mapped(Removed(bs, i), m - {k}, x); }
    AbsentSlot(hash, Removed(bs, i), q);
    FreedSlot(bs, hash(q), i);
  }

  /** has answers true for what is there, and for everything else as long as a bucket is free. */
  lemma HasIff<V>(hash: Hash, bs: seq<Bucket<V>>, m: map<string, V>, k: string)
    requires TableOk(hash, bs) && Represents(bs, m)
    ensures SlotOf(hash, bs, k).At? <==> k in m || exists x :: 0 <= x < |bs| && !Occupied(bs[x])
  {
    SlotFinds(hash, bs, k);
    if k in m { assert Stores(bs, k); }
    match SlotOf(hash, bs, k)
    case NoSlot =>
    case At(i) => assert Mapped(bs, m, i);
  }

  // ----- counting -----

  lemma {:induction false} DistinctKeysBound<V>(bs: seq<Bucket<V>>, keys: set<string>)
    requires forall i :: 0 <= i < |bs| ==> bs[i].key in keys
    requires forall i, j :: 0 <= i < j < |bs| ==> bs[i].key != bs[j].key
    ensures |bs| <= |keys|
  {
    if |bs| > 0 {
      var last := |bs| - 1;
      DistinctKeysBound(bs[..last], keys - {bs[last].key});
    }
  }

  /** A table with more buckets than keys has a free bucket. */
  lemma RoomLeft<V>(hash: Hash, bs: seq<Bucket<V>>, m: map<string, V>)
    requires TableOk(hash, bs) && Represents(bs, m) && |m| < |bs|
    ensures exists x :: 0 <= x < |bs| && !Occupied(bs[x])
  {
    assert |m.Keys| == |m|;
    if forall x :: 0 <= x < |bs| ==> Occupied(bs[x]) {
      forall x | 0 <= x < |bs| ensures bs[x].key in m.Keys { assert Mapped(bs, m, x); }
      forall i, j | 0 <= i < j < |bs| ensures bs[i].key != bs[j].key { assert Unlike(bs, i, j); }
      DistinctKeysBound(bs, m.Keys);
    }
  }

  lemma BlankTable<V>(hash: Hash, n: nat, undefined: V)
    requires IsCapacity(n)
    ensures var bs := seq(n, _ => Bucket(EMPTY_HASH, "", undefined));
      TableOk(hash, bs) && Represents(bs, map[]) && FreeUndefined(bs, undefined)
  {
    var bs := seq(n, _ => Bucket(EMPTY_HASH, "", undefined));
    forall i | 0 <= i < n ensures BucketOk(hash, bs, i) && Mapped(bs, map[], i) {}
  }

  /** The table's invariant, whatever has been set and removed. */
  ghost predicate TableValid<V>(hash: Hash, bs: seq<Bucket<V>>, m: map<string, V>) {
    if |bs| == 0 then m == map[] else TableOk(hash, bs) && Represents(bs, m) && |bs| >= 16
  }

  /** The table has seen neither a removal nor a key with a reserved hash: free buckets are vacant and hold the
      undefined value, and the count is the number of keys. */
  ghost predicate TableClean<V>(undefined: V, bs: seq<Bucket<V>>, count: nat, m: map<string, V>) {
    && count == |m| % TWO_64 && FreeUndefined(bs, undefined)
    && forall x {:trigger Vacant(bs[x])} :: 0 <= x < |bs| ==> Occupied(bs[x]) || Vacant(bs[x])
  }

  lemma StoreKeepsClean<V>(hash: Hash, undefined: V, bs: seq<Bucket<V>>, count: nat, m: map<string, V>, k: string,
      v: V, i: nat)
    requires TableOk(hash, bs) && Represents(bs, m) && TableClean(undefined, bs, count, m)
    requires SlotOf(hash, bs, k) == At(i) && Proper(hash, k)
    ensures Updated(hash, bs, m, k, v) == m[k := v]
    ensures TableClean(undefined, Stored(bs, i, hash(k), k, v), if Vacant(bs[i]) then (count + 1) % TWO_64 else count,
        m[k := v])
  {
    StoreUpdatesMap(hash, bs, m, k, v, i);
    assert Occupied(bs[i]) || Vacant(bs[i]);
    var t := Stored(bs, i, hash(k), k, v);
    assert Occupied(t[i]);
    forall x | 0 <= x < |t| ensures Occupied(t[x]) || Vacant(t[x]) {
      if x != i { assert Occupied(bs[x]) || Vacant(bs[x]); }
    }
    forall x | 0 <= x < |t| && !Occupied(t[x]) ensures t[x].value == undefined { assert !Occupied(bs[x]); }
    assert |m[k := v]| == if k in m then |m| else |m| + 1;
  }

  /** Buckets and count after a set: the store in the bucket where the probe ended, counted if that was vacant; or a
      table of twice the size, with one key more. */
  ghost predicate StoredFrom<V>(hash: Hash, bs: seq<Bucket<V>>, count: nat, m: map<string, V>, k: string, v: V,
      t: seq<Bucket<V>>, after: nat)
    requires |bs| > 0 ==> IsCapacity(|bs|)
  {
    match SlotOf(hash, bs, k)
    case At(i) =>
      && t == bs[i := if bs[i].hash == 0 then Bucket(hash(k), k, v) else bs[i].(value := v)]
      && after == if bs[i].hash == 0 then (count + 1) % 18446744073709551616 else count
    case NoSlot => |t| == (if |bs| == 0 then 16 else 2 * |bs|) && k !in m && after == (|m| + 1) % TWO_64
  }

  lemma StoredAfter<V>(hash: Hash, bs: seq<Bucket<V>>, count: nat, m: map<string, V>, k: string, v: V, i: nat,
                       found: seq<Bucket<V>>, counted: nat, t: seq<Bucket<V>>, after: nat)
    requires (|bs| > 0 ==> IsCapacity(|bs|)) && i < |found|
    requires t == Stored(found, i, hash(k), k, v) && after == if Vacant(found[i]) then (counted + 1) % TWO_64
        else counted
    requires SlotOf(hash, bs, k).At? ==> found == bs && counted == count && SlotOf(hash, bs, k) == At(i)
    requires SlotOf(hash, bs, k).NoSlot? ==>
      |found| == (if |bs| == 0 then 16 else 2 * |bs|) && k !in m && Vacant(found[i]) && counted == |m| % TWO_64
    ensures StoredFrom(hash, bs, count, m, k, v, t, after)
  {
  }
}

/** Where a probe ends, bucket by bucket: remainders, zeros and ones in place of masks and names. */
module ProbeSequence {
  import opened Int64
  import opened Powers
  import opened Probing

  /** The (h + j)-th bucket, counted around the table. */
  function Way<V>(bs: seq<Bucket<V>>, h: nat, j: nat): Bucket<V>
    requires |bs| > 0
  {
    bs[(h + j) % |bs|]
  }

  /** The bucket holds the key's entry. Hash 0 marks a vacant bucket and hash 1 a tombstone, whatever their keys. */
  predicate Matches<V>(b: Bucket<V>, h: nat, k: string) { b.hash != 0 && b.hash != 1 && b.hash == h && b.key == k }

  /** The first j buckets do not end the probe. */
  ghost predicate Passes<V>(bs: seq<Bucket<V>>, h: nat, k: string, j: nat)
    requires |bs| > 0
  {
    forall x: nat {:trigger Way(bs, h, x)} :: x < j ==> Way(bs, h, x).hash != 0 && !Matches(Way(bs, h, x), h, k)
  }

  /** Of the first j buckets the one at `tomb` is the first tombstone. */
  ghost predicate FirstTombstone<V>(bs: seq<Bucket<V>>, h: nat, j: nat, tomb: Slot)
    requires |bs| > 0
  {
    match tomb
    case NoSlot => forall x: nat {:trigger Way(bs, h, x)} :: x < j ==> Way(bs, h, x).hash != 1
    case At(i) => exists y: nat {:trigger Way(bs, h, y)} ::
      && y < j && i == (h + y) % |bs| && Way(bs, h, y).hash == 1
      && forall x: nat {:trigger Way(bs, h, x)} :: x < y ==> Way(bs, h, x).hash != 1
  }

  /** The probe stops after passing j buckets, at the key's entry, at a vacant bucket or all around. In the last two
      cases it goes back to the first tombstone it met. */
  ghost predicate Stops<V>(bs: seq<Bucket<V>>, h: nat, k: string, slot: Slot, j: nat)
    requires |bs| > 0
  {
    && j <= |bs| && Passes(bs, h, k, j)
    && if j < |bs| && Matches(Way(bs, h, j), h, k) then slot == At((h + j) % |bs|)
       else if j < |bs| then
         && Way(bs, h, j).hash == 0
         && (FirstTombstone(bs, h, j, NoSlot) ==> slot == At((h + j) % |bs|))
         && (!FirstTombstone(bs, h, j, NoSlot) ==> FirstTombstone(bs, h, j, slot))
       else FirstTombstone(bs, h, j, slot)
  }

  ghost predicate EndsIn<V>(bs: seq<Bucket<V>>, h: nat, k: string, slot: Slot) {
    |bs| > 0 && exists j: nat :: Stops(bs, h, k, slot, j)
  }

  // ----- the probe of the table -----

  lemma NextTurn(n: nat, q: nat)
    ensures n * (q + 1) == n * q + n
  {
  }

  lemma Around(h: nat, j: nat, n: nat, r: nat)
    requires n > 0 && j < n && r == h % n
    ensures (h + j) % n == if r + j < n then r + j else r + j - n
  {
    var q := h / n;
    assert h == n * q + r;
    if r + j < n {
      RemainderUnique(h + j, n, q, r + j);
    } else {
      NextTurn(n, q);
      RemainderUnique(h + j, n, q + 1, r + j - n);
    }
  }

  lemma WayIs(h: nat, j: nat, n: nat)
    requires IsCapacity(n) && j < n
    ensures Probe(Home(h, n), j, n) == (h + j) % n
  {
    MaskIsRemainder(h, Log2(n));
    Around(h, j, n, h % n);
  }

  lemma PassOne<V>(bs: seq<Bucket<V>>, h: nat, k: string, j: nat)
    requires |bs| > 0 && Passes(bs, h, k, j) && Way(bs, h, j).hash != 0 && !Matches(Way(bs, h, j), h, k)
    ensures Passes(bs, h, k, j + 1)
  {
  }

  lemma TombstoneOne<V>(bs: seq<Bucket<V>>, h: nat, j: nat, tomb: Slot)
    requires |bs| > 0 && FirstTombstone(bs, h, j, tomb)
    ensures FirstTombstone(bs, h, j + 1,
        if tomb == NoSlot && Way(bs, h, j).hash == 1 then At((h + j) % |bs|) else tomb)
  {
  }

  lemma {:induction false} LookStops<V>(hash: Hash, bs: seq<Bucket<V>>, k: string, j: nat, tomb: Slot)
    requires IsCapacity(|bs|) && j <= |bs| && Passes(bs, hash(k), k, j) && FirstTombstone(bs, hash(k), j, tomb)
    requires tomb.At? ==> tomb.i < |bs|
    ensures EndsIn(bs, hash(k), k, Look(hash, bs, k, j, tomb))
    decreases |bs| - j
  {
    var h := hash(k);
    if j == |bs| {
      assert Stops(bs, h, k, tomb, j);
    } else {
      WayIs(h, j, |bs|);
      var b := Way(bs, h, j);
      if b.hash == 0 || Matches(b, h, k) {
        assert Stops(bs, h, k, Look(hash, bs, k, j, tomb), j);
      } else {
        PassOne(bs, h, k, j);
        TombstoneOne(bs, h, j, tomb);
        LookStops(hash, bs, k, j + 1, if tomb == NoSlot && b.hash == 1 then At((h + j) % |bs|) else tomb);
      }
    }
  }

  lemma SlotEnds<V>(hash: Hash, bs: seq<Bucket<V>>, k: string)
    requires IsCapacity(|bs|)
    ensures EndsIn(bs, hash(k), k, SlotOf(hash, bs, k))
  {
    LookStops(hash, bs, k, 0, NoSlot);
  }

  /** There is only one place where a probe can end. */
  lemma EndsOnce<V>(bs: seq<Bucket<V>>, h: nat, k: string, s: Slot, t: Slot)
    requires EndsIn(bs, h, k, s) && EndsIn(bs, h, k, t)
    ensures s == t
  {
    var i: nat :| Stops(bs, h, k, s, i);
    var j: nat :| Stops(bs, h, k, t, j);
    assert i == j;
    TombstonesOnce(bs, h, i, s, t);
  }

  lemma TombstonesOnce<V>(bs: seq<Bucket<V>>, h: nat, j: nat, s: Slot, t: Slot)
    requires |bs| > 0
    ensures FirstTombstone(bs, h, j, s) && FirstTombstone(bs, h, j, t) ==> s == t
  {
  }

  /** Where the probe for a key ends. */
  ghost predicate ProbeEnds<V>(hash: Hash, bs: seq<Bucket<V>>, k: string, slot: Slot) {
    EndsIn(bs, hash(k), k, slot)
  }

  /** So the slot of a key is this one and no other. */
  lemma SlotIff<V>(hash: Hash, bs: seq<Bucket<V>>, k: string, s: Slot)
    requires IsCapacity(|bs|)
    ensures s == SlotOf(hash, bs, k) <==> ProbeEnds(hash, bs, k, s)
  {
    SlotEnds(hash, bs, k);
    if EndsIn(bs, hash(k), k, s) { EndsOnce(bs, hash(k), k, s, SlotOf(hash, bs, k)); }
  }
}

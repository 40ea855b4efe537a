/** The symbol table: an open-addressing hash table that behaves as a map from names to values until a key is removed
    or one with a reserved hash is set; and what it does then. */
module SymbolTable {
  import opened Int64
  import opened Powers
  import opened Probing
  import opened ProbeSequence

  class SymbolTable<V> {
    const hash: Hash
    const undefined: V
    var buckets: seq<Bucket<V>>
    var count: nat
    ghost var contents: map<string, V>

    constructor (hash: Hash, undefined: V)
      ensures Valid() && Clean() && contents == map[] && this.hash == hash && this.undefined == undefined
    {
      this.hash, this.undefined := hash, undefined;
      buckets, count, contents := [], 0, map[];
    }

    ghost predicate Valid()
      reads this
    {
      TableValid(hash, buckets, contents)
    }

    /** Nothing was removed, and no key with a reserved hash was set. */
    ghost predicate Clean()
      reads this
    {
      TableClean(undefined, buckets, count, contents)
    }

    /** No bucket is free. */
    ghost predicate Full()
      reads this
    {
      forall x :: 0 <= x < |buckets| ==> Occupied(buckets[x])
    }

    /** Probes linearly from the key's home bucket: to its entry or a vacant bucket, and back to the first
        tombstone if it met one. */
    method FindSlot(key: string) returns (slot: Slot)
      requires Valid() && |buckets| > 0
      ensures slot == SlotOf(hash, buckets, key) && Finds(hash, buckets, key, slot)
      ensures ProbeEnds(hash, buckets, key, slot)
    {
      var n := |buckets|;
      var h := hash(key);
      var idx := Home(h, n);
      slot := NoSlot;
      var probes := 0;
      ghost var target := SlotOf(hash, buckets, key);
      SlotFinds(hash, buckets, key);
      SlotIff(hash, buckets, key, target);
      while probes < n
        invariant probes <= n && (probes < n ==> idx == Probe(Home(h, n), probes, n)) && (slot.At? ==> slot.i < n)
        invariant Look(hash, buckets, key, probes, slot) == target
      {
        var b := buckets[idx];
        if b.hash == EMPTY_HASH {
          return if slot.At? then slot else At(idx);
        }
        if b.hash == TOMBSTONE_HASH {
          if slot.NoSlot? { slot := At(idx); }
        } else if b.hash == h && b.key == key {
          return At(idx);
        }
        MaskedNext(idx, n);
        idx := BitAnd(idx + 1, n - 1);
        probes := probes + 1;
      }
    }

    /** The value last set for a key of the table. For any other key it is what stands where the probe ends: nothing but
        undefined, if the table is clean. */
    method Get(key: string) returns (v: V)
      requires Valid()
      ensures v == Answer(hash, buckets, undefined, key)
      ensures key in contents ==> v == contents[key]
      ensures key !in contents && Clean() ==> v == undefined
    {
      if |buckets| == 0 { return undefined; }
      var slot := FindSlot(key);
      AnswerIs(hash, buckets, undefined, contents, key);
      if slot.NoSlot? { return undefined; }
      return buckets[slot.i].value;
    }

    /** True for the table's keys, and for every other one as long as a bucket is free. */
    method Has(key: string) returns (found: bool)
      requires Valid()
      ensures found <==> key in contents || !Full()
    {
      if |buckets| == 0 { return false; }
      var slot := FindSlot(key);
      HasIff(hash, buckets, contents, key);
      return slot != NoSlot;
    }

    /** The number of keys set, in a clean table. */
    method Size() returns (n: nat)
      requires Valid()
      ensures n == count && (Clean() ==> n == |contents| % TWO_64)
    {
      return count;
    }

    /** Sets the value where the probe ends; a full table is doubled and rehashed first. Where that leaves a clean
        table, get answers as the map does from then on; SymbolMap says when it does elsewhere. */
    method Set(key: string, v: V)
      requires Valid()
      modifies this`buckets, this`count, this`contents
      ensures Valid() && contents == old(Updated(hash, buckets, contents, key, v))
      ensures Answer(hash, buckets, undefined, key) == v
      ensures Proper(hash, key) && (old(Clean()) || old(SlotOf(hash, buckets, key)).NoSlot?) ==>
        Clean() && contents == old(contents)[key := v] && Refines(hash, buckets, undefined, contents)
      ensures StoredFrom(hash, old(buckets), old(count), old(contents), key, v, buckets, count)
      decreases if Full() then 2 else 0, 1
    {
      ghost var after := Updated(hash, buckets, contents, key, v);
      var i := FindRoom(key);
      assert Updated(hash, buckets, contents, key, v) == after;
      ghost var found, counted := buckets, count;
      StoreAt(i, key, v);
      StoredAfter(hash, old(buckets), old(count), old(contents), key, v, i, found, counted, buckets, count);
      if Clean() { CleanRefines(hash, buckets, undefined, contents); }
    }

    /** The bucket where the probe ends, in a larger table if there is none in this one. */
    method FindRoom(key: string) returns (i: nat)
      requires Valid()
      modifies this`buckets, this`count, this`contents
      ensures Valid() && contents == old(contents) && |buckets| > 0 && SlotOf(hash, buckets, key) == At(i)
      ensures old(SlotOf(hash, buckets, key)).At? ==>
        buckets == old(buckets) && count == old(count) && old(SlotOf(hash, buckets, key)) == At(i)
      ensures old(SlotOf(hash, buckets, key)).NoSlot? ==>
        && |buckets| == (if |old(buckets)| == 0 then 16 else 2 * |old(buckets)|)
        && Clean() && key !in contents && Vacant(buckets[i]) && (Enters(hash, buckets, key) <==> Proper(hash, key))
      decreases if Full() then 2 else 0, 0
    {
      ghost var slotted := SlotOf(hash, buckets, key).At?;
      if |buckets| == 0 { Grow(); }
      var slot := FindSlot(key);
      if slot.NoSlot? {
        AbsentKept(hash, buckets, contents, key);
        Grow();
        slot := FindSlot(key);
      }
      if !slotted { FreshSlot(hash, undefined, buckets, count, contents, key, slot.i); }
      i := slot.i;
    }

    method StoreAt(idx: nat, key: string, v: V)
      requires Valid() && |buckets| > 0 && SlotOf(hash, buckets, key) == At(idx)
      modifies this`buckets, this`count, this`contents
      ensures Valid() && contents == old(Updated(hash, buckets, contents, key, v))
      ensures Answer(hash, buckets, undefined, key) == v
      ensures Proper(hash, key) && old(Clean()) ==> Clean() && contents == old(contents)[key := v]
      ensures buckets == Stored(old(buckets), idx, hash(key), key, v)
      ensures count == if old(buckets)[idx].hash == 0 then (old(count) + 1) % TWO_64 else old(count)
    {
      ghost var before := buckets;
      StoreUpdatesMap(hash, buckets, contents, key, v, idx);
      GetAfterSet(hash, buckets, undefined, key, v, idx);
      if Proper(hash, key) && Clean() { StoreKeepsClean(hash, undefined, buckets, count, contents, key, v, idx); }
      contents := Updated(hash, buckets, contents, key, v);
      if buckets[idx].hash == EMPTY_HASH {
        buckets := buckets[idx := Bucket(hash(key), key, buckets[idx].value)];
        count := (count + 1) % TWO_64;
      }
      buckets := buckets[idx := buckets[idx].(value := v)];
      assert buckets == Stored(before, idx, hash(key), key, v);
    }

    /** Makes a tombstone of the bucket where the probe ends, whatever it is, and counts down, from zero to the largest
        number. */
    method Remove(key: string)
      requires Valid()
      modifies this`buckets, this`count, this`contents
      ensures Valid() && contents == old(contents) - {key}
      ensures match old(SlotOf(hash, buckets, key))
        case NoSlot => buckets == old(buckets) && count == old(count)
        case At(i) =>
            buckets == old(buckets)[i := Bucket(1, "", old(buckets)[i].value)]
            && count == if old(count) == 0 then 18446744073709551615 else old(count) - 1
    {
      if |buckets| == 0 { return; }
      var slot := FindSlot(key);
      contents := contents - {key};
      if slot.NoSlot? {
        AbsentKept(hash, buckets, old(contents), key);
        return;
      }
      RemoveKeepsTable(hash, buckets, old(contents), key, slot.i);
      buckets := Removed(buckets, slot.i);
      count := if count == 0 then TWO_64 - 1 else count - 1;
    }

    /** Doubles the table and enters everything anew. */
    method Grow()
      requires Valid() && Full()
      modifies this`buckets, this`count, this`contents
      ensures Valid() && Clean() && contents == old(contents) && !Full()
      ensures |buckets| == (if |old(buckets)| == 0 then 16 else 2 * |old(buckets)|)
      decreases 1, 1
    {
      var capacity := if |buckets| == 0 then 16 else |buckets| * 2;
      var before := buckets;
      ghost var was := contents;
      CapacityDoubles(|before|);
      forall x | 0 <= x < |before| ensures Proper(hash, before[x].key) { assert BucketOk(hash, before, x); }
      buckets := seq(capacity, _ => Bucket(EMPTY_HASH, "", undefined));
      count, contents := 0, map[];
      BlankTable(hash, capacity, undefined);
      Rehash(before, was);
    }

    /** Enters the buckets of the smaller table; room is never short, so that no entry makes the table grow. */
    method Rehash(before: seq<Bucket<V>>, ghost was: map<string, V>)
      requires Valid() && Clean() && contents == map[] && |before| < |buckets|
      requires if |before| == 0 then was == map[] else Represents(before, was)
      requires forall x :: 0 <= x < |before| ==> Occupied(before[x]) && Proper(hash, before[x].key)
      modifies this`buckets, this`count, this`contents
      ensures Valid() && Clean() && contents == was && |buckets| == |old(buckets)| && !Full()
      decreases 1, 0
    {
      EnterAll(before);
      AllEntered(before, was);
      RoomLeft(hash, buckets, contents);
    }

    method EnterAll(before: seq<Bucket<V>>)
      requires Valid() && Clean() && contents == map[] && |before| < |buckets|
      requires forall x :: 0 <= x < |before| ==> Proper(hash, before[x].key)
      modifies this`buckets, this`count, this`contents
      ensures Valid() && Clean() && |buckets| == |old(buckets)|
      ensures contents == Entered(before, |before|) && |contents| < |buckets|
      decreases 0, 3
    {
      var i := 0;
      while i < |before|
        invariant i <= |before| && Valid() && Clean() && |buckets| == |old(buckets)| && |contents| <= i
        invariant contents == Entered(before, i)
      {
        EnterOne(before[i].key, before[i].value);
        i := i + 1;
      }
    }

    method EnterOne(key: string, v: V)
      requires Valid() && Clean() && Proper(hash, key) && |contents| < |buckets|
      modifies this`buckets, this`count, this`contents
      ensures Valid() && Clean() && |buckets| == |old(buckets)|
      ensures contents == old(contents)[key := v] && |contents| <= |old(contents)| + 1
      decreases 0, 2
    {
      RoomLeft(hash, buckets, contents);
      SlotFinds(hash, buckets, key);
      Set(key, v);
    }
  }

  /** In a clean table the probe for an absent key ends in a vacant bucket. */
  lemma FreshSlot<V>(hash: Hash, undefined: V, bs: seq<Bucket<V>>, count: nat, m: map<string, V>, k: string, i: nat)
    requires TableOk(hash, bs) && Represents(bs, m) && TableClean(undefined, bs, count, m)
    requires SlotOf(hash, bs, k) == At(i) && k !in m
    ensures Vacant(bs[i]) && (Enters(hash, bs, k) <==> Proper(hash, k))
  {
    SlotFinds(hash, bs, k);
    assert Mapped(bs, m, i);
    assert Occupied(bs[i]) || Vacant(bs[i]);
  }

  lemma AbsentKept<V>(hash: Hash, bs: seq<Bucket<V>>, m: map<string, V>, k: string)
    requires TableOk(hash, bs) && Represents(bs, m) && SlotOf(hash, bs, k).NoSlot?
    ensures k !in m && m - {k} == m
  {
    SlotFinds(hash, bs, k);
    assert k in m ==> Stores(bs, k);
  }

  /** The map of the first n buckets' entries. */
  ghost function Entered<V>(bs: seq<Bucket<V>>, n: nat): map<string, V>
    requires n <= |bs|
  {
    if n == 0 then map[] else Entered(bs, n - 1)[bs[n - 1].key := bs[n - 1].value]
  }

  lemma {:induction false} EnteredIs<V>(bs: seq<Bucket<V>>, was: map<string, V>, n: nat)
    requires n <= |bs| && Represents(bs, was) && forall x :: 0 <= x < |bs| ==> Occupied(bs[x])
    ensures forall k :: k in Entered(bs, n) ==> k in was && Entered(bs, n)[k] == was[k]
    ensures forall j :: 0 <= j < n ==> bs[j].key in Entered(bs, n)
  {
    if n > 0 {
      EnteredIs(bs, was, n - 1);
      assert Mapped(bs, was, n - 1);
    }
  }

  lemma AllEntered<V>(bs: seq<Bucket<V>>, was: map<string, V>)
    requires if |bs| == 0 then was == map[] else Represents(bs, was)
    requires forall x :: 0 <= x < |bs| ==> Occupied(bs[x])
    ensures Entered(bs, |bs|) == was
  {
    if |bs| > 0 {
      EnteredIs(bs, was, |bs|);
      forall k | k in was ensures k in Entered(bs, |bs|) {
        assert Stores(bs, k);
      }
    }
  }

  lemma CapacityDoubles(n: nat)
    requires n == 0 || IsCapacity(n)
    ensures IsCapacity(if n == 0 then 16 else n * 2)
  {
    if n == 0 {
      Log2OfPow2(4);
      assert Pow2(4) == 16;
    } else {
      Log2OfPow2(Log2(n) + 1);
    }
  }

  lemma MaskedNext(idx: nat, n: nat)
    requires IsCapacity(n) && idx < n
    ensures BitAnd(idx + 1, n - 1) == if idx + 1 < n then idx + 1 else 0
  {
    MaskIsRemainder(idx + 1, Log2(n));
    if idx + 1 < n { RemainderUnique(idx + 1, n, 0, idx + 1); } else { RemainderUnique(n, n, 1, 0); }
  }
}

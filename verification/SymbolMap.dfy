/** When the symbol table is a map: exactly when it answers like one after a set and after a removal, whatever was set
    and removed before; and a short history after which it does not. */
module SymbolMap {
  import opened Powers
  import opened Probing

  /** What get answers after set(k, v) for another key q without an entry: what it did; or, if the probe for q ends
      where the one for k does, v, or what stands in the next free bucket if k becomes an entry. */
  function SeenAfterSet<V>(hash: Hash, bs: seq<Bucket<V>>, undefined: V, k: string, v: V, i: nat, q: string): V
    requires IsCapacity(|bs|) && i < |bs|
  {
    if SlotOf(hash, bs, q) != At(i) then Answer(hash, bs, undefined, q)
    else if Enters(hash, bs, k) then
      ValueIn(bs, undefined, NextFree(bs, hash(q), Distance(Home(hash(q), |bs|), i, |bs|) + 1))
    else v
  }

  lemma AbsentAfterSet<V>(hash: Hash, bs: seq<Bucket<V>>, undefined: V, m: map<string, V>, k: string, v: V, i: nat,
      q: string)
    requires TableOk(hash, bs) && Represents(bs, m) && SlotOf(hash, bs, k) == At(i) && q != k && q !in m
    ensures Answer(hash, Stored(bs, i, hash(k), k, v), undefined, q)
        == SeenAfterSet(hash, bs, undefined, k, v, i, q)
  {
    SlotFinds(hash, bs, q);
    OthersAfterSet(hash, bs, undefined, k, v, i, q);
    assert Mapped(bs, m, i);
  }

  lemma PresentAfterSet<V>(hash: Hash, bs: seq<Bucket<V>>, undefined: V, m: map<string, V>, k: string, v: V, i: nat,
      q: string)
    requires TableOk(hash, bs) && Represents(bs, m) && SlotOf(hash, bs, k) == At(i) && q != k && q in m
    ensures Answer(hash, Stored(bs, i, hash(k), k, v), undefined, q) == m[q]
  {
    StoreUpdatesMap(hash, bs, m, k, v, i);
    GetAfterSet(hash, bs, undefined, k, v, i);
    AnswerIs(hash, Stored(bs, i, hash(k), k, v), undefined, Updated(hash, bs, m, k, v), q);
  }

  /** After set(k, v) the table answers as the updated map does if and only if each other key without an entry is to see
      the undefined value. */
  lemma SetRefinesIff<V>(hash: Hash, bs: seq<Bucket<V>>, undefined: V, m: map<string, V>, k: string, v: V, i: nat)
    requires TableOk(hash, bs) && Represents(bs, m) && SlotOf(hash, bs, k) == At(i)
    ensures Refines(hash, Stored(bs, i, hash(k), k, v), undefined, m[k := v]) <==>
      forall q :: q != k && q !in m ==> SeenAfterSet(hash, bs, undefined, k, v, i, q) == undefined
  {
    var t := Stored(bs, i, hash(k), k, v);
    GetAfterSet(hash, bs, undefined, k, v, i);
    forall q | q != k
      ensures if q in m then Answer(hash, t, undefined, q) == m[q]
        else Answer(hash, t, undefined, q) == SeenAfterSet(hash, bs, undefined, k, v, i, q)
    {
      if q in m {
        PresentAfterSet(hash, bs, undefined, m, k, v, i, q);
      } else {
        AbsentAfterSet(hash, bs, undefined, m, k, v, i, q);
      }
    }
  }

  /** No key but k ends its probe where k does. */
  ghost predicate AloneAt<V>(hash: Hash, bs: seq<Bucket<V>>, m: map<string, V>, k: string, i: nat)
    requires IsCapacity(|bs|)
  {
    forall q {:trigger SlotOf(hash, bs, q)} :: q != k && q !in m ==> SlotOf(hash, bs, q) != At(i)
  }

  /** Every free bucket but i holds the undefined value. */
  ghost predicate TidyBut<V>(bs: seq<Bucket<V>>, undefined: V, i: nat) {
    forall x {:trigger Occupied(bs[x])} :: 0 <= x < |bs| && x != i && !Occupied(bs[x]) ==> bs[x].value == undefined
  }

  lemma TidySeen<V>(hash: Hash, bs: seq<Bucket<V>>, undefined: V, m: map<string, V>, k: string, v: V, i: nat, q: string)
    requires TableOk(hash, bs) && Represents(bs, m) && i < |bs| && TidyBut(bs, undefined, i) && q !in m
    ensures SeenAfterSet(hash, bs, undefined, k, v, i, q) ==
      if SlotOf(hash, bs, q) == At(i) && !Enters(hash, bs, k) then v else undefined
  {
    SlotFinds(hash, bs, q);
    var s := SlotOf(hash, bs, q);
    if s.At? { assert Mapped(bs, m, s.i); }
  }

  /** As long as the other free buckets hold the undefined value, that comes down to: the key was there, or becomes an
      entry, or v is undefined, or no other absent key ends its probe in the same bucket. */
  lemma SetRefinesTidy<V>(hash: Hash, bs: seq<Bucket<V>>, undefined: V, m: map<string, V>, k: string, v: V, i: nat)
    requires TableOk(hash, bs) && Represents(bs, m) && SlotOf(hash, bs, k) == At(i) && TidyBut(bs, undefined, i)
    ensures Refines(hash, Stored(bs, i, hash(k), k, v), undefined, m[k := v]) <==>
      k in m || Enters(hash, bs, k) || v == undefined || AloneAt(hash, bs, m, k, i)
  {
    SetRefinesIff(hash, bs, undefined, m, k, v, i);
    forall q | q !in m
      ensures SeenAfterSet(hash, bs, undefined, k, v, i, q) ==
        if SlotOf(hash, bs, q) == At(i) && !Enters(hash, bs, k) then v else undefined
    {
      TidySeen(hash, bs, undefined, m, k, v, i, q);
    }
    StoreUpdatesMap(hash, bs, m, k, v, i);
    forall q | q !in m && k in m
      ensures SlotOf(hash, bs, q) != At(i)
    {
      SlotFinds(hash, bs, q);
      assert Mapped(bs, m, i);
    }
  }

  // ----- after a removal -----

  /** After remove(k) the table answers as the smaller map does if and only if for every key without an entry, k
      included, the first free bucket on its way, the one of k counted as free, holds the undefined value. */
  lemma RemoveRefinesIff<V>(hash: Hash, bs: seq<Bucket<V>>, undefined: V, m: map<string, V>, k: string, i: nat)
    requires TableOk(hash, bs) && Represents(bs, m) && SlotOf(hash, bs, k) == At(i)
    ensures Refines(hash, Removed(bs, i), undefined, m - {k}) <==>
      forall q :: q !in m - {k} ==> bs[FreeOrAt(bs, hash(q), i).i].value == undefined
  {
    var t := Removed(bs, i);
    RemoveKeepsTable(hash, bs, m, k, i);
    forall q
      ensures if q in m - {k} then Answer(hash, t, undefined, q) == m[q]
        else Answer(hash, t, undefined, q) == bs[FreeOrAt(bs, hash(q), i).i].value
    {
      if q in m - {k} {
        AnswerIs(hash, t, undefined, m - {k}, q);
      } else {
        GetAfterRemove(hash, bs, undefined, m, k, i, q);
      }
    }
  }

  /** Removing a key that is not there changes no answer. */
  lemma RemoveAbsent<V>(hash: Hash, bs: seq<Bucket<V>>, undefined: V, m: map<string, V>, k: string, i: nat, q: string)
    requires TableOk(hash, bs) && Represents(bs, m) && SlotOf(hash, bs, k) == At(i) && k !in m
    ensures TableOk(hash, Removed(bs, i)) && Represents(Removed(bs, i), m)
    ensures Answer(hash, Removed(bs, i), undefined, q) == Answer(hash, bs, undefined, q)
  {
    RemoveKeepsTable(hash, bs, m, k, i);
    assert m - {k} == m;
    AnswerIs(hash, bs, undefined, m, q);
    AnswerIs(hash, Removed(bs, i), undefined, m, q);
    if q !in m {
      SlotFinds(hash, bs, k);
      GetAfterRemove(hash, bs, undefined, m, k, i, q);
      forall x: nat | x < |bs| ensures !HasEntry(bs, q, x) { assert Mapped(bs, m, x); }
      AbsentSlot(hash, bs, q);
      FreeIsFirst(bs, hash(q), 0);
      assert Mapped(bs, m, i);
      assert OnWay(bs, hash(q), Distance(Home(hash(q), |bs|), i, |bs|)) == bs[i];
    }
  }

  /** In a clean table, removing a key that is there is seen by get if and only if its value was undefined. */
  lemma RemoveFromClean<V>(hash: Hash, bs: seq<Bucket<V>>, undefined: V, count: nat, m: map<string, V>, k: string,
      i: nat)
    requires TableOk(hash, bs) && Represents(bs, m) && TableClean(undefined, bs, count, m)
    requires SlotOf(hash, bs, k) == At(i) && k in m
    ensures Refines(hash, Removed(bs, i), undefined, m - {k}) <==> m[k] == undefined
  {
    RemoveRefinesIff(hash, bs, undefined, m, k, i);
    StoreUpdatesMap(hash, bs, m, k, undefined, i);
    assert Mapped(bs, m, i) && BucketOk(hash, bs, i);
    SlotFinds(hash, bs, k);
    forall j: nat | j < Distance(Home(hash(k), |bs|), i, |bs|) ensures Occupied(OnWay(bs, hash(k), j)) {
      var x := Probe(Home(hash(k), |bs|), j, |bs|);
      assert OnWay(bs, hash(k), j) == bs[x] && !Vacant(bs[x]);
    }
    var first := NextFree(bs, hash(k), 0);
    if first.At? { assert OnWay(bs, hash(k), Distance(Home(hash(k), |bs|), first.i, |bs|)) == bs[first.i]; }
    assert FreeOrAt(bs, hash(k), i) == At(i);
    forall q
      ensures FreeOrAt(bs, hash(q), i) == At(i) || bs[FreeOrAt(bs, hash(q), i).i].value == undefined
    {
      var x := FreeOrAt(bs, hash(q), i).i;
      assert Occupied(bs[x]) || Vacant(bs[x]);
    }
  }

  // ----- a history -----

  ghost predicate Blank<V>(bs: seq<Bucket<V>>, undefined: V) {
    forall x :: 0 <= x < |bs| ==> bs[x] == Bucket(EMPTY_HASH, "", undefined)
  }

  lemma BlankSlot<V>(hash: Hash, bs: seq<Bucket<V>>, undefined: V, q: string)
    requires IsCapacity(|bs|) && Blank(bs, undefined)
    ensures TableOk(hash, bs) && Represents(bs, map[]) && SlotOf(hash, bs, q) == At(Home(hash(q), |bs|))
  {
    forall x | 0 <= x < |bs| ensures BucketOk(hash, bs, x) && Mapped(bs, map[], x) {}
    AbsentSlot(hash, bs, q);
  }

  /** The table after set(a, v) and remove(a), from an empty one. */
  function SetRemoved<V>(hash: Hash, bs: seq<Bucket<V>>, a: string, v: V): (t: seq<Bucket<V>>)
    requires IsCapacity(|bs|)
    ensures |t| == |bs|
  {
    var i := Home(hash(a), |bs|);
    Removed(Stored(bs, i, hash(a), a, v), i)
  }

  /** It has no entries, and get answers v for a and for every key that shares its home bucket. */
  lemma RemovedStays<V>(hash: Hash, bs: seq<Bucket<V>>, undefined: V, a: string, v: V, q: string)
    requires IsCapacity(|bs|) && Blank(bs, undefined) && Proper(hash, a)
    ensures var i, t := Home(hash(a), |bs|), SetRemoved(hash, bs, a, v);
      SlotOf(hash, bs, a) == At(i) && SlotOf(hash, Stored(bs, i, hash(a), a, v), a) == At(i)
      && TableOk(hash, t) && Represents(t, map[]) && SlotOf(hash, t, q) == At(Home(hash(q), |bs|))
      && Answer(hash, t, undefined, q) == if Home(hash(q), |bs|) == i then v else undefined
  {
    var i := Home(hash(a), |bs|);
    var t := Stored(bs, i, hash(a), a, v);
    BlankSlot(hash, bs, undefined, a);
    GetAfterSet(hash, bs, undefined, a, v, i);
    StoreUpdatesMap(hash, bs, map[], a, v, i);
    RemoveKeepsTable(hash, t, map[a := v], a, i);
    assert map[a := v] - {a} == map[];
    GetAfterRemove(hash, t, undefined, map[a := v], a, i, q);
    assert Home(hash(q), |bs|) != i ==> OnWay(t, hash(q), 0) == bs[Home(hash(q), |bs|)];
  }

  /** set(a, v), remove(a), set(a, w): a is no entry, but get answers w for it, and for every other key that shares its
      home bucket. */
  lemma SetAgainIsNoEntry<V>(hash: Hash, bs: seq<Bucket<V>>, undefined: V, a: string, v: V, w: V, q: string)
    requires IsCapacity(|bs|) && Blank(bs, undefined) && Proper(hash, a)
    requires Home(hash(q), |bs|) == Home(hash(a), |bs|) && q != a && v != undefined && w != undefined
    ensures var i, t := Home(hash(a), |bs|), SetRemoved(hash, bs, a, v);
      var u := Stored(t, i, hash(a), a, w);
      !Refines(hash, t, undefined, map[]) && SlotOf(hash, t, a) == At(i)
      && TableOk(hash, u) && Represents(u, map[]) && Answer(hash, u, undefined, a) == w
      && Answer(hash, u, undefined, q) == w && !Refines(hash, u, undefined, map[a := w])
  {
    var i, t := Home(hash(a), |bs|), SetRemoved(hash, bs, a, v);
    RemovedStays(hash, bs, undefined, a, v, a);
    RemovedStays(hash, bs, undefined, a, v, q);
    StoreUpdatesMap(hash, t, map[], a, w, i);
    GetAfterSet(hash, t, undefined, a, w, i);
    AbsentAfterSet(hash, t, undefined, map[], a, w, i, q);
  }

  /** set(a, v), remove(a), set(b, w) for a key with another home bucket: b is an entry, and get still answers v for
      a. */
  lemma OtherEntersElsewhere<V>(hash: Hash, bs: seq<Bucket<V>>, undefined: V, a: string, v: V, b: string, w: V)
    requires IsCapacity(|bs|) && Blank(bs, undefined) && Proper(hash, a) && Proper(hash, b)
    requires Home(hash(b), |bs|) != Home(hash(a), |bs|) && v != undefined
    ensures var j, t := Home(hash(b), |bs|), SetRemoved(hash, bs, a, v);
      var u := Stored(t, j, hash(b), b, w);
      SlotOf(hash, t, b) == At(j) && Enters(hash, t, b) && TableOk(hash, u) && Represents(u, map[b := w])
      && Answer(hash, u, undefined, a) == v && !Refines(hash, u, undefined, map[b := w])
  {
    var j, t := Home(hash(b), |bs|), SetRemoved(hash, bs, a, v);
    RemovedStays(hash, bs, undefined, a, v, a);
    RemovedStays(hash, bs, undefined, a, v, b);
    StoreUpdatesMap(hash, t, map[], b, w, j);
    GetAfterSet(hash, t, undefined, b, w, j);
    AbsentAfterSet(hash, t, undefined, map[], b, w, j, a);
  }
}

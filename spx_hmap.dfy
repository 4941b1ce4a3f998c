/**
 * The hash map of src/spx_hmap.c: the bucket chains of the hash set, whose
 * slots hold a key and a value. The hash and the comparison apply to keys.
 * A slot claimed by ensure_entry holds its key and no value until one is
 * set: the source leaves the value field as it was, which is modelled as no
 * value.
 */
module SpxHmap {
  import opened Wrappers
  import opened SpxBucket
  import opened SpxHset

  datatype MapItem<K, V> = MapItem(key: K, value: Option<V>)

  /** The scan's test for a key: cmp(key, item's key) == 0. */
  function KeyMatcher<K, V>(cmp: (K, K) -> int, key: K): MapItem<K, V> -> bool
  {
    (it: MapItem<K, V>) => cmp(key, it.key) == 0
  }

  class HMap<K, V> {
    const hash: K -> nat
    const cmp: (K, K) -> int
    const size: nat
    const buckets: array<Chain<MapItem<K, V>>>

    ghost predicate Valid()
      reads this, buckets
    {
      buckets.Length == size && forall b :: 0 <= b < size ==> ChainOk(buckets[b])
    }

    function BucketOf(key: K): (b: nat)
      requires size > 0
      ensures b < size
    {
      hash(key) % size
    }

    ghost predicate IsEntry(r: EntryRef)
      reads this, buckets
      requires Valid()
    {
      r.bucket < size && r.pos < Capacity(buckets[r.bucket]) && At(buckets[r.bucket], r.pos).Taken?
    }

    function Item(r: EntryRef): MapItem<K, V>
      reads this, buckets
      requires Valid() && IsEntry(r)
    {
      At(buckets[r.bucket], r.pos).item
    }

    /** spx_hmap_create: every bucket starts empty. */
    constructor (size0: nat, hash0: K -> nat, cmp0: (K, K) -> int)
      ensures Valid() && fresh(buckets)
      ensures size == size0 && hash == hash0 && cmp == cmp0
      ensures forall b :: 0 <= b < size ==> buckets[b] == [EmptyBucket()]
    {
      hash, cmp, size := hash0, cmp0, size0;
      buckets := new Chain<MapItem<K, V>>[size0](_ => [EmptyBucket()]);
    }

    /** spx_hmap_reset: every bucket is back to the empty state. */
    method Reset()
      requires Valid()
      modifies buckets
      ensures Valid()
      ensures forall b :: 0 <= b < size ==> buckets[b] == [EmptyBucket()]
    {
      var i := 0;
      while i < size
        invariant 0 <= i <= size
        invariant forall b :: 0 <= b < i ==> buckets[b] == [EmptyBucket()]
      {
        buckets[i] := [EmptyBucket()];
        i := i + 1;
      }
    }

    /**
     * spx_hmap_ensure_entry: the entry of an equal key, or a slot claimed
     * for the key, with no value, reported as new.
     */
    method EnsureEntry(key: K) returns (r: Option<EntryRef>, isNew: bool)
      requires Valid() && size > 0
      modifies buckets
      ensures Valid()
      ensures var b := BucketOf(key);
        var o := ChainGet(old(buckets[b]), KeyMatcher(cmp, key), MapItem(key, None), false);
        && buckets[b] == o.chain && r == ToRef(b, o.pos) && isNew == o.isNew
        && forall c :: 0 <= c < size && c != b ==> buckets[c] == old(buckets[c])
      ensures r.Some? && IsEntry(r.value)
      ensures isNew ==> Item(r.value) == MapItem(key, None)
      ensures !isNew ==> cmp(key, Item(r.value).key) == 0
    {
      var b := BucketOf(key);
      ChainGetOk(buckets[b], KeyMatcher(cmp, key), MapItem(key, None), false);
      ChainGetChanges(buckets[b], KeyMatcher(cmp, key), MapItem(key, None), false);
      FirstHitSpec(buckets[b], KeyMatcher(cmp, key), 0);
      var o := BucketGetEntry(buckets[b], KeyMatcher(cmp, key), MapItem(key, None), false);
      buckets[b] := o.chain;
      r, isNew := ToRef(b, o.pos), o.isNew;
    }

    /** spx_hmap_get_value: the value of an equal key's entry; None when there is none. It never inserts. */
    method GetValue(key: K) returns (v: Option<V>)
      requires Valid() && size > 0
      ensures var o := ChainGet(buckets[BucketOf(key)], KeyMatcher(cmp, key), MapItem(key, None), true);
        v == if o.pos.Some? then At(buckets[BucketOf(key)], o.pos.value).item.value else None
    {
      var b := BucketOf(key);
      ExistingFindsMatch(buckets[b], KeyMatcher(cmp, key), MapItem(key, None));
      var o := BucketGetEntry(buckets[b], KeyMatcher(cmp, key), MapItem(key, None), true);
      if o.pos.None? {
        return None;
      }
      v := At(buckets[b], o.pos.value).item.value;
    }

    /**
     * spx_hmap_set_entry_key: the key is replaced, reporting success, only
     * when it compares equal to the one held; the value is kept.
     */
    method SetEntryKey(r: EntryRef, key: K) returns (ok: bool)
      requires Valid() && IsEntry(r)
      modifies buckets
      ensures Valid() && IsEntry(r)
      ensures ok <==> cmp(old(Item(r)).key, key) == 0
      ensures ok ==> Item(r) == old(Item(r)).(key := key)
      ensures !ok ==> buckets[r.bucket] == old(buckets[r.bucket])
      ensures Capacity(buckets[r.bucket]) == old(Capacity(buckets[r.bucket]))
      ensures forall q :: 0 <= q < Capacity(buckets[r.bucket]) && q != r.pos ==>
        At(buckets[r.bucket], q) == At(old(buckets[r.bucket]), q)
      ensures forall c :: 0 <= c < size && c != r.bucket ==> buckets[c] == old(buckets[c])
    {
      var ch := buckets[r.bucket];
      var it := At(ch, r.pos).item;
      if cmp(it.key, key) != 0 {
        return false;
      }
      SetItem(ch, r.pos, it.(key := key));
      buckets[r.bucket] := Put(ch, r.pos, it.(key := key));
      ok := true;
    }

    /** spx_hmap_entry_set_value: unconditional. */
    method EntrySetValue(r: EntryRef, value: V)
      requires Valid() && IsEntry(r)
      modifies buckets
      ensures Valid() && IsEntry(r)
      ensures Item(r) == old(Item(r)).(value := Some(value))
      ensures Capacity(buckets[r.bucket]) == old(Capacity(buckets[r.bucket]))
      ensures forall q :: 0 <= q < Capacity(buckets[r.bucket]) && q != r.pos ==>
        At(buckets[r.bucket], q) == At(old(buckets[r.bucket]), q)
      ensures forall c :: 0 <= c < size && c != r.bucket ==> buckets[c] == old(buckets[c])
    {
      var ch := buckets[r.bucket];
      var it := At(ch, r.pos).item;
      SetItem(ch, r.pos, it.(value := Some(value)));
      buckets[r.bucket] := Put(ch, r.pos, it.(value := Some(value)));
    }

    /** spx_hmap_entry_get_value. */
    function EntryGetValue(r: EntryRef): Option<V>
      reads this, buckets
      requires Valid() && IsEntry(r)
    {
      Item(r).value
    }
  }

  /** Replacing the item of a taken slot changes that slot only and keeps the chain well formed. */
  lemma SetItem<E>(ch: Chain<E>, p: nat, e: E)
    requires ChainOk(ch) && p < Capacity(ch) && At(ch, p).Taken?
    ensures ChainOk(Put(ch, p, e)) && Capacity(Put(ch, p, e)) == Capacity(ch)
    ensures forall q :: 0 <= q < Capacity(ch) ==> At(Put(ch, p, e), q) == if q == p then Taken(e) else At(ch, q)
  {
    forall q | 0 <= q < Capacity(ch)
      ensures At(Put(ch, p, e), q) == if q == p then Taken(e) else At(ch, q)
    {
      PutAt(ch, p, e, q);
    }
  }

  /**
   * ensure_entry, then entry_set_value on its entry, then get_value of the
   * same key (cmp(k, k) == 0) returns the value set.
   */
  lemma EnsureSetGet<K, V>(ch: Chain<MapItem<K, V>>, cmp: (K, K) -> int, k: K, v: V)
    requires ChainOk(ch) && cmp(k, k) == 0
    ensures var m := KeyMatcher(cmp, k);
      var o := ChainGet(ch, m, MapItem(k, None), false);
      && o.pos.Some? && At(o.chain, o.pos.value).Taken?
      && var upd := Put(o.chain, o.pos.value, At(o.chain, o.pos.value).item.(value := Some(v)));
         var g := ChainGet(upd, m, MapItem(k, None), true);
         g.pos == o.pos && At(upd, o.pos.value).item.value == Some(v)
  {
    var m := KeyMatcher(cmp, k);
    var e := MapItem(k, None);
    ChainGetOk(ch, m, e, false);
    ChainGetChanges(ch, m, e, false);
    FirstHitSpec(ch, m, 0);
    var o := ChainGet(ch, m, e, false);
    var c := o.chain;
    var p := o.pos.value;
    ChainGetAgain(ch, m, e, false, true, e);
    var it := At(c, p).item;
    var upd := Put(c, p, it.(value := Some(v)));
    SetItem(c, p, it.(value := Some(v)));
    forall q | 0 <= q < Capacity(c)
      ensures Hit(c, m, q) == Hit(upd, m, q)
    {
    }
    FirstHitSameStops(c, upd, m, 0);
  }

  /** get_value of a key no taken slot of its chain matches is None. */
  lemma GetValueAbsent<K, V>(ch: Chain<MapItem<K, V>>, cmp: (K, K) -> int, k: K)
    requires ChainOk(ch)
    requires forall q :: 0 <= q < Capacity(ch) && At(ch, q).Taken? ==> cmp(k, At(ch, q).item.key) != 0
    ensures ChainGet(ch, KeyMatcher(cmp, k), MapItem(k, None), true).pos == None
  {
    ExistingFindsMatch(ch, KeyMatcher(cmp, k), MapItem(k, None));
  }
}

/**
 * The hash set of src/spx_hset.c: a fixed array of bucket chains, a hash
 * and a comparison supplied by the user (cmp returns 0 for equal values).
 * An entry is named by its bucket and its position in that bucket's chain.
 */
module SpxHset {
  import opened Wrappers
  import opened SpxBucket

  datatype EntryRef = EntryRef(bucket: nat, pos: nat)

  function ToRef(b: nat, pos: Option<nat>): (r: Option<EntryRef>)
    ensures r.Some? <==> pos.Some?
    ensures r.Some? ==> r.value == EntryRef(b, pos.value)
  {
    match pos
    case None => None
    case Some(p) => Some(EntryRef(b, p))
  }

  /** The scan's test for a value: cmp(value, item) == 0. */
  function Matcher<V>(cmp: (V, V) -> int, v: V): V -> bool
  {
    x => cmp(v, x) == 0
  }

  /** Equality as cmp sees it. */
  function Same<V>(cmp: (V, V) -> int): (V, V) -> bool
  {
    (a, b) => cmp(a, b) == 0
  }

  class HSet<V> {
    const hash: V -> nat
    const cmp: (V, V) -> int
    const size: nat
    const buckets: array<Chain<V>>

    ghost predicate Valid()
      reads this, buckets
    {
      buckets.Length == size && forall b :: 0 <= b < size ==> ChainOk(buckets[b])
    }

    /** The bucket a value belongs to. */
    function BucketOf(v: V): (b: nat)
      requires size > 0
      ensures b < size
    {
      hash(v) % size
    }

    /** An entry that names a taken slot. */
    ghost predicate IsEntry(r: EntryRef)
      reads this, buckets
      requires Valid()
    {
      r.bucket < size && r.pos < Capacity(buckets[r.bucket]) && At(buckets[r.bucket], r.pos).Taken?
    }

    /** spx_hset_create: every bucket starts empty. */
    constructor (size0: nat, hash0: V -> nat, cmp0: (V, V) -> int)
      ensures Valid() && fresh(buckets)
      ensures size == size0 && hash == hash0 && cmp == cmp0
      ensures forall b :: 0 <= b < size ==> buckets[b] == [EmptyBucket()]
    {
      hash, cmp, size := hash0, cmp0, size0;
      buckets := new Chain<V>[size0](_ => [EmptyBucket()]);
    }

    /** spx_hset_reset: every bucket is back to the empty state. */
    method Reset()
      requires Valid()
      modifies buckets
      ensures Valid()
      ensures forall b :: 0 <= b < size ==> buckets[b] == [EmptyBucket()]
    {
      var i := 0;
      while i < size
        invariant 0 <= i <= size
        invariant forall b :: 0 <= b < i ==> buckets[b] == [EmptyBucket()]
      {
        buckets[i] := [EmptyBucket()];
        i := i + 1;
      }
    }

    /**
     * spx_hset_get_entry: the lookup of bucket_get_entry in the value's
     * bucket, claiming a slot for the value when no equal one is there.
     */
    method GetEntry(value: V) returns (r: Option<EntryRef>, isNew: bool)
      requires Valid() && size > 0
      modifies buckets
      ensures Valid()
      ensures var b := BucketOf(value);
        var o := ChainGet(old(buckets[b]), Matcher(cmp, value), value, false);
        && buckets[b] == o.chain && r == ToRef(b, o.pos) && isNew == o.isNew
        && forall c :: 0 <= c < size && c != b ==> buckets[c] == old(buckets[c])
    {
      var b := BucketOf(value);
      ChainGetOk(buckets[b], Matcher(cmp, value), value, false);
      var o := BucketGetEntry(buckets[b], Matcher(cmp, value), value, false);
      buckets[b] := o.chain;
      r, isNew := ToRef(b, o.pos), o.isNew;
    }

    /** spx_hset_get_existing_entry: the same lookup, which never claims a slot. */
    method GetExistingEntry(value: V) returns (r: Option<EntryRef>)
      requires Valid() && size > 0
      ensures var b := BucketOf(value);
        r == ToRef(b, ChainGet(buckets[b], Matcher(cmp, value), value, true).pos)
      ensures r.Some? ==> IsEntry(r.value) && cmp(value, At(buckets[r.value.bucket], r.value.pos).item) == 0
    {
      var b := BucketOf(value);
      ExistingFindsMatch(buckets[b], Matcher(cmp, value), value);
      var o := BucketGetEntry(buckets[b], Matcher(cmp, value), value, true);
      r := ToRef(b, o.pos);
    }

    /** spx_hset_entry_get_value. */
    function EntryGetValue(r: EntryRef): V
      reads this, buckets
      requires Valid() && IsEntry(r)
    {
      At(buckets[r.bucket], r.pos).item
    }

    /**
     * spx_hset_entry_set_value: the value is replaced, reporting success,
     * only when it compares equal to the one held; otherwise nothing changes.
     */
    method EntrySetValue(r: EntryRef, value: V) returns (ok: bool)
      requires Valid() && IsEntry(r)
      modifies buckets
      ensures Valid()
      ensures ok <==> cmp(old(EntryGetValue(r)), value) == 0
      ensures ok ==> buckets[r.bucket] == Put(old(buckets[r.bucket]), r.pos, value) && EntryGetValue(r) == value
      ensures !ok ==> buckets[r.bucket] == old(buckets[r.bucket])
      ensures forall c :: 0 <= c < size && c != r.bucket ==> buckets[c] == old(buckets[c])
    {
      var ch := buckets[r.bucket];
      if cmp(At(ch, r.pos).item, value) != 0 {
        return false;
      }
      PutKeepsChain(ch, r.pos, value);
      buckets[r.bucket] := Put(ch, r.pos, value);
      ok := true;
    }
  }

  /** Replacing the item of a taken slot keeps the chain well formed. */
  lemma PutKeepsChain<E>(ch: Chain<E>, p: nat, e: E)
    requires ChainOk(ch) && p < Capacity(ch) && At(ch, p).Taken?
    ensures ChainOk(Put(ch, p, e)) && At(Put(ch, p, e), p) == Taken(e)
  {
    forall q | 0 <= q < Capacity(ch)
      ensures At(Put(ch, p, e), q).Taken? == At(ch, q).Taken?
    {
      PutAt(ch, p, e, q);
    }
    PutAt(ch, p, e, p);
  }

  /**
   * get_entry twice with the same value, cmp(v, v) == 0: the second call
   * returns the first call's entry, reports it as not new and changes
   * nothing, so the value is inserted once.
   */
  lemma GetEntryTwice<V>(ch: Chain<V>, cmp: (V, V) -> int, v: V)
    requires ChainOk(ch) && cmp(v, v) == 0
    ensures var m := Matcher(cmp, v);
      var o := ChainGet(ch, m, v, false);
      o.pos.Some? && ChainGet(o.chain, m, v, false) == Outcome(o.chain, o.pos, false)
  {
    var m := Matcher(cmp, v);
    FirstHitSpec(ch, m, 0);
    ChainGetAgain(ch, m, v, false, false, v);
  }

  /**
   * get_entry stores a value only after the earlier values of its chain
   * that cmp finds different from it: no later value of a chain compares
   * equal to an earlier one.
   */
  lemma GetEntryKeepsDistinct<V>(ch: Chain<V>, cmp: (V, V) -> int, v: V)
    requires ChainOk(ch) && Distinct(ch, Same(cmp))
    ensures Distinct(ChainGet(ch, Matcher(cmp, v), v, false).chain, Same(cmp))
  {
    ChainGetDistinct(ch, Matcher(cmp, v), Same(cmp), v, false);
  }
}

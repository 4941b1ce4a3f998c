/**
 * The bucket chains shared by the hash set (src/spx_hset.c) and the hash
 * map (src/spx_hmap.c): a bucket holds four slots and a link to an overflow
 * bucket. A chain is modelled as the sequence of its buckets, and a slot is
 * named by its position p in the chain: slot p % 4 of bucket p / 4. Both
 * files define the same bucket_get_entry; it is modelled once, over the
 * item a slot holds (a value for the set, a key and value for the map).
 */
module SpxBucket {
  import opened Wrappers

  const BucketSize: nat := 4

  datatype Slot<E> = Free | Taken(item: E)

  type Chain<E> = seq<seq<Slot<E>>>

  /** bucket_init: four free slots and no overflow bucket. */
  function EmptyBucket<E>(): (b: seq<Slot<E>>)
    ensures |b| == BucketSize && forall i :: 0 <= i < |b| ==> b[i].Free?
  {
    [Free, Free, Free, Free]
  }

  function Capacity<E>(ch: Chain<E>): nat
  {
    BucketSize * |ch|
  }

  ghost predicate Sized<E>(ch: Chain<E>)
  {
    |ch| >= 1 && forall n :: 0 <= n < |ch| ==> |ch[n]| == BucketSize
  }

  function At<E>(ch: Chain<E>, p: nat): Slot<E>
    requires Sized(ch) && p < Capacity(ch)
  {
    ch[p / BucketSize][p % BucketSize]
  }

  /**
   * The invariant of a chain: the taken slots form a prefix of it (slots are
   * claimed in scan order and never freed one by one), and an overflow
   * bucket exists only once its first slot is taken (it is created by the
   * lookup that claims that slot).
   */
  ghost predicate ChainOk<E>(ch: Chain<E>)
  {
    && Sized(ch)
    && (forall p, q :: 0 <= p < q < Capacity(ch) && At(ch, q).Taken? ==> At(ch, p).Taken?)
    && (|ch| > 1 ==> At(ch, BucketSize * (|ch| - 1)).Taken?)
  }

  /** A slot where the lookup stops: a free one, or one whose item matches. */
  ghost predicate Hit<E>(ch: Chain<E>, matches: E -> bool, p: nat)
    requires Sized(ch) && p < Capacity(ch)
  {
    At(ch, p).Free? || matches(At(ch, p).item)
  }

  /** The first slot at or after p where the scan stops. */
  ghost function FirstHit<E>(ch: Chain<E>, matches: E -> bool, p: nat): (r: Option<nat>)
    requires Sized(ch)
    ensures r.Some? ==> p <= r.value < Capacity(ch) && Hit(ch, matches, r.value)
    decreases Capacity(ch) - p
  {
    if p >= Capacity(ch) then None
    else if Hit(ch, matches, p) then Some(p)
    else FirstHit(ch, matches, p + 1)
  }

  lemma {:induction false} FirstHitSpec<E>(ch: Chain<E>, matches: E -> bool, p: nat)
    requires Sized(ch)
    ensures match FirstHit(ch, matches, p)
      case Some(h) => p <= h < Capacity(ch) && Hit(ch, matches, h)
                      && forall q :: p <= q < h ==> !Hit(ch, matches, q)
      case None => forall q :: p <= q < Capacity(ch) ==> !Hit(ch, matches, q)
    decreases Capacity(ch) - p
  {
    if p < Capacity(ch) && !Hit(ch, matches, p) {
      FirstHitSpec(ch, matches, p + 1);
    }
  }

  /** The chain with slot p claimed for e. */
  function Put<E>(ch: Chain<E>, p: nat, e: E): (r: Chain<E>)
    requires Sized(ch) && p < Capacity(ch)
    ensures Sized(r) && |r| == |ch|
  {
    ch[p / BucketSize := ch[p / BucketSize][p % BucketSize := Taken(e)]]
  }

  /** What a lookup returns: the chain after it, the slot found or claimed, and whether it was claimed. */
  datatype Outcome<E> = Outcome(chain: Chain<E>, pos: Option<nat>, isNew: bool)

  /**
   * bucket_get_entry. The scan stops at the first free slot or matching
   * item. A matching item is returned as it is. A free slot is claimed for
   * e, unless the lookup is for an existing entry only, which then fails.
   * When no slot stops the scan every bucket is full: a lookup for an
   * existing entry fails, any other one chains a fresh bucket and claims its
   * first slot.
   */
  ghost function ChainGet<E>(ch: Chain<E>, matches: E -> bool, e: E, existing: bool): (r: Outcome<E>)
    requires Sized(ch)
    ensures Sized(r.chain) && (r.pos.Some? ==> r.pos.value < Capacity(r.chain))
    ensures existing || !r.isNew ==> r.chain == ch
  {
    match FirstHit(ch, matches, 0)
    case Some(p) =>
      if At(ch, p).Taken? then Outcome(ch, Some(p), false)
      else if existing then Outcome(ch, None, false)
      else Outcome(Put(ch, p, e), Some(p), true)
    case None =>
      if existing then Outcome(ch, None, false)
      else Outcome(Put(ch + [EmptyBucket()], Capacity(ch), e), Some(Capacity(ch)), true)
  }

  /**
   * The scan of bucket_get_entry: the slots of one bucket in order, then the
   * overflow bucket (the source recurses into it), chaining a fresh one
   * when there is none.
   */
  method BucketGetEntry<E>(ch: Chain<E>, matches: E -> bool, e: E, existing: bool) returns (o: Outcome<E>)
    requires Sized(ch)
    ensures o == ChainGet(ch, matches, e, existing)
  {
    FirstHitSpec(ch, matches, 0);
    var chain: Chain<E> := ch;
    var n := 0;
    while n < |chain|
      invariant Sized(chain) && n < |chain|
      invariant chain == ch || (!existing && n == |ch| && chain == ch + [EmptyBucket()])
      invariant forall q :: 0 <= q < BucketSize * n && q < Capacity(ch) ==> !Hit(ch, matches, q)
      decreases |ch| + 1 - n
    {
      var i := 0;
      while i < BucketSize
        invariant 0 <= i <= BucketSize && (chain != ch ==> i == 0)
        invariant forall q :: 0 <= q < BucketSize * n + i && q < Capacity(ch) ==> !Hit(ch, matches, q)
      {
        var p := BucketSize * n + i;
        assert p / BucketSize == n && p % BucketSize == i;
        var slot: Slot<E> := chain[n][i];
        assert chain != ch ==> slot.Free?;
        if slot.Free? {
          if chain != ch {
            assert p == Capacity(ch);
            assert FirstHit(ch, matches, 0) == None;
          } else {
            assert Hit(ch, matches, p);
            assert FirstHit(ch, matches, 0) == Some(p);
          }
          if existing {
            return Outcome(ch, None, false);
          }
          return Outcome(Put(chain, p, e), Some(p), true);
        }
        if matches(slot.item) {
          assert Hit(ch, matches, p);
          assert FirstHit(ch, matches, 0) == Some(p);
          return Outcome(ch, Some(p), false);
        }
        i := i + 1;
      }
      if n == |chain| - 1 {
        if existing {
          return Outcome(ch, None, false);
        }
        chain := chain + [EmptyBucket()];
      }
      n := n + 1;
    }
    assert false;
  }

  /** The positions of a chain whose items stand in relation same, ordered. */
  ghost predicate Distinct<E>(ch: Chain<E>, same: (E, E) -> bool)
    requires Sized(ch)
  {
    forall p, q :: 0 <= p < q < Capacity(ch) && At(ch, p).Taken? && At(ch, q).Taken? ==>
      !same(At(ch, q).item, At(ch, p).item)
  }

  lemma PutAt<E>(ch: Chain<E>, p: nat, e: E, q: nat)
    requires Sized(ch) && p < Capacity(ch) && q < Capacity(ch)
    ensures Sized(Put(ch, p, e)) && Capacity(Put(ch, p, e)) == Capacity(ch)
    ensures At(Put(ch, p, e), q) == if q == p then Taken(e) else At(ch, q)
  {
    if q / BucketSize == p / BucketSize && q != p {
      assert q % BucketSize != p % BucketSize;
    }
  }

  lemma ExtendAt<E>(ch: Chain<E>, q: nat)
    requires Sized(ch) && q < Capacity(ch) + BucketSize
    ensures Sized(ch + [EmptyBucket()]) && Capacity(ch + [EmptyBucket()]) == Capacity(ch) + BucketSize
    ensures At(ch + [EmptyBucket()], q) == if q < Capacity(ch) then At(ch, q) else Free
  {
  }

  /** The chain after a lookup, with the slot it claimed: the only slot that changes. */
  lemma ChainGetChanges<E>(ch: Chain<E>, matches: E -> bool, e: E, existing: bool)
    requires Sized(ch)
    ensures var o := ChainGet(ch, matches, e, existing);
      && Capacity(ch) <= Capacity(o.chain)
      && (o.isNew ==> o.pos.Some? && At(o.chain, o.pos.value) == Taken(e)
                      && (o.pos.value < Capacity(ch) ==> At(ch, o.pos.value).Free?)
                      && forall q :: 0 <= q < Capacity(ch) && q != o.pos.value ==> At(o.chain, q) == At(ch, q))
  {
    FirstHitSpec(ch, matches, 0);
    var o := ChainGet(ch, matches, e, existing);
    if o.isNew {
      var p := o.pos.value;
      match FirstHit(ch, matches, 0)
      case Some(h) =>
        forall q | 0 <= q < Capacity(ch)
          ensures At(o.chain, q) == if q == p then Taken(e) else At(ch, q)
        {
          PutAt(ch, p, e, q);
        }
      case None =>
        var ext := ch + [EmptyBucket()];
        forall q | 0 <= q < Capacity(ext)
          ensures At(o.chain, q) == if q == p then Taken(e) else At(ext, q)
        {
          PutAt(ext, p, e, q);
        }
        forall q | 0 <= q < Capacity(ch)
          ensures At(ext, q) == At(ch, q)
        {
          ExtendAt(ch, q);
        }
        PutAt(ext, p, e, p);
    }
  }

  /** A lookup keeps the chain well formed. */
  lemma ChainGetOk<E>(ch: Chain<E>, matches: E -> bool, e: E, existing: bool)
    requires ChainOk(ch)
    ensures ChainOk(ChainGet(ch, matches, e, existing).chain)
  {
    FirstHitSpec(ch, matches, 0);
    ChainGetChanges(ch, matches, e, existing);
    var o := ChainGet(ch, matches, e, existing);
    if o.isNew {
      var c := o.chain;
      var p := o.pos.value;
      // every slot before p is taken (it was passed over without a hit)
      assert forall q :: 0 <= q < p ==> At(c, q).Taken? by {
        forall q | 0 <= q < p
          ensures At(c, q).Taken?
        {
          assert !Hit(ch, matches, q);
        }
      }
      if p == Capacity(ch) {
        forall q | p < q < Capacity(c)
          ensures At(c, q).Free?
        {
          ExtendAt(ch, q);
          PutAt(ch + [EmptyBucket()], p, e, q);
        }
      } else {
        forall q | p < q < Capacity(c)
          ensures At(c, q).Free?
        {
        }
      }
    }
  }

  /**
   * An item claimed for e stands apart from every item scanned before it,
   * so a chain whose items are pairwise apart stays so, when the scan
   * tests items against e with same.
   */
  lemma ChainGetDistinct<E>(ch: Chain<E>, matches: E -> bool, same: (E, E) -> bool, e: E, existing: bool)
    requires ChainOk(ch) && Distinct(ch, same)
    requires forall x :: matches(x) == same(e, x)
    ensures Sized(ChainGet(ch, matches, e, existing).chain)
    ensures Distinct(ChainGet(ch, matches, e, existing).chain, same)
  {
    FirstHitSpec(ch, matches, 0);
    ChainGetChanges(ch, matches, e, existing);
    ChainGetOk(ch, matches, e, existing);
    var o := ChainGet(ch, matches, e, existing);
    if o.isNew {
      var c := o.chain;
      var p := o.pos.value;
      forall a, b | 0 <= a < b < Capacity(c) && At(c, a).Taken? && At(c, b).Taken?
        ensures !same(At(c, b).item, At(c, a).item)
      {
        if b == p {
          assert !Hit(ch, matches, a);
        } else {
          assert b < Capacity(ch) && a < Capacity(ch);
        }
      }
    }
  }

  /**
   * A lookup that returned a slot finds the same slot again, without a
   * change, when the scan stops at its item: a repeated get_entry inserts
   * once.
   */
  lemma ChainGetAgain<E>(ch: Chain<E>, matches: E -> bool, e: E, existing: bool, existing2: bool, e2: E)
    requires ChainOk(ch)
    requires ChainGet(ch, matches, e, existing).pos.Some?
    requires ChainGet(ch, matches, e, existing).isNew ==> matches(e)
    ensures var o := ChainGet(ch, matches, e, existing);
      ChainGet(o.chain, matches, e2, existing2) == Outcome(o.chain, o.pos, false)
  {
    FirstHitSpec(ch, matches, 0);
    ChainGetChanges(ch, matches, e, existing);
    var o := ChainGet(ch, matches, e, existing);
    var c := o.chain;
    var p := o.pos.value;
    FirstHitSpec(c, matches, 0);
    assert Hit(c, matches, p);
    forall q | 0 <= q < p
      ensures !Hit(c, matches, q)
    {
      assert !Hit(ch, matches, q);
    }
    assert FirstHit(c, matches, 0) == Some(p);
  }

  /** A lookup for an existing entry never changes the chain. */
  lemma ExistingNeverInserts<E>(ch: Chain<E>, matches: E -> bool, e: E)
    requires Sized(ch)
    ensures ChainGet(ch, matches, e, true).chain == ch && !ChainGet(ch, matches, e, true).isNew
  {
  }

  /** A lookup for an existing entry fails exactly when no taken slot before the first free one matches. */
  lemma ExistingFindsMatch<E>(ch: Chain<E>, matches: E -> bool, e: E)
    requires ChainOk(ch)
    ensures var o := ChainGet(ch, matches, e, true);
      (o.pos.Some? ==> At(ch, o.pos.value).Taken? && matches(At(ch, o.pos.value).item))
      && (o.pos.None? <==> forall q :: 0 <= q < Capacity(ch) && At(ch, q).Taken? ==> !matches(At(ch, q).item))
  {
    FirstHitSpec(ch, matches, 0);
    match FirstHit(ch, matches, 0)
    case Some(h) =>
      if At(ch, h).Free? {
        forall q | 0 <= q < Capacity(ch) && At(ch, q).Taken?
          ensures !matches(At(ch, q).item)
        {
          assert !(h < q);
          assert !Hit(ch, matches, q) || q == h;
        }
      }
    case None =>
      forall q | 0 <= q < Capacity(ch) && At(ch, q).Taken?
        ensures !matches(At(ch, q).item)
      {
        assert !Hit(ch, matches, q);
      }
  }

  /** The scan depends only on where the slots are free and where the items match. */
  lemma {:induction false} FirstHitSameStops<E>(c1: Chain<E>, c2: Chain<E>, matches: E -> bool, p: nat)
    requires Sized(c1) && Sized(c2) && Capacity(c1) == Capacity(c2)
    requires forall q :: 0 <= q < Capacity(c1) ==> Hit(c1, matches, q) == Hit(c2, matches, q)
    ensures FirstHit(c1, matches, p) == FirstHit(c2, matches, p)
    decreases Capacity(c1) - p
  {
    if p < Capacity(c1) && !Hit(c1, matches, p) {
      FirstHitSameStops(c1, c2, matches, p + 1);
    }
  }
}

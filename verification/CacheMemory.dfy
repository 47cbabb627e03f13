// The arrays of the text-measurement cache in Clay's arena: whatever the cache
// does, what it stores fits the block that was reserved for it.
module CacheMemory {
  import opened Arena
  import opened Slots
  import M = CacheModel
  import Cache = TextCache

  // The bytes reserved for array k of the persistent list.
  ghost function Reserved(c: Config, k: nat): int
    requires k < 10
  {
    PersistentArray(k).To(c) - PersistentArray(k).From(c)
  }

  lemma ReservedIs(c: Config, k: nat)
    requires k < 10 && Narrow(c)
    ensures Reserved(c, k) == Persistent(c.elements, c.words, c.size)[k].Extent()
  {
    hide Persistent;
    var rs := Persistent(c.elements, c.words, c.size);
    assert rs[k].Table? ==> rs[k].Extent() < UINT32;
  }

  // A slot is free at most once.
  lemma FreeBound(owner: seq<nat>, free: seq<nat>, lists: map<nat, seq<nat>>)
    requires Partition(owner, free, lists)
    ensures |free| <= |owner|
  {
    PigeonHole(free, |owner|);
  }

  lemma Scaled(n: nat, capacity: nat, size: nat)
    requires n <= capacity
    ensures n * size <= capacity * size
  {
  }

  // In a context with maxElementCount entries and maxMeasureTextCacheWordCount
  // words, every array of a valid cache fits its block.
  lemma CacheFits(t: Cache.TextCache, c: Config)
    requires t.Valid() && t.entryCap == c.elements && t.wordCap == c.words && t.p.buckets <= c.elements && Narrow(c)
    ensures |t.m.entries| * c.size(MeasureTextCacheItem) <= Reserved(c, 3)
    ensures |t.m.entryFree| * c.size(Int32) <= Reserved(c, 4)
    ensures |t.m.wordFree| * c.size(Int32) <= Reserved(c, 5)
    ensures |t.m.buckets| * c.size(Int32) <= Reserved(c, 6)
    ensures |t.m.words| * c.size(MeasuredWord) <= Reserved(c, 7)
  {
    hide Reserved, Partition, M.LiveOk;
    FreeBound(t.g.home, t.m.entryFree, t.g.chains);
    FreeBound(t.g.owner, t.m.wordFree, t.g.lists);
    ReservedIs(c, 3);
    ReservedIs(c, 4);
    ReservedIs(c, 5);
    ReservedIs(c, 6);
    ReservedIs(c, 7);
    Scaled(|t.m.entries|, c.elements, c.size(MeasureTextCacheItem));
    Scaled(|t.m.entryFree|, c.elements, c.size(Int32));
    Scaled(|t.m.wordFree|, c.words, c.size(Int32));
    Scaled(|t.m.buckets|, c.elements, c.size(Int32));
    Scaled(|t.m.words|, c.words, c.size(MeasuredWord));
  }

  // The code takes a hash's bucket modulo a 32nd of the words, and the array of
  // buckets has as many places as there are elements: all buckets are inside
  // exactly if the words are not too many for the elements.
  lemma BucketsInside(p: M.Params, elements: nat)
    requires p.buckets > 0
    ensures (forall id: nat :: M.BucketOf(p, id) < elements) <==> p.buckets <= elements
  {
    if p.buckets > elements {
      assert M.BucketOf(p, p.buckets - 1) == p.buckets - 1;
    }
  }
}

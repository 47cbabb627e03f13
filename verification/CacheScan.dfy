// Scanning a bucket of the text-measurement cache for a hash, and evicting the
// stale entries met on the way.
module CacheScan {
  import opened Bits
  import opened CacheModel
  import opened CacheGrow
  import opened TextTokens
  import opened WordPool

  const WORD32: nat := 0x1_0000_0000

  // Generations are 32-bit counters: an entry last used more than two
  // generations ago is stale.
  predicate Stale(now: nat, stamp: nat) {
    (now - stamp) % WORD32 > 2
  }

  // The generation after `frames` more calls of BeginLayout.
  function Later(now: nat, frames: nat): nat {
    if frames == 0 then now else (Later(now, frames - 1) + 1) % WORD32
  }

  lemma {:induction false} LaterIs(now: nat, frames: nat)
    requires now < WORD32
    ensures Later(now, frames) == (now + frames) % WORD32
  {
    if frames > 0 {
      LaterIs(now, frames - 1);
      var before := now + frames - 1;
      ModShift(before % WORD32 + 1, WORD32, before / WORD32);
    } else {
      ModSmall(now, WORD32);
    }
  }

  // An entry used now outlives two frames and is stale at the third, until the
  // counter comes round.
  lemma StaleAfter(now: nat, frames: nat)
    requires now < WORD32
    ensures Stale(Later(now, frames), now) <==> frames % WORD32 > 2
  {
    LaterIs(now, frames);
    ModShift(frames, WORD32, -((now + frames) / WORD32));
  }

  // No two cached entries have the same hash.
  ghost predicate UniqueIds(p: Params, keys: map<nat, Key>) {
    forall x, y | x in keys && y in keys :: p.hash(keys[x]) == p.hash(keys[y]) ==> x == y
  }

  // Entry x is still cached for the same text, with the same words.
  ghost predicate Kept(m0: Mem, g0: Shape, m: Mem, g: Shape, x: nat) {
    && x in g0.keys && x in g.keys && g.keys[x] == g0.keys[x]
    && x in g0.lists && x in g.lists && g.lists[x] == g0.lists[x]
    && x < |m0.entries| && x < |m.entries| && x < |g0.home| && x < |g.home| && g.home[x] == g0.home[x]
    && m.entries[x].(nextIndex := 0, generation := 0) == m0.entries[x].(nextIndex := 0, generation := 0)
  }

  // And it has not been used since.
  ghost predicate Survives(m0: Mem, g0: Shape, m: Mem, g: Shape, x: nat) {
    Kept(m0, g0, m, g, x) && m.entries[x].generation == m0.entries[x].generation
  }

  // Entry x was stale, its bucket c - 1 was scanned, and not for its own hash.
  ghost predicate Dropped(m0: Mem, g0: Shape, g: Shape, now: nat, c: nat, id: nat, x: nat) {
    && x !in g.keys && x < |m0.entries| && x < |g0.home| && g0.home[x] == c
    && Stale(now, m0.entries[x].generation) && m0.entries[x].id != id
  }

  // Between two states only stale entries of one bucket went away.
  ghost predicate OnlyStaleGone(m0: Mem, g0: Shape, m: Mem, g: Shape, now: nat, c: nat, id: nat) {
    && (forall x | x in g0.keys :: Survives(m0, g0, m, g, x) || Dropped(m0, g0, g, now, c, id, x))
    && forall x | x in g.keys :: x in g0.keys
  }

  lemma NoneNew(m0: Mem, g0: Shape, m: Mem, g: Shape, now: nat, c: nat, id: nat, x: nat)
    requires OnlyStaleGone(m0, g0, m, g, now, c, id) && x in g.keys
    ensures x in g0.keys
  {
  }

  // A bucket without stale entries loses nothing.
  lemma NoneStaleNoneGone(m0: Mem, g0: Shape, m: Mem, g: Shape, now: nat, c: nat, id: nat, x: nat)
    requires OnlyStaleGone(m0, g0, m, g, now, c, id) && x in g0.keys
    requires x < |m0.entries| && x < |g0.home| && g0.home[x] == c ==> !Stale(now, m0.entries[x].generation)
    ensures x in g.keys
  {
    hide Stale;
  }

  lemma NothingGone(p: Params, m: Mem, g: Shape, now: nat, c: nat, id: nat)
    requires Ok(p, m, g)
    ensures OnlyStaleGone(m, g, m, g, now, c, id)
  {
    forall x | x in g.keys ensures Survives(m, g, m, g, x) {
      hide Ok;
      KeyFacts(p, m, g, x);
    }
  }

  // One more eviction of a stale entry.
  lemma EvictedGoneAt(p: Params, m0: Mem, g0: Shape, m: Mem, g: Shape, now: nat, c: nat, id: nat, k: nat, e: nat, prev: nat,
                      x: nat)
    requires Survives(m0, g0, m, g, x) && Evictable(p, m, g, c, k, e, prev)
    requires Stale(now, m.entries[e].generation) && m.entries[e].id != id
    ensures var m', g' := Evicted(m, c - 1, prev, e, g.lists[e]), EvictedShape(g, c, k);
            Survives(m0, g0, m', g', x) || Dropped(m0, g0, g', now, c, id, x)
  {
    hide Ok, Evicted, Stale, Removed;
    var m', g' := Evicted(m, c - 1, prev, e, g.lists[e]), EvictedShape(g, c, k);
    if x != e {
      EvictOther(p, m, g, c, k, e, prev, x);
      assert Survives(m0, g0, m', g', x);
    } else {
      ChainFacts(p, m, g, c);
      assert Dropped(m0, g0, g', now, c, id, x);
    }
  }

  lemma EvictedGone(p: Params, m0: Mem, g0: Shape, m: Mem, g: Shape, now: nat, c: nat, id: nat, k: nat, e: nat, prev: nat)
    requires OnlyStaleGone(m0, g0, m, g, now, c, id) && Evictable(p, m, g, c, k, e, prev)
    requires Stale(now, m.entries[e].generation) && m.entries[e].id != id
    ensures OnlyStaleGone(m0, g0, Evicted(m, c - 1, prev, e, g.lists[e]), EvictedShape(g, c, k), now, c, id)
  {
    hide Ok, Evicted, Stale, Removed, Survives;
    var m', g' := Evicted(m, c - 1, prev, e, g.lists[e]), EvictedShape(g, c, k);
    forall x | x in g0.keys ensures Survives(m0, g0, m', g', x) || Dropped(m0, g0, g', now, c, id, x) {
      if Survives(m0, g0, m, g, x) { EvictedGoneAt(p, m0, g0, m, g, now, c, id, k, e, prev, x); }
    }
  }

  // The first k entries of a chain are not the one looked for, nor stale.
  ghost predicate Searched(m: Mem, chain: seq<nat>, k: nat, id: nat, now: nat) {
    forall j | 0 <= j < k && j < |chain| ::
      chain[j] < |m.entries| && m.entries[chain[j]].id != id && !Stale(now, m.entries[chain[j]].generation)
  }

  // Entry k of a chain, with 0 past its end.
  ghost function HeadOf(chain: seq<nat>, k: nat): nat {
    if k < |chain| then chain[k] else 0
  }

  // A scan for hash `id` stands at entry e, number k of chain c, behind prev.
  ghost predicate Scanning(p: Params, m: Mem, g: Shape, c: nat, k: nat, e: nat, prev: nat, id: nat, now: nat) {
    && Ok(p, m, g) && UniqueIds(p, g.keys) && Pending(p) in g.chains && g.chains[Pending(p)] == []
    && 1 <= c <= p.buckets && c in g.chains && ChainIs(p, m, g, c, g.chains[c]) && k <= |g.chains[c]|
    && prev == Before(g.chains[c], k) && e == HeadOf(g.chains[c], k)
    && Searched(m, g.chains[c], k, id, now)
  }

  lemma ScanStarts(p: Params, m: Mem, g: Shape, c: nat, id: nat, now: nat)
    requires Ok(p, m, g) && UniqueIds(p, g.keys) && g.chains[Pending(p)] == [] && 1 <= c <= p.buckets
    ensures c - 1 < |m.buckets| && c in g.chains && Scanning(p, m, g, c, 0, m.buckets[c - 1], 0, id, now)
  {
    assert ChainsOk(p, m, g);
    hide Ok, UniqueIds;
    ChainFacts(p, m, g, c);
  }

  lemma ScanPast(p: Params, m: Mem, g: Shape, c: nat, k: nat, e: nat, prev: nat, id: nat, now: nat)
    requires Scanning(p, m, g, c, k, e, prev, id, now) && e != 0
    ensures k < |g.chains[c]| && e < |m.entries|
    ensures m.entries[e].id != id && !Stale(now, m.entries[e].generation) ==>
              Scanning(p, m, g, c, k + 1, m.entries[e].nextIndex, e, id, now)
  {
    hide Ok, UniqueIds, Stale;
    assert LinkAt(m.entries, g.chains[c], k);
  }

  lemma ScanCanEvict(p: Params, m: Mem, g: Shape, c: nat, k: nat, e: nat, prev: nat, id: nat, now: nat)
    requires Scanning(p, m, g, c, k, e, prev, id, now) && e != 0
    ensures Evictable(p, m, g, c, k, e, prev) && |m.buckets| == p.buckets && e in g.lists && prev < |m.entries|
  {
    hide Ok, UniqueIds, Stale, Chained;
    ChainFacts(p, m, g, c);
    assert 0 <= prev < |m.entries|;
  }

  lemma ScanStillUnique(p: Params, g: Shape, c: nat, k: nat)
    requires UniqueIds(p, g.keys) && c in g.chains && k < |g.chains[c]| && g.chains[c][k] < |g.home|
    ensures UniqueIds(p, EvictedShape(g, c, k).keys)
  {
  }

  lemma RemovedAt(chain: seq<nat>, k: nat)
    requires k < |chain|
    ensures |Removed(chain, k)| == |chain| - 1 && HeadOf(Removed(chain, k), k) == HeadOf(chain, k + 1)
    ensures Before(Removed(chain, k), k) == Before(chain, k)
    ensures forall j | 0 <= j < k :: Removed(chain, k)[j] == chain[j]
  {
  }

  lemma ScanStillSearched(p: Params, m: Mem, g: Shape, c: nat, k: nat, e: nat, prev: nat, id: nat, now: nat)
    requires Evictable(p, m, g, c, k, e, prev) && ChainIs(p, m, g, c, g.chains[c]) && Searched(m, g.chains[c], k, id, now)
    ensures Searched(Evicted(m, c - 1, prev, e, g.lists[e]), Removed(g.chains[c], k), k, id, now)
  {
    hide Ok, Stale, Evicted, Chained, Removed;
    var m', chain: seq<nat> := Evicted(m, c - 1, prev, e, g.lists[e]), g.chains[c];
    RemovedAt(chain, k);
    forall j | 0 <= j < k
      ensures chain[j] < |m'.entries| && m'.entries[chain[j]].id != id && !Stale(now, m'.entries[chain[j]].generation)
    {
      assert chain[j] != e;
      EvictOther(p, m, g, c, k, e, prev, chain[j]);
    }
  }

  lemma ScanEvicts(p: Params, m: Mem, g: Shape, c: nat, k: nat, e: nat, prev: nat, id: nat, now: nat)
    requires Scanning(p, m, g, c, k, e, prev, id, now) && Evictable(p, m, g, c, k, e, prev)
    ensures Scanning(p, Evicted(m, c - 1, prev, e, g.lists[e]), EvictedShape(g, c, k), c, k, m.entries[e].nextIndex,
                     prev, id, now)
    ensures var chains := EvictedShape(g, c, k).chains;
            c in chains && |chains[c]| == |g.chains[c]| - 1 && k <= |chains[c]|
    ensures e in g.keys && e !in EvictedShape(g, c, k).keys
    ensures Lost(p) in g.chains ==> var chains := EvictedShape(g, c, k).chains;
              Lost(p) in chains && chains[Lost(p)] == g.chains[Lost(p)]
  {
    hide Ok, UniqueIds, Evicted, Removed, Searched, Stale;
    assert LinkAt(m.entries, g.chains[c], k);
    EvictKeepsOk(p, m, g, c, k, e, prev);
    ScanStillUnique(p, g, c, k);
    ScanStillSearched(p, m, g, c, k, e, prev, id, now);
    RemovedAt(g.chains[c], k);
    ChainFacts(p, Evicted(m, c - 1, prev, e, g.lists[e]), EvictedShape(g, c, k), c);
  }

  // The scan stands at a cached entry.
  lemma ScanHit(p: Params, m: Mem, g: Shape, c: nat, k: nat, e: nat, prev: nat, id: nat, now: nat)
    requires Scanning(p, m, g, c, k, e, prev, id, now)
    ensures Ok(p, m, g) && UniqueIds(p, g.keys) && g.chains[Pending(p)] == []
    ensures e != 0 ==> e in g.keys && e < |m.entries|
  {
    assert ChainsOk(p, m, g);
    hide Ok, UniqueIds, Stale, Chained;
  }

  // The scan has reached the end of the chain.
  lemma ScanEnds(p: Params, m: Mem, g: Shape, c: nat, k: nat, prev: nat, id: nat, now: nat)
    requires Scanning(p, m, g, c, k, 0, prev, id, now)
    ensures Ok(p, m, g) && UniqueIds(p, g.keys) && g.chains[Pending(p)] == []
    ensures k == |g.chains[c]| && prev == Before(g.chains[c], k) && Searched(m, g.chains[c], k, id, now)
  {
    assert ChainsOk(p, m, g);
    hide Ok, UniqueIds, Stale, Chained;
  }

  // A chain searched in vain means that the hash is not cached at all.
  lemma NoneFound(p: Params, m: Mem, g: Shape, c: nat, id: nat, now: nat, x: nat)
    requires Ok(p, m, g) && c in g.chains && p.buckets > 0 && c == BucketOf(p, id) + 1 && x in g.keys
    requires Searched(m, g.chains[c], |g.chains[c]|, id, now)
    ensures p.hash(g.keys[x]) != id
  {
    KeyFacts(p, m, g, x);
    hide ChainsOk, LiveOk, Chained, Linked, TokensOf, Tokens, Stale;
    assert g.home[x] == c ==> x in g.chains[c];
  }
}

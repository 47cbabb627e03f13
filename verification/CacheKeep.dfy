// What a lookup keeps: every entry that is not stale stays cached, for the same
// text and with the same words.
module CacheKeep {
  import opened Options
  import opened CacheModel
  import opened CacheGrow
  import opened CacheFill
  import opened CacheScan
  import opened TextTokens
  import opened WordPool

  ghost predicate AllSurvive(m0: Mem, g0: Shape, m: Mem, g: Shape) {
    forall x | x in g0.keys :: Survives(m0, g0, m, g, x)
  }

  lemma SurviveOn(m0: Mem, g0: Shape, m1: Mem, g1: Shape, m2: Mem, g2: Shape)
    requires AllSurvive(m0, g0, m1, g1) && AllSurvive(m1, g1, m2, g2)
    ensures AllSurvive(m0, g0, m2, g2)
  {
    forall x | x in g0.keys ensures Survives(m0, g0, m2, g2, x) {
      assert Survives(m0, g0, m1, g1, x);
      assert Survives(m1, g1, m2, g2, x);
    }
  }

  // Everything survives, and one entry may have been stamped.
  ghost predicate KeptAt(m0: Mem, g0: Shape, m: Mem, g: Shape, r: Option<nat>, x: nat) {
    if r == Some(x) then Kept(m0, g0, m, g, x) else Survives(m0, g0, m, g, x)
  }

  ghost predicate AllKept(m0: Mem, g0: Shape, m: Mem, g: Shape, r: Option<nat>) {
    forall x | x in g0.keys :: KeptAt(m0, g0, m, g, r, x)
  }

  lemma SurviveIsKept(m0: Mem, g0: Shape, m: Mem, g: Shape, r: Option<nat>)
    requires AllSurvive(m0, g0, m, g)
    ensures AllKept(m0, g0, m, g, r)
  {
    forall x | x in g0.keys ensures KeptAt(m0, g0, m, g, r, x) {
      assert Survives(m0, g0, m, g, x);
    }
  }

  lemma PlaceKeeps(p: Params, m: Mem, g: Shape, item: Entry)
    requires Ok(p, m, g) && g.chains[Pending(p)] == []
    requires EntryFits(m, g)
    ensures AllSurvive(m, g, Placed(m, item), PlacedShape(p, m, g))
  {
    hide Ok, EntryOk;
    EntrySlotFree(p, m, g);
    forall x | x in g.keys ensures Survives(m, g, Placed(m, item), PlacedShape(p, m, g), x) {
      KeyFacts(p, m, g, x);
    }
  }

  lemma GrowKeeps(p: Params, m0: Mem, g0: Shape, m: Mem, g: Shape, e: nat)
    requires Ok(p, m0, g0) && OnlyGrew(m0, g0, m, g, e) && e !in g0.keys
    ensures AllSurvive(m0, g0, m, g)
  {
    hide Ok, EntryOk;
    forall x | x in g0.keys ensures Survives(m0, g0, m, g, x) {
      KeyFacts(p, m0, g0, x);
    }
  }

  lemma StampKeeps(p: Params, m: Mem, g: Shape, x: nat, item: Entry)
    requires Ok(p, m, g) && x < |m.entries|
    requires x in g.keys ==> item == m.entries[x].(generation := item.generation)
    ensures AllKept(m, g, m.(entries := m.entries[x := item]), g, Some(x))
  {
    hide Ok, EntryOk;
    forall y | y in g.keys ensures KeptAt(m, g, m.(entries := m.entries[x := item]), g, Some(x), y) {
      KeyFacts(p, m, g, y);
    }
  }

  // Filling in the entry under construction touches no cached entry.
  lemma FillInKeeps(p: Params, m: Mem, g: Shape, e: nat, item: Entry)
    requires Ok(p, m, g) && e < |m.entries| && e !in g.keys
    ensures AllSurvive(m, g, m.(entries := m.entries[e := item]), g)
  {
    hide Ok, EntryOk;
    forall y | y in g.keys ensures Survives(m, g, m.(entries := m.entries[e := item]), g, y) {
      KeyFacts(p, m, g, y);
    }
  }

  // Giving the entry under construction up touches no cached entry either.
  lemma LoseKeeps(p: Params, m: Mem, g: Shape, e: nat)
    requires Building(p, m, g, e) && Lost(p) in g.chains
    ensures AllSurvive(m, g, m, LostShape(p, g, e))
  {
    hide Ok, EntryOk;
    forall x | x in g.keys ensures Survives(m, g, m, LostShape(p, g, e), x) {
      KeyFacts(p, m, g, x);
    }
  }

  lemma LinkKeeps(p: Params, m: Mem, g: Shape, e: nat, key: Key, c: nat)
    requires Finished(p, m, g, e, key, c)
    ensures AllSurvive(m, g, AtEnd(m, g.chains[c], c - 1, e), LinkedShape(p, g, c, e, key))
  {
    hide Ok, EntryOk, AtEnd, Finished, Chained, ChainsOk, LiveOk;
    FinishedFacts(p, m, g, e, key, c);
    ChainFacts(p, m, g, c);
    AtEndFrame(m, g.chains[c], c - 1, e);
    forall x | x in g.keys ensures Survives(m, g, AtEnd(m, g.chains[c], c - 1, e), LinkedShape(p, g, c, e, key), x) {
      KeyFacts(p, m, g, x);
    }
  }

  // Every entry either stays or was stale, of the scanned bucket, and of
  // another hash.
  ghost predicate StaysOrStale(m0: Mem, g0: Shape, m: Mem, g: Shape, r: Option<nat>, now: nat, c: nat, id: nat,
                               x: nat)
  {
    || KeptAt(m0, g0, m, g, r, x)
    || (x < |m0.entries| && x < |g0.home| && g0.home[x] == c && m0.entries[x].id != id
        && Stale(now, m0.entries[x].generation))
  }

  lemma StaleGoneThenKept(m0: Mem, g0: Shape, m1: Mem, g1: Shape, m: Mem, g: Shape, r: Option<nat>, now: nat, c: nat,
                          id: nat)
    requires OnlyStaleGone(m0, g0, m1, g1, now, c, id) && AllKept(m1, g1, m, g, r)
    ensures forall x | x in g0.keys :: StaysOrStale(m0, g0, m, g, r, now, c, id, x)
    ensures forall x | x in g1.keys && r != Some(x) :: x in g0.keys && Survives(m0, g0, m, g, x)
  {
    hide Stale;
    forall x | x in g0.keys ensures StaysOrStale(m0, g0, m, g, r, now, c, id, x) {
      if Survives(m0, g0, m1, g1, x) { assert KeptAt(m1, g1, m, g, r, x); }
    }
    forall x | x in g1.keys && r != Some(x) ensures x in g0.keys && Survives(m0, g0, m, g, x) {
      assert Survives(m0, g0, m1, g1, x);
      assert KeptAt(m1, g1, m, g, r, x);
    }
  }

  // A scan finds the entry with the hash it looks for whenever there is one.
  lemma ScanFinds(p: Params, m0: Mem, g0: Shape, m: Mem, g: Shape, now: nat, c: nat, id: nat, hit: bool, e: nat)
    requires Ok(p, m0, g0) && Ok(p, m, g) && UniqueIds(p, g.keys) && OnlyStaleGone(m0, g0, m, g, now, c, id)
    requires if hit then e in g.keys && e < |m.entries| && m.entries[e].id == id
             else forall x | x in g.keys :: p.hash(g.keys[x]) != id
    ensures forall x | x in g0.keys && p.hash(g0.keys[x]) == id :: hit && x == e
    ensures forall x | x in g.keys :: x in g0.keys && g.keys[x] == g0.keys[x]
    ensures hit ==> p.hash(g.keys[e]) == id
  {
    hide Ok, Stale, Chained, Linked, TokensOf, Tokens;
    if hit { KeyFacts(p, m, g, e); }
    forall x | x in g.keys ensures x in g0.keys && g.keys[x] == g0.keys[x] {
      assert Survives(m0, g0, m, g, x);
    }
    forall x | x in g0.keys && p.hash(g0.keys[x]) == id ensures hit && x == e {
      KeyFacts(p, m0, g0, x);
      assert Survives(m0, g0, m, g, x);
    }
  }

  // What a lookup does.  A cached hash is found where it was; every entry that
  // goes was stale, in the scanned bucket, and of another hash; and nothing but
  // the entry returned is new.
  ghost predicate Outcome(p: Params, m0: Mem, g0: Shape, m: Mem, g: Shape, now: nat, key: Key, r: Option<nat>) {
    && p.buckets > 0
    && (forall x | x in g0.keys :: StaysOrStale(m0, g0, m, g, r, now, BucketOf(p, p.hash(key)) + 1, p.hash(key), x))
    && (forall x | x in g0.keys && p.hash(g0.keys[x]) == p.hash(key) :: r == Some(x))
    && (forall x | x in g.keys && r != Some(x) :: x in g0.keys && Survives(m0, g0, m, g, x))
    && (r.Some? ==> Returned(p, g0, m, g, now, key, r.value))
  }

  // The entry returned is stamped with this generation and has this hash.  It is
  // for this very text, unless another text with the same hash was cached.
  ghost predicate Returned(p: Params, g0: Shape, m: Mem, g: Shape, now: nat, key: Key, e: nat) {
    && e in g.keys && e < |m.entries| && m.entries[e].generation == now && p.hash(g.keys[e]) == p.hash(key)
    && (g.keys[e] == key || (e in g0.keys && g.keys[e] == g0.keys[e]))
  }

  lemma OutcomeOf(p: Params, m0: Mem, g0: Shape, m1: Mem, g1: Shape, m: Mem, g: Shape, now: nat, key: Key, hit: bool, e: nat,
                  r: Option<nat>)
    requires Ok(p, m0, g0) && Ok(p, m1, g1) && UniqueIds(p, g1.keys) && p.buckets > 0
    requires OnlyStaleGone(m0, g0, m1, g1, now, BucketOf(p, p.hash(key)) + 1, p.hash(key)) && AllKept(m1, g1, m, g, r)
    requires if hit then e in g1.keys && e < |m1.entries| && m1.entries[e].id == p.hash(key)
             else forall x | x in g1.keys :: p.hash(g1.keys[x]) != p.hash(key)
    requires if hit then r == Some(e) && g.keys == g1.keys
             else if r.None? then g.keys == g1.keys
             else r.value !in g1.keys && g.keys == g1.keys[r.value := key]
    requires r.Some? ==> r.value < |m.entries| && m.entries[r.value].generation == now
    ensures Outcome(p, m0, g0, m, g, now, key, r)
  {
    hide Ok, UniqueIds, OnlyStaleGone, AllKept, Stale, Kept, Survives, StaysOrStale, BucketOf;
    var c, id := BucketOf(p, p.hash(key)) + 1, p.hash(key);
    ScanFinds(p, m0, g0, m1, g1, now, c, id, hit, e);
    StaleGoneThenKept(m0, g0, m1, g1, m, g, r, now, c, id);
  }

  // A text was looked up in this generation and its entry is cached.
  ghost predicate Here(p: Params, m: Mem, g: Shape, now: nat, key: Key, r: Option<nat>) {
    r.Some? ==> && r.value in g.keys && p.hash(g.keys[r.value]) == p.hash(key)
                && r.value < |m.entries| && m.entries[r.value].generation == now
  }

  // Its entry is never evicted by another lookup in the same generation, and
  // looking the text up again finds it.
  lemma StillHere(p: Params, m0: Mem, g0: Shape, m: Mem, g: Shape, now: nat, key: Key, r: Option<nat>, key0: Key, r0: Option<nat>)
    requires Here(p, m0, g0, now, key0, r0) && Outcome(p, m0, g0, m, g, now, key, r)
    ensures Here(p, m, g, now, key0, r0)
    ensures r0.Some? && p.hash(key) == p.hash(key0) ==> r == r0
  {
    if r0.Some? {
      assert StaysOrStale(m0, g0, m, g, r, now, BucketOf(p, p.hash(key)) + 1, p.hash(key), r0.value);
    }
  }
}

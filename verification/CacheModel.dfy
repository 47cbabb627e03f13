// The memory of Clay's text-measurement cache and the shape it must have: cache
// entries chained into buckets, and for every entry its list of words.
module CacheModel {
  import opened Slots
  import opened TextTokens
  import opened WordPool

  // What a cached measurement is for: a text and its font settings.
  datatype Key = Key(text: string, config: nat)

  // Clay__MeasureTextCacheItem, without the measured dimensions.
  datatype Entry = Entry(id: nat, generation: nat, nextIndex: nat, wordsStart: int, newlines: bool)

  const BLANK := Entry(0, 0, 0, -1, false)

  // The number of buckets in use, the 32-bit hash, and the measuring function.
  datatype Params = Params(buckets: nat, hash: Key -> nat, measure: nat -> Measure)

  // The arrays of the context: measureTextHashMap, measureTextHashMapInternal
  // and measuredWords, with the free lists of the last two.
  datatype Mem = Mem(buckets: seq<nat>, entries: seq<Entry>, entryFree: seq<nat>,
                     words: seq<Word>, wordFree: seq<nat>)

  // Where everything is.  `chains` has the entries of bucket b under b + 1, and
  // under three more numbers the reserved entry 0, an entry under construction,
  // and entries that were given up half-way and are in nobody's reach.
  datatype Shape = Shape(home: seq<nat>, chains: map<nat, seq<nat>>,
                         owner: seq<nat>, lists: map<nat, seq<nat>>, keys: map<nat, Key>)

  function BucketOf(p: Params, id: nat): (b: nat)
    requires p.buckets > 0
    ensures b < p.buckets
  {
    id % p.buckets
  }

  function Reserved(p: Params): nat { p.buckets + 1 }

  function Pending(p: Params): nat { p.buckets + 2 }

  function Lost(p: Params): nat { p.buckets + 3 }

  // ------------------------------------------------------------------- shape

  // Entry k of a chain points at the next one, and the last one at 0.
  ghost predicate LinkAt(entries: seq<Entry>, chain: seq<nat>, k: nat)
    requires k < |chain|
  {
    && chain[k] < |entries|
    && entries[chain[k]].nextIndex == if k + 1 < |chain| then chain[k + 1] else 0
  }

  ghost predicate Chained(entries: seq<Entry>, head: nat, chain: seq<nat>) {
    && head == (if chain == [] then 0 else chain[0])
    && forall k: nat {:trigger LinkAt(entries, chain, k)} | k < |chain| :: LinkAt(entries, chain, k)
  }

  ghost predicate ChainsOk(p: Params, m: Mem, g: Shape) {
    && |m.buckets| == p.buckets >= 1 && |g.home| == |m.entries|
    && (forall b: nat :: b in g.chains <==> 1 <= b <= p.buckets + 3)
    && g.chains[Reserved(p)] == [0] && |g.chains[Pending(p)]| <= 1
    && forall b: nat {:trigger m.buckets[b]} | b < p.buckets :: Chained(m.entries, m.buckets[b], g.chains[b + 1])
  }

  // Every slot of both arrays is in exactly one place.
  ghost predicate PlacesOk(m: Mem, g: Shape) {
    && Partition(g.home, m.entryFree, g.chains)
    && |g.owner| == |m.words| && Partition(g.owner, m.wordFree, g.lists)
  }

  ghost predicate EntryOk(p: Params, m: Mem, g: Shape, e: nat)
    requires e in g.keys
  {
    && e < |m.entries| && e < |g.home| && e in g.lists && p.buckets > 0
    && m.entries[e].id == p.hash(g.keys[e]) && g.home[e] == BucketOf(p, m.entries[e].id) + 1
    && (m.entries[e].newlines <==> '\n' in g.keys[e].text)
    && Linked(m.words, m.entries[e].wordsStart, g.lists[e])
    && TokensOf(m.words, g.lists[e]) == Tokens(p.measure(g.keys[e].config), g.keys[e].text)
  }

  ghost predicate LiveOk(p: Params, m: Mem, g: Shape)
    requires Pending(p) in g.chains && Lost(p) in g.chains
  {
    && (forall e: nat :: e in g.keys <==> e < |g.home| && 1 <= g.home[e] <= p.buckets)
    && (forall e: nat :: e in g.lists <==> e in g.keys || e in g.chains[Pending(p)] || e in g.chains[Lost(p)])
    && forall e | e in g.keys :: EntryOk(p, m, g, e)
  }

  ghost predicate Ok(p: Params, m: Mem, g: Shape) {
    ChainsOk(p, m, g) && PlacesOk(m, g) && LiveOk(p, m, g)
  }

  // ---------------------------------------------------------------- eviction

  function Removed(s: seq<nat>, k: nat): seq<nat>
    requires k < |s|
  {
    s[..k] + s[k + 1..]
  }

  // Point what stands before a place in a chain, an entry or the bucket itself,
  // at another entry.
  function Pointed(m: Mem, b: nat, prev: nat, next: nat): Mem
    requires b < |m.buckets| && prev < |m.entries|
  {
    if prev == 0 then m.(buckets := m.buckets[b := next])
    else m.(entries := m.entries[prev := m.entries[prev].(nextIndex := next)])
  }

  function Evicted(m: Mem, b: nat, prev: nat, e: nat, list: seq<nat>): Mem
    requires b < |m.buckets| && prev < |m.entries| && e < |m.entries|
  {
    Pointed(m.(wordFree := m.wordFree + list, entries := m.entries[e := BLANK], entryFree := m.entryFree + [e]),
             b, prev, m.entries[e].nextIndex)
  }

  ghost function EvictedShape(g: Shape, c: nat, k: nat): Shape
    requires c in g.chains && k < |g.chains[c]| && g.chains[c][k] < |g.home|
  {
    var e := g.chains[c][k];
    Shape(g.home[e := 0], g.chains[c := Removed(g.chains[c], k)],
          Released(g.owner, e), g.lists - {e}, g.keys - {e})
  }

  lemma ChainedRemove(entries: seq<Entry>, entries': seq<Entry>, head: nat, head': nat, chain: seq<nat>, k: nat)
    requires Chained(entries, head, chain) && k < |chain| && LinkAt(entries, chain, k)
    requires var next := entries[chain[k]].nextIndex;
             if k == 0 then head' == next
             else head' == head && chain[k - 1] < |entries'| && entries'[chain[k - 1]].nextIndex == next
    requires forall j: nat | j < |chain| && j != k && j != k - 1 && LinkAt(entries, chain, j) :: LinkAt(entries', chain, j)
    ensures Chained(entries', head', Removed(chain, k))
  {
    var r := Removed(chain, k);
    assert forall j | 0 <= j < |r| :: r[j] == if j < k then chain[j] else chain[j + 1];
    forall j: nat | j < |r| ensures LinkAt(entries', r, j) {
      var i := if j < k then j else j + 1;
      assert LinkAt(entries, chain, i) && LinkAt(entries, chain, k);
      if j != k - 1 { assert LinkAt(entries', chain, i); }
    }
  }

  lemma ChainedSame(entries: seq<Entry>, entries': seq<Entry>, head: nat, chain: seq<nat>)
    requires Chained(entries, head, chain) && |entries'| >= |entries|
    requires forall j: nat | j < |chain| && chain[j] < |entries| :: entries'[chain[j]].nextIndex == entries[chain[j]].nextIndex
    ensures Chained(entries', head, chain)
  {
    forall k: nat | k < |chain| ensures LinkAt(entries', chain, k) {
      assert LinkAt(entries, chain, k);
    }
  }

  // The predecessor of entry k in a chain, with 0 for none.
  function Before(chain: seq<nat>, k: nat): nat
    requires k <= |chain|
  {
    if k == 0 then 0 else chain[k - 1]
  }

  // Chain number c, the chain of bucket c - 1, with what its place implies.
  ghost predicate ChainIs(p: Params, m: Mem, g: Shape, c: nat, chain: seq<nat>) {
    && 1 <= c <= p.buckets == |m.buckets| && c in g.chains && chain == g.chains[c]
    && Chained(m.entries, m.buckets[c - 1], chain) && Distinct(chain) && |g.home| == |m.entries|
    && forall k | 0 <= k < |chain| ::
         0 < chain[k] < |m.entries| && chain[k] in g.keys && chain[k] in g.lists && g.home[chain[k]] == c
  }

  lemma ChainFacts(p: Params, m: Mem, g: Shape, c: nat)
    requires Ok(p, m, g) && 1 <= c <= p.buckets
    ensures c in g.chains && ChainIs(p, m, g, c, g.chains[c])
  {
    hide Chained, Linked, TokensOf, Tokens;
    assert c in g.chains && Reserved(p) in g.chains;
    assert Owns(g.home, c, g.chains[c]) && Owns(g.home, Reserved(p), g.chains[Reserved(p)]);
    assert Chained(m.entries, m.buckets[c - 1], g.chains[c - 1 + 1]);
    var chain := g.chains[c];
    forall k | 0 <= k < |chain|
      ensures 0 < chain[k] < |m.entries| && chain[k] in g.keys && chain[k] in g.lists && g.home[chain[k]] == c
    {
      assert g.home[g.chains[Reserved(p)][0]] == Reserved(p);
    }
  }

  // Entry k of chain c, about to be evicted, and the state after that.
  ghost predicate Evictable(p: Params, m: Mem, g: Shape, c: nat, k: nat, e: nat, prev: nat) {
    && Ok(p, m, g) && 1 <= c <= p.buckets && c in g.chains && k < |g.chains[c]|
    && e == g.chains[c][k] && prev == Before(g.chains[c], k)
    && e < |m.entries| && prev < |m.entries| && e in g.lists && |m.buckets| == p.buckets && |g.home| == |m.entries|
  }

  // What an eviction leaves alone.
  lemma EvictedFrame(m: Mem, b: nat, prev: nat, e: nat, list: seq<nat>)
    requires b < |m.buckets| && prev < |m.entries| && e < |m.entries|
    ensures var m' := Evicted(m, b, prev, e, list);
            && m'.words == m.words && |m'.wordFree| >= |m.wordFree|
            && |m'.entries| == |m.entries| && |m'.buckets| == |m.buckets|
            && (forall c | 0 <= c < |m.buckets| && c != b :: m'.buckets[c] == m.buckets[c])
            && (forall x | 0 <= x < |m.entries| && x != e && (x != prev || prev == 0) :: m'.entries[x] == m.entries[x])
            && (prev != e && prev != 0 ==>
                  m'.entries[prev] == m.entries[prev].(nextIndex := m.entries[e].nextIndex) && m'.buckets == m.buckets)
            && (prev == 0 ==> m'.buckets[b] == m.entries[e].nextIndex)
  {
  }

  // Another entry loses at most its link.
  lemma EvictOther(p: Params, m: Mem, g: Shape, c: nat, k: nat, e: nat, prev: nat, x: nat)
    requires Evictable(p, m, g, c, k, e, prev) && x < |m.entries| && x != e
    ensures var m' := Evicted(m, c - 1, prev, e, g.lists[e]);
            |m'.entries| == |m.entries| && m'.entries[x].(nextIndex := 0) == m.entries[x].(nextIndex := 0)
    ensures e < |g.home| && g.home[e] == c
  {
    hide Ok, Evicted, Chained;
    ChainFacts(p, m, g, c);
    EvictedFrame(m, c - 1, prev, e, g.lists[e]);
  }

  lemma EvictOwnChain(p: Params, m: Mem, g: Shape, c: nat, k: nat, e: nat, prev: nat)
    requires Evictable(p, m, g, c, k, e, prev)
    ensures var m' := Evicted(m, c - 1, prev, e, g.lists[e]);
            |m'.buckets| == |m.buckets| && Chained(m'.entries, m'.buckets[c - 1], Removed(g.chains[c], k))
  {
    hide Ok, Evicted;
    ChainFacts(p, m, g, c);
    EvictedFrame(m, c - 1, prev, e, g.lists[e]);
    var chain: seq<nat>, m' := g.chains[c], Evicted(m, c - 1, prev, e, g.lists[e]);
    assert LinkAt(m.entries, chain, k);
    forall j: nat | j < |chain| && j != k && j != k - 1 && LinkAt(m.entries, chain, j)
      ensures LinkAt(m'.entries, chain, j)
    {
      assert chain[j] != e && (prev == 0 || chain[j] != prev);
    }
    hide Removed;
    ChainedRemove(m.entries, m'.entries, m.buckets[c - 1], m'.buckets[c - 1], chain, k);
  }

  lemma EvictOtherChain(p: Params, m: Mem, g: Shape, c: nat, k: nat, e: nat, prev: nat, b: nat)
    requires Evictable(p, m, g, c, k, e, prev) && b < p.buckets && b + 1 != c && b + 1 in g.chains
    ensures var m' := Evicted(m, c - 1, prev, e, g.lists[e]);
            |m'.buckets| == |m.buckets| && Chained(m'.entries, m'.buckets[b], g.chains[b + 1])
  {
    hide Ok, Evicted, Chained;
    ChainFacts(p, m, g, c);
    ChainFacts(p, m, g, b + 1);
    EvictedFrame(m, c - 1, prev, e, g.lists[e]);
    ChainedSame(m.entries, Evicted(m, c - 1, prev, e, g.lists[e]).entries, m.buckets[b], g.chains[b + 1]);
  }

  lemma EvictChains(p: Params, m: Mem, g: Shape, c: nat, k: nat, e: nat, prev: nat)
    requires Evictable(p, m, g, c, k, e, prev)
    ensures ChainsOk(p, Evicted(m, c - 1, prev, e, g.lists[e]), EvictedShape(g, c, k))
  {
    hide Chained, Evicted, PlacesOk, LiveOk, Removed;
    var m', g' := Evicted(m, c - 1, prev, e, g.lists[e]), EvictedShape(g, c, k);
    EvictedFrame(m, c - 1, prev, e, g.lists[e]);
    EvictOwnChain(p, m, g, c, k, e, prev);
    forall b: nat | b < p.buckets ensures Chained(m'.entries, m'.buckets[b], g'.chains[b + 1]) {
      if b + 1 != c { EvictOtherChain(p, m, g, c, k, e, prev, b); }
    }
  }

  lemma EvictPlaces(p: Params, m: Mem, g: Shape, c: nat, k: nat, e: nat, prev: nat)
    requires Evictable(p, m, g, c, k, e, prev)
    ensures PlacesOk(Evicted(m, c - 1, prev, e, g.lists[e]), EvictedShape(g, c, k))
  {
    hide Partition, LiveOk, ChainsOk;
    FreePartition(g.home, m.entryFree, g.chains, c, k);
    ReleasePartition(g.owner, m.wordFree, g.lists, e);
  }

  // An entry with the same words and the same place is as good as before.
  lemma EntryStays(p: Params, m: Mem, g: Shape, m': Mem, g': Shape, x: nat)
    requires x in g.keys && EntryOk(p, m, g, x)
    requires m'.words == m.words && x < |m'.entries|
    requires m'.entries[x].(nextIndex := 0, generation := 0) == m.entries[x].(nextIndex := 0, generation := 0)
    requires x < |g'.home| && g'.home[x] == g.home[x]
    requires x in g'.lists && g'.lists[x] == g.lists[x] && x in g'.keys && g'.keys[x] == g.keys[x]
    ensures EntryOk(p, m', g', x)
  {
    hide Linked, TokensOf, Tokens;
  }

  lemma EvictEntry(p: Params, m: Mem, g: Shape, c: nat, k: nat, e: nat, prev: nat, x: nat)
    requires Evictable(p, m, g, c, k, e, prev) && x in g.keys && x != e
    ensures x in EvictedShape(g, c, k).keys
    ensures EntryOk(p, Evicted(m, c - 1, prev, e, g.lists[e]), EvictedShape(g, c, k), x)
  {
    hide ChainsOk, PlacesOk, Linked, TokensOf, Tokens, Evicted;
    EvictedFrame(m, c - 1, prev, e, g.lists[e]);
    assert EntryOk(p, m, g, x);
    var m', g' := Evicted(m, c - 1, prev, e, g.lists[e]), EvictedShape(g, c, k);
    EvictOther(p, m, g, c, k, e, prev, x);
    EntryStays(p, m, g, m', g', x);
  }

  lemma EvictLive(p: Params, m: Mem, g: Shape, c: nat, k: nat, e: nat, prev: nat)
    requires Evictable(p, m, g, c, k, e, prev)
    ensures Pending(p) in g.chains && Lost(p) in g.chains
    ensures LiveOk(p, Evicted(m, c - 1, prev, e, g.lists[e]), EvictedShape(g, c, k))
  {
    hide PlacesOk, ChainsOk, Chained, EntryOk, Evicted, Removed;
    ChainFacts(p, m, g, c);
    PendingApart(p, m, g, e);
    var m', g' := Evicted(m, c - 1, prev, e, g.lists[e]), EvictedShape(g, c, k);
    forall x | x in g'.keys ensures EntryOk(p, m', g', x) {
      EvictEntry(p, m, g, c, k, e, prev, x);
    }
  }

  lemma PendingApart(p: Params, m: Mem, g: Shape, e: nat)
    requires Ok(p, m, g) && e in g.keys
    ensures Pending(p) in g.chains && e !in g.chains[Pending(p)]
    ensures Lost(p) in g.chains && e !in g.chains[Lost(p)]
  {
    assert Owns(g.home, Pending(p), g.chains[Pending(p)]);
    assert Owns(g.home, Lost(p), g.chains[Lost(p)]);
  }

  // Evicting an entry keeps the shape: its words and its slot go to the free
  // lists once, and its chain closes over it.
  lemma EvictKeepsOk(p: Params, m: Mem, g: Shape, c: nat, k: nat, e: nat, prev: nat)
    requires Evictable(p, m, g, c, k, e, prev)
    ensures Ok(p, Evicted(m, c - 1, prev, e, g.lists[e]), EvictedShape(g, c, k))
  {
    EvictChains(p, m, g, c, k, e, prev);
    EvictPlaces(p, m, g, c, k, e, prev);
    EvictLive(p, m, g, c, k, e, prev);
  }
}

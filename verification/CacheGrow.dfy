// How the text-measurement cache grows: a new entry takes a slot, collects its
// words one by one, and is linked at the end of its chain.  Each step keeps the
// shape of the cache.
module CacheGrow {
  import opened CacheModel
  import opened Slots
  import opened TextTokens
  import opened WordPool

  // --------------------------------------------------------- shared arguments

  // A cached entry and where it is.
  lemma KeyFacts(p: Params, m: Mem, g: Shape, x: nat)
    requires Ok(p, m, g) && x in g.keys
    ensures 0 < x < |m.entries| == |g.home| && 1 <= g.home[x] <= p.buckets && x in g.lists && EntryOk(p, m, g, x)
    ensures x !in g.chains[Pending(p)] && x !in g.chains[Lost(p)]
  {
    hide Chained, EntryOk;
    assert Owns(g.home, Pending(p), g.chains[Pending(p)]);
    assert Owns(g.home, Lost(p), g.chains[Lost(p)]);
    assert Owns(g.home, Reserved(p), g.chains[Reserved(p)]);
    assert EntryOk(p, m, g, x);
    assert g.home[g.chains[Reserved(p)][0]] == Reserved(p);
  }

  // The bucket chains stand as long as no cached entry changes its link.
  lemma ChainsStay(p: Params, m: Mem, g: Shape, m': Mem, g': Shape)
    requires Ok(p, m, g)
    requires m'.buckets == m.buckets && |m'.entries| >= |m.entries| && |g'.home| == |m'.entries|
    requires forall x | x in g.keys && x < |m.entries| :: m'.entries[x].nextIndex == m.entries[x].nextIndex
    requires g'.chains.Keys == g.chains.Keys && Pending(p) in g'.chains && |g'.chains[Pending(p)]| <= 1
    requires forall c | c in g.chains && c != Pending(p) :: g'.chains[c] == g.chains[c]
    ensures ChainsOk(p, m', g')
  {
    assert ChainsOk(p, m, g);
    forall b: nat | b < p.buckets ensures Chained(m'.entries, m'.buckets[b], g'.chains[b + 1]) {
      hide Ok, Chained;
      ChainFacts(p, m, g, b + 1);
      ChainedSame(m.entries, m'.entries, m.buckets[b], g.chains[b + 1]);
    }
    hide Ok, Chained;
  }

  // --------------------------------------------------------------- a new entry

  // The slot that a new entry takes: the last free one, or a new one.
  function EntrySlot(m: Mem): nat {
    if m.entryFree == [] then |m.entries| else m.entryFree[|m.entryFree| - 1]
  }

  // What an eviction frees last is taken first.
  lemma LastFreedFirst(m: Mem, b: nat, prev: nat, e: nat, list: seq<nat>)
    requires b < |m.buckets| && prev < |m.entries| && e < |m.entries|
    ensures EntrySlot(Evicted(m, b, prev, e, list)) == e
    ensures list != [] ==> WordSlot(Evicted(m, b, prev, e, list)) == list[|list| - 1]
  {
  }

  // A slot that exists or the one behind the last.
  ghost predicate EntryFits(m: Mem, g: Shape) {
    EntrySlot(m) <= |m.entries| == |g.home| && (m.entryFree != [] ==> EntrySlot(m) < |m.entries|)
  }

  function Placed(m: Mem, item: Entry): Mem
    requires EntrySlot(m) <= |m.entries| && (m.entryFree != [] ==> EntrySlot(m) < |m.entries|)
  {
    if m.entryFree == [] then m.(entries := m.entries + [item])
    else m.(entries := m.entries[EntrySlot(m) := item], entryFree := m.entryFree[..|m.entryFree| - 1])
  }

  ghost function PlacedShape(p: Params, m: Mem, g: Shape): Shape
    requires m.entryFree != [] ==> EntrySlot(m) < |g.home|
  {
    var e := EntrySlot(m);
    g.(home := if m.entryFree == [] then g.home + [Pending(p)] else g.home[e := Pending(p)],
       chains := g.chains[Pending(p) := [e]], lists := g.lists[e := []])
  }

  // The slot is nobody's.
  lemma EntrySlotFree(p: Params, m: Mem, g: Shape)
    requires Ok(p, m, g) && g.chains[Pending(p)] == []
    ensures EntrySlot(m) > 0 && EntryFits(m, g)
    ensures EntrySlot(m) !in g.keys && EntrySlot(m) !in g.lists
    ensures m.entryFree != [] ==> g.home[EntrySlot(m)] == 0
  {
    hide Chained, EntryOk;
    assert Owns(g.home, Reserved(p), g.chains[Reserved(p)]);
    assert Owns(g.home, Lost(p), g.chains[Lost(p)]);
    assert g.home[g.chains[Reserved(p)][0]] == Reserved(p);
    if m.entryFree != [] { assert g.home[m.entryFree[|m.entryFree| - 1]] == 0; }
  }

  lemma PlacePlaces(p: Params, m: Mem, g: Shape, item: Entry)
    requires Ok(p, m, g) && g.chains[Pending(p)] == []
    requires EntryFits(m, g)
    ensures PlacesOk(Placed(m, item), PlacedShape(p, m, g))
  {
    EntrySlotFree(p, m, g);
    hide Partition, LiveOk;
    assert [] + [EntrySlot(m)] == [EntrySlot(m)];
    if m.entryFree == [] {
      ExtendPartition(g.home, m.entryFree, g.chains, Pending(p));
    } else {
      ReusePartition(g.home, m.entryFree, g.chains, Pending(p));
    }
    NewListPartition(g.owner, m.wordFree, g.lists, EntrySlot(m));
  }

  lemma PlaceEntry(p: Params, m: Mem, g: Shape, item: Entry, x: nat)
    requires Ok(p, m, g) && g.chains[Pending(p)] == [] && x in g.keys
    requires EntryFits(m, g)
    ensures EntryOk(p, Placed(m, item), PlacedShape(p, m, g), x)
  {
    KeyFacts(p, m, g, x);
    EntrySlotFree(p, m, g);
    hide Ok, EntryOk;
    EntryStays(p, m, g, Placed(m, item), PlacedShape(p, m, g), x);
  }

  lemma PlaceLive(p: Params, m: Mem, g: Shape, item: Entry)
    requires Ok(p, m, g) && g.chains[Pending(p)] == []
    requires EntryFits(m, g)
    ensures LiveOk(p, Placed(m, item), PlacedShape(p, m, g))
  {
    hide ChainsOk, PlacesOk, EntryOk;
    EntrySlotFree(p, m, g);
    var m', g' := Placed(m, item), PlacedShape(p, m, g);
    forall x | x in g'.keys ensures EntryOk(p, m', g', x) {
      PlaceEntry(p, m, g, item, x);
    }
  }

  lemma PlaceChains(p: Params, m: Mem, g: Shape, item: Entry)
    requires Ok(p, m, g) && g.chains[Pending(p)] == []
    requires EntryFits(m, g)
    ensures ChainsOk(p, Placed(m, item), PlacedShape(p, m, g))
  {
    EntrySlotFree(p, m, g);
    hide PlacesOk, LiveOk, Chained;
    ChainsStay(p, m, g, Placed(m, item), PlacedShape(p, m, g));
  }

  lemma PlaceKeepsOk(p: Params, m: Mem, g: Shape, item: Entry)
    requires Ok(p, m, g) && g.chains[Pending(p)] == []
    ensures EntryFits(m, g)
    ensures Ok(p, Placed(m, item), PlacedShape(p, m, g))
  {
    EntrySlotFree(p, m, g);
    hide ChainsOk, PlacesOk, LiveOk, Placed, PlacedShape;
    PlacePlaces(p, m, g, item);
    PlaceLive(p, m, g, item);
    PlaceChains(p, m, g, item);
  }

  lemma PlacedFrame(p: Params, m: Mem, g: Shape, item: Entry)
    requires EntryFits(m, g)
    ensures var m', g', e := Placed(m, item), PlacedShape(p, m, g), EntrySlot(m);
            && e < |m'.entries| && m'.entries[e] == item && m'.words == m.words && m'.wordFree == m.wordFree
            && g'.keys == g.keys && e in g'.lists && g'.lists[e] == []
            && forall c | c in g.chains && c != Pending(p) :: c in g'.chains && g'.chains[c] == g.chains[c]
  {
  }

  // ---------------------------------------------------------------- a new word

  // Entry e is under construction.
  ghost predicate Building(p: Params, m: Mem, g: Shape, e: nat) {
    && Ok(p, m, g) && Pending(p) in g.chains && g.chains[Pending(p)] == [e]
    && e < |m.entries| == |g.home| && e in g.lists && e !in g.keys
    && forall k | 0 <= k < |g.lists[e]| :: g.lists[e][k] < |m.words|
  }

  lemma BuildingFacts(p: Params, m: Mem, g: Shape, e: nat)
    requires Ok(p, m, g) && g.chains[Pending(p)] == [e]
    ensures Building(p, m, g, e) && g.home[e] == Pending(p)
  {
    hide Chained, EntryOk;
    assert Owns(g.home, Pending(p), g.chains[Pending(p)]);
    assert g.home[g.chains[Pending(p)][0]] == Pending(p);
    assert e in g.chains[Pending(p)];
    assert Owns(g.owner, e, g.lists[e]);
  }

  // The slot that a new word takes.
  function WordSlot(m: Mem): nat {
    if m.wordFree == [] then |m.words| else m.wordFree[|m.wordFree| - 1]
  }

  ghost predicate WordFits(m: Mem, g: Shape) {
    WordSlot(m) <= |m.words| == |g.owner| && (m.wordFree != [] ==> WordSlot(m) < |m.words|)
  }

  function Added(m: Mem, list: seq<nat>, t: Token): Mem
    requires WordSlot(m) <= |m.words| && forall k | 0 <= k < |list| :: list[k] < |m.words|
  {
    m.(words := Hooked(m.words, list, WordSlot(m), t),
       wordFree := if m.wordFree == [] then [] else m.wordFree[..|m.wordFree| - 1])
  }

  ghost function AddedShape(m: Mem, g: Shape, e: nat): Shape
    requires e in g.lists && (m.wordFree != [] ==> WordSlot(m) < |g.owner|)
  {
    var w := WordSlot(m);
    g.(owner := if m.wordFree == [] then g.owner + [e] else g.owner[w := e], lists := g.lists[e := g.lists[e] + [w]])
  }

  // The slot is on nobody's list.
  lemma WordSlotFree(p: Params, m: Mem, g: Shape)
    requires Ok(p, m, g)
    ensures WordFits(m, g)
    ensures forall x, k | x in g.lists && 0 <= k < |g.lists[x]| :: g.lists[x][k] < |m.words| && g.lists[x][k] != WordSlot(m)
  {
    hide ChainsOk, LiveOk;
    if m.wordFree != [] { assert g.owner[m.wordFree[|m.wordFree| - 1]] == 0; }
    forall x, k | x in g.lists && 0 <= k < |g.lists[x]|
      ensures g.lists[x][k] < |m.words| && g.lists[x][k] != WordSlot(m)
    {
      assert Owns(g.owner, x, g.lists[x]);
    }
  }

  lemma AddPlaces(p: Params, m: Mem, g: Shape, e: nat, t: Token)
    requires Building(p, m, g, e) && WordFits(m, g)
    ensures PlacesOk(Added(m, g.lists[e], t), AddedShape(m, g, e))
  {
    hide Partition, LiveOk, ChainsOk;
    if m.wordFree == [] {
      ExtendPartition(g.owner, m.wordFree, g.lists, e);
    } else {
      ReusePartition(g.owner, m.wordFree, g.lists, e);
    }
  }

  lemma AddEntry(p: Params, m: Mem, g: Shape, e: nat, t: Token, x: nat)
    requires Building(p, m, g, e) && WordFits(m, g)
    requires x in g.keys
    ensures EntryOk(p, Added(m, g.lists[e], t), AddedShape(m, g, e), x)
  {
    hide Ok, Linked, Hooked, Tokens, WordSlot;
    KeyFacts(p, m, g, x);
    OtherListApart(p, m, g, e, x);
    var list, other := g.lists[e], g.lists[x];
    HookedOthers(m.words, list, WordSlot(m), t, m.entries[x].wordsStart, other);
    assert TokensOf(Hooked(m.words, list, WordSlot(m), t), other) == TokensOf(m.words, other);
  }

  // The words of a cached entry are neither on the list under construction nor
  // in the slot that comes next.
  lemma OtherListApart(p: Params, m: Mem, g: Shape, e: nat, x: nat)
    requires Building(p, m, g, e) && x in g.keys && x in g.lists
    ensures forall k | 0 <= k < |g.lists[x]| ::
              g.lists[x][k] < |m.words| && g.lists[x][k] != WordSlot(m) && g.lists[x][k] !in g.lists[e]
  {
    hide ChainsOk, LiveOk, Partition, WordSlot;
    WordSlotFree(p, m, g);
    var list, other := g.lists[e], g.lists[x];
    forall k | 0 <= k < |other| ensures other[k] !in list {
      forall j | 0 <= j < |list| ensures list[j] != other[k] {
        ListsApart(g.owner, m.wordFree, g.lists, e, x, j, k);
      }
    }
  }

  lemma AddChains(p: Params, m: Mem, g: Shape, e: nat, t: Token)
    requires Building(p, m, g, e) && WordFits(m, g)
    ensures ChainsOk(p, Added(m, g.lists[e], t), AddedShape(m, g, e))
  {
    hide PlacesOk, LiveOk, Chained, Hooked;
  }

  lemma AddLive(p: Params, m: Mem, g: Shape, e: nat, t: Token)
    requires Building(p, m, g, e) && WordFits(m, g)
    ensures LiveOk(p, Added(m, g.lists[e], t), AddedShape(m, g, e))
  {
    hide ChainsOk, PlacesOk, EntryOk, Hooked;
    var m', g' := Added(m, g.lists[e], t), AddedShape(m, g, e);
    forall x | x in g'.keys ensures EntryOk(p, m', g', x) {
      AddEntry(p, m, g, e, t, x);
    }
  }

  lemma AddKeepsOk(p: Params, m: Mem, g: Shape, e: nat, t: Token)
    requires Building(p, m, g, e)
    ensures WordFits(m, g)
    ensures Ok(p, Added(m, g.lists[e], t), AddedShape(m, g, e))
  {
    WordSlotFree(p, m, g);
    hide ChainsOk, PlacesOk, LiveOk, Added, AddedShape;
    AddPlaces(p, m, g, e, t);
    AddChains(p, m, g, e, t);
    AddLive(p, m, g, e, t);
  }

  // The list of the entry under construction, as the words are hooked onto it.
  lemma AddGrowsList(p: Params, m: Mem, g: Shape, e: nat, t: Token, head: int)
    requires Building(p, m, g, e) && Linked(m.words, head, g.lists[e])
    requires WordFits(m, g)
    ensures var m', list := Added(m, g.lists[e], t), g.lists[e] + [WordSlot(m)];
            && Linked(m'.words, if g.lists[e] == [] then WordSlot(m) else head, list)
            && TokensOf(m'.words, list) == TokensOf(m.words, g.lists[e]) + [t]
  {
    WordSlotFree(p, m, g);
    assert Owns(g.owner, e, g.lists[e]);
    hide Ok, Linked, Hooked, TokensOf;
    HookedLinked(m.words, head, g.lists[e], WordSlot(m), t);
    HookedTokens(m.words, g.lists[e], WordSlot(m), t);
  }

  // ------------------------------------------------------- rewriting an entry

  // A cached entry may be stamped with another generation, and the entry under
  // construction may be filled in.
  lemma StampKeepsOk(p: Params, m: Mem, g: Shape, x: nat, item: Entry)
    requires Ok(p, m, g) && x < |m.entries|
    requires x in g.keys ==> item == m.entries[x].(generation := item.generation)
    ensures Ok(p, m.(entries := m.entries[x := item]), g)
  {
    var m' := m.(entries := m.entries[x := item]);
    assert PlacesOk(m', g);
    assert ChainsOk(p, m', g) by {
      hide PlacesOk, LiveOk, Chained;
      ChainsStay(p, m, g, m', g);
    }
    hide ChainsOk, PlacesOk, EntryOk;
    forall y | y in g.keys ensures EntryOk(p, m', g, y) {
      KeyFacts(p, m, g, y);
      EntryStays(p, m, g, m', g, y);
    }
    assert LiveOk(p, m', g);
  }

  // ------------------------------------------------------ giving an entry up

  // The entry under construction keeps its slot and its words, and nothing
  // leads there any more.
  ghost function LostShape(p: Params, g: Shape, e: nat): Shape
    requires Lost(p) in g.chains && e < |g.home|
  {
    g.(home := g.home[e := Lost(p)], chains := g.chains[Pending(p) := []][Lost(p) := g.chains[Lost(p)] + [e]])
  }

  lemma LosePlaces(p: Params, m: Mem, g: Shape, e: nat)
    requires Building(p, m, g, e) && Lost(p) in g.chains
    ensures PlacesOk(m, LostShape(p, g, e))
  {
    hide Partition, LiveOk, Chained;
    MovePartition(g.home, m.entryFree, g.chains, Pending(p), Lost(p));
  }

  lemma LoseLive(p: Params, m: Mem, g: Shape, e: nat)
    requires Building(p, m, g, e) && Lost(p) in g.chains
    ensures LiveOk(p, m, LostShape(p, g, e))
  {
    hide ChainsOk, PlacesOk, EntryOk;
    var g' := LostShape(p, g, e);
    BuildingFacts(p, m, g, e);
    forall x | x in g.keys ensures EntryOk(p, m, g', x) {
      KeyFacts(p, m, g, x);
      EntryStays(p, m, g, m, g', x);
    }
  }

  lemma LoseKeepsOk(p: Params, m: Mem, g: Shape, e: nat)
    requires Building(p, m, g, e)
    ensures Lost(p) in g.chains && Ok(p, m, LostShape(p, g, e)) && LostShape(p, g, e).chains[Pending(p)] == []
  {
    assert ChainsOk(p, m, LostShape(p, g, e)) by {
      hide PlacesOk, LiveOk, Chained;
    }
    hide ChainsOk, PlacesOk, LiveOk;
    LosePlaces(p, m, g, e);
    LoseLive(p, m, g, e);
  }

  // ------------------------------------------------------ linking a new entry

  lemma ChainedAppend(entries: seq<Entry>, entries': seq<Entry>, head: nat, head': nat, chain: seq<nat>, e: nat)
    requires Chained(entries, head, chain) && e < |entries'| && entries'[e].nextIndex == 0
    requires if chain == [] then head' == e
             else head' == head && chain[|chain| - 1] < |entries'| && entries'[chain[|chain| - 1]].nextIndex == e
    requires forall j: nat | j < |chain| - 1 && LinkAt(entries, chain, j) :: LinkAt(entries', chain, j)
    ensures Chained(entries', head', chain + [e])
  {
    var r := chain + [e];
    forall j: nat | j < |r| ensures LinkAt(entries', r, j) {
      if j < |chain| - 1 {
        assert LinkAt(entries, chain, j);
        assert LinkAt(entries', chain, j);
      }
    }
  }

  // The finished entry e and the chain it belongs to.
  ghost predicate Finished(p: Params, m: Mem, g: Shape, e: nat, key: Key, c: nat) {
    && Building(p, m, g, e) && p.buckets > 0 && c in g.chains && c == BucketOf(p, p.hash(key)) + 1
    && m.entries[e].id == p.hash(key) && m.entries[e].nextIndex == 0
    && (m.entries[e].newlines <==> '\n' in key.text)
    && Linked(m.words, m.entries[e].wordsStart, g.lists[e])
    && TokensOf(m.words, g.lists[e]) == Tokens(p.measure(key.config), key.text)
    && c - 1 < |m.buckets| && Before(g.chains[c], |g.chains[c]|) < |m.entries|
  }

  function AtEnd(m: Mem, chain: seq<nat>, b: nat, e: nat): Mem
    requires b < |m.buckets| && Before(chain, |chain|) < |m.entries|
  {
    Pointed(m, b, Before(chain, |chain|), e)
  }

  ghost function LinkedShape(p: Params, g: Shape, c: nat, e: nat, key: Key): Shape
    requires c in g.chains && e < |g.home|
  {
    g.(home := g.home[e := c], chains := g.chains[Pending(p) := []][c := g.chains[c] + [e]], keys := g.keys[e := key])
  }

  lemma FinishedFacts(p: Params, m: Mem, g: Shape, e: nat, key: Key, c: nat)
    requires Finished(p, m, g, e, key, c)
    ensures 1 <= c <= p.buckets == |m.buckets| && e < |g.home| == |m.entries| && e !in g.keys
    ensures Pending(p) in g.chains && g.chains[Pending(p)] == [e]
    ensures Ok(p, m, g) && ChainsOk(p, m, g) && LiveOk(p, m, g)
    ensures c in g.chains && Before(g.chains[c], |g.chains[c]|) < |m.entries| && m.entries[e].nextIndex == 0
  {
    hide Chained, EntryOk, PlacesOk, Linked, TokensOf, Tokens, BucketOf;
  }

  lemma AtEndFrame(m: Mem, chain: seq<nat>, b: nat, e: nat)
    requires b < |m.buckets| && Before(chain, |chain|) < |m.entries|
    requires forall k | 0 <= k < |chain| :: chain[k] > 0
    ensures var m' := AtEnd(m, chain, b, e);
            && m' == m.(buckets := m'.buckets, entries := m'.entries)
            && |m'.entries| == |m.entries| && |m'.buckets| == |m.buckets|
            && (forall c | 0 <= c < |m.buckets| && c != b :: m'.buckets[c] == m.buckets[c])
            && (forall x | 0 <= x < |m.entries| && (chain == [] || x != chain[|chain| - 1]) :: m'.entries[x] == m.entries[x])
            && (if chain == [] then m'.buckets[b] == e
                else m'.buckets == m.buckets
                     && m'.entries[chain[|chain| - 1]] == m.entries[chain[|chain| - 1]].(nextIndex := e))
  {
  }

  lemma AtEndSizes(m: Mem, chain: seq<nat>, b: nat, e: nat)
    requires b < |m.buckets| && Before(chain, |chain|) < |m.entries|
    ensures var m' := AtEnd(m, chain, b, e);
            && m'.words == m.words && m'.wordFree == m.wordFree && |m'.entries| == |m.entries|
            && forall x | 0 <= x < |m.entries| :: m'.entries[x].generation == m.entries[x].generation
  {
  }

  // The end of a bucket chain.
  lemma ChainLast(p: Params, m: Mem, g: Shape, c: nat)
    requires Ok(p, m, g) && 1 <= c <= p.buckets
    ensures c in g.chains && |m.buckets| == p.buckets && Before(g.chains[c], |g.chains[c]|) < |m.entries|
  {
    assert Owns(g.home, Reserved(p), g.chains[Reserved(p)]);
    assert g.chains[Reserved(p)][0] < |m.entries|;
    hide Ok, Chained;
    ChainFacts(p, m, g, c);
  }

  lemma LinkOwnChain(p: Params, m: Mem, g: Shape, e: nat, key: Key, c: nat)
    requires Finished(p, m, g, e, key, c)
    ensures var m' := AtEnd(m, g.chains[c], c - 1, e);
            |m'.buckets| == |m.buckets| && Chained(m'.entries, m'.buckets[c - 1], g.chains[c] + [e])
  {
    hide Ok, AtEnd, Finished, LiveOk;
    FinishedFacts(p, m, g, e, key, c);
    ChainFacts(p, m, g, c);
    var chain: seq<nat>, m' := g.chains[c], AtEnd(m, g.chains[c], c - 1, e);
    AtEndFrame(m, chain, c - 1, e);
    forall j: nat | j < |chain| - 1 && LinkAt(m.entries, chain, j) ensures LinkAt(m'.entries, chain, j) {
      assert chain[j] != chain[|chain| - 1];
    }
    ChainedAppend(m.entries, m'.entries, m.buckets[c - 1], m'.buckets[c - 1], chain, e);
  }

  lemma LinkOtherChain(p: Params, m: Mem, g: Shape, e: nat, key: Key, c: nat, b: nat)
    requires Finished(p, m, g, e, key, c) && b < p.buckets && b + 1 != c && b + 1 in g.chains
    ensures var m' := AtEnd(m, g.chains[c], c - 1, e);
            |m'.buckets| == |m.buckets| && Chained(m'.entries, m'.buckets[b], g.chains[b + 1])
  {
    hide Ok, AtEnd, Finished, LiveOk, Chained;
    FinishedFacts(p, m, g, e, key, c);
    ChainFacts(p, m, g, c);
    ChainFacts(p, m, g, b + 1);
    AtEndFrame(m, g.chains[c], c - 1, e);
    ChainedSame(m.entries, AtEnd(m, g.chains[c], c - 1, e).entries, m.buckets[b], g.chains[b + 1]);
  }

  lemma LinkChain(p: Params, m: Mem, g: Shape, e: nat, key: Key, c: nat, b: nat)
    requires Finished(p, m, g, e, key, c) && b < p.buckets
    ensures var m', g' := AtEnd(m, g.chains[c], c - 1, e), LinkedShape(p, g, c, e, key);
            |m'.buckets| == p.buckets && b + 1 in g'.chains && Chained(m'.entries, m'.buckets[b], g'.chains[b + 1])
  {
    hide Ok, AtEnd, Linked, TokensOf, Tokens, Chained;
    ChainLast(p, m, g, c);
    ChainLast(p, m, g, b + 1);
    if b + 1 == c {
      LinkOwnChain(p, m, g, e, key, c);
    } else {
      LinkOtherChain(p, m, g, e, key, c, b);
    }
  }

  lemma LinkChains(p: Params, m: Mem, g: Shape, e: nat, key: Key, c: nat)
    requires Finished(p, m, g, e, key, c)
    ensures ChainsOk(p, AtEnd(m, g.chains[c], c - 1, e), LinkedShape(p, g, c, e, key))
  {
    hide Ok, AtEnd, Chained, Finished, LiveOk;
    FinishedFacts(p, m, g, e, key, c);
    AtEndSizes(m, g.chains[c], c - 1, e);
    var m', g' := AtEnd(m, g.chains[c], c - 1, e), LinkedShape(p, g, c, e, key);
    forall b: nat | b < p.buckets ensures |m'.buckets| == p.buckets && Chained(m'.entries, m'.buckets[b], g'.chains[b + 1]) {
      LinkChain(p, m, g, e, key, c, b);
    }
    LinkChain(p, m, g, e, key, c, 0);
  }

  lemma LinkPlaces(p: Params, m: Mem, g: Shape, e: nat, key: Key, c: nat)
    requires Finished(p, m, g, e, key, c)
    ensures PlacesOk(AtEnd(m, g.chains[c], c - 1, e), LinkedShape(p, g, c, e, key))
  {
    hide Partition, LiveOk, ChainsOk, AtEnd, Finished, Chained;
    FinishedFacts(p, m, g, e, key, c);
    ChainFacts(p, m, g, c);
    AtEndFrame(m, g.chains[c], c - 1, e);
    MovePartition(g.home, m.entryFree, g.chains, Pending(p), c);
  }

  lemma LinkEntry(p: Params, m: Mem, g: Shape, e: nat, key: Key, c: nat, x: nat)
    requires Finished(p, m, g, e, key, c) && (x == e || x in g.keys)
    ensures EntryOk(p, AtEnd(m, g.chains[c], c - 1, e), LinkedShape(p, g, c, e, key), x)
  {
    hide Ok, AtEnd, Chained, LiveOk, ChainsOk, Linked, TokensOf, Tokens, BucketOf;
    FinishedFacts(p, m, g, e, key, c);
    ChainFacts(p, m, g, c);
    AtEndFrame(m, g.chains[c], c - 1, e);
    var m', g' := AtEnd(m, g.chains[c], c - 1, e), LinkedShape(p, g, c, e, key);
    if x != e {
      KeyFacts(p, m, g, x);
      EntryStays(p, m, g, m', g', x);
    }
  }

  lemma LinkLive(p: Params, m: Mem, g: Shape, e: nat, key: Key, c: nat)
    requires Finished(p, m, g, e, key, c)
    ensures LiveOk(p, AtEnd(m, g.chains[c], c - 1, e), LinkedShape(p, g, c, e, key))
  {
    hide Ok, ChainsOk, Finished, EntryOk, AtEnd;
    FinishedFacts(p, m, g, e, key, c);
    var m', g' := AtEnd(m, g.chains[c], c - 1, e), LinkedShape(p, g, c, e, key);
    forall x | x in g'.keys ensures EntryOk(p, m', g', x) {
      LinkEntry(p, m, g, e, key, c, x);
    }
  }

  // The finished entry becomes the last of its chain.
  lemma LinkKeepsOk(p: Params, m: Mem, g: Shape, e: nat, key: Key, c: nat)
    requires Finished(p, m, g, e, key, c)
    ensures Ok(p, AtEnd(m, g.chains[c], c - 1, e), LinkedShape(p, g, c, e, key))
  {
    hide ChainsOk, PlacesOk, LiveOk, AtEnd, LinkedShape, Linked, TokensOf, Tokens;
    LinkChains(p, m, g, e, key, c);
    LinkPlaces(p, m, g, e, key, c);
    LinkLive(p, m, g, e, key, c);
  }
}

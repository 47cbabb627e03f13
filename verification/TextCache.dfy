// Clay's text-measurement cache: looking a text up, and measuring a text that is
// not there.
module TextCache {
  import opened Options
  import opened CacheFate
  import opened CacheModel
  import opened CacheGrow
  import opened CacheScan
  import opened CacheFill
  import opened CacheKeep
  import opened CacheRoom
  import opened Slots
  import opened TextTokens
  import opened WordPool

  // Adding to an array of the context, which does nothing when it is full.
  function Push(s: seq<nat>, cap: nat, x: nat): seq<nat> {
    if |s| < cap then s + [x] else s
  }

  lemma HasBuckets(p: Params, m: Mem, g: Shape)
    requires Ok(p, m, g)
    ensures p.buckets > 0 && Pending(p) in g.chains && Lost(p) in g.chains
  {
  }

  // The free lists are long enough for what may come back to them.
  lemma WordsHaveRoom(p: Params, m: Mem, g: Shape, e: nat)
    requires Ok(p, m, g) && e in g.keys
    ensures e < |m.entries| && e in g.lists && Linked(m.words, m.entries[e].wordsStart, g.lists[e])
    ensures |m.wordFree| + |g.lists[e]| <= |m.words|
  {
    KeyFacts(p, m, g, e);
    hide ChainsOk, LiveOk, Partition, Linked, TokensOf, Tokens;
    FreeRoom(g.owner, m.wordFree, g.lists, e);
  }

  lemma EntriesHaveRoom(p: Params, m: Mem, g: Shape, c: nat)
    requires Ok(p, m, g) && c in g.chains
    ensures |m.entryFree| + |g.chains[c]| <= |m.entries|
  {
    hide LiveOk, Partition, Chained;
    FreeRoom(g.home, m.entryFree, g.chains, c);
  }

  // An empty cache, whose entry 0 is never used.
  function EmptyMem(p: Params): Mem {
    Mem(seq(p.buckets, b => 0), [BLANK], [], [], [])
  }

  ghost function EmptyShape(p: Params): Shape {
    Shape([Reserved(p)], map c: nat | 1 <= c <= p.buckets + 3 :: EmptyChain(p, c), [], map[], map[])
  }

  ghost function EmptyChain(p: Params, c: nat): seq<nat> {
    if c == Reserved(p) then [0] else []
  }

  lemma EmptyOk(p: Params)
    requires p.buckets > 0
    ensures Ok(p, EmptyMem(p), EmptyShape(p)) && EmptyShape(p).chains[Pending(p)] == [] && Lost(p) in EmptyShape(p).chains
    ensures UniqueIds(p, EmptyShape(p).keys)
  {
    var m, g := EmptyMem(p), EmptyShape(p);
    forall w: nat | w < |g.home| ensures g.home[w] != 0 && g.home[w] in g.chains && w in g.chains[g.home[w]] {
      assert g.chains[Reserved(p)][0] == 0;
    }
  }

  ghost predicate CachedId(p: Params, keys: map<nat, Key>, id: nat) {
    exists x :: x in keys && p.hash(keys[x]) == id
  }

  // An entry with this hash is cached that no lookup of this generation evicts.
  ghost predicate Settled(p: Params, m: Mem, g: Shape, now: nat, id: nat) {
    exists x :: x in g.keys && p.hash(g.keys[x]) == id && x < |m.entries| && !Stale(now, m.entries[x].generation)
  }

  // The texts of a frame that may still have to be measured.
  ghost function Unsettled(p: Params, m: Mem, g: Shape, now: nat, texts: seq<Key>): set<Key> {
    set k | k in texts && !Settled(p, m, g, now, p.hash(k))
  }

  lemma SettledStays(p: Params, m0: Mem, g0: Shape, m: Mem, g: Shape, now: nat, key: Key, r: Option<nat>, id: nat)
    requires Outcome(p, m0, g0, m, g, now, key, r) && Settled(p, m0, g0, now, id)
    ensures Settled(p, m, g, now, id)
  {
    var x :| x in g0.keys && p.hash(g0.keys[x]) == id && x < |m0.entries| && !Stale(now, m0.entries[x].generation);
    assert StaysOrStale(m0, g0, m, g, r, now, BucketOf(p, p.hash(key)) + 1, p.hash(key), x);
    assert !Stale(now, now);
    hide Stale;
    assert x in g.keys && p.hash(g.keys[x]) == id && x < |m.entries| && !Stale(now, m.entries[x].generation);
  }

  lemma ReturnedSettles(p: Params, m0: Mem, g0: Shape, m: Mem, g: Shape, now: nat, key: Key, r: Option<nat>)
    requires Outcome(p, m0, g0, m, g, now, key, r) && r.Some?
    ensures Settled(p, m, g, now, p.hash(key))
  {
    assert !Stale(now, now);
    hide Stale;
    assert Returned(p, g0, m, g, now, key, r.value);
  }

  // The room that a frame began with is enough for its next text.
  lemma RoomForNext(p: Params, m: Mem, g: Shape, now: nat, texts: seq<Key>, key: Key, cap: nat)
    requires Room(m, SumWords(p, Unsettled(p, m, g, now, texts)), cap) && key in texts
    ensures CachedId(p, g.keys, p.hash(key)) || Room(m, WordCount(p, key), cap)
  {
    hide SumWords, WordCount, Stale;
    var keys := Unsettled(p, m, g, now, texts);
    if !CachedId(p, g.keys, p.hash(key)) {
      assert key in keys;
      SumApart(p, keys, key);
    }
  }

  // And it stays enough for the others.
  lemma RoomStays(p: Params, m0: Mem, g0: Shape, m: Mem, g: Shape, now: nat, texts: seq<Key>, key: Key, r: Option<nat>,
                  cap: nat)
    requires Room(m0, SumWords(p, Unsettled(p, m0, g0, now, texts)), cap) && key in texts
    requires Outcome(p, m0, g0, m, g, now, key, r)
    requires Used(m0, m, if r.None? || CachedId(p, g0.keys, p.hash(key)) then 0 else WordCount(p, key))
    ensures Room(m, SumWords(p, Unsettled(p, m, g, now, texts)), cap)
  {
    hide SumWords, WordCount, Stale, Outcome, Settled;
    var before, after := Unsettled(p, m0, g0, now, texts), Unsettled(p, m, g, now, texts);
    forall k | k in after ensures k in before {
      if Settled(p, m0, g0, now, p.hash(k)) { SettledStays(p, m0, g0, m, g, now, key, r, p.hash(k)); }
    }
    if r.None? || CachedId(p, g0.keys, p.hash(key)) {
      SumSmaller(p, after, before);
    } else {
      NotCachedNotSettled(p, m0, g0, now, p.hash(key));
      ReturnedSettles(p, m0, g0, m, g, now, key, r);
      SumApart(p, before, key);
      SumSmaller(p, after, before - {key});
    }
    RoomLeft(m0, m, SumWords(p, before), SumWords(p, after), cap);
  }

  lemma NotCachedNotSettled(p: Params, m: Mem, g: Shape, now: nat, id: nat)
    requires !CachedId(p, g.keys, id)
    ensures !Settled(p, m, g, now, id)
  {
    hide Stale;
  }

  lemma NowHere(p: Params, m0: Mem, g0: Shape, m: Mem, g: Shape, now: nat, key: Key, r: Option<nat>)
    requires Outcome(p, m0, g0, m, g, now, key, r)
    ensures Here(p, m, g, now, key, r)
  {
  }

  // Linking an entry for a hash that is not cached keeps the hashes apart.
  lemma NewIdUnique(p: Params, keys: map<nat, Key>, e: nat, key: Key)
    requires UniqueIds(p, keys) && forall x | x in keys :: p.hash(keys[x]) != p.hash(key)
    ensures UniqueIds(p, keys[e := key])
  {
  }

  lemma NothingLost(p: Params, m: Mem, g: Shape)
    requires Ok(p, m, g)
    ensures AllSurvive(m, g, m, g)
  {
    hide Ok, EntryOk;
    forall x | x in g.keys ensures Survives(m, g, m, g, x) {
      KeyFacts(p, m, g, x);
    }
  }

  lemma BuildingHas(p: Params, m: Mem, g: Shape, e: nat)
    requires Building(p, m, g, e)
    ensures Ok(p, m, g) && e < |m.entries| == |g.home| && e in g.lists && e !in g.keys
  {
    hide Ok;
  }

  lemma FinishedIs(p: Params, m: Mem, g: Shape, e: nat, key: Key, c: nat)
    requires Building(p, m, g, e) && p.buckets > 0 && c == BucketOf(p, p.hash(key)) + 1
    requires m.entries[e].id == p.hash(key) && m.entries[e].nextIndex == 0 && (m.entries[e].newlines <==> '\n' in key.text)
    requires Linked(m.words, m.entries[e].wordsStart, g.lists[e])
    requires TokensOf(m.words, g.lists[e]) == Tokens(p.measure(key.config), key.text)
    ensures c in g.chains && Finished(p, m, g, e, key, c)
  {
    hide Ok, Linked, TokensOf, Tokens;
    ChainLast(p, m, g, c);
  }

  // At the end of a text nothing is left to be decided.
  lemma CutDone(wordCap: nat, text: string)
    ensures forall s: Store {:trigger FateOf(s, wordCap, text, |text|, |text|)} ::
              FateOf(s, wordCap, text, |text|, |text|) == Fits
  {
  }

  class TextCache {
    const p: Params
    const entryCap: nat
    const wordCap: nat
    var generation: nat
    var m: Mem
    ghost var g: Shape

    // Every slot of both arrays is in exactly one place, every chain and every
    // word list is linked through its slots and ends, and every cached entry has
    // the words of its text.
    ghost predicate Valid()
      reads this
    {
      && Ok(p, m, g) && g.chains[Pending(p)] == [] && Lost(p) in g.chains && UniqueIds(p, g.keys)
      && |m.entries| < entryCap && 2 <= entryCap && |m.words| <= wordCap && generation < WORD32
    }

    // No slot for a new entry, and none that a scan for this text could free.
    ghost predicate NoSlot(key: Key)
      requires Valid()
      reads this
    {
      && m.entryFree == [] && |m.entries| == entryCap - 1
      && forall x | x in g.keys && x < |g.home| && x < |m.entries| && g.home[x] == BucketOf(p, p.hash(key)) + 1 ::
           !Stale(generation, m.entries[x].generation)
    }

    // A text that has to be measured has room for its words.
    ghost predicate HasRoom(key: Key)
      requires Valid()
      reads this
    {
      CachedId(p, g.keys, p.hash(key)) || NoSlot(key) || Room(m, WordCount(p, key), wordCap)
    }

    // No slot for a new entry.
    predicate Crowded(m: Mem) { m.entryFree == [] && |m.entries| == entryCap - 1 }

    // The words of an evicted entry go to the free list.
    method FreeWords(e: nat)
      requires Ok(p, m, g) && e in g.keys && |m.words| <= wordCap
      modifies this`m
      ensures e in g.lists && m == old(m).(wordFree := old(m.wordFree) + g.lists[e])
    {
      hide Ok, EntryOk;
      WordsHaveRoom(p, m, g, e);
      ghost var list, m0 := g.lists[e], m;
      var next := m.entries[e].wordsStart;
      ghost var k := 0;
      while next != -1
        invariant 0 <= k <= |list| && next == if k < |list| then list[k] else -1
        invariant m == m0.(wordFree := m0.wordFree + list[..k])
        decreases |list| - k
      {
        assert WordAt(m0.words, list, k);
        m := m.(wordFree := Push(m.wordFree, wordCap, next));
        next := m.words[next].next;
        k := k + 1;
        assert list[..k] == list[..k - 1] + [list[k - 1]];
      }
      assert list[..k] == list;
    }

    // Entry e of bucket b, behind entry prev, is stale: give up its words, its
    // slot and its place in the chain.
    method Evict(b: nat, prev: nat, e: nat, ghost k: nat) returns (next: nat)
      requires Evictable(p, m, g, b + 1, k, e, prev) && |m.words| <= wordCap && |m.entries| <= entryCap
      modifies this`m, this`g
      ensures m == Evicted(old(m), b, prev, e, old(g.lists[e])) && g == EvictedShape(old(g), b + 1, k)
      ensures next == old(m.entries[e].nextIndex) && Ok(p, m, g)
    {
      hide Ok, Chained, Removed;
      ChainFacts(p, m, g, b + 1);
      EvictKeepsOk(p, m, g, b + 1, k, e, prev);
      EntriesHaveRoom(p, m, g, b + 1);
      FreeWords(e);
      next := m.entries[e].nextIndex;
      m := m.(entries := m.entries[e := BLANK]);
      m := m.(entryFree := Push(m.entryFree, entryCap, e));
      if prev == 0 {
        m := m.(buckets := m.buckets[b := next]);
      } else {
        m := m.(entries := m.entries[prev := m.entries[prev].(nextIndex := next)]);
      }
      g := EvictedShape(g, b + 1, k);
    }

    // Walk a bucket's chain for an entry with this hash, evicting every stale
    // entry met on the way.  Without a hit, prev is the last entry of the chain.
    method Find(b: nat, id: nat) returns (hit: bool, e: nat, prev: nat)
      requires Valid() && b < p.buckets
      modifies this`m, this`g
      ensures Valid() && OnlyStaleGone(old(m), old(g), m, g, generation, b + 1, id)
      ensures m.words == old(m.words) && |m.wordFree| >= |old(m.wordFree)| && |m.entries| == |old(m.entries)|
      ensures g.chains[Lost(p)] == old(g.chains[Lost(p)])
      ensures m.entryFree == old(m.entryFree) || exists x :: x in old(g.keys) && x !in g.keys
      ensures hit ==> e in g.keys && e < |m.entries| && m.entries[e].id == id
      ensures b + 1 in g.chains && (!hit ==> Searched(m, g.chains[b + 1], |g.chains[b + 1]|, id, generation))
      ensures !hit ==> prev == Before(g.chains[b + 1], |g.chains[b + 1]|)
    {
      hide Ok, OnlyStaleGone, Scanning, Searched, Stale, Evicted, EvictedShape, Evictable, UniqueIds, Before;
      ghost var m0, g0, c, k := m, g, b + 1, 0;
      HasBuckets(p, m, g);
      ScanStarts(p, m, g, c, id, generation);
      NothingGone(p, m, g, generation, c, id);
      prev := 0;
      e := m.buckets[b];
      while e != 0
        invariant Scanning(p, m, g, c, k, e, prev, id, generation) && c in g.chains && k <= |g.chains[c]|
        invariant |m.entries| == |m0.entries| && |m.wordFree| >= |m0.wordFree|
        invariant Lost(p) in g.chains && g.chains[Lost(p)] == g0.chains[Lost(p)]
        invariant OnlyStaleGone(m0, g0, m, g, generation, c, id) && m.words == m0.words
        invariant m.entryFree == m0.entryFree || exists x :: x in g0.keys && x !in g.keys
        decreases |g.chains[c]| - k
      {
        ScanPast(p, m, g, c, k, e, prev, id, generation);
        if m.entries[e].id == id {
          ScanHit(p, m, g, c, k, e, prev, id, generation);
          return true, e, prev;
        }
        if Stale(generation, m.entries[e].generation) {
          ScanCanEvict(p, m, g, c, k, e, prev, id, generation);
          ScanEvicts(p, m, g, c, k, e, prev, id, generation);
          EvictedGone(p, m0, g0, m, g, generation, c, id, k, e, prev);
          EvictedFrame(m, b, prev, e, g.lists[e]);
          NoneNew(m0, g0, m, g, generation, c, id, e);
          e := Evict(b, prev, e, k);
        } else {
          prev := e;
          e := m.entries[e].nextIndex;
          k := k + 1;
        }
      }
      ScanEnds(p, m, g, c, k, prev, id, generation);
      hit := false;
    }

    // Store one more word of the entry under construction, in a free slot or a
    // new one, behind the word in slot `previous`.
    method AddMeasuredWord(t: Token, previous: int, ghost e: nat, ghost first: int, ghost all: seq<Token>,
                           ghost rest: seq<Token>)
      returns (w: nat)
      requires Filling(p, m, g, e, first, previous, all, rest) && rest != [] && t == rest[0]
      modifies this`m, this`g
      ensures WordSlot(old(m)) <= |old(m.words)| == |old(g.owner)|
      ensures old(m.wordFree) != [] ==> WordSlot(old(m)) < |old(m.words)|
      ensures w == WordSlot(old(m)) && m == Added(old(m), old(g.lists[e]), t) && g == AddedShape(old(m), old(g), e)
      ensures Filling(p, m, g, e, if first == -1 then w else first, w, all, rest[1..])
    {
      hide Ok, Linked, TokensOf;
      FillAdds(p, m, g, e, first, previous, all, rest);
      ghost var m0, list := m, g.lists[e];
      hide Filling;
      if |m.wordFree| > 0 {
        w := m.wordFree[|m.wordFree| - 1];
        m := m.(wordFree := m.wordFree[..|m.wordFree| - 1]);
        m := m.(words := m.words[w := Word(t, -1)]);
        if previous != -1 {
          m := m.(words := m.words[previous := m.words[previous].(next := w)]);
        }
      } else {
        w := |m.words|;
        if previous != -1 {
          m := m.(words := m.words[previous := m.words[previous].(next := w)]);
        }
        m := m.(words := m.words + [Word(t, -1)]);
      }
      assert m.words == Hooked(m0.words, list, w, t);
      g := AddedShape(m0, g, e);
    }

    // The same, with the list's first slot kept, as the caller's dummy word does.
    // `overrun` says that there is no slot; the code would hook the word onto
    // nothing then.
    method Append(t: Token, first: int, previous: int, ghost e: nat, ghost all: seq<Token>, ghost rest: seq<Token>,
                  ghost m0: Mem, ghost g0: Shape)
      returns (first': int, previous': int, overrun: bool)
      requires Filling(p, m, g, e, first, previous, all, rest) && rest != [] && t == rest[0] && |m.words| <= wordCap
      requires OnlyGrew(m0, g0, m, g, e)
      modifies this`m, this`g
      ensures overrun <==> !HasSlots(Now(old(m)), wordCap, 1)
      ensures !overrun ==> Filling(p, m, g, e, first', previous', all, rest[1..]) && OnlyGrew(m0, g0, m, g, e)
      ensures !overrun ==> m.entries == old(m.entries) && Used(old(m), m, 1) && Now(m) == Take(Now(old(m)), 1)
    {
      hide Ok, Linked, TokensOf, Hooked, OnlyGrew;
      first', previous', overrun := first, previous, m.wordFree == [] && |m.words| == wordCap;
      if overrun {
        return;
      }
      FillAdds(p, m, g, e, first, previous, all, rest);
      GrewMore(m0, g0, m, g, e, t);
      hide Filling, Added, AddedShape;
      previous' := AddMeasuredWord(t, previous, e, first, all, rest);
      first' := if first == -1 then previous' else first;
    }

    // Store the words that a separator, or the end of the text, completes.
    method Separate(f: Measure, text: string, start: nat, end: nat, first: int, previous: int, e: nat,
                    ghost m0: Mem, ghost g0: Shape)
      returns (first': int, previous': int, overrun: bool)
      requires Cutting(p, wordCap, m0, g0, m, g, e, f, text, start, end, first, previous)
      requires end < |text| && (text[end] == ' ' || text[end] == '\n') && |m.words| != wordCap - 1
      modifies this`m, this`g
      ensures overrun ==> FateOf(Now(m0), wordCap, text, 0, 0) == Overrun
      ensures !overrun ==> Cutting(p, wordCap, m0, g0, m, g, e, f, text, end + 1, end + 1, first', previous')
    {
      hide Ok, Building, Linked, TokensOf, Hooked, Filling, OnlyGrew, Scan, Tokens, Newlines, FateOf;
      ghost var rest, all := Scan(f, text, start, end), Tokens(f, text);
      CutAt(p, wordCap, m0, g0, m, g, e, f, text, start, end, first, previous);
      NewlinesUpTo(text, end);
      first', previous' := first, previous;
      var width := if start < end then f(text[start..end]) else 0.0;
      if text[end] == ' ' {
        ScanAtSpace(f, text, start, end);
        first', previous', overrun :=
          Append(Token(start, end - start + 1, width + f(" ")), first', previous', e, all, rest, m0, g0);
      } else {
        ScanAtNewline(f, text, start, end);
        if start < end {
          first', previous', overrun := Append(Token(start, end - start, width), first', previous', e, all, rest, m0, g0);
          if overrun {
            return;
          }
          rest := rest[1..];
        }
        first', previous', overrun := Append(Token(end + 1, 0, 0.0), first', previous', e, all, rest, m0, g0);
        if overrun {
          return;
        }
        FillStamps(p, m, g, e, first', previous', all, rest[1..], m.entries[e].(newlines := true));
        GrewStamped(m0, g0, m, g, e, m.entries[e].(newlines := true));
        m := m.(entries := m.entries[e := m.entries[e].(newlines := true)]);
        assert rest[1..] == Scan(f, text, end + 1, end + 1);
      }
    }

    method LastWord(f: Measure, text: string, start: nat, first: int, previous: int, ghost e: nat, ghost m0: Mem,
                    ghost g0: Shape)
      returns (first': int, ghost previous': int, overrun: bool)
      requires Cutting(p, wordCap, m0, g0, m, g, e, f, text, start, |text|, first, previous)
      modifies this`m, this`g
      ensures FateOf(Now(m0), wordCap, text, 0, 0) == if overrun then Overrun else Fits
      ensures !overrun ==> Cutting(p, wordCap, m0, g0, m, g, e, f, text, |text|, |text|, first', previous')
    {
      hide Ok, Building, Linked, TokensOf, Hooked, Filling, OnlyGrew, Scan, Tokens, Newlines, FateOf;
      CutLast(p, wordCap, m0, g0, m, g, e, f, text, start, first, previous);
      CutDone(wordCap, text);
      ScanAtEnd(f, text, start);
      ScanAtEnd(f, text, |text|);
      ghost var rest, all := Scan(f, text, start, |text|), Tokens(f, text);
      first', previous', overrun := first, previous, false;
      if |text| - start > 0 {
        first', previous', overrun :=
          Append(Token(start, |text| - start, f(text[start..|text|])), first, previous, e, all, rest, m0, g0);
      }
    }

    // Cut a text into words and store them, one behind the other, as far as the
    // array of words goes.
    method Tokenise(key: Key, e: nat) returns (first: int, fate: Fate)
      requires Building(p, m, g, e) && g.lists[e] == [] && !m.entries[e].newlines && |m.words| <= wordCap
      modifies this`m, this`g
      ensures fate == FateOf(Now(old(m)), wordCap, key.text, 0, 0)
      ensures fate != Overrun ==> Building(p, m, g, e) && OnlyGrew(old(m), old(g), m, g, e)
      ensures fate != Overrun ==> |old(m.words)| <= |m.words| <= wordCap
      ensures fate == NoWords ==> |m.words| == wordCap - 1
      ensures fate == Fits ==> Linked(m.words, first, g.lists[e])
      ensures fate == Fits ==> TokensOf(m.words, g.lists[e]) == Tokens(p.measure(key.config), key.text)
      ensures fate == Fits ==> Used(old(m), m, WordCount(p, key))
      ensures fate == Fits ==> m.entries[e] == old(m.entries[e]).(newlines := '\n' in key.text)
    {
      hide Building, Linked, TokensOf, OnlyGrew, Tokens, Cutting, FateOf;
      var f, text := p.measure(key.config), key.text;
      ghost var m0, g0 := m, g;
      CutStarts(p, wordCap, m, g, e, f, text);
      var start, end, previous: int := 0, 0, -1;
      first := -1;
      while end < |text|
        invariant end <= |text| && Cutting(p, wordCap, m0, g0, m, g, e, f, text, start, end, first, previous)
      {
        CutOn(p, wordCap, m0, g0, m, g, e, f, text, start, end, first, previous);
        if |m.words| == wordCap - 1 {
          CutStops(p, wordCap, m0, g0, m, g, e, f, text, start, end, first, previous);
          return first, NoWords;
        }
        if text[end] == ' ' || text[end] == '\n' {
          var overrun;
          first, previous, overrun := Separate(f, text, start, end, first, previous, e, m0, g0);
          if overrun {
            return first, Overrun;
          }
          start := end + 1;
        }
        end := end + 1;
      }
      ghost var last;
      var overrun;
      first, last, overrun := LastWord(f, text, start, first, previous, e, m0, g0);
      if overrun {
        return first, Overrun;
      }
      fate := Fits;
      CutEnds(p, wordCap, m0, g0, m, g, e, f, text, first, last);
    }

    // Take a slot for a new entry, unless all are taken.
    method NewEntry(id: nat, ghost c: nat) returns (r: Option<nat>)
      requires Valid() && c in g.chains && c != Pending(p)
      modifies this`m, this`g
      ensures r.None? <==> old(m.entryFree) == [] && |old(m.entries)| == entryCap - 1
      ensures r.None? ==> m == old(m) && g == old(g)
      ensures 0 < EntrySlot(old(m)) <= |old(m.entries)| == |old(g.home)|
      ensures old(m.entryFree) != [] ==> EntrySlot(old(m)) < |old(m.entries)|
      ensures r.Some? ==> r.value == EntrySlot(old(m)) && m == Placed(old(m), Entry(id, generation, 0, -1, false))
      ensures r.Some? ==> g == PlacedShape(p, old(m), old(g)) && Building(p, m, g, r.value) && |m.entries| < entryCap
      ensures r.Some? ==> m.entries[r.value] == Entry(id, generation, 0, -1, false)
      ensures m.words == old(m.words) && m.wordFree == old(m.wordFree)
      ensures r.Some? ==> g.keys == old(g.keys) && g.lists[r.value] == [] && AllSurvive(old(m), old(g), m, g)
      ensures c in g.chains && g.chains[c] == old(g.chains[c])
      ensures Lost(p) in g.chains && g.chains[Lost(p)] == old(g.chains[Lost(p)])
    {
      hide Ok, UniqueIds, AllSurvive;
      EntrySlotFree(p, m, g);
      var item := Entry(id, generation, 0, -1, false);
      PlaceKeepsOk(p, m, g, item);
      PlaceKeeps(p, m, g, item);
      PlacedFrame(p, m, g, item);
      ghost var m0, g0 := m, g;
      if |m.entryFree| > 0 {
        var e := m.entryFree[|m.entryFree| - 1];
        m := m.(entryFree := m.entryFree[..|m.entryFree| - 1]);
        m := m.(entries := m.entries[e := item]);
        r := Some(e);
      } else {
        if |m.entries| == entryCap - 1 {
          return None;
        }
        m := m.(entries := m.entries + [item]);
        r := Some(|m.entries| - 1);
      }
      assert m == Placed(m0, item);
      g := PlacedShape(p, m0, g0);
      BuildingFacts(p, m, g, r.value);
    }

    // Link the finished entry e behind the last entry of its chain.
    method LinkLast(key: Key, b: nat, prev: nat, e: nat)
      requires Finished(p, m, g, e, key, b + 1) && prev == Before(g.chains[b + 1], |g.chains[b + 1]|)
      modifies this`m, this`g
      ensures m == AtEnd(old(m), old(g.chains[b + 1]), b, e) && g == LinkedShape(p, old(g), b + 1, e, key)
      ensures Ok(p, m, g) && AllSurvive(old(m), old(g), m, g) && g.chains[Pending(p)] == []
      ensures m.words == old(m.words) && m.wordFree == old(m.wordFree)
      ensures |m.entries| == |old(m.entries)| && g.keys == old(g.keys)[e := key]
      ensures m.entries[e].generation == old(m.entries[e].generation)
    {
      hide Ok, AllSurvive, Linked, TokensOf, Tokens;
      AtEndSizes(m, g.chains[b + 1], b, e);
      LinkKeepsOk(p, m, g, e, key, b + 1);
      LinkKeeps(p, m, g, e, key, b + 1);
      ghost var m0, g0 := m, g;
      if prev != 0 {
        m := m.(entries := m.entries[prev := m.entries[prev].(nextIndex := e)]);
      } else {
        m := m.(buckets := m.buckets[b := e]);
      }
      g := LinkedShape(p, g, b + 1, e, key);
    }

    // Collect the words of a text in a new entry.
    method Fill(key: Key, id: nat, e: nat) returns (fate: Fate)
      requires Building(p, m, g, e) && g.lists[e] == [] && m.entries[e] == Entry(id, generation, 0, -1, false)
      requires |m.words| <= wordCap
      modifies this`m, this`g
      ensures fate == FateOf(Now(old(m)), wordCap, key.text, 0, 0)
      ensures fate != Overrun ==> Building(p, m, g, e) && AllSurvive(old(m), old(g), m, g)
      ensures fate != Overrun ==> |m.entries| == |old(m.entries)| && g.keys == old(g.keys) && g.chains == old(g.chains)
      ensures fate != Overrun ==> |old(m.words)| <= |m.words| <= wordCap
      ensures fate == NoWords ==> |m.words| == wordCap - 1
      ensures fate == Fits ==> Linked(m.words, m.entries[e].wordsStart, g.lists[e])
      ensures fate == Fits ==> TokensOf(m.words, g.lists[e]) == Tokens(p.measure(key.config), key.text)
      ensures fate == Fits ==> m.entries[e] == Entry(id, generation, 0, m.entries[e].wordsStart, '\n' in key.text)
      ensures fate == Fits ==> Used(old(m), m, WordCount(p, key))
    {
      hide Ok, Linked, TokensOf, Tokens, AllSurvive, FateOf;
      ghost var m0, g0 := m, g;
      var first;
      first, fate := Tokenise(key, e);
      if fate == Overrun {
        return;
      }
      GrowKeeps(p, m0, g0, m, g, e);
      if fate == NoWords {
        return;
      }
      var item := m.entries[e].(wordsStart := first);
      StampKeepsOk(p, m, g, e, item);
      FillInKeeps(p, m, g, e, item);
      ghost var m1 := m;
      m := m.(entries := m.entries[e := item]);
      SurviveOn(m0, g0, m1, g, m, g);
    }

    // Fill the new entry e with the words of a text and link it.  If there are no
    // slots for the words, the entry and the words it has are lost.
    method Complete(key: Key, b: nat, prev: nat, e: nat) returns (fate: Fate)
      requires Building(p, m, g, e) && g.lists[e] == []
      requires m.entries[e] == Entry(p.hash(key), generation, 0, -1, false)
      requires p.buckets > 0 && b == BucketOf(p, p.hash(key))
      requires b + 1 in g.chains && prev == Before(g.chains[b + 1], |g.chains[b + 1]|)
      requires Lost(p) in g.chains && b < p.buckets && |m.words| <= wordCap
      modifies this`m, this`g
      ensures fate == FateOf(Now(old(m)), wordCap, key.text, 0, 0)
      ensures fate != Overrun ==> Ok(p, m, g) && AllSurvive(old(m), old(g), m, g) && g.chains[Pending(p)] == []
      ensures fate != Overrun ==> |m.entries| == |old(m.entries)| && |old(m.words)| <= |m.words| <= wordCap
      ensures fate != Overrun ==> Lost(p) in g.chains
      ensures fate == Fits ==> g.keys == old(g.keys)[e := key] && m.entries[e].generation == generation
      ensures fate == Fits ==> Used(old(m), m, WordCount(p, key)) && g.chains[Lost(p)] == old(g.chains[Lost(p)])
      ensures fate == NoWords ==> g.keys == old(g.keys) && g.chains[Lost(p)] == old(g.chains[Lost(p)]) + [e]
      ensures fate == NoWords ==> |m.words| == wordCap - 1
    {
      ghost var m0, g0 := m, g;
      hide Ok, AllSurvive, Linked, TokensOf, Tokens, Building, Finished, AtEnd, BucketOf, FateOf;
      fate := Fill(key, p.hash(key), e);
      if fate == Overrun {
        return;
      }
      if fate == NoWords {
        ghost var g1 := g;
        BuildingHas(p, m, g, e);
        LoseKeepsOk(p, m, g, e);
        LoseKeeps(p, m, g, e);
        g := LostShape(p, g, e);
        SurviveOn(m0, g0, m, g1, m, g);
        return;
      }
      FinishedIs(p, m, g, e, key, b + 1);
      ghost var m1, g1 := m, g;
      LinkLast(key, b, prev, e);
      SurviveOn(m0, g0, m1, g1, m, g);
    }

    // Measure a text whose hash is not cached, and cache it.
    method Insert(key: Key, b: nat, prev: nat) returns (r: Option<nat>, fate: Fate)
      requires Valid() && b == BucketOf(p, p.hash(key))
      requires b + 1 in g.chains && prev == Before(g.chains[b + 1], |g.chains[b + 1]|)
      requires forall x | x in g.keys :: p.hash(g.keys[x]) != p.hash(key)
      modifies this`m, this`g
      ensures fate == if Crowded(old(m)) then Fits else FateOf(Now(old(m)), wordCap, key.text, 0, 0)
      ensures r.None? <==> Crowded(old(m)) || fate != Fits
      ensures Crowded(old(m)) ==> m == old(m) && g == old(g)
      ensures fate != Overrun ==> Valid() && AllSurvive(old(m), old(g), m, g) && |m.words| >= |old(m.words)|
      ensures r.Some? ==> r.value !in old(g.keys) && g.keys == old(g.keys)[r.value := key]
      ensures r.Some? ==> r.value < |m.entries| && m.entries[r.value].generation == generation
      ensures r.None? && fate != Overrun ==> g.keys == old(g.keys)
      ensures fate == Fits ==> Used(old(m), m, if r.None? then 0 else WordCount(p, key))
      ensures fate == Fits ==> g.chains[Lost(p)] == old(g.chains[Lost(p)])
      ensures fate == NoWords ==> |g.chains[Lost(p)]| == |old(g.chains[Lost(p)])| + 1 && |m.words| == wordCap - 1
    {
      hide Ok, UniqueIds, AllSurvive, Tokens, Placed, PlacedShape, Building, Before, EntrySlot, BucketOf, FateOf;
      ghost var m0, g0 := m, g;
      NothingLost(p, m, g);
      HasBuckets(p, m, g);
      r := NewEntry(p.hash(key), b + 1);
      fate := Fits;
      if r.Some? {
        BuildingHas(p, m, g, r.value);
        HasBuckets(p, m, g);
        ghost var m1, g1 := m, g;
        NewIdUnique(p, g.keys, r.value, key);
        fate := Complete(key, b, prev, r.value);
        if fate != Overrun { SurviveOn(m0, g0, m1, g1, m, g); }
        if fate != Fits { r := None; }
      }
    }

    // A scan leaves at least the room there was.
    lemma FitsAfterScan(key: Key, m0: Mem, m: Mem)
      requires m.words == m0.words && |m.wordFree| >= |m0.wordFree|
      ensures Room(m0, WordCount(p, key), wordCap) ==> FateOf(Now(m), wordCap, key.text, 0, 0) == Fits
    {
      hide FateOf, Tokens;
      if Room(m0, WordCount(p, key), wordCap) { RoomFits(m, p.measure(key.config), key.text, wordCap); }
    }

    // An array that is one short of full takes no words any more.
    lemma ShortStaysShort(key: Key, m: Mem)
      requires |m.words| == wordCap - 1
      ensures FateOf(Now(m), wordCap, key.text, 0, 0) == if key.text == "" then Fits else NoWords
      ensures key.text == "" ==> WordCount(p, key) == 0
    {
      if key.text != "" { FullFails(Now(m), wordCap, key.text); }
    }

    // A hit is stamped with the current generation.
    method Stamp(e: nat)
      requires Valid() && e in g.keys && e < |m.entries|
      modifies this`m
      ensures m == old(m).(entries := old(m.entries)[e := old(m.entries[e]).(generation := generation)])
      ensures Valid() && AllKept(old(m), g, m, g, Some(e))
    {
      hide Ok, UniqueIds, AllKept;
      var item := m.entries[e].(generation := generation);
      StampKeepsOk(p, m, g, e, item);
      StampKeeps(p, m, g, e, item);
      m := m.(entries := m.entries[e := item]);
    }

    // Look a text up, or measure and cache it.  The result is the entry's slot.
    // There is none when every slot holds an entry, and when the words do not
    // fit; then the new entry is lost.  `scanned` is the memory after the scan.
    method MeasureText(key: Key) returns (r: Option<nat>, fate: Fate, ghost scanned: Mem)
      requires Valid()
      modifies this`m, this`g
      ensures scanned.words == old(m.words) && |scanned.wordFree| >= |old(m.wordFree)|
      ensures fate == if CachedId(p, old(g.keys), p.hash(key)) || Crowded(scanned) then Fits
                      else FateOf(Now(scanned), wordCap, key.text, 0, 0)
      ensures r.None? <==> !CachedId(p, old(g.keys), p.hash(key)) && (Crowded(scanned) || fate != Fits)
      ensures old(HasRoom(key)) ==> fate == Fits
      ensures fate != Overrun ==> Valid() && Outcome(p, old(m), old(g), m, g, generation, key, r)
      ensures fate != Overrun ==> |m.words| >= |old(m.words)|
      ensures fate == Fits && r.None? ==> Crowded(m)
      ensures fate == Fits ==> Used(old(m), m, if r.None? || CachedId(p, old(g.keys), p.hash(key)) then 0 else WordCount(p, key))
      ensures fate == Fits ==> g.chains[Lost(p)] == old(g.chains[Lost(p)])
      ensures fate == NoWords ==> |g.chains[Lost(p)]| == |old(g.chains[Lost(p)])| + 1 && |m.words| == wordCap - 1
      ensures |old(m.words)| == wordCap - 1 ==> fate != Overrun && |m.words| == wordCap - 1
    {
      hide Ok, UniqueIds, OnlyStaleGone, AllSurvive, AllKept, WordCount, Stale, Searched, Before, BucketOf, Outcome, FateOf;
      ghost var m0, g0 := m, g;
      var id := p.hash(key);
      HasBuckets(p, m, g);
      var b := BucketOf(p, id);
      var hit, e, prev := Find(b, id);
      ghost var m1, g1 := m, g;
      scanned, fate := m, Fits;
      if !Crowded(m) { FitsAfterScan(key, m0, m); }
      if |m.words| == wordCap - 1 { ShortStaysShort(key, m); }
      forall x | x in g.keys && !hit ensures p.hash(g.keys[x]) != id {
        NoneFound(p, m, g, b + 1, id, generation, x);
      }
      ScanFinds(p, m0, g0, m, g, generation, b + 1, id, hit, e);
      if hit {
        r := Some(e);
        Stamp(e);
      } else {
        if old(NoSlot(key)) {
          forall x | x in g0.keys ensures x in g.keys {
            NoneStaleNoneGone(m0, g0, m, g, generation, b + 1, id, x);
          }
        }
        r, fate := Insert(key, b, prev);
        if fate == Overrun {
          return;
        }
        SurviveIsKept(m1, g1, m, g, r);
      }
      OutcomeOf(p, m0, g0, m1, g1, m, g, generation, key, hit, e, r);
    }

    // A new frame begins.
    method BeginLayout()
      requires Valid()
      modifies this`generation
      ensures Valid() && generation == (old(generation) + 1) % WORD32
    {
      hide Ok, UniqueIds;
      generation := (generation + 1) % WORD32;
    }

    // The words of a cached entry, read along their links.
    method Words(e: nat) returns (ts: seq<Token>)
      requires Valid() && e in g.keys
      ensures ts == Tokens(p.measure(g.keys[e].config), g.keys[e].text)
    {
      hide Ok, UniqueIds, Tokens;
      KeyFacts(p, m, g, e);
      ghost var list, k := g.lists[e], 0;
      ts := [];
      var next := m.entries[e].wordsStart;
      while next != -1
        invariant 0 <= k <= |list| && next == (if k < |list| then list[k] else -1) && ts == TokensOf(m.words, list[..k])
        decreases |list| - k
      {
        assert WordAt(m.words, list, k);
        ts := ts + [m.words[next].token];
        next := m.words[next].next;
        k := k + 1;
        assert list[..k] == list[..k - 1] + [list[k - 1]];
      }
      assert list[..k] == list;
    }

    // Clay_Initialize, as far as the cache is concerned.
    constructor (p: Params, entryCap: nat, wordCap: nat)
      requires 1 <= p.buckets == wordCap / 32 && p.buckets <= entryCap && entryCap >= 2
      ensures Valid() && g.keys == map[] && generation == 0
      ensures this.p == p && this.entryCap == entryCap && this.wordCap == wordCap
    {
      this.p, this.entryCap, this.wordCap, generation := p, entryCap, wordCap, 0;
      m := EmptyMem(p);
      g := EmptyShape(p);
      EmptyOk(p);
    }

    // Forget every measurement.
    method Reset()
      requires Valid()
      modifies this`m, this`g
      ensures Valid() && g.keys == map[] && m == EmptyMem(p)
    {
      hide Ok;
      HasBuckets(p, m, g);
      EmptyOk(p);
      m := EmptyMem(p);
      g := EmptyShape(p);
    }

    // The words of a text, cached or not.
    method MeasuredWords(key: Key) returns (ts: Option<seq<Token>>, fate: Fate)
      requires Valid()
      modifies this`m, this`g
      ensures old(HasRoom(key)) ==> fate == Fits
      ensures fate != Overrun ==> Valid()
      ensures ts.None? ==> fate != Fits || Crowded(m)
      ensures ts.Some? ==> fate == Fits
      ensures ts.Some? && (forall x | x in old(g.keys) && p.hash(old(g.keys)[x]) == p.hash(key) :: old(g.keys)[x] == key) ==>
                && ts.value == Tokens(p.measure(key.config), key.text) && Spelled(key.text, ts.value) == key.text
                && Tiled(ts.value, 0, |key.text|) && forall t | t in ts.value :: WordOf(p.measure(key.config), key.text, t)
    {
      hide Ok, UniqueIds, Tokens, Spelled, StaysOrStale, Tiled, WordOf;
      var r;
      ghost var scanned;
      r, fate, scanned := MeasureText(key);
      if r.None? {
        return None, fate;
      }
      var words := Words(r.value);
      TokensSpellText(p.measure(key.config), key.text);
      TokensAreWords(p.measure(key.config), key.text);
      ts := Some(words);
    }

    // One frame: every text is measured where it is declared, and again when the
    // layout is computed.  The second time finds the entry of the first, unless
    // the array of words is overrun.  With room for the words of the different
    // texts that have no fresh entry every text fits.
    method Frame(texts: seq<Key>) returns (declared: seq<Option<nat>>, laidOut: seq<Option<nat>>, overrun: bool)
      requires Valid()
      modifies this`m, this`g
      ensures old(Room(m, SumWords(p, Unsettled(p, m, g, generation, texts)), wordCap)) ==>
                !overrun && Valid() && g.chains[Lost(p)] == old(g.chains[Lost(p)])
      ensures !overrun ==> Valid() && |declared| == |laidOut| == |texts|
      ensures !overrun ==> forall i | 0 <= i < |texts| && declared[i].Some? :: laidOut[i] == declared[i]
      ensures !overrun ==> forall i | 0 <= i < |texts| :: Here(p, m, g, generation, texts[i], declared[i])
    {
      hide Ok, UniqueIds, WordCount, Outcome, Here, Room, Used, SumWords, Unsettled, FateOf;
      declared, laidOut, overrun := [], [], false;
      ghost var room, lost := Room(m, SumWords(p, Unsettled(p, m, g, generation, texts)), wordCap), g.chains[Lost(p)];
      for i := 0 to |texts|
        invariant Valid() && |declared| == i && (room ==> g.chains[Lost(p)] == lost)
        invariant room ==> Room(m, SumWords(p, Unsettled(p, m, g, generation, texts)), wordCap)
        invariant forall j | 0 <= j < i :: Here(p, m, g, generation, texts[j], declared[j])
      {
        ghost var m0, g0 := m, g;
        if room { RoomForNext(p, m, g, generation, texts, texts[i], wordCap); }
        var r, fate, _ := MeasureText(texts[i]);
        if fate == Overrun {
          overrun := true;
          return;
        }
        if room { RoomStays(p, m0, g0, m, g, generation, texts, texts[i], r, wordCap); }
        forall j | 0 <= j < i ensures Here(p, m, g, generation, texts[j], declared[j]) {
          StillHere(p, m0, g0, m, g, generation, texts[i], r, texts[j], declared[j]);
        }
        NowHere(p, m0, g0, m, g, generation, texts[i], r);
        declared := declared + [r];
      }
      for i := 0 to |texts|
        invariant Valid() && |laidOut| == i && (room ==> g.chains[Lost(p)] == lost)
        invariant room ==> Room(m, SumWords(p, Unsettled(p, m, g, generation, texts)), wordCap)
        invariant forall j | 0 <= j < |texts| :: Here(p, m, g, generation, texts[j], declared[j])
        invariant forall j | 0 <= j < i && declared[j].Some? :: laidOut[j] == declared[j]
      {
        ghost var m0, g0 := m, g;
        if room { RoomForNext(p, m, g, generation, texts, texts[i], wordCap); }
        var r, fate, _ := MeasureText(texts[i]);
        if fate == Overrun {
          overrun := true;
          return;
        }
        if room { RoomStays(p, m0, g0, m, g, generation, texts, texts[i], r, wordCap); }
        forall j | 0 <= j < |texts| ensures Here(p, m, g, generation, texts[j], declared[j]) {
          StillHere(p, m0, g0, m, g, generation, texts[i], r, texts[j], declared[j]);
        }
        StillHere(p, m0, g0, m, g, generation, texts[i], r, texts[i], declared[i]);
        laidOut := laidOut + [r];
      }
    }
  }
}

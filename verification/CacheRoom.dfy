// Room in the array of measured words.  A new word takes a free slot if there is
// one and a new slot otherwise; the array may not fill up, and while words are
// to come one slot must stay in reserve.
module CacheRoom {
  import opened CacheFate
  import opened CacheModel
  import opened TextTokens

  // Room for t more words in an array of cap slots.
  ghost predicate Room(m: Mem, t: nat, cap: nat) {
    && |m.words| < cap
    && (t > 0 ==> |m.words| + 1 < cap && |m.words| + t - |m.wordFree| < cap)
  }

  // At most t words were added: the free list goes first.
  ghost predicate Used(m0: Mem, m: Mem, t: int) {
    && |m.words| - |m.wordFree| <= |m0.words| - |m0.wordFree| + t
    && (|m.words| <= |m0.words| || |m.words| <= |m0.words| - |m0.wordFree| + t)
  }

  function Now(m: Mem): Store { Store(|m.words|, |m.wordFree|) }

  // Where there is room for its words, a text fits.
  lemma RoomFits(m: Mem, f: Measure, text: string, cap: nat)
    requires Room(m, |Tokens(f, text)|, cap)
    ensures FateOf(Now(m), cap, text, 0, 0) == Fits
  {
    hide FateOf, Scan;
    FitsIff(f, Now(m), cap, text, 0, 0);
    if text != "" { WordsToCome(f, text, 0, 0); }
  }

  // What is left after some of the words is enough for the others.
  lemma RoomLeft(m0: Mem, m: Mem, t: nat, u: nat, cap: nat)
    requires Room(m0, t, cap) && u <= t && Used(m0, m, t - u)
    ensures Room(m, u, cap)
  {
  }

  // ----------------------------------------------------------- several texts

  function WordCount(p: Params, key: Key): nat {
    |Tokens(p.measure(key.config), key.text)|
  }

  // The words of a set of texts, all together.
  ghost function SumWords(p: Params, keys: set<Key>): nat {
    if keys == {} then 0
    else var k :| k in keys; WordCount(p, k) + SumWords(p, keys - {k})
  }

  // One text's words apart from the others', whichever it is.
  lemma {:induction false} SumApart(p: Params, keys: set<Key>, k: Key)
    requires k in keys
    ensures SumWords(p, keys) == WordCount(p, k) + SumWords(p, keys - {k})
    decreases keys
  {
    hide WordCount;
    var j :| j in keys && SumWords(p, keys) == WordCount(p, j) + SumWords(p, keys - {j});
    if j != k {
      SumApart(p, keys - {j}, k);
      SumApart(p, keys - {k}, j);
      assert keys - {j} - {k} == keys - {k} - {j};
    }
  }

  lemma {:induction false} SumSmaller(p: Params, few: set<Key>, keys: set<Key>)
    requires few <= keys
    ensures SumWords(p, few) <= SumWords(p, keys)
    decreases few
  {
    hide WordCount;
    if few != {} {
      var k :| k in few;
      SumApart(p, few, k);
      SumApart(p, keys, k);
      SumSmaller(p, few - {k}, keys - {k});
    }
  }
}

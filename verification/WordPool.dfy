// The array of measured words, whose slots are linked into one list of words for
// each cached text.
module WordPool {
  import opened Slots
  import opened TextTokens

  datatype Word = Word(token: Token, next: int)

  // Word k of a list points at the next one, and the last one at -1.
  ghost predicate WordAt(words: seq<Word>, list: seq<nat>, k: nat)
    requires k < |list| && list[k] < |words|
  {
    words[list[k]].next == if k + 1 < |list| then list[k + 1] else -1
  }

  // A list starts at slot `head` and is linked by `next`.
  ghost predicate Linked(words: seq<Word>, head: int, list: seq<nat>) {
    && (forall k | 0 <= k < |list| :: list[k] < |words|)
    && head == (if list == [] then -1 else list[0])
    && forall k: nat {:trigger WordAt(words, list, k)} | k < |list| :: WordAt(words, list, k)
  }

  // --------------------------------------------------------------- the links

  // Storing a word in slot w and hooking it behind the last slot of a list.
  function Hooked(words: seq<Word>, list: seq<nat>, w: nat, t: Token): (r: seq<Word>)
    requires w <= |words| && forall k | 0 <= k < |list| :: list[k] < |words|
    ensures |r| == if w < |words| then |words| else |words| + 1
  {
    var ws := if w < |words| then words[w := Word(t, -1)] else words + [Word(t, -1)];
    if list == [] then ws
    else ws[list[|list| - 1] := ws[list[|list| - 1]].(next := w)]
  }

  lemma HookedLinked(words: seq<Word>, head: int, list: seq<nat>, w: nat, t: Token)
    requires Linked(words, head, list) && Distinct(list) && w <= |words| && w !in list
    ensures Linked(Hooked(words, list, w, t), if list == [] then w else head, list + [w])
  {
    var r, list' := Hooked(words, list, w, t), list + [w];
    assert forall k | 0 <= k < |list'| :: list'[k] < |r|;
    forall k: nat | k < |list'| ensures WordAt(r, list', k) {
      if k < |list| - 1 {
        assert list[k] != list[|list| - 1] && list[k] != w;
        assert WordAt(words, list, k);
      }
    }
  }

  // The lists of other owners, which share no slot with it, stay as they were.
  lemma HookedOthers(words: seq<Word>, list: seq<nat>, w: nat, t: Token, head: int, other: seq<nat>)
    requires w <= |words| && (forall k | 0 <= k < |list| :: list[k] < |words|) && Linked(words, head, other)
    requires forall k | 0 <= k < |other| :: other[k] != w && other[k] !in list
    ensures Linked(Hooked(words, list, w, t), head, other)
    ensures forall k | 0 <= k < |other| :: Hooked(words, list, w, t)[other[k]] == words[other[k]]
  {
    var r := Hooked(words, list, w, t);
    forall k | 0 <= k < |other| ensures r[other[k]] == words[other[k]] {
      if list != [] { assert list[|list| - 1] in list; }
    }
    forall k: nat | k < |other| ensures WordAt(r, other, k) {
      assert WordAt(words, other, k);
    }
  }

  // The tokens stored along a list.
  ghost function TokensOf(words: seq<Word>, list: seq<nat>): seq<Token>
    requires forall k | 0 <= k < |list| :: list[k] < |words|
  {
    seq(|list|, k requires 0 <= k < |list| => words[list[k]].token)
  }

  lemma HookedTokens(words: seq<Word>, list: seq<nat>, w: nat, t: Token)
    requires w <= |words| && w !in list && forall k | 0 <= k < |list| :: list[k] < |words|
    ensures forall k | 0 <= k < |list + [w]| :: (list + [w])[k] < |Hooked(words, list, w, t)|
    ensures TokensOf(Hooked(words, list, w, t), list + [w]) == TokensOf(words, list) + [t]
  {
    var r, list' := Hooked(words, list, w, t), list + [w];
    forall k | 0 <= k < |list| ensures r[list'[k]].token == words[list[k]].token {
      assert list[k] in list;
    }
  }
}

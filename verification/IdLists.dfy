// ID lists: arrays whose cell 0 counts the IDs in cells 1..count, kept in
// descending order.  This module holds what their algorithms share.
module IdLists {

  type Id = nat

  // MDB_IDL_UM_MAX
  const UM_MAX: nat := 0x1_FFFF

  // Cells lo..hi (hi excluded) are in descending order.
  ghost predicate Descending(s: seq<Id>, lo: int, hi: int)
    requires 0 <= lo && hi <= |s|
  {
    forall p, q | lo <= p < q < hi :: s[p] >= s[q]
  }

  // s' has the same IDs as s, and the same ones in the same cells outside lo..hi.
  ghost predicate Rearranged(s: seq<Id>, s': seq<Id>, lo: int, hi: int) {
    && 0 <= lo <= hi <= |s| == |s'|
    && s'[..lo] == s[..lo] && s'[hi..] == s[hi..]
    && multiset(s'[lo..hi]) == multiset(s[lo..hi])
  }

  lemma RearrangedSelf(s: seq<Id>, lo: int, hi: int)
    requires 0 <= lo <= hi <= |s|
    ensures Rearranged(s, s, lo, hi)
  {
  }

  lemma RearrangedLength(s: seq<Id>, s': seq<Id>, lo: int, hi: int)
    requires Rearranged(s, s', lo, hi)
    ensures 0 <= lo <= hi <= |s| == |s'|
  {
  }

  lemma RearrangedTrans(s: seq<Id>, s1: seq<Id>, s2: seq<Id>, lo: int, hi: int)
    requires Rearranged(s, s1, lo, hi) && Rearranged(s1, s2, lo, hi)
    ensures Rearranged(s, s2, lo, hi)
  {
  }

  lemma SliceSplit(t: seq<Id>, a: int, b: int, c: int, d: int)
    requires 0 <= a <= b <= c <= d <= |t|
    ensures t[a..d] == t[..b][a..] + t[b..c] + t[c..][..d - c]
    ensures t[..a] == t[..b][..a] && t[d..] == t[c..][d - c..]
  {
  }

  lemma RearrangedWiden(s: seq<Id>, s': seq<Id>, lo: int, hi: int, lo': int, hi': int)
    requires Rearranged(s, s', lo, hi) && 0 <= lo' <= lo && hi <= hi' <= |s|
    ensures Rearranged(s, s', lo', hi')
  {
    SliceSplit(s, lo', lo, hi, hi');
    SliceSplit(s', lo', lo, hi, hi');
  }

  // Every new ID of the range was there before.
  lemma RearrangedFrom(s: seq<Id>, s': seq<Id>, lo: int, hi: int, q: int) returns (q0: int)
    requires Rearranged(s, s', lo, hi) && lo <= q < hi
    ensures lo <= q0 < hi && s[q0] == s'[q]
  {
    assert s'[lo..hi][q - lo] == s'[q];
    assert s'[q] in multiset(s'[lo..hi]);
    assert s'[q] in s[lo..hi];
    var d :| 0 <= d < hi - lo && s[lo..hi][d] == s'[q];
    q0 := lo + d;
  }

  lemma RearrangedOutside(s: seq<Id>, s': seq<Id>, lo: int, hi: int, p: int)
    requires Rearranged(s, s', lo, hi) && 0 <= p < |s| && !(lo <= p < hi)
    ensures s'[p] == s[p]
  {
    if p < lo { assert s'[..lo][p] == s[..lo][p]; } else { assert s'[hi..][p - hi] == s[hi..][p - hi]; }
  }

  function Swapped(s: seq<Id>, x: int, y: int): seq<Id>
    requires 0 <= x < |s| && 0 <= y < |s|
  {
    s[x := s[y]][y := s[x]]
  }

  lemma SwappedIs(s: seq<Id>, s': seq<Id>, x: int, y: int)
    requires 0 <= x < |s| == |s'| && 0 <= y < |s|
    requires s'[x] == s[y] && s'[y] == s[x] && forall p | 0 <= p < |s| && p != x && p != y :: s'[p] == s[p]
    ensures s' == Swapped(s, x, y)
  {
  }

  lemma SwappedRearranged(s: seq<Id>, x: int, y: int, lo: int, hi: int)
    requires 0 <= lo <= x < hi <= |s| && lo <= y < hi
    ensures Rearranged(s, Swapped(s, x, y), lo, hi)
  {
    var s' := Swapped(s, x, y);
    var d, d' := s[lo..hi], s'[lo..hi];
    assert d' == d[x - lo := d[y - lo]][y - lo := d[x - lo]];
    assert s'[..lo] == s[..lo] && s'[hi..] == s[hi..];
  }

  // Cell j moved down to cell k, the cells between shifted up.
  function Moved(s: seq<Id>, k: int, j: int): seq<Id>
    requires 0 <= k <= j < |s|
  {
    s[..k] + [s[j]] + s[k..j] + s[j + 1..]
  }

  lemma MovedIs(s: seq<Id>, s': seq<Id>, k: int, j: int)
    requires 0 <= k <= j < |s| == |s'|
    requires forall p | 0 <= p < |s| && !(k <= p <= j) :: s'[p] == s[p]
    requires s'[k] == s[j] && forall p | k < p <= j :: s'[p] == s[p - 1]
    ensures s' == Moved(s, k, j)
  {
  }

  lemma MovedRearranged(s: seq<Id>, k: int, j: int)
    requires 0 <= k <= j < |s|
    ensures Rearranged(s, Moved(s, k, j), k, j + 1)
  {
    var s' := Moved(s, k, j);
    assert s'[k..j + 1] == [s[j]] + s[k..j];
    assert s[k..j + 1] == s[k..j] + [s[j]];
    assert s'[..k] == s[..k] && s'[j + 1..] == s[j + 1..];
  }
}

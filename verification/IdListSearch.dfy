// Binary search in ID lists, and insertion into the ascending list of
// ID/pointer pairs that mdb_mid2l_insert keeps.
module IdListSearch {
  import opened IdLists

  const UINT_LIMIT := 0x1_0000_0000

  // mdb_midl_search: a cell that holds the ID, or else the cell before which
  // all IDs are larger and from which all are smaller.
  method Search(ids: array<Id>, id: Id) returns (cursor: nat)
    requires ids.Length > 0 && ids[0] < ids.Length && ids[0] < UINT_LIMIT
    requires Descending(ids[..], 1, ids[0] + 1)
    ensures 1 <= cursor <= ids[0] + 1
    ensures id in ids[1..ids[0] + 1] ==> cursor <= ids[0] && ids[cursor] == id
    ensures id !in ids[1..ids[0] + 1] ==>
              && (forall p | 1 <= p < cursor :: ids[p] > id)
              && (forall p | cursor <= p <= ids[0] :: ids[p] < id)
  {
    var base, n := 0, ids[0];
    cursor := 1;
    var val := 0;
    while 0 < n
      invariant 0 <= base && 0 <= n && base + n <= ids[0]
      invariant forall p | 1 <= p <= base :: ids[p] > id
      invariant forall p | base + n < p <= ids[0] :: ids[p] < id
      invariant if val > 0 then cursor == base else cursor == base + n + 1 || (val == 0 && cursor == 1 && base == 0)
      decreases n
    {
      var pivot := n / 2;
      cursor := base + pivot + 1;
      val := if ids[cursor] < id then -1 else if ids[cursor] > id then 1 else 0;
      if val < 0 {
        n := pivot;
      } else if val > 0 {
        base := cursor;
        n := n - (pivot + 1);
      } else {
        return;
      }
    }
    if val > 0 {
      cursor := cursor + 1;
    }
  }

  // ------------------------------------------------------- ID/pointer pairs

  datatype Id2 = Id2(mid: nat, mptr: nat)

  // The pairs of a list, without its count cell.
  function Pairs(s: seq<Id2>): seq<Id2>
    requires |s| > 0 && s[0].mid < |s|
  {
    s[1..s[0].mid + 1]
  }

  ghost predicate Ascending(ps: seq<Id2>) {
    forall p, q | 0 <= p < q < |ps| :: ps[p].mid < ps[q].mid
  }

  method Search2(ids: array<Id2>, id: nat) returns (cursor: nat)
    requires ids.Length > 0 && ids[0].mid < ids.Length && ids[0].mid < UINT_LIMIT
    requires Ascending(Pairs(ids[..]))
    ensures 1 <= cursor <= ids[0].mid + 1
    ensures forall p | 1 <= p < cursor :: ids[p].mid < id
    ensures forall p | cursor < p <= ids[0].mid :: ids[p].mid > id
    ensures cursor <= ids[0].mid ==> ids[cursor].mid >= id
  {
    var base, n := 0, ids[0].mid;
    cursor := 1;
    var val := 0;
    assert forall p | 1 <= p <= n :: ids[p] == Pairs(ids[..])[p - 1];
    while 0 < n
      invariant 0 <= base && 0 <= n && base + n <= ids[0].mid
      invariant forall p | 1 <= p <= base :: ids[p].mid < id
      invariant forall p | base + n < p <= ids[0].mid :: ids[p].mid > id
      invariant if val > 0 then cursor == base else cursor == base + n + 1 || (val == 0 && cursor == 1 && base == 0)
      decreases n
    {
      var pivot := n / 2;
      cursor := base + pivot + 1;
      val := if id < ids[cursor].mid then -1 else if id > ids[cursor].mid then 1 else 0;
      if val < 0 {
        n := pivot;
      } else if val > 0 {
        base := cursor;
        n := n - (pivot + 1);
      } else {
        return;
      }
    }
    if val > 0 {
      cursor := cursor + 1;
    }
  }

  ghost predicate HasId(ps: seq<Id2>, id: nat) {
    exists p | 0 <= p < |ps| :: ps[p].mid == id
  }

  // mdb_mid2l_insert: -1 for an ID already there, -2 for a full list, and else
  // the same pairs with the new one at its place in the order.
  method Insert(ids: array<Id2>, id: Id2) returns (rc: int)
    requires ids.Length == UM_MAX + 1 && ids[0].mid < ids.Length
    requires Ascending(Pairs(ids[..]))
    modifies ids
    ensures ids[0].mid < ids.Length && Ascending(Pairs(ids[..]))
    ensures rc == if HasId(old(Pairs(ids[..])), id.mid) then -1 else if old(ids[0].mid) >= UM_MAX then -2 else 0
    ensures rc == 0 ==>
              multiset(Pairs(ids[..])) == multiset(old(Pairs(ids[..]))) + multiset{id}
    ensures rc != 0 ==> ids[..] == old(ids[..])
  {
    ghost var s := ids[..];
    var x := Search2(ids, id.mid);
    assert forall p | 1 <= p <= ids[0].mid :: ids[p] == Pairs(s)[p - 1];
    if x <= ids[0].mid && ids[x].mid == id.mid {
      return -1;
    }
    assert !HasId(Pairs(s), id.mid);
    if ids[0].mid >= UM_MAX {
      return -2;
    }
    MakeGap(ids, x);
    ids[x] := id;
    InsertedPairs(s, ids[..], x, id);
    rc := 0;
  }

  // Count one pair more and shift the pairs from x on up by one cell.
  method MakeGap(ids: array<Id2>, x: nat)
    requires ids.Length > 0 && ids[0].mid + 1 < ids.Length && 1 <= x <= ids[0].mid + 1
    modifies ids
    ensures ids[0] == old(ids[0]).(mid := old(ids[0].mid) + 1)
    ensures forall p | 1 <= p < x :: ids[p] == old(ids[p])
    ensures forall p | x < p <= old(ids[0].mid) + 1 :: ids[p] == old(ids[p - 1])
  {
    ghost var s := ids[..];
    ids[0] := ids[0].(mid := ids[0].mid + 1);
    var i := ids[0].mid;
    while i > x
      invariant x <= i <= s[0].mid + 1 && ids[0] == s[0].(mid := s[0].mid + 1)
      invariant forall p | 1 <= p <= i :: ids[p] == s[p]
      invariant forall p | i < p <= s[0].mid + 1 :: ids[p] == s[p - 1]
    {
      ids[i] := ids[i - 1];
      i := i - 1;
    }
  }

  lemma InsertedPairs(s: seq<Id2>, s': seq<Id2>, x: nat, id: Id2)
    requires |s| == |s'| && |s| > 0 && s[0].mid + 1 < |s| && s'[0].mid == s[0].mid + 1 && 1 <= x <= s[0].mid + 1
    requires forall p | 1 <= p < x :: s'[p] == s[p] && s[p].mid < id.mid
    requires forall p | x < p <= s[0].mid + 1 :: s'[p] == s[p - 1] && s[p - 1].mid > id.mid
    requires s'[x] == id && Ascending(Pairs(s))
    ensures Ascending(Pairs(s'))
    ensures multiset(Pairs(s')) == multiset(Pairs(s)) + multiset{id}
  {
    hide Ascending;
    var ps, ps' := Pairs(s), Pairs(s)[..x - 1] + [id] + Pairs(s)[x - 1..];
    forall p | 0 <= p < |ps'| ensures s'[p + 1] == ps'[p] {
      if p >= x { assert s'[p + 1] == s[p] == ps[p - 1]; }
    }
    assert Pairs(s') == ps';
    forall p | 0 <= p < |ps| ensures if p < x - 1 then ps[p].mid < id.mid else ps[p].mid > id.mid {
      if p >= x - 1 { assert s'[p + 2] == s[p + 1]; } else { assert s'[p + 1] == s[p + 1]; }
    }
    InsertAscending(ps, x - 1, id);
  }

  lemma InsertAscending(ps: seq<Id2>, k: nat, id: Id2)
    requires Ascending(ps) && k <= |ps|
    requires forall p | 0 <= p < |ps| :: if p < k then ps[p].mid < id.mid else ps[p].mid > id.mid
    ensures Ascending(ps[..k] + [id] + ps[k..])
    ensures multiset(ps[..k] + [id] + ps[k..]) == multiset(ps) + multiset{id}
  {
    var ps' := ps[..k] + [id] + ps[k..];
    assert multiset(ps') == multiset(ps) + multiset{id} by { assert ps == ps[..k] + ps[k..]; }
    forall p, q | 0 <= p < q < |ps'| ensures ps'[p].mid < ps'[q].mid {
      assert ps'[p] == if p < k then ps[p] else if p == k then id else ps[p - 1];
      assert ps'[q] == if q < k then ps[q] else if q == k then id else ps[q - 1];
    }
  }
}

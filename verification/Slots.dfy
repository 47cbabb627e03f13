// An array of slots that are each in exactly one place: on the free list, or on
// one of several numbered lists.
module Slots {

  ghost predicate Distinct(s: seq<nat>) {
    forall j, k | 0 <= j < k < |s| :: s[j] != s[k]
  }

  // The slots of a list and nobody else's.
  ghost predicate Owns(owner: seq<nat>, e: nat, list: seq<nat>) {
    && Distinct(list)
    && forall k | 0 <= k < |list| :: list[k] < |owner| && owner[list[k]] == e
  }

  // Every slot is in exactly one place: owner 0 stands for the free list.
  ghost predicate Partition(owner: seq<nat>, free: seq<nat>, lists: map<nat, seq<nat>>) {
    && Owns(owner, 0, free)
    && (forall e | e in lists :: e > 0 && Owns(owner, e, lists[e]))
    && forall w: nat {:trigger owner[w]} | w < |owner| ::
         if owner[w] == 0 then w in free else owner[w] in lists && w in lists[owner[w]]
  }

  // Distinct slots of an array are no more than its length.
  lemma {:induction false} PigeonHole(s: seq<nat>, n: nat)
    requires Distinct(s) && forall k | 0 <= k < |s| :: s[k] < n
    ensures |s| <= n
    decreases n
  {
    if n > 0 {
      if exists k | 0 <= k < |s| :: s[k] == n - 1 {
        var k :| 0 <= k < |s| && s[k] == n - 1;
        var r := s[..k] + s[k + 1..];
        forall j | 0 <= j < |r| ensures r[j] < n - 1 {
          assert r[j] == if j < k then s[j] else s[j + 1];
        }
        PigeonHole(r, n - 1);
      } else {
        PigeonHole(s, n - 1);
      }
    }
    assert |s| > 0 ==> s[0] < n;
  }

  // ------------------------------------------------- releasing an owner's list

  ghost function Released(owner: seq<nat>, e: nat): seq<nat> {
    seq(|owner|, w requires 0 <= w < |owner| => if owner[w] == e then 0 else owner[w])
  }

  lemma ReleasePartition(owner: seq<nat>, free: seq<nat>, lists: map<nat, seq<nat>>, e: nat)
    requires Partition(owner, free, lists) && e in lists
    ensures Partition(Released(owner, e), free + lists[e], lists - {e})
  {
    var owner', free' := Released(owner, e), free + lists[e];
    assert Owns(owner, e, lists[e]);
    assert Owns(owner', 0, free') by {
      forall j, k | 0 <= j < k < |free'| ensures free'[j] != free'[k] {
        if j < |free| <= k {
          assert owner[free[j]] == 0 && owner[lists[e][k - |free|]] == e;
        }
      }
    }
    forall x | x in lists && x != e ensures Owns(owner', x, lists[x]) {
      assert Owns(owner, x, lists[x]);
    }
    forall w: nat | w < |owner|
      ensures if owner'[w] == 0 then w in free' else owner'[w] in lists - {e} && w in lists[owner'[w]]
    {
      assert owner[w] == 0 ==> w in free;
    }
  }

  // ------------------------------------------------------ handing out a slot

  // The last free slot goes to the end of e's list.
  lemma ReusePartition(owner: seq<nat>, free: seq<nat>, lists: map<nat, seq<nat>>, e: nat)
    requires Partition(owner, free, lists) && e in lists && free != []
    ensures var w := free[|free| - 1];
            w < |owner| && Partition(owner[w := e], free[..|free| - 1], lists[e := lists[e] + [w]])
  {
    var w, free', list' := free[|free| - 1], free[..|free| - 1], lists[e] + [free[|free| - 1]];
    var owner', lists' := owner[w := e], lists[e := list'];
    assert owner[w] == 0;
    assert Owns(owner', 0, free') by {
      forall k | 0 <= k < |free'| ensures owner'[free'[k]] == 0 {
        assert free'[k] == free[k] != w;
      }
    }
    assert Owns(owner, e, lists[e]);
    assert Owns(owner', e, list') by {
      forall k | 0 <= k < |lists[e]| ensures lists[e][k] != w {
        assert owner[lists[e][k]] == e;
      }
    }
    forall x | x in lists && x != e ensures Owns(owner', x, lists'[x]) {
      assert Owns(owner, x, lists[x]);
    }
    forall v: nat | v < |owner'|
      ensures if owner'[v] == 0 then v in free' else owner'[v] in lists' && v in lists'[owner'[v]]
    {
      if v != w && owner[v] == 0 {
        var k :| 0 <= k < |free| && free[k] == v;
        assert free'[k] == v;
      } else if v != w {
        assert v in lists[owner[v]];
      } else {
        assert list'[|lists[e]|] == w;
      }
    }
  }

  // A new slot at the end of the array goes to the end of e's list.
  lemma ExtendPartition(owner: seq<nat>, free: seq<nat>, lists: map<nat, seq<nat>>, e: nat)
    requires Partition(owner, free, lists) && e in lists
    ensures Partition(owner + [e], free, lists[e := lists[e] + [|owner|]])
  {
    var w, owner' := |owner|, owner + [e];
    var list' := lists[e] + [w];
    var lists' := lists[e := list'];
    assert Owns(owner, e, lists[e]);
    assert Owns(owner', 0, free) && Owns(owner', e, list');
    forall x | x in lists && x != e ensures Owns(owner', x, lists'[x]) {
      assert Owns(owner, x, lists[x]);
    }
    forall v: nat | v < |owner'|
      ensures if owner'[v] == 0 then v in free else owner'[v] in lists' && v in lists'[owner'[v]]
    {
      if v == w {
        assert list'[|lists[e]|] == w;
      } else {
        assert owner'[v] == owner[v];
        assert owner[v] != 0 ==> v in lists[owner[v]];
      }
    }
  }

  lemma NewListPartition(owner: seq<nat>, free: seq<nat>, lists: map<nat, seq<nat>>, e: nat)
    requires Partition(owner, free, lists) && e > 0 && e !in lists
    ensures Partition(owner, free, lists[e := []])
  {
    var lists' := lists[e := []];
    forall x | x in lists' ensures x > 0 && Owns(owner, x, lists'[x]) {
      if x != e { assert Owns(owner, x, lists[x]); }
    }
    forall w: nat | w < |owner|
      ensures if owner[w] == 0 then w in free else owner[w] in lists' && w in lists'[owner[w]]
    {
    }
  }

  // ------------------------------------------------------------- other moves

  // Slot number k of list e goes to the end of the free list.
  lemma FreePartition(owner: seq<nat>, free: seq<nat>, lists: map<nat, seq<nat>>, e: nat, k: nat)
    requires Partition(owner, free, lists) && e in lists && k < |lists[e]|
    ensures var x := lists[e][k];
            x < |owner| && Partition(owner[x := 0], free + [x], lists[e := lists[e][..k] + lists[e][k + 1..]])
  {
    var list := lists[e];
    var x, list' := list[k], list[..k] + list[k + 1..];
    var owner', free', lists' := owner[x := 0], free + [x], lists[e := list'];
    assert Owns(owner, e, list);
    assert Owns(owner', 0, free') by {
      forall j | 0 <= j < |free| ensures free[j] != x { assert owner[free[j]] == 0; }
    }
    assert Owns(owner', e, list') by {
      forall j | 0 <= j < |list'| ensures list'[j] != x && list'[j] < |owner| && owner[list'[j]] == e {
        assert list'[j] == if j < k then list[j] else list[j + 1];
      }
    }
    forall y | y in lists && y != e ensures Owns(owner', y, lists'[y]) {
      assert Owns(owner, y, lists[y]);
    }
    forall v: nat | v < |owner'|
      ensures if owner'[v] == 0 then v in free' else owner'[v] in lists' && v in lists'[owner'[v]]
    {
      if v == x {
        assert free'[|free|] == x;
      } else if owner[v] == 0 {
        assert v in free;
      } else {
        assert v in lists[owner[v]];
        if owner[v] == e { StillThere(list, k, v); }
      }
    }
  }

  lemma StillThere(list: seq<nat>, k: nat, v: nat)
    requires k < |list| && v in list && v != list[k]
    ensures v in list[..k] + list[k + 1..]
  {
    var j :| 0 <= j < |list| && list[j] == v;
    if j < k {
      assert (list[..k] + list[k + 1..])[j] == v;
    } else {
      assert (list[..k] + list[k + 1..])[j - 1] == v;
    }
  }

  // The only slot of list `from` goes to the end of list `to`.
  lemma MovePartition(owner: seq<nat>, free: seq<nat>, lists: map<nat, seq<nat>>, from: nat, to: nat)
    requires Partition(owner, free, lists) && from in lists && to in lists && from != to && |lists[from]| == 1
    ensures var x := lists[from][0];
            x < |owner| && Partition(owner[x := to], free, lists[from := []][to := lists[to] + [x]])
  {
    var x := lists[from][0];
    var list' := lists[to] + [x];
    var owner', lists' := owner[x := to], lists[from := []][to := list'];
    assert Owns(owner, from, lists[from]) && Owns(owner, to, lists[to]);
    assert owner[x] == from > 0;
    assert Owns(owner', 0, free) by {
      forall j | 0 <= j < |free| ensures free[j] != x { assert owner[free[j]] == 0; }
    }
    assert Owns(owner', to, list') by {
      forall j | 0 <= j < |lists[to]| ensures lists[to][j] != x { assert owner[lists[to][j]] == to; }
    }
    forall y | y in lists && y != from && y != to ensures Owns(owner', y, lists'[y]) {
      assert Owns(owner, y, lists[y]);
    }
    forall v: nat | v < |owner'|
      ensures if owner'[v] == 0 then v in free else owner'[v] in lists' && v in lists'[owner'[v]]
    {
      if v == x {
        assert list'[|lists[to]|] == x;
      } else if owner[v] != 0 {
        assert v in lists[owner[v]];
      }
    }
  }

  // Slots of different lists differ.
  lemma ListsApart(owner: seq<nat>, free: seq<nat>, lists: map<nat, seq<nat>>, d: nat, e: nat, j: nat, k: nat)
    requires Partition(owner, free, lists) && d in lists && e in lists && d != e && j < |lists[d]| && k < |lists[e]|
    ensures lists[d][j] != lists[e][k]
  {
    assert Owns(owner, d, lists[d]) && Owns(owner, e, lists[e]);
  }

  // The free list with room for another list still fits the array.
  lemma FreeRoom(owner: seq<nat>, free: seq<nat>, lists: map<nat, seq<nat>>, e: nat)
    requires Partition(owner, free, lists) && e in lists
    ensures |free| + |lists[e]| <= |owner|
  {
    ReleasePartition(owner, free, lists, e);
    PigeonHole(free + lists[e], |owner|);
  }
}

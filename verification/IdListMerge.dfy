// mdb_midl_xmerge: merging one descending list into another from the back, in
// place, with the largest ID as a sentinel in the count cell.
module IdListMerge {
  import opened Bits
  import opened IdLists

  // Cells after k up to top: in order, holding exactly `bag`, none above x.
  ghost predicate Finished(s: seq<Id>, k: int, top: int, bag: multiset<Id>, x: Id) {
    && 0 <= k <= top < |s|
    && Descending(s, k + 1, top + 1)
    && multiset(s[k + 1..top + 1]) == bag
    && forall p | k < p <= top :: s[p] <= x
  }

  lemma FinishedPrepend(s: seq<Id>, k: int, top: int, bag: multiset<Id>, x: Id, y: Id)
    requires 0 < k && Finished(s, k, top, bag, x) && x <= y
    ensures Finished(s[k := x], k - 1, top, multiset{x} + bag, y)
  {
    assert s[k := x][k..top + 1] == [x] + s[k + 1..top + 1];
  }

  lemma FinishedRaise(s: seq<Id>, k: int, top: int, bag: multiset<Id>, x: Id, y: Id)
    requires Finished(s, k, top, bag, x) && x <= y
    ensures Finished(s, k, top, bag, y)
  {
  }

  // The cells that the merge has not reached: the unread ones up to j behind
  // the sentinel, and those past the result.
  ghost predicate Untouched(s0: seq<Id>, s: seq<Id>, j: int, top: int) {
    && 0 <= j <= top < |s0| == |s|
    && s[0] == WORD - 1
    && (forall p | 1 <= p <= j :: s[p] == s0[p])
    && (forall p | top < p < |s| :: s[p] == s0[p])
  }

  // What is finished: the destination's cells after j and the other list's after i.
  ghost function Bag(s0: seq<Id>, n: nat, j: nat, mg: seq<Id>, m: nat, i: nat): multiset<Id>
    requires j <= n < |s0| && i <= m < |mg|
  {
    multiset(s0[j + 1..n + 1]) + multiset(mg[i + 1..m + 1])
  }

  lemma BagTakes(s0: seq<Id>, n: nat, j: nat, mg: seq<Id>, m: nat, i: nat)
    requires j <= n < |s0| && i <= m < |mg|
    ensures j > 0 ==> Bag(s0, n, j - 1, mg, m, i) == multiset{s0[j]} + Bag(s0, n, j, mg, m, i)
    ensures i > 0 ==> Bag(s0, n, j, mg, m, i - 1) == multiset{mg[i]} + Bag(s0, n, j, mg, m, i)
  {
    if j > 0 { assert s0[j..n + 1] == [s0[j]] + s0[j + 1..n + 1]; }
    if i > 0 { assert mg[i..m + 1] == [mg[i]] + mg[i + 1..m + 1]; }
  }

  lemma MergeStart(s0: seq<Id>, mg: seq<Id>, s: seq<Id>, n: nat, m: nat, x: Id)
    requires m < |mg| && n + m < |s0| && s == s0[0 := WORD - 1]
    ensures Untouched(s0, s, n, n + m)
    ensures Finished(s, n + m, n + m, Bag(s0, n, n, mg, m, m), x)
  {
    assert s0[n + 1..n + 1] == [] && mg[m + 1..m + 1] == [] && s[n + m + 1..n + m + 1] == [];
  }

  lemma MergeEnd(s0: seq<Id>, mg: seq<Id>, s: seq<Id>, n: nat, m: nat, j: nat)
    requires j <= n && m < |mg| && n + m < |s0| && Descending(s0, 1, n + 1)
    requires Untouched(s0, s, j, n + m) && Finished(s, j, n + m, Bag(s0, n, j, mg, m, 0), s[j])
    ensures Merged(s0, mg, s[0 := n + m], n, m)
  {
    hide Finished, Untouched, Descending, Bag;
    MergeBag(s0, mg, s, n, m, j);
    MergeOrder(s0, s, n, m, j, Bag(s0, n, j, mg, m, 0));
    MergeRest(s0, s, j, n + m);
  }

  // The result of the merge.
  ghost predicate Merged(s0: seq<Id>, mg: seq<Id>, s: seq<Id>, n: nat, m: nat) {
    && m < |mg| && n + m < |s0| == |s|
    && multiset(s[1..n + m + 1]) == multiset(s0[1..n + 1]) + multiset(mg[1..m + 1])
    && Descending(s, 1, n + m + 1) && s[n + m + 1..] == s0[n + m + 1..]
  }

  lemma MergeBag(s0: seq<Id>, mg: seq<Id>, s: seq<Id>, n: nat, m: nat, j: nat)
    requires j <= n && m < |mg| && n + m < |s0|
    requires Untouched(s0, s, j, n + m) && Finished(s, j, n + m, Bag(s0, n, j, mg, m, 0), s[j])
    ensures multiset(s[0 := n + m][1..n + m + 1]) == multiset(s0[1..n + 1]) + multiset(mg[1..m + 1])
  {
    hide Descending;
    assert s[1..j + 1] == s0[1..j + 1];
    assert s[0 := n + m][1..n + m + 1] == s[1..j + 1] + s[j + 1..n + m + 1];
    assert s0[1..n + 1] == s0[1..j + 1] + s0[j + 1..n + 1];
  }

  lemma MergeOrder(s0: seq<Id>, s: seq<Id>, n: nat, m: nat, j: nat, bag: multiset<Id>)
    requires j <= n && n + m < |s0| && Descending(s0, 1, n + 1)
    requires Untouched(s0, s, j, n + m) && Finished(s, j, n + m, bag, s[j])
    ensures |s| == |s0| && Descending(s[0 := n + m], 1, n + m + 1)
  {
    forall p, q | 1 <= p < q < n + m + 1 ensures s[p] >= s[q] {
      if p <= j < q { assert s[p] >= s[j]; }
    }
  }

  lemma MergeRest(s0: seq<Id>, s: seq<Id>, j: nat, top: nat)
    requires Untouched(s0, s, j, top)
    ensures |s| == |s0| && s[0 := top][top + 1..] == s0[top + 1..]
  {
  }

  lemma UnreadDescends(s0: seq<Id>, s: seq<Id>, n: nat, j: nat, top: nat)
    requires Untouched(s0, s, j, top) && 1 <= j <= n < |s0| && Descending(s0, 1, n + 1) && s0[j] < WORD
    ensures s[j - 1] >= s[j] == s0[j]
  {
  }

  lemma StoreUntouched(s0: seq<Id>, s: seq<Id>, j: nat, j': nat, k: nat, top: nat, x: Id)
    requires Untouched(s0, s, j, top) && j' <= j && j' < k <= top
    ensures Untouched(s0, s[k := x], j', top) && s[k := x][j'] == s[j']
  {
  }

  // From the sentinel to the last ID of the other list; j cells of the
  // destination never had to move.
  method MergeBack(idl: array<Id>, merge: array<Id>, ghost s0: seq<Id>, n: nat) returns (j: nat)
    requires idl != merge && merge.Length > 0 && merge[0] < merge.Length && n + merge[0] < idl.Length == |s0|
    requires idl[..] == s0[0 := WORD - 1]
    requires Descending(s0, 1, n + 1) && forall p | 1 <= p <= n :: s0[p] < WORD
    requires Descending(merge[..], 1, merge[0] + 1) && forall p | 1 <= p <= merge[0] :: merge[p] < WORD
    modifies idl
    ensures j <= n && Untouched(s0, idl[..], j, n + merge[0])
    ensures Finished(idl[..], j, n + merge[0], Bag(s0, n, j, merge[..], merge[0], 0), idl[j])
  {
    hide Finished, Untouched, Bag, Descending;
    ghost var mg, m := merge[..], merge[0];
    var i := merge[0];
    j := n;
    var k := i + j;
    MergeStart(s0, mg, idl[..], n, m, Least(idl[j], mg, i));
    var oldId := idl[j];
    while i > 0
      invariant 0 <= i <= m && 0 <= j <= n && k == i + j
      invariant Untouched(s0, idl[..], j, n + m) && oldId == idl[j]
      invariant Finished(idl[..], k, n + m, Bag(s0, n, j, mg, m, i), Least(idl[j], mg, i))
    {
      var mergeId := merge[i];
      FinishedRaise(idl[..], k, n + m, Bag(s0, n, j, mg, m, i), Least(idl[j], mg, i),
                    if idl[j] < mergeId then idl[j] else mergeId);
      j, k, oldId := ShiftOld(idl, mergeId, s0, mg, n, m, i, j);
      ghost var s := idl[..];
      if i > 1 { DescendsStep(mg, m, i); }
      FinishedPrepend(s, k, n + m, Bag(s0, n, j, mg, m, i), mergeId, Least(s[j], mg, i - 1));
      BagTakes(s0, n, j, mg, m, i);
      StoreUntouched(s0, s, j, j, k, n + m, mergeId);
      idl[k] := mergeId;
      assert idl[..] == s[k := mergeId];
      k := k - 1;
      i := i - 1;
    }
  }

  // The whole merge, with the result as sequences.
  method MergeAll(idl: array<Id>, merge: array<Id>) returns (total: nat)
    requires idl != merge && merge.Length > 0 && idl.Length > 0
    requires merge[0] < merge.Length && idl[0] + merge[0] < idl.Length
    requires forall p | 1 <= p <= idl[0] :: idl[p] < WORD
    requires forall p | 1 <= p <= merge[0] :: merge[p] < WORD
    requires Descending(idl[..], 1, idl[0] + 1) && Descending(merge[..], 1, merge[0] + 1)
    modifies idl
    ensures idl[0] == total == old(idl[0]) + merge[0]
    ensures Merged(old(idl[..]), merge[..], idl[..], old(idl[0]), merge[0])
  {
    hide Finished, Untouched, Bag, Descending, Merged;
    ghost var s0 := idl[..];
    var n := idl[0];
    total := n + merge[0];
    idl[0] := WORD - 1; // stops the inner scan even when the destination is empty
    var j := MergeBack(idl, merge, s0, n);
    ghost var s := idl[..];
    MergeEnd(s0, merge[..], s, n, merge[0], j);
    idl[0] := total;
    assert idl[..] == s[0 := total];
  }

  method XMerge(idl: array<Id>, merge: array<Id>)
    requires idl != merge && merge.Length > 0 && idl.Length > 0
    requires merge[0] < merge.Length && idl[0] + merge[0] < idl.Length
    requires forall p | 1 <= p <= idl[0] :: idl[p] < WORD
    requires forall p | 1 <= p <= merge[0] :: merge[p] < WORD
    requires Descending(idl[..], 1, idl[0] + 1) && Descending(merge[..], 1, merge[0] + 1)
    modifies idl
    ensures idl[0] == old(idl[0]) + merge[0]
    ensures multiset(idl[1..idl[0] + 1]) == old(multiset(idl[1..idl[0] + 1])) + multiset(merge[1..merge[0] + 1])
    ensures Descending(idl[..], 1, idl[0] + 1)
    ensures idl[idl[0] + 1..] == old(idl[..])[idl[0] + 1..]
  {
    hide Descending, Merged;
    ghost var s0, n := idl[..], idl[0];
    var total := MergeAll(idl, merge);
    MergedMeans(s0, merge[..], idl[..], n, merge[0]);
    assert idl[1..total + 1] == idl[..][1..total + 1] && idl[total + 1..] == idl[..][total + 1..];
    assert old(idl[1..idl[0] + 1]) == s0[1..n + 1] && merge[1..merge[0] + 1] == merge[..][1..merge[0] + 1];
  }

  lemma MergedMeans(s0: seq<Id>, mg: seq<Id>, s: seq<Id>, n: nat, m: nat)
    requires Merged(s0, mg, s, n, m)
    ensures m < |mg| && n + m < |s0| == |s|
    ensures multiset(s[1..n + m + 1]) == multiset(s0[1..n + 1]) + multiset(mg[1..m + 1])
    ensures Descending(s, 1, n + m + 1) && s[n + m + 1..] == s0[n + m + 1..]
  {
    hide Descending;
  }

  lemma DescendsStep(s: seq<Id>, n: nat, i: nat)
    requires 1 < i <= n < |s| && Descending(s, 1, n + 1)
    ensures s[i - 1] >= s[i]
  {
  }

  // A bound for the finished cells: the last unread ID and the next one to come.
  ghost function Least(x: Id, mg: seq<Id>, i: nat): Id
    requires i < |mg|
  {
    if i > 0 && mg[i] < x then mg[i] else x
  }

  // The inner loop: move the unread IDs below mergeId to their final cells.
  method ShiftOld(idl: array<Id>, mergeId: Id, ghost s0: seq<Id>, ghost mg: seq<Id>, ghost n: nat, ghost m: nat,
                  i: nat, j0: nat) returns (j: nat, k: nat, oldId: Id)
    requires 1 <= i <= m < |mg| && j0 <= n && n + m < |s0| == idl.Length && mergeId < WORD
    requires Descending(s0, 1, n + 1) && forall p | 1 <= p <= n :: s0[p] < WORD
    requires Untouched(s0, idl[..], j0, n + m)
    requires Finished(idl[..], i + j0, n + m, Bag(s0, n, j0, mg, m, i), if idl[j0] < mergeId then idl[j0] else mergeId)
    modifies idl
    ensures j <= n && k == i + j && oldId == idl[j] >= mergeId
    ensures Untouched(s0, idl[..], j, n + m)
    ensures Finished(idl[..], k, n + m, Bag(s0, n, j, mg, m, i), mergeId)
  {
    hide Finished, Untouched, Bag, Descending;
    j, k := j0, i + j0;
    oldId := idl[j];
    while oldId < mergeId
      invariant j <= n && k == i + j && oldId == idl[j]
      invariant Untouched(s0, idl[..], j, n + m)
      invariant Finished(idl[..], k, n + m, Bag(s0, n, j, mg, m, i), if oldId < mergeId then oldId else mergeId)
      decreases j
    {
      ghost var s := idl[..];
      SentinelStops(s0, s, j, n + m, mergeId);
      UnreadDescends(s0, s, n, j, n + m);
      FinishedPrepend(s, k, n + m, Bag(s0, n, j, mg, m, i), oldId, if s[j - 1] < mergeId then s[j - 1] else mergeId);
      BagTakes(s0, n, j, mg, m, i);
      StoreUntouched(s0, s, j, j - 1, k, n + m, oldId);
      idl[k] := oldId;
      assert idl[..] == s[k := oldId];
      k := k - 1;
      j := j - 1;
      oldId := idl[j];
    }
  }

  lemma SentinelStops(s0: seq<Id>, s: seq<Id>, j: nat, top: nat, x: Id)
    requires Untouched(s0, s, j, top) && x < WORD && s[j] < x
    ensures j >= 1
  {
  }
}

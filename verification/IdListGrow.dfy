// Growing ID lists: making room, and appending an ID or a range.
module IdListGrow {
  import opened IdLists

  ghost predicate Down(s: seq<Id>) {
    forall p, q | 0 <= p < q < |s| :: s[p] >= s[q]
  }

  // The n IDs from `id` on, the largest first.
  function RunDown(id: Id, n: nat): seq<Id> {
    seq(n, k requires 0 <= k < n => id + n - 1 - k)
  }

  lemma DownAppend(s: seq<Id>, t: seq<Id>)
    ensures Down(s + t) <==> Down(s) && Down(t) && (s == [] || t == [] || s[|s| - 1] >= t[0])
  {
    var u := s + t;
    if Down(u) {
      forall p, q | 0 <= p < q < |s| ensures s[p] >= s[q] { assert u[p] >= u[q]; }
      forall p, q | 0 <= p < q < |t| ensures t[p] >= t[q] { assert u[|s| + p] >= u[|s| + q]; }
      if s != [] && t != [] { assert u[|s| - 1] >= u[|s|]; }
    }
    if Down(s) && Down(t) && (s == [] || t == [] || s[|s| - 1] >= t[0]) {
      forall p, q | 0 <= p < q < |u| ensures u[p] >= u[q] {
        if p < |s| <= q {
          assert s[p] >= s[|s| - 1] >= t[0] >= t[q - |s|];
        }
      }
    }
  }

  lemma RunAppend(s: seq<Id>, id: Id, n: nat)
    ensures Down(s + RunDown(id, n)) <==> Down(s) && (s == [] || n == 0 || s[|s| - 1] >= id + n - 1)
  {
    DownAppend(s, RunDown(id, n));
  }

  // Store a range behind the first len IDs, from its end to its start.
  method FillDown(a: array<Id>, len: nat, id: Id, n: nat)
    requires len + n < a.Length
    modifies a
    ensures a[len + 1..len + n + 1] == RunDown(id, n)
    ensures forall p | 0 <= p < a.Length && !(len < p <= len + n) :: a[p] == old(a[p])
  {
    var k, next := n, id;
    while k > 0
      invariant 0 <= k <= n && next == id + n - k
      invariant forall p | len + k < p <= len + n :: a[p] == id + len + n - p
      invariant forall p | 0 <= p < a.Length && !(len < p <= len + n) :: a[p] == old(a[p])
    {
      a[len + k] := next;
      k, next := k - 1, next + 1;
    }
  }

  // A list whose cell 0 holds its count; the array has room for Capacity IDs.
  class IdList {
    var ids: array<Id>

    ghost predicate Valid()
      reads this, ids
    {
      ids.Length >= 1 && ids[0] < ids.Length
    }

    ghost function Contents(): seq<Id>
      requires Valid()
      reads this, ids
    {
      ids[1..ids[0] + 1]
    }

    function Capacity(): int
      reads this
    {
      ids.Length - 1
    }

    constructor (num: nat)
      ensures Valid() && fresh(ids) && Contents() == [] && Capacity() == num
    {
      ids := new Id[num + 1];
      new;
      ids[0] := 0;
    }

    // realloc to another capacity.
    method Resize(cap: nat)
      requires Valid() && ids[0] <= cap
      modifies this
      ensures Valid() && fresh(ids) && Capacity() == cap && Contents() == old(Contents())
    {
      var a, more := ids, new Id[cap + 1];
      var n := a[0];
      for i := 0 to n + 1
        invariant more[..i] == a[..i]
        invariant a[..] == old(a[..])
      {
        more[i] := a[i];
      }
      assert more[0] == more[..n + 1][0] == n && more[..n + 1][1..] == a[..n + 1][1..];
      ids := more;
    }

    // Room for num more IDs, with some to spare.
    method Need(num: nat)
      requires Valid()
      modifies this
      ensures Valid() && (ids == old(ids) || fresh(ids)) && Contents() == old(Contents()) && Capacity() >= |Contents()| + num
    {
      var want := num + ids[0];
      if want > Capacity() {
        var cells := want + want / 4 + (256 + 2);
        Resize(cells - cells % 256 - 2);
      }
    }

    method Append(id: Id)
      requires Valid()
      modifies this, ids
      ensures Valid() && (ids == old(ids) || fresh(ids)) && Contents() == old(Contents()) + [id]
    {
      if ids[0] >= Capacity() {
        Resize(Capacity() + UM_MAX);
      }
      ids[0] := ids[0] + 1;
      ids[ids[0]] := id;
    }

    method AppendRange(id: Id, n: nat)
      requires Valid()
      modifies this, ids
      ensures Valid() && (ids == old(ids) || fresh(ids)) && Contents() == old(Contents()) + RunDown(id, n)
      ensures Down(Contents()) <==>
              Down(old(Contents())) && (old(Contents()) == [] || n == 0 || old(Contents())[|old(Contents())| - 1] >= id + n - 1)
    {
      hide Down, RunDown;
      ghost var was := Contents();
      var len := ids[0];
      if len + n > Capacity() {
        // n | UM_MAX
        Resize(Capacity() + (n - n % (UM_MAX + 1) + UM_MAX));
      }
      ids[0] := len + n;
      FillDown(ids, len, id, n);
      assert ids[1..len + 1] == was;
      assert Contents() == ids[1..len + 1] + ids[len + 1..len + n + 1];
      RunAppend(was, id, n);
    }
  }
}

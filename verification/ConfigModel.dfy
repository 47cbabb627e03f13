// The configuration store as the parser's handler fills it, and exactly when
// strict loading accepts a sequence of handler calls.
module ConfigModel {
  import opened Options
  import opened IniParser

  datatype Store = Store(entries: map<string, string>, sections: set<string>, last: Option<string>)

  const EMPTY := Store(map[], {}, None)

  function FullKey(section: string, name: string): string {
    if section == "" then name else section + "." + name
  }

  function KeyOf(c: Call): string {
    FullKey(c.section, c.name)
  }

  // One handler call, and whether it lets parsing succeed.
  function Handle(strict: bool, s: Store, c: Call): (Store, bool) {
    if strict && (c.section == "" || c.name == "" || c.value == "") then (s, false)
    else if strict && KeyOf(c) in s.entries then (s, false)
    else
      var entries := if KeyOf(c) in s.entries then s.entries else s.entries[KeyOf(c) := c.value];
      if s.last == Some(c.section) then (s.(entries := entries), true)
      else if strict && c.section in s.sections then (s.(entries := entries), false)
      else (Store(entries, s.sections + {c.section}, Some(c.section)), true)
  }

  // The store after a sequence of calls, and whether all of them succeeded.
  function Run(strict: bool, calls: seq<Call>): (Store, bool) {
    if calls == [] then (EMPTY, true)
    else
      var before := Run(strict, calls[..|calls| - 1]);
      var after := Handle(strict, before.0, calls[|calls| - 1]);
      (after.0, before.1 && after.1)
  }

  // ------------------------------------------------------ what strict accepts

  ghost predicate NoEmptyParts(calls: seq<Call>) {
    forall i | 0 <= i < |calls| :: calls[i].section != "" && calls[i].name != "" && calls[i].value != ""
  }

  ghost predicate DistinctKeys(calls: seq<Call>) {
    forall i, j | 0 <= i < j < |calls| :: KeyOf(calls[i]) != KeyOf(calls[j])
  }

  // The calls of a section are not interrupted by another one's.
  ghost predicate Contiguous(calls: seq<Call>) {
    forall i, j, k | 0 <= i < j < k < |calls| && calls[i].section == calls[k].section ::
      calls[j].section == calls[i].section
  }

  ghost predicate Proper(calls: seq<Call>) {
    NoEmptyParts(calls) && DistinctKeys(calls) && Contiguous(calls)
  }

  ghost predicate HasKey(calls: seq<Call>, key: string) {
    exists i :: 0 <= i < |calls| && KeyOf(calls[i]) == key
  }

  ghost predicate HasSection(calls: seq<Call>, section: string) {
    exists i :: 0 <= i < |calls| && calls[i].section == section
  }

  // The store has the keys and sections of the calls.
  ghost predicate Reflects(s: Store, calls: seq<Call>) {
    && (forall k :: k in s.entries <==> HasKey(calls, k))
    && (forall n :: n in s.sections <==> HasSection(calls, n))
    && s.last == (if calls == [] then None else Some(calls[|calls| - 1].section))
  }

  lemma HasKeyOneMore(calls: seq<Call>, c: Call, key: string)
    ensures HasKey(calls + [c], key) <==> HasKey(calls, key) || KeyOf(c) == key
  {
    hide KeyOf;
    var more := calls + [c];
    if HasKey(calls, key) {
      var i :| 0 <= i < |calls| && KeyOf(calls[i]) == key;
      assert KeyOf(more[i]) == key;
    }
    if KeyOf(c) == key { assert KeyOf(more[|calls|]) == key; }
    if HasKey(more, key) && KeyOf(c) != key {
      var i :| 0 <= i < |more| && KeyOf(more[i]) == key;
      assert KeyOf(calls[i]) == key;
    }
  }

  lemma HasSectionOneMore(calls: seq<Call>, c: Call, n: string)
    ensures HasSection(calls + [c], n) <==> HasSection(calls, n) || c.section == n
  {
    var more := calls + [c];
    if HasSection(calls, n) {
      var i :| 0 <= i < |calls| && calls[i].section == n;
      assert more[i].section == n;
    }
    if c.section == n { assert more[|calls|].section == n; }
    if HasSection(more, n) && c.section != n {
      var i :| 0 <= i < |more| && more[i].section == n;
      assert calls[i].section == n;
    }
  }

  lemma DistinctOneMore(calls: seq<Call>, c: Call)
    ensures DistinctKeys(calls + [c]) <==> DistinctKeys(calls) && !HasKey(calls, KeyOf(c))
  {
    hide KeyOf;
    var more := calls + [c];
    if DistinctKeys(more) {
      forall i, j | 0 <= i < j < |calls| ensures KeyOf(calls[i]) != KeyOf(calls[j]) {
        assert KeyOf(more[i]) != KeyOf(more[j]);
      }
      forall i | 0 <= i < |calls| ensures KeyOf(calls[i]) != KeyOf(c) {
        assert KeyOf(more[i]) != KeyOf(more[|calls|]);
      }
    }
  }

  lemma ContiguousOneMore(calls: seq<Call>, c: Call)
    ensures Contiguous(calls + [c]) <==>
            Contiguous(calls) && (calls == [] || calls[|calls| - 1].section == c.section || !HasSection(calls, c.section))
  {
    var more, n := calls + [c], |calls|;
    if Contiguous(more) {
      forall i, j, k | 0 <= i < j < k < n && calls[i].section == calls[k].section
        ensures calls[j].section == calls[i].section
      {
        assert more[i].section == more[k].section && more[j].section == calls[j].section;
      }
      if calls != [] && calls[n - 1].section != c.section {
        forall i | 0 <= i < n ensures calls[i].section != c.section {
          assert more[n].section == c.section && more[n - 1].section == calls[n - 1].section && more[i].section == calls[i].section;
        }
      }
    }
    if Contiguous(calls) && (calls == [] || calls[n - 1].section == c.section || !HasSection(calls, c.section)) {
      forall i, j, k | 0 <= i < j < k < |more| && more[i].section == more[k].section
        ensures more[j].section == more[i].section
      {
        if k == n {
          assert calls[i].section == c.section == calls[n - 1].section;
          assert j < n - 1 ==> calls[j].section == calls[i].section;
        } else {
          assert calls[i].section == calls[k].section;
        }
      }
    }
  }

  lemma ProperOneMore(calls: seq<Call>, c: Call)
    ensures Proper(calls + [c]) <==>
            && Proper(calls) && c.section != "" && c.name != "" && c.value != "" && !HasKey(calls, KeyOf(c))
            && (calls == [] || calls[|calls| - 1].section == c.section || !HasSection(calls, c.section))
  {
    hide DistinctKeys, Contiguous, HasKey, HasSection, KeyOf;
    DistinctOneMore(calls, c);
    ContiguousOneMore(calls, c);
    var more := calls + [c];
    assert more[|calls|] == c;
    if NoEmptyParts(more) {
      forall i | 0 <= i < |calls| ensures calls[i].section != "" && calls[i].name != "" && calls[i].value != "" {
        assert more[i] == calls[i];
      }
    }
  }

  lemma HandleReflects(strict: bool, s: Store, calls: seq<Call>, c: Call)
    requires Reflects(s, calls) && Handle(strict, s, c).1
    ensures Reflects(Handle(strict, s, c).0, calls + [c])
  {
    hide HasKey, HasSection, KeyOf;
    var s', more := Handle(strict, s, c).0, calls + [c];
    forall k ensures k in s'.entries <==> HasKey(more, k) { HasKeyOneMore(calls, c, k); }
    forall n ensures n in s'.sections <==> HasSection(more, n) {
      HasSectionOneMore(calls, c, n);
      if calls != [] { LastHasSection(calls); }
    }
  }

  lemma NothingReflected()
    ensures Reflects(EMPTY, [])
  {
  }

  lemma LastHasSection(calls: seq<Call>)
    requires calls != []
    ensures HasSection(calls, calls[|calls| - 1].section)
  {
  }

  // As long as all calls succeed, the store has their keys and sections.
  lemma {:induction false} RunReflects(strict: bool, calls: seq<Call>)
    requires Run(strict, calls).1
    ensures Reflects(Run(strict, calls).0, calls)
  {
    hide Handle, Reflects;
    if calls == [] {
      NothingReflected();
    } else {
      var before := calls[..|calls| - 1];
      RunReflects(strict, before);
      HandleReflects(strict, Run(strict, before).0, before, calls[|calls| - 1]);
      assert before + [calls[|calls| - 1]] == calls;
    }
  }

  // Strict loading accepts exactly the calls with no empty part, no key twice,
  // and no section entered twice.
  lemma {:induction false} StrictAcceptsProper(calls: seq<Call>)
    ensures Run(true, calls).1 <==> Proper(calls)
  {
    if calls != [] {
      var before, c := calls[..|calls| - 1], calls[|calls| - 1];
      StrictAcceptsProper(before);
      ProperOneMore(before, c);
      assert before + [c] == calls;
      if Run(true, before).1 {
        RunReflects(true, before);
        HandleAccepts(Run(true, before).0, before, c);
      }
    }
  }

  lemma HandleAccepts(s: Store, calls: seq<Call>, c: Call)
    requires Reflects(s, calls)
    ensures Handle(true, s, c).1 <==>
            && c.section != "" && c.name != "" && c.value != "" && !HasKey(calls, KeyOf(c))
            && (calls == [] || calls[|calls| - 1].section == c.section || !HasSection(calls, c.section))
  {
    hide HasKey, KeyOf;
  }

  // Non-strict handling never fails.
  lemma {:induction false} LenientAcceptsAll(calls: seq<Call>)
    ensures Run(false, calls).1
  {
    if calls != [] { LenientAcceptsAll(calls[..|calls| - 1]); }
  }

  // ------------------------------------------------------- what lookup returns

  function Lookup(s: Store, key: string): Option<string> {
    if key in s.entries then Some(s.entries[key]) else None
  }

  // The value of the first call with a key.
  function FirstValue(calls: seq<Call>, key: string): Option<string> {
    if calls == [] then None
    else if KeyOf(calls[0]) == key then Some(calls[0].value)
    else FirstValue(calls[1..], key)
  }

  lemma {:induction false} FirstValueOneMore(calls: seq<Call>, c: Call, key: string)
    ensures FirstValue(calls + [c], key) ==
            if FirstValue(calls, key).Some? then FirstValue(calls, key)
            else if KeyOf(c) == key then Some(c.value) else None
  {
    hide KeyOf;
    if calls == [] {
      assert calls + [c] == [c] && [c][1..] == [];
    } else {
      assert (calls + [c])[0] == calls[0] && (calls + [c])[1..] == calls[1..] + [c];
      FirstValueOneMore(calls[1..], c, key);
    }
  }

  // Lookup gives the first value seen for a key.
  lemma {:induction false} LookupFirst(strict: bool, calls: seq<Call>, key: string)
    requires Run(strict, calls).1
    ensures Lookup(Run(strict, calls).0, key) == FirstValue(calls, key)
  {
    hide KeyOf;
    if calls != [] {
      var before, c := calls[..|calls| - 1], calls[|calls| - 1];
      LookupFirst(strict, before, key);
      FirstValueOneMore(before, c, key);
      assert before + [c] == calls;
    }
  }

  // With distinct keys that is the value of the only call with the key.
  lemma {:induction false} FirstIsOnly(calls: seq<Call>, i: nat)
    requires DistinctKeys(calls) && i < |calls|
    ensures FirstValue(calls, KeyOf(calls[i])) == Some(calls[i].value)
    decreases |calls|
  {
    hide KeyOf;
    if i > 0 {
      assert KeyOf(calls[0]) != KeyOf(calls[i]);
      forall j, k | 0 <= j < k < |calls[1..]| ensures KeyOf(calls[1..][j]) != KeyOf(calls[1..][k]) {
        assert KeyOf(calls[j + 1]) != KeyOf(calls[k + 1]);
      }
      FirstIsOnly(calls[1..], i - 1);
    }
  }

  lemma {:induction false} FirstOfNone(calls: seq<Call>, key: string)
    requires !HasKey(calls, key)
    ensures FirstValue(calls, key) == None
  {
    hide KeyOf;
    if calls != [] {
      assert KeyOf(calls[0]) != key;
      forall j | 0 <= j < |calls[1..]| ensures KeyOf(calls[1..][j]) != key {
        assert KeyOf(calls[j + 1]) != key;
      }
      FirstOfNone(calls[1..], key);
    }
  }

  // After strict loading, lookup is the calls read as a map.
  lemma StrictLookup(calls: seq<Call>)
    requires Run(true, calls).1
    ensures forall i | 0 <= i < |calls| :: Lookup(Run(true, calls).0, KeyOf(calls[i])) == Some(calls[i].value)
    ensures forall key | !HasKey(calls, key) :: Lookup(Run(true, calls).0, key) == None
  {
    hide Run, KeyOf, Lookup;
    StrictAcceptsProper(calls);
    forall i | 0 <= i < |calls| ensures Lookup(Run(true, calls).0, KeyOf(calls[i])) == Some(calls[i].value) {
      LookupFirst(true, calls, KeyOf(calls[i]));
      FirstIsOnly(calls, i);
    }
    forall key | !HasKey(calls, key) ensures Lookup(Run(true, calls).0, key) == None {
      LookupFirst(true, calls, key);
      FirstOfNone(calls, key);
    }
  }
}

// The key under which the configuration keeps a name of a section is the two
// joined by a dot.  When two names share a key, and what lookup and strict
// loading then say by section and name.
module ConfigKeys {
  import opened Options
  import opened IniParser
  import opened ConfigModel

  // The section goes on where the shorter one stops, and the name of the shorter
  // one says the same: "a" with "b.c", and "a.b" with "c".
  predicate Nested(s: string, n: string, s': string, n': string) {
    && |s| < |s'| && s <= s'
    && var d := if s == "" then s' else s'[|s| + 1..];
       s' == (if s == "" then d else s + "." + d) && n == d + "." + n'
  }

  predicate Clash(s: string, n: string, s': string, n': string) {
    Nested(s, n, s', n') || Nested(s', n', s, n)
  }

  lemma JoinedAt(s: string, n: string)
    requires s != ""
    ensures |FullKey(s, n)| == |s| + 1 + |n|
    ensures FullKey(s, n)[..|s|] == s && FullKey(s, n)[|s|] == '.' && FullKey(s, n)[|s| + 1..] == n
  {
  }

  lemma NestedShares(s: string, n: string, s': string, n': string)
    requires Nested(s, n, s', n')
    ensures FullKey(s, n) == FullKey(s', n')
  {
    var d := if s == "" then s' else s'[|s| + 1..];
    if s == "" {
      assert n == s' + "." + n';
    } else {
      assert s + "." + (d + "." + n') == (s + "." + d) + "." + n';
    }
  }

  lemma SharedNests(s: string, n: string, s': string, n': string)
    requires |s| < |s'| && FullKey(s, n) == FullKey(s', n')
    ensures Nested(s, n, s', n')
  {
    hide FullKey;
    var key := FullKey(s, n);
    JoinedAt(s', n');
    if s == "" {
      NoSection(n);
      assert key == key[..|s'|] + [key[|s'|]] + key[|s'| + 1..];
    } else {
      JoinedAt(s, n);
      var d := s'[|s| + 1..];
      assert s' == s'[..|s|] + [s'[|s|]] + d && s'[..|s|] == key[..|s'|][..|s|] == s && s'[|s|] == key[|s|];
      assert n == key[|s| + 1..] == key[|s| + 1..|s'|] + [key[|s'|]] + key[|s'| + 1..];
      assert d == key[..|s'|][|s| + 1..] == key[|s| + 1..|s'|];
    }
  }

  lemma NoSection(n: string)
    ensures FullKey("", n) == n
  {
  }

  lemma SameLength(s: string, n: string, s': string, n': string)
    requires |s| == |s'| && FullKey(s, n) == FullKey(s', n')
    ensures s == s' && n == n'
  {
    hide FullKey;
    if s == "" {
      NoSection(n);
      NoSection(n');
    } else {
      JoinedAt(s, n);
      JoinedAt(s', n');
    }
  }

  // Two names have the same key exactly when they are the same name of the same
  // section, or one section nests in the other.
  lemma SameKey(s: string, n: string, s': string, n': string)
    ensures FullKey(s, n) == FullKey(s', n') <==> (s == s' && n == n') || Clash(s, n, s', n')
  {
    hide FullKey, Nested;
    if Nested(s, n, s', n') { NestedShares(s, n, s', n'); }
    if Nested(s', n', s, n) { NestedShares(s', n', s, n); }
    if FullKey(s, n) == FullKey(s', n') {
      if |s| == |s'| {
        SameLength(s, n, s', n');
      } else if |s| < |s'| {
        SharedNests(s, n, s', n');
      } else {
        SharedNests(s', n', s, n);
      }
    }
  }

  // A section with a dot can share a key.
  lemma SharedKey()
    ensures FullKey("a", "b.c") == FullKey("a.b", "c")
  {
    assert "a.b"[2..] == "b";
    assert Nested("a", "b.c", "a.b", "c");
    NestedShares("a", "b.c", "a.b", "c");
  }

  predicate Plain(section: string) {
    section != "" && '.' !in section
  }

  // Sections without dots share none.
  lemma PlainKey(s: string, n: string, s': string, n': string)
    requires Plain(s) && Plain(s')
    ensures FullKey(s, n) == FullKey(s', n') <==> s == s' && n == n'
  {
    hide FullKey, Nested;
    SameKey(s, n, s', n');
    NestedHasDot(s, n, s', n');
    NestedHasDot(s', n', s, n);
  }

  lemma NestedHasDot(s: string, n: string, s': string, n': string)
    ensures s != "" && Nested(s, n, s', n') ==> '.' in s'
  {
    if s != "" && Nested(s, n, s', n') { assert s'[|s|] == '.'; }
  }

  // ------------------------------------------------- by section and by name

  // The value of the first call with a section and a name.
  function FirstOf(calls: seq<Call>, section: string, name: string): Option<string> {
    if calls == [] then None
    else if calls[0].section == section && calls[0].name == name then Some(calls[0].value)
    else FirstOf(calls[1..], section, name)
  }

  predicate PlainCalls(calls: seq<Call>) {
    forall c | c in calls :: Plain(c.section)
  }

  ghost predicate NoClash(calls: seq<Call>, section: string, name: string) {
    forall c | c in calls :: !Clash(section, name, c.section, c.name)
  }

  // The first value of a key is that of its section and name, if no other call
  // shares the key.
  lemma {:induction false} FirstByName(calls: seq<Call>, section: string, name: string)
    requires NoClash(calls, section, name)
    ensures FirstValue(calls, FullKey(section, name)) == FirstOf(calls, section, name)
  {
    hide FullKey, Clash;
    if calls != [] {
      SameKey(section, name, calls[0].section, calls[0].name);
      FirstByName(calls[1..], section, name);
    }
  }

  lemma PlainIsNoClash(calls: seq<Call>, section: string, name: string)
    requires PlainCalls(calls) && Plain(section)
    ensures NoClash(calls, section, name)
  {
    hide FullKey, Clash, Plain;
    forall c | c in calls ensures !Clash(section, name, c.section, c.name) {
      PlainKey(section, name, c.section, c.name);
      SameKey(section, name, c.section, c.name);
      NoSelfClash(section, name, c.section, c.name);
    }
  }

  lemma NoSelfClash(s: string, n: string, s': string, n': string)
    ensures Clash(s, n, s', n') ==> s != s'
  {
  }

  // Lookup, by section and name: the first value that the text gives them.
  lemma LookupByName(strict: bool, calls: seq<Call>, section: string, name: string)
    requires Run(strict, calls).1 && NoClash(calls, section, name)
    ensures Lookup(Run(strict, calls).0, FullKey(section, name)) == FirstOf(calls, section, name)
  {
    hide Run, Lookup, NoClash;
    LookupFirst(strict, calls, FullKey(section, name));
    FirstByName(calls, section, name);
  }

  ghost predicate NoNameTwice(calls: seq<Call>) {
    forall i, j | 0 <= i < j < |calls| && calls[i].section == calls[j].section :: calls[i].name != calls[j].name
  }

  // With sections without dots, strict loading accepts exactly the calls with no
  // empty part, no name twice in a section and no section entered twice.
  lemma StrictByName(calls: seq<Call>)
    requires PlainCalls(calls)
    ensures Run(true, calls).1 <==> NoEmptyParts(calls) && NoNameTwice(calls) && Contiguous(calls)
  {
    hide Run, FullKey, Contiguous, Plain, NoEmptyParts;
    StrictAcceptsProper(calls);
    forall i, j | 0 <= i < j < |calls|
      ensures KeyOf(calls[i]) == KeyOf(calls[j]) <==>
              calls[i].section == calls[j].section && calls[i].name == calls[j].name
    {
      PlainKey(calls[i].section, calls[i].name, calls[j].section, calls[j].name);
    }
    hide KeyOf;
  }
}

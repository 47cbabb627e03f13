// The string operations of the INI parser, and NUL-terminated strings in a
// buffer, on which the parser performs them in place.
module IniText {

  // isspace in the C locale.
  predicate IsSpace(c: char) {
    c == ' ' || 9 <= c as int <= 13
  }

  // Space, tab, newline, vertical tab, form feed and carriage return.
  lemma SixSpaces(c: char)
    ensures IsSpace(c) <==> c in {' ', '\t', '\n', '\U{0B}', '\U{0C}', '\r'}
  {
    assert '\t' as int == 9 && '\n' as int == 10 && '\U{0B}' as int == 11 && '\U{0C}' as int == 12 && '\r' as int == 13;
  }

  // Without the white space at the end.
  function RStrip(s: string): (r: string)
    ensures r <= s
  {
    if s != "" && IsSpace(s[|s| - 1]) then RStrip(s[..|s| - 1]) else s
  }

  // Without the white space at the start.
  function LSkip(s: string): (r: string)
    ensures |r| <= |s|
  {
    if s != "" && IsSpace(s[0]) then LSkip(s[1..]) else s
  }

  // The position of the first of `chars`, or of a comment sign behind white
  // space, or the end.
  function Find(s: string, chars: string, space: bool): (k: nat)
    ensures k <= |s|
  {
    if s == "" || s[0] in chars || (space && s[0] == ';') then 0
    else 1 + Find(s[1..], chars, IsSpace(s[0]))
  }

  // At most n characters.
  function Truncate(s: string, n: nat): (r: string)
    ensures r <= s && |r| == (if |s| <= n then |s| else n)
  {
    if |s| <= n then s else s[..n]
  }

  // ------------------------------------------------------ strings in a buffer

  // The string that characters show when a NUL is put behind them.
  function CString(s: string): (r: string)
    ensures r <= s && '\0' !in r && (|r| < |s| ==> s[|r|] == '\0')
  {
    if s == "" || s[0] == '\0' then "" else [s[0]] + CString(s[1..])
  }

  lemma {:induction false} CStringPlain(s: string)
    requires '\0' !in s
    ensures CString(s) == s
  {
    if s != "" { CStringPlain(s[1..]); }
  }

  // A string s with its NUL stands at position i.
  ghost predicate Holds(a: seq<char>, i: nat, s: string) {
    i + |s| < |a| && a[i..i + |s|] == s && a[i + |s|] == '\0' && '\0' !in s
  }

  // From a later position on.
  lemma HoldsTail(a: seq<char>, i: nat, s: string, k: nat)
    requires Holds(a, i, s) && k <= |s|
    ensures Holds(a, i + k, s[k..])
  {
    assert a[i + k..i + |s|] == s[k..];
  }

  // Writing a NUL cuts the string.
  lemma HoldsCut(a: seq<char>, i: nat, s: string, k: nat)
    requires Holds(a, i, s) && k <= |s|
    ensures Holds(a[i + k := '\0'], i, s[..k])
  {
    assert a[i + k := '\0'][i..i + k] == s[..k];
  }

  // A write behind the string leaves it alone.
  lemma HoldsApart(a: seq<char>, b: seq<char>, i: nat, s: string)
    requires Holds(a, i, s) && |b| == |a| && forall j | i <= j <= i + |s| :: b[j] == a[j]
    ensures Holds(b, i, s)
  {
    assert b[i..i + |s|] == s;
  }

  // The character at the start of a string, NUL at its end.
  lemma HoldsFirst(a: seq<char>, i: nat, s: string)
    requires Holds(a, i, s)
    ensures a[i] == '\0' <==> s == ""
    ensures s != "" ==> a[i] == s[0]
  {
  }

  // ------------------------------------------------------------ in the buffer

  // Cut the white space off the end of the string at s, which ends at `end`.
  method StripEnd(a: array<char>, s: nat, end: nat, ghost str: string)
    requires Holds(a[..], s, str) && end == s + |str|
    modifies a
    ensures Holds(a[..], s, RStrip(str))
    ensures forall j | 0 <= j < a.Length && !(s <= j < end) :: a[j] == old(a[j])
  {
    var e := end;
    ghost var now := str;
    while e > s && IsSpace(a[e - 1])
      invariant s <= e <= end && now == str[..e - s] && Holds(a[..], s, now) && RStrip(now) == RStrip(str)
      invariant forall j | 0 <= j < a.Length && !(s <= j < end) :: a[j] == old(a[j])
    {
      e := e - 1;
      HoldsCut(a[..], s, now, e - s);
      assert a[e] == now[e - s];
      a[e] := '\0';
      now := now[..e - s];
    }
    assert now != "" ==> a[e - 1] == now[|now| - 1];
  }

  // The first position behind leading white space.
  method SkipSpace(a: array<char>, s: nat, ghost str: string) returns (r: nat)
    requires Holds(a[..], s, str)
    ensures s <= r && Holds(a[..], r, LSkip(str)) && r + |LSkip(str)| == s + |str|
  {
    r := s;
    ghost var now := str;
    HoldsFirst(a[..], r, now);
    while a[r] != '\0' && IsSpace(a[r])
      invariant s <= r && Holds(a[..], r, now) && LSkip(now) == LSkip(str) && r + |now| == s + |str|
      invariant a[r] == '\0' <==> now == ""
      decreases |now|
    {
      HoldsTail(a[..], r, now, 1);
      assert a[r] == now[0];
      r := r + 1;
      now := now[1..];
      HoldsFirst(a[..], r, now);
    }
    HoldsFirst(a[..], r, now);
  }

  // The first of `chars`, or an inline comment, in the string at s.
  method FindChars(a: array<char>, s: nat, chars: string, ghost str: string) returns (r: nat)
    requires Holds(a[..], s, str)
    ensures r == s + Find(str, chars, false)
  {
    r := s;
    ghost var now := str;
    var space := false;
    HoldsFirst(a[..], r, now);
    while a[r] != '\0' && a[r] !in chars && !(space && a[r] == ';')
      invariant s <= r && Holds(a[..], r, now) && (a[r] == '\0' <==> now == "")
      invariant r + Find(now, chars, space) == s + Find(str, chars, false)
      decreases |now|
    {
      HoldsTail(a[..], r, now, 1);
      assert a[r] == now[0];
      space := IsSpace(a[r]);
      r := r + 1;
      now := now[1..];
      HoldsFirst(a[..], r, now);
    }
    HoldsFirst(a[..], r, now);
  }

  // Copy the string at s, at most size - 1 characters of it.
  method Copy(a: array<char>, s: nat, size: nat, ghost str: string) returns (r: string)
    requires Holds(a[..], s, str) && size > 0
    ensures r == Truncate(str, size - 1)
  {
    r := "";
    var i := 0;
    while i < size - 1 && a[s + i] != '\0'
      invariant i <= |str| && i <= size - 1 && r == str[..i]
    {
      assert i < |str| && a[s + i] == str[i];
      r := r + [a[s + i]];
      i := i + 1;
    }
    assert i < size - 1 ==> i == |str|;
  }

  // The whole string at s.
  method Text(a: array<char>, s: nat, ghost str: string) returns (r: string)
    requires Holds(a[..], s, str)
    ensures r == str
  {
    r := Copy(a, s, a.Length + 1, str);
  }

  // Writing a NUL at position s + k cuts the string at s there.
  method CutAt(a: array<char>, s: nat, at: nat, ghost str: string)
    requires Holds(a[..], s, str) && s <= at <= s + |str|
    modifies a
    ensures Holds(a[..], s, str[..at - s])
    ensures forall j | 0 <= j < a.Length && j != at :: a[j] == old(a[j])
  {
    HoldsCut(a[..], s, str, at - s);
    a[at] := '\0';
  }

  method StrLen(a: array<char>, ghost str: string) returns (n: nat)
    requires Holds(a[..], 0, str)
    ensures n == |str|
  {
    n := 0;
    while a[n] != '\0'
      invariant n <= |str|
      decreases |str| - n
    {
      assert a[n] == a[..][0..|str|][n] == str[n];
      n := n + 1;
    }
  }
}

// Parsing one line in the line buffer, cutting it in place.
module IniLines {
  import opened IniText
  import opened IniParser

  // The continuation of a value, at position s.
  method MoreAt(a: array<char>, s: nat, ghost str: string) returns (p: Parsed)
    requires Holds(a[..], s, str)
    modifies a
    ensures p == More(RStrip(Uncommented(str)))
  {
    var end := FindChars(a, s, "", str);
    CutAt(a, s, end, str);
    StripEnd(a, s, end, Uncommented(str));
    var value := Text(a, s, RStrip(Uncommented(str)));
    p := More(value);
  }

  // A section line, behind its opening bracket.
  method SectionAt(a: array<char>, s: nat, ghost str: string) returns (p: Parsed)
    requires Holds(a[..], s, str)
    modifies a
    ensures p == ParseSection(str)
  {
    var end := FindChars(a, s, "]", str);
    ghost var k := Find(str, "]", false);
    HoldsTail(a[..], s, str, k);
    HoldsFirst(a[..], end, str[k..]);
    if a[end] == ']' {
      CutAt(a, s, end, str);
      var name := Copy(a, s, NAME + 1, str[..k]);
      p := Section(name);
    } else {
      p := Bad;
    }
  }

  // A name and its value.
  method PairAt(a: array<char>, s: nat, ghost str: string) returns (p: Parsed)
    requires Holds(a[..], s, str)
    modifies a
    ensures p == ParsePair(str)
  {
    hide Find, RStrip, LSkip;
    var end := FindChars(a, s, "=:", str);
    ghost var k := Find(str, "=:", false);
    HoldsTail(a[..], s, str, k);
    HoldsFirst(a[..], end, str[k..]);
    if a[end] == '=' || a[end] == ':' {
      HoldsTail(a[..], s, str, k + 1);
      ghost var v := str[k + 1..];
      p := SplitAt(a, s, end, str[..k], v, str);
    } else {
      p := Bad;
    }
  }

  method SplitAt(a: array<char>, s: nat, at: nat, ghost n: string, ghost v: string, ghost str: string) returns (p: Parsed)
    requires Holds(a[..], s, str) && Holds(a[..], at + 1, v) && s <= at <= s + |str| && n == str[..at - s]
    modifies a
    ensures p == Pair(RStrip(n), RStrip(LSkip(Uncommented(v))))
  {
    hide Find, RStrip, LSkip;
    ghost var b := a[..];
    CutAt(a, s, at, str);
    HoldsApart(b, a[..], at + 1, v);
    b := a[..];
    StripEnd(a, s, at, n);
    HoldsApart(b, a[..], at + 1, v);
    var name := Text(a, s, RStrip(n));
    var end := FindChars(a, at + 1, "", v);
    CutAt(a, at + 1, end, v);
    var start := SkipSpace(a, at + 1, Uncommented(v));
    StripEnd(a, start, end, LSkip(Uncommented(v)));
    var value := Text(a, start, RStrip(LSkip(Uncommented(v))));
    p := Pair(name, value);
  }

  // The length of a byte order mark at the start of the line.
  method MarkLength(a: array<char>, first: bool, ghost line: string) returns (k: nat)
    requires Holds(a[..], 0, line)
    ensures k <= |line| && line[k..] == Unmarked(line, first) && Holds(a[..], k, line[k..])
  {
    k := 0;
    if first && a[0] == '\U{EF}' && a[1] == '\U{BB}' && a[2] == '\U{BF}' {
      k := 3;
    }
    HoldsTail(a[..], 0, line, k);
  }

  method LineIn(a: array<char>, offset: nat, first: bool, prev: bool, ghost line: string) returns (p: Parsed)
    requires Holds(a[..], 0, line) && offset == |line|
    modifies a
    ensures p == ParseLine(line, first, prev)
  {
    var mark := MarkLength(a, first, line);
    ghost var unmarked := Unmarked(line, first);
    var start := SkipSpace(a, mark, unmarked);
    StripEnd(a, start, offset, LSkip(unmarked));
    ghost var s := Body(line, first);
    HoldsFirst(a[..], start, s);
    if a[start] == '\0' || a[start] == ';' || a[start] == '#' {
      p := Ignored;
    } else if prev && start > 0 {
      p := MoreAt(a, start, s);
    } else if a[start] == '[' {
      HoldsTail(a[..], start, s, 1);
      p := SectionAt(a, start + 1, s[1..]);
    } else {
      p := PairAt(a, start, s);
    }
  }
}

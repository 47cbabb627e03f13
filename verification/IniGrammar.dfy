// What the INI parser takes each line for, described by how the line is laid
// out: a name with a value, a section, the continuation of a value, nothing, or
// an error.
module IniGrammar {
  import opened IniText
  import opened IniParser

  ghost predicate Blank(s: string) {
    forall i | 0 <= i < |s| :: IsSpace(s[i])
  }

  // Without white space at either end.
  ghost predicate Tight(s: string) {
    s == "" || (!IsSpace(s[0]) && !IsSpace(s[|s| - 1]))
  }

  // An inline comment begins here.
  ghost predicate CommentAt(s: string, i: nat)
    requires i < |s|
  {
    s[i] == ';' && i > 0 && IsSpace(s[i - 1])
  }

  // Neither any of `chars` nor an inline comment.
  ghost predicate Plain(s: string, chars: string) {
    forall i: nat | i < |s| :: s[i] !in chars && !CommentAt(s, i)
  }

  // --------------------------------------------------- the string operations

  lemma {:induction false} RStripIs(t: string, w: string)
    requires Blank(w) && (t == "" || !IsSpace(t[|t| - 1]))
    ensures RStrip(t + w) == t
    decreases |w|
  {
    if w == "" {
      assert t + w == t;
    } else {
      var w' := w[..|w| - 1];
      assert (t + w)[..|t + w| - 1] == t + w' && (t + w)[|t + w| - 1] == w[|w| - 1];
      RStripIs(t, w');
    }
  }

  lemma {:induction false} RStripSplits(s: string)
    ensures var r := RStrip(s);
            && s[..|r|] == r && Blank(s[|r|..]) && (r == "" || !IsSpace(r[|r| - 1]))
  {
    if s != "" && IsSpace(s[|s| - 1]) {
      var init := s[..|s| - 1];
      RStripSplits(init);
      var r := RStrip(s);
      assert s[..|r|] == init[..|r|];
      forall i | 0 <= i < |s[|r|..]| ensures IsSpace(s[|r|..][i]) {
        if i < |init[|r|..]| { assert init[|r|..][i] == s[|r|..][i]; }
      }
    }
  }

  lemma {:induction false} LSkipIs(w: string, t: string)
    requires Blank(w) && (t == "" || !IsSpace(t[0]))
    ensures LSkip(w + t) == t
    decreases |w|
  {
    if w == "" {
      assert w + t == t;
    } else {
      assert (w + t)[1..] == w[1..] + t && (w + t)[0] == w[0];
      LSkipIs(w[1..], t);
    }
  }

  lemma {:induction false} LSkipSplits(s: string)
    ensures var r := LSkip(s);
            && s[|s| - |r|..] == r && Blank(s[..|s| - |r|]) && (r == "" || !IsSpace(r[0]))
  {
    if s != "" && IsSpace(s[0]) {
      LSkipSplits(s[1..]);
      var r := LSkip(s);
      var k := |s| - |r|;
      assert s[1..][k - 1..] == s[k..];
      forall i | 0 <= i < k ensures IsSpace(s[..k][i]) {
        if i > 0 { assert s[..k][i] == s[1..][..k - 1][i - 1]; }
      }
    }
  }

  // A stop for Find at position i of s, when s follows white space or not.
  ghost predicate StopAt(s: string, chars: string, space: bool, i: nat)
    requires i < |s|
  {
    s[i] in chars || (s[i] == ';' && if i == 0 then space else IsSpace(s[i - 1]))
  }

  lemma {:induction false} FindStops(s: string, chars: string, space: bool)
    ensures var k := Find(s, chars, space);
            (forall i: nat | i < k :: !StopAt(s, chars, space, i)) && (k < |s| ==> StopAt(s, chars, space, k))
  {
    if s != "" && s[0] !in chars && !(space && s[0] == ';') {
      var t, k := s[1..], Find(s, chars, space);
      FindStops(t, chars, IsSpace(s[0]));
      forall i: nat | i < k ensures !StopAt(s, chars, space, i) {
        if i > 0 { assert !StopAt(t, chars, IsSpace(s[0]), i - 1); }
      }
      if k < |s| { assert StopAt(t, chars, IsSpace(s[0]), k - 1); }
    }
  }

  // Find, as the first stop.
  lemma FindIs(s: string, chars: string, k: nat)
    requires k <= |s| && Plain(s[..k], chars) && (k < |s| ==> s[k] in chars || CommentAt(s, k))
    ensures Find(s, chars, false) == k
  {
    hide Find;
    FindStops(s, chars, false);
    forall i: nat | i < k ensures !StopAt(s, chars, false, i) {
      assert s[..k][i] !in chars && !CommentAt(s[..k], i);
    }
    assert k < |s| ==> StopAt(s, chars, false, k);
  }

  lemma FoundPlain(s: string, chars: string)
    ensures var k := Find(s, chars, false);
            Plain(s[..k], chars) && (k < |s| ==> s[k] in chars || CommentAt(s, k))
  {
    hide Find;
    FindStops(s, chars, false);
    var k := Find(s, chars, false);
    forall i: nat | i < k ensures s[..k][i] !in chars && !CommentAt(s[..k], i) {
      assert !StopAt(s, chars, false, i);
    }
  }

  // What stands before a character that is no white space is not stripped.
  lemma RStripBehind(h: string, t: string)
    requires h != "" && !IsSpace(h[|h| - 1])
    ensures RStrip(h + t) == h + RStrip(t)
  {
    hide RStrip;
    RStripSplits(t);
    var r := RStrip(t);
    assert h + t == h + r + t[|r|..];
    RStripIs(h + r, t[|r|..]);
  }

  // Stripping both ends of a tight string with white space around it, whether
  // or not the white space behind it is already gone.
  lemma StripBoth(lead: string, value: string, trail: string)
    requires Blank(lead) && Tight(value) && Blank(trail)
    ensures RStrip(LSkip(lead + value + trail)) == value
    ensures RStrip(LSkip(RStrip(lead + value + trail))) == value
  {
    hide RStrip, LSkip;
    if value == "" {
      assert lead + value + trail == "" + (lead + trail) && lead + value + trail == (lead + trail) + "";
      RStripIs("", lead + trail);
      LSkipIs(lead + trail, "");
      assert RStrip("") == "" by { RStripIs("", ""); assert "" + "" == ""; }
      assert LSkip("") == "" by { LSkipIs("", ""); assert "" + "" == ""; }
    } else {
      assert lead + value + trail == lead + (value + trail);
      LSkipIs(lead, value + trail);
      RStripIs(value, trail);
      RStripIs(lead + value, trail);
      LSkipIs(lead, value);
      RStripIs(value, "");
      assert value + "" == value;
    }
  }

  // --------------------------------------------------------- a name and a value

  // What stands behind the separator.
  datatype Tail = Tail(lead: string, value: string, trail: string, comment: string)

  datatype Layout = Layout(indent: string, name: string, gap: string, sep: char, tail: Tail)

  function RenderTail(t: Tail): string {
    t.lead + t.value + t.trail + t.comment
  }

  function Render(l: Layout): string {
    l.indent + (l.name + l.gap + [l.sep] + RenderTail(l.tail))
  }

  // The value has no inline comment; one may follow it, behind white space.
  ghost predicate TailLayout(t: Tail) {
    && Blank(t.lead) && Tight(t.value) && Blank(t.trail) && Plain(t.lead + t.value + t.trail, "")
    && (t.comment != "" ==> t.comment[0] == ';' && EndsBlank(t.lead + t.value + t.trail))
  }

  // The name has no separator, no inline comment, and does not begin like a
  // comment or a section.
  ghost predicate PairLayout(l: Layout) {
    && Blank(l.indent) && Tight(l.name) && Blank(l.gap) && (l.sep == '=' || l.sep == ':')
    && (if l.name == "" then l.gap == "" else l.name[0] !in ";#[")
    && Plain(l.name + l.gap, "=:") && TailLayout(l.tail)
  }

  ghost predicate EndsBlank(s: string) {
    s != "" && IsSpace(s[|s| - 1])
  }

  // The value of what stands behind the separator.
  lemma ValueOf(t: Tail)
    requires TailLayout(t)
    ensures RStrip(LSkip(Uncommented(RStrip(RenderTail(t))))) == t.value
  {
    hide RStrip, LSkip, Find;
    var x := t.lead + t.value + t.trail;
    StripBoth(t.lead, t.value, t.trail);
    if t.comment == "" {
      assert x + t.comment == x;
      RStripSplits(x);
      PlainStart(x, "", RStrip(x));
      FindIs(RStrip(x), "", |RStrip(x)|);
      assert Uncommented(RStrip(x)) == RStrip(x);
    } else {
      var c := t.comment[1..];
      assert x + t.comment == x + [';'] + c;
      RStripBehind(x + [';'], c);
      var s := x + [';'] + RStrip(c);
      assert s[..|x|] == x && CommentAt(s, |x|);
      FindIs(s, "", |x|);
    }
  }

  lemma PlainStart(s: string, chars: string, t: string)
    requires Plain(s, chars) && t <= s
    ensures Plain(t[..|t|], chars)
  {
    forall i: nat | i < |t| ensures t[..|t|][i] !in chars && !CommentAt(t[..|t|], i) {
      assert s[i] !in chars && !CommentAt(s, i);
    }
  }

  lemma PlainThenBlank(s: string, chars: string, w: string)
    requires Plain(s, chars) && Blank(w) && forall c | c in chars :: !IsSpace(c)
    ensures Plain(s + w, chars)
  {
    forall i: nat | i < |s + w| ensures (s + w)[i] !in chars && !CommentAt(s + w, i) {
      assert i < |s| ==> s[i] !in chars && !CommentAt(s, i);
      assert i >= |s| ==> IsSpace(w[i - |s|]);
    }
  }

  // Such a line parses to its name and its value.
  lemma PairParses(l: Layout, first: bool, prev: bool, line: string)
    requires PairLayout(l) && Unmarked(line, first) == Render(l) && (prev ==> !Indented(line, first))
    ensures ParseLine(line, first, prev) == Pair(l.name, l.tail.value)
  {
    hide RStrip, LSkip, Find, Unmarked, Plain, TailLayout, RenderTail, Uncommented;
    var h, tail := l.name + l.gap + [l.sep], RenderTail(l.tail);
    LSkipIs(l.indent, h + tail);
    RStripBehind(h, tail);
    var s := h + RStrip(tail);
    assert Body(line, first) == s;
    assert s[..|l.name + l.gap|] == l.name + l.gap && s[|l.name + l.gap|] == l.sep;
    FindIs(s, "=:", |l.name + l.gap|);
    RStripIs(l.name, l.gap);
    assert s[|l.name + l.gap| + 1..] == RStrip(tail);
    ValueOf(l.tail);
  }

  // The layout of a line that parses to a pair.  First what is behind the
  // separator: v, and the white space w at the end of the line.
  lemma TailOf(v: string, w: string) returns (t: Tail)
    requires Blank(w)
    ensures TailLayout(t) && RenderTail(t) == v + w && t.value == RStrip(LSkip(Uncommented(v)))
  {
    hide RStrip, LSkip, Find, Plain, Blank, Tight;
    FoundPlain(v, "");
    var x := Uncommented(v);
    var lead, value, trail := Parts(x);
    if |x| == |v| {
      assert x == v;
      PlainThenBlank(v, "", w);
      BlankBoth(trail, w);
      t := Tail(lead, value, trail + w, "");
      assert lead + value + (trail + w) == v + w;
    } else {
      t := Tail(lead, value, trail, v[|x|..] + w);
      assert x + (v[|x|..] + w) == v + w;
    }
  }

  lemma Parts(x: string) returns (lead: string, value: string, trail: string)
    ensures lead + value + trail == x && value == RStrip(LSkip(x)) && Blank(lead) && Tight(value) && Blank(trail)
  {
    hide RStrip, LSkip, Blank;
    LSkipSplits(x);
    var y := LSkip(x);
    RStripSplits(y);
    value := RStrip(y);
    lead, trail := x[..|x| - |y|], y[|value|..];
  }

  lemma BlankBoth(s: string, t: string)
    requires Blank(s) && Blank(t)
    ensures Blank(s + t)
  {
  }

  // Then the name, in front of the separator at e.
  lemma NameOf(s: string, e: nat)
    requires s != "" && !IsSpace(s[0]) && e < |s|
    ensures var name := RStrip(s[..e]);
            name + s[|name|..e] == s[..e] && Blank(s[|name|..e]) && Tight(name)
            && (if e == 0 then name == "" else name != "" && name[0] == s[0])
  {
    hide RStrip;
    RStripSplits(s[..e]);
    var name := RStrip(s[..e]);
    assert s[..e][|name|..] == s[|name|..e];
    forall i | |name| <= i < e ensures IsSpace(s[i]) {
      assert s[..e][|name|..][i - |name|] == s[i];
    }
  }

  // Both together: s is the line between its indentation and w.
  lemma LayoutOf(indent: string, s: string, w: string) returns (l: Layout)
    requires Blank(indent) && Blank(w) && s != "" && !IsSpace(s[0]) && s[0] !in ";#[" && ParsePair(s).Pair?
    ensures PairLayout(l) && Render(l) == indent + (s + w) && ParsePair(s) == Pair(l.name, l.tail.value)
  {
    hide RStrip, LSkip, Find, TailLayout, RenderTail, Uncommented, Plain;
    var e := Find(s, "=:", false);
    FoundPlain(s, "=:");
    NameOf(s, e);
    var tail := TailOf(s[e + 1..], w);
    var name := RStrip(s[..e]);
    l := Layout(indent, name, s[|name|..e], s[e], tail);
    assert s + w == s[..e] + [s[e]] + (s[e + 1..] + w);
  }

  // A line is taken for a name and a value exactly when it is laid out as such.
  lemma PairLine(line: string, first: bool, prev: bool, name: string, value: string)
    ensures ParseLine(line, first, prev) == Pair(name, value) <==>
            && (prev ==> !Indented(line, first))
            && exists l: Layout :: PairLayout(l) && Render(l) == Unmarked(line, first) && l.name == name && l.tail.value == value
  {
    hide RStrip, LSkip, Find, PairLayout, Render;
    if ParseLine(line, first, prev) == Pair(name, value) {
      var u := Unmarked(line, first);
      LSkipSplits(u);
      var r := LSkip(u);
      RStripSplits(r);
      var s := Body(line, first);
      var indent, w := u[..|u| - |r|], r[|s|..];
      assert u == indent + (s + w);
      assert ParseLine(line, first, prev) == ParsePair(s);
      var l := LayoutOf(indent, s, w);
      assert PairLayout(l) && Render(l) == u;
    }
    forall l: Layout | (prev ==> !Indented(line, first)) && PairLayout(l) && Render(l) == Unmarked(line, first)
      ensures ParseLine(line, first, prev) == Pair(l.name, l.tail.value)
    {
      PairParses(l, first, prev, line);
    }
  }

  // ------------------------------------------------------------------ a section

  datatype Heading = Heading(indent: string, body: string, rest: string)

  function RenderHeading(h: Heading): string {
    h.indent + ("[" + h.body + "]" + h.rest)
  }

  // Anything may follow the closing bracket.
  ghost predicate HeadingLayout(h: Heading) {
    Blank(h.indent) && Plain(h.body, "]")
  }

  lemma HeadingParses(h: Heading, first: bool, prev: bool, line: string)
    requires HeadingLayout(h) && Unmarked(line, first) == RenderHeading(h) && (prev ==> !Indented(line, first))
    ensures ParseLine(line, first, prev) == Section(Truncate(h.body, NAME))
  {
    hide RStrip, LSkip, Find, Unmarked, Plain;
    var front := "[" + h.body + "]";
    LSkipIs(h.indent, front + h.rest);
    RStripBehind(front, h.rest);
    var s := front + RStrip(h.rest);
    assert Body(line, first) == s;
    assert s[1..][..|h.body|] == h.body && s[1..][|h.body|] == ']';
    FindIs(s[1..], "]", |h.body|);
  }

  lemma HeadingFits(indent: string, s: string, w: string, name: string) returns (h: Heading)
    requires Blank(indent) && s != "" && s[0] == '[' && ParseSection(s[1..]) == Section(name)
    ensures HeadingLayout(h) && RenderHeading(h) == indent + (s + w) && name == Truncate(h.body, NAME)
  {
    hide Find, Truncate;
    var t := s[1..];
    var e := Find(t, "]", false);
    FoundPlain(t, "]");
    h := Heading(indent, t[..e], t[e + 1..] + w);
    Bracketed(s, w, e);
  }

  lemma Bracketed(s: string, w: string, e: nat)
    requires s != "" && s[0] == '[' && e + 1 < |s| && s[e + 1] == ']'
    ensures var t := s[1..]; s + w == "[" + t[..e] + "]" + (t[e + 1..] + w)
  {
    var t := s[1..];
    assert t == t[..e] + "]" + t[e + 1..];
    assert s == "[" + t;
  }

  // A line is taken for a section exactly when it is laid out as such.
  lemma SectionLine(line: string, first: bool, prev: bool, name: string)
    ensures ParseLine(line, first, prev) == Section(name) <==>
            && (prev ==> !Indented(line, first))
            && exists h: Heading :: HeadingLayout(h) && RenderHeading(h) == Unmarked(line, first) && name == Truncate(h.body, NAME)
  {
    hide RStrip, LSkip, Find, HeadingLayout, RenderHeading;
    if ParseLine(line, first, prev) == Section(name) {
      var u := Unmarked(line, first);
      LSkipSplits(u);
      var r := LSkip(u);
      RStripSplits(r);
      var s := Body(line, first);
      var indent, w := u[..|u| - |r|], r[|s|..];
      assert u == indent + (s + w);
      var h := HeadingFits(indent, s, w, name);
      assert HeadingLayout(h) && RenderHeading(h) == u;
    }
    forall h: Heading | (prev ==> !Indented(line, first)) && HeadingLayout(h) && RenderHeading(h) == Unmarked(line, first)
      ensures ParseLine(line, first, prev) == Section(Truncate(h.body, NAME))
    {
      HeadingParses(h, first, prev, line);
    }
  }

  // ------------------------------------------------------------- other lines

  // A line is what is left of it between white space on both sides.
  lemma Between(line: string, first: bool) returns (indent: string, w: string)
    ensures var s := Body(line, first);
            && Unmarked(line, first) == indent + (s + w) && Blank(indent) && Blank(w)
            && (s == "" || (!IsSpace(s[0]) && !IsSpace(s[|s| - 1])))
  {
    hide RStrip, LSkip, Unmarked;
    var u := Unmarked(line, first);
    LSkipSplits(u);
    var r := LSkip(u);
    RStripSplits(r);
    indent, w := u[..|u| - |r|], r[|RStrip(r)|..];
  }

  // White space, or a comment behind white space.
  ghost predicate IdleLayout(u: string, indent: string, rest: string) {
    u == indent + rest && Blank(indent) && (rest == "" || rest[0] in ";#")
  }

  // A line is ignored exactly when it is blank or a comment.
  lemma IgnoredLine(line: string, first: bool, prev: bool)
    ensures ParseLine(line, first, prev) == Ignored <==>
            exists indent, rest :: IdleLayout(Unmarked(line, first), indent, rest)
  {
    hide RStrip, LSkip, Find, Unmarked, Blank;
    var indent, w := Between(line, first);
    var s := Body(line, first);
    if ParseLine(line, first, prev) == Ignored {
      if s == "" {
        BlankBoth(indent, w);
        assert indent + (s + w) == indent + w + "";
        assert IdleLayout(Unmarked(line, first), indent + w, "");
      } else {
        assert IdleLayout(Unmarked(line, first), indent, s + w);
      }
    }
    forall i, rest | IdleLayout(Unmarked(line, first), i, rest) ensures s == "" || s[0] in ";#" {
      IdleBody(i, rest);
    }
  }

  lemma IdleBody(indent: string, rest: string)
    requires Blank(indent) && (rest == "" || rest[0] in ";#")
    ensures var s := RStrip(LSkip(indent + rest)); s == "" || s[0] in ";#"
  {
    hide RStrip, LSkip, Blank;
    LSkipIs(indent, rest);
    if rest != "" {
      assert rest == rest[..1] + rest[1..];
      RStripBehind(rest[..1], rest[1..]);
    } else {
      RStripSplits(rest);
    }
  }

  // The lead of a continuation is its indentation.
  ghost predicate MoreLayout(t: Tail) {
    TailLayout(t) && t.value != "" && t.value[0] !in ";#"
  }

  lemma MoreFits(indent: string, s: string, w: string) returns (t: Tail)
    requires Blank(indent) && Blank(w) && s != "" && !IsSpace(s[0]) && s[0] !in ";#"
    ensures MoreLayout(t) && RenderTail(t) == indent + (s + w) && t.value == RStrip(Uncommented(s))
  {
    hide RStrip, LSkip, Find, TailLayout, RenderTail, Blank, Plain;
    FoundPlain(s, "");
    var k := Find(s, "", false);
    var v := indent + s;
    PlainBehind(indent, s, k);
    FindIs(v, "", |indent| + k);
    assert k > 0;
    assert Uncommented(v) == indent + Uncommented(s);
    LSkipIs(indent, Uncommented(s));
    t := TailOf(v, w);
    assert v + w == indent + (s + w);
    FirstStays(Uncommented(s));
  }

  lemma FirstStays(x: string)
    requires x != "" && !IsSpace(x[0])
    ensures RStrip(x) != "" && RStrip(x)[0] == x[0]
  {
    hide RStrip;
    assert x == x[..1] + x[1..];
    RStripBehind(x[..1], x[1..]);
  }

  // White space in front changes nothing, unless a comment sign follows it.
  lemma PlainBehind(w: string, s: string, k: nat)
    requires Blank(w) && k <= |s| && Plain(s[..k], "") && (k < |s| ==> CommentAt(s, k)) && s != "" && s[0] != ';'
    ensures var v, n := w + s, |w| + k; Plain(v[..n], "") && (n < |v| ==> CommentAt(v, n))
  {
    var v, n := w + s, |w| + k;
    forall i: nat | i < n ensures !CommentAt(v[..n], i) {
      if i > |w| { assert !CommentAt(s[..k], i - |w|); }
    }
  }

  lemma MoreParses(t: Tail, first: bool, line: string)
    requires MoreLayout(t) && Unmarked(line, first) == RenderTail(t) && Indented(line, first)
    ensures ParseLine(line, first, true) == More(t.value)
  {
    hide RStrip, LSkip, Find, Unmarked, Blank, TailLayout, Uncommented;
    var bare := t.(lead := "");
    BareTail(t);
    var u := RenderTail(bare);
    assert RenderTail(t) == t.lead + u && u[0] == t.value[0];
    LSkipIs(t.lead, u);
    FirstStays(u);
    ValueOf(bare);
    UncommentedStart(RStrip(u));
  }

  lemma UncommentedStart(s: string)
    requires s != "" && !IsSpace(s[0]) && s[0] != ';'
    ensures LSkip(Uncommented(s)) == Uncommented(s)
  {
    hide Find;
    FoundPlain(s, "");
  }

  lemma BareTail(t: Tail)
    requires MoreLayout(t)
    ensures TailLayout(t.(lead := "")) && Blank(t.lead) && !IsSpace(t.value[0])
  {
    var x, y := t.lead + t.value + t.trail, t.value + t.trail;
    forall i: nat | i < |y| ensures !CommentAt(y, i) {
      assert !CommentAt(x, |t.lead| + i);
    }
    assert "" + t.value + t.trail == y;
    assert x[|x| - 1] == y[|y| - 1];
  }

  // A line is taken for a continuation exactly when there is a name to continue,
  // it is indented, and it has a value that does not begin like a comment.
  lemma MoreLine(line: string, first: bool, prev: bool, value: string)
    ensures ParseLine(line, first, prev) == More(value) <==>
            && prev && Indented(line, first)
            && exists t: Tail :: MoreLayout(t) && RenderTail(t) == Unmarked(line, first) && t.value == value
  {
    hide RStrip, LSkip, Find, Unmarked, Blank, MoreLayout, RenderTail;
    if ParseLine(line, first, prev) == More(value) {
      var indent, w := Between(line, first);
      var t := MoreFits(indent, Body(line, first), w);
      assert MoreLayout(t) && RenderTail(t) == Unmarked(line, first);
    }
    forall t: Tail | prev && Indented(line, first) && MoreLayout(t) && RenderTail(t) == Unmarked(line, first)
      ensures ParseLine(line, first, prev) == More(t.value)
    {
      MoreParses(t, first, line);
    }
  }

  // A section without its bracket, or anything else without a separator, up to
  // a comment or the end.
  datatype Broken = Broken(indent: string, text: string, comment: string)

  function RenderBroken(b: Broken): string {
    b.indent + (b.text + b.comment)
  }

  ghost predicate BrokenLayout(b: Broken) {
    && Blank(b.indent) && b.text != "" && !IsSpace(b.text[0]) && b.text[0] !in ";#"
    && var body := Searched(b.text);
       && Plain(body, Wanted(b.text))
       && (b.comment != "" ==> b.comment[0] == ';' && EndsBlank(body))
  }

  // What is looked through, and for what.
  function Searched(s: string): string
    requires s != ""
  {
    if s[0] == '[' then s[1..] else s
  }

  function Wanted(s: string): string
    requires s != ""
  {
    if s[0] == '[' then "]" else "=:"
  }

  // A body parses badly exactly when the search ends before it finds anything.
  lemma BadBody(s: string)
    requires s != ""
    ensures (if s[0] == '[' then ParseSection(s[1..]) else ParsePair(s)).Bad? <==>
            var t := Searched(s); var e := Find(t, Wanted(s), false); e == |t| || t[e] !in Wanted(s)
  {
    hide Find, RStrip, LSkip;
  }

  lemma BrokenFits(indent: string, s: string, w: string) returns (b: Broken)
    requires Blank(indent) && Blank(w) && s != "" && !IsSpace(s[0]) && s[0] !in ";#"
    requires var t := Searched(s); var e := Find(t, Wanted(s), false); e == |t| || t[e] !in Wanted(s)
    ensures BrokenLayout(b) && RenderBroken(b) == indent + (s + w)
  {
    hide Find, Blank, Plain;
    var t, chars := Searched(s), Wanted(s);
    var e := Find(t, chars, false);
    FoundPlain(t, chars);
    var n := |s| - |t| + e;
    if e == |t| {
      b := Broken(indent, s + w, "");
      assert t[..e] == t && Searched(s + w) == t + w && s + w + "" == s + w;
      PlainThenBlank(t, chars, w);
    } else {
      b := Broken(indent, s[..n], s[n..] + w);
      assert n > 0 && Searched(s[..n]) == t[..e];
      assert s[..n] + (s[n..] + w) == s + w;
    }
  }

  lemma BrokenBody(b: Broken)
    requires BrokenLayout(b)
    ensures var s := RStrip(LSkip(RenderBroken(b)));
            && s != "" && s[0] !in ";#"
            && var t := Searched(s); var e := Find(t, Wanted(s), false); e == |t| || t[e] !in Wanted(s)
  {
    hide Find, RStrip, LSkip, Blank, Plain;
    LSkipIs(b.indent, b.text + b.comment);
    var s := RStrip(b.text + b.comment);
    FirstStays(b.text + b.comment);
    var t, chars := Searched(s), Wanted(s);
    if b.comment == "" {
      assert b.text + b.comment == b.text;
      PlainStart(Searched(b.text), chars, t);
      FindIs(t, chars, |t|);
    } else {
      var c := b.comment[1..];
      assert b.text + b.comment == b.text + [';'] + c;
      RStripBehind(b.text + [';'], c);
      var body := Searched(b.text);
      assert t == body + [';'] + RStrip(c);
      assert t[..|body|] == body && CommentAt(t, |body|);
      FindIs(t, chars, |body|);
    }
  }

  // A line is an error exactly when it is no continuation and it is laid out as
  // a section or a pair that is not completed.
  lemma BadLine(line: string, first: bool, prev: bool)
    ensures ParseLine(line, first, prev) == Bad <==>
            && (prev ==> !Indented(line, first))
            && exists b: Broken :: BrokenLayout(b) && RenderBroken(b) == Unmarked(line, first)
  {
    hide RStrip, LSkip, Find, Unmarked, Blank, Plain, BrokenLayout, RenderBroken, ParsePair, ParseSection, Searched, Wanted;
    var s := Body(line, first);
    if s != "" { BadBody(s); }
    if ParseLine(line, first, prev) == Bad {
      var indent, w := Between(line, first);
      var b := BrokenFits(indent, s, w);
      assert BrokenLayout(b) && RenderBroken(b) == Unmarked(line, first);
    }
    forall b: Broken | BrokenLayout(b) && RenderBroken(b) == Unmarked(line, first)
      ensures s != "" && s[0] !in ";#" && (if s[0] == '[' then ParseSection(s[1..]) else ParsePair(s)).Bad?
    {
      BrokenBody(b);
    }
  }

}

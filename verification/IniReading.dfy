// A second reading of an INI text, without the parser's state.  What a line
// means is found by looking back: a call's section is the name of the last
// section line before it, and a continuation belongs to the last name of that
// section.
module IniReading {
  import opened Options
  import opened IniText
  import opened IniParser

  // The text from line k on.
  function RestAt(text: string, k: nat): string {
    if k == 0 then text else After(RestAt(text, k - 1))
  }

  // The section that lines end in.
  function LastSection(ps: seq<Parsed>): string {
    if ps == [] then ""
    else
      var p, before := ps[|ps| - 1], ps[..|ps| - 1];
      if p.Section? then p.name else LastSection(before)
  }

  // The name that a line behind these would continue, as far as the buffer
  // remembers it; "" for none.
  function LastName(ps: seq<Parsed>): string {
    if ps == [] then ""
    else
      var p, before := ps[|ps| - 1], ps[..|ps| - 1];
      if p.Section? then "" else if p.Pair? then Truncate(p.name, 49) else LastName(before)
  }

  // The first k lines.
  function Upto(text: string, k: nat): seq<Parsed>
    decreases k, 0
  {
    if k == 0 then []
    else if RestAt(text, k - 1) == "" then Upto(text, k - 1)
    else Upto(text, k - 1) + [LineAt(text, k - 1)]
  }

  function LineAt(text: string, k: nat): Parsed
    decreases k, 1
  {
    ParseLine(Line(RestAt(text, k)), k == 0, LastName(Upto(text, k)) != "")
  }

  // There are no more lines than characters.
  function Reading(text: string): seq<Parsed> { Upto(text, |text|) }

  // The calls that lines give.
  function Gathered(ps: seq<Parsed>): seq<Call> {
    if ps == [] then []
    else
      var p, before := ps[|ps| - 1], ps[..|ps| - 1];
      Gathered(before) +
      match p
      case Pair(name, value) => [Call(LastSection(before), name, value)]
      case More(value) => [Call(LastSection(before), LastName(before), value)]
      case _ => []
  }

  // ---------------------------------------------------------- the two agree

  // Where the parser is behind some lines.
  function StateOf(ps: seq<Parsed>): State {
    State(LastSection(ps), LastName(ps), ps == [])
  }

  lemma OneMore(ps: seq<Parsed>, p: Parsed)
    ensures StateOf(ps + [p]) == Moved(StateOf(ps), p)
    ensures Gathered(ps + [p]) ==
            Gathered(ps) + match CallFor(StateOf(ps), p) case Some(c) => [c] case None => []
  {
    var more := ps + [p];
    assert more[|more| - 1] == p && more[..|more| - 1] == ps;
  }

  lemma {:induction false} LinesSoFar(text: string, k: nat)
    ensures |RestAt(text, k)| <= |text| && (k > 0 && Upto(text, k) == [] ==> RestAt(text, k) == "")
  {
    hide After, LineAt;
    if k > 0 {
      LinesSoFar(text, k - 1);
      NoneAfterNone();
      assert RestAt(text, k) == After(RestAt(text, k - 1));
      if RestAt(text, k - 1) == "" { assert RestAt(text, k) == ""; }
    }
  }

  lemma NoneAfterNone()
    ensures After("") == ""
  {
  }

  // As far as line k, the parser's state and calls are what looking back says.
  lemma {:induction false} ReadsUpto(text: string, k: nat)
    ensures RestAt(text, k) != "" ==> (Upto(text, k) == [] <==> k == 0)
    ensures Calls(START, text) == Gathered(Upto(text, k)) + Calls(StateOf(Upto(text, k)), RestAt(text, k))
  {
    hide After, Line, ParseLine, Moved, CallFor;
    if k == 0 {
      assert [] + Calls(START, text) == Calls(START, text);
    } else {
      ReadsUpto(text, k - 1);
      LinesSoFar(text, k);
      var ps, rest := Upto(text, k - 1), RestAt(text, k - 1);
      if rest == "" {
        NoneAfterNone();
      } else {
        var p := LineAt(text, k - 1);
        OneMore(ps, p);
        CallsOneMore(StateOf(ps), rest, p);
        AppendAssoc(Gathered(ps), CallFor(StateOf(ps), p), Calls(StateOf(ps + [p]), After(rest)));
      }
    }
  }

  lemma CallsOneMore(st: State, text: string, p: Parsed)
    requires text != "" && p == ParseLine(Line(text), st.first, st.prev != "")
    ensures Calls(st, text) == (match CallFor(st, p) case Some(c) => [c] case None => []) + Calls(Moved(st, p), After(text))
  {
    hide After, Line, ParseLine, Moved, CallFor;
    var rest := Calls(Moved(st, p), After(text));
    assert [] + rest == rest;
  }

  lemma AppendAssoc(a: seq<Call>, c: Option<Call>, b: seq<Call>)
    ensures var m := match c case Some(call) => [call] case None => []; a + (m + b) == (a + m) + b
  {
  }

  lemma {:induction false} RestShrinks(text: string, k: nat)
    ensures |RestAt(text, k)| <= if k <= |text| then |text| - k else 0
  {
    hide After;
    if k > 0 {
      RestShrinks(text, k - 1);
      NoneAfterNone();
      AfterShorter(RestAt(text, k - 1));
    }
  }

  lemma AfterShorter(text: string)
    ensures text != "" ==> |After(text)| < |text|
  {
  }

  // The handler is called with the last section line's name, and a continuation
  // with the last name too.
  lemma CallsAreGathered(text: string)
    ensures Calls(START, text) == Gathered(Reading(text))
  {
    hide Upto, RestAt, Gathered, StateOf;
    ReadsUpto(text, |text|);
    RestShrinks(text, |text|);
    NoCalls(StateOf(Upto(text, |text|)));
  }

  lemma NoCalls(st: State)
    ensures Calls(st, "") == []
  {
  }

  // -------------------------------------------------------- lines of a text

  // One read stops behind the first newline, or when it is full, or at the end.
  lemma {:induction false} ChunkIs(text: string, n: nat)
    ensures var k := Chunk(text, n);
            && (forall i | 0 <= i < k - 1 :: text[i] != '\n')
            && (k == n || k == |text| || (k > 0 && text[k - 1] == '\n'))
  {
    if n > 0 && text != "" && text[0] != '\n' {
      var k := Chunk(text[1..], n - 1);
      ChunkIs(text[1..], n - 1);
      forall i | 0 <= i < k ensures text[i] != '\n' {
        if i > 0 { assert text[i] == text[1..][i - 1]; }
      }
      assert k > 0 ==> text[1..][k - 1] == text[k];
    }
  }

  lemma {:induction false} ChunkMin(text: string, n: nat)
    ensures var all := Chunk(text, |text|); Chunk(text, n) == if n <= all then n else all
  {
    if n > 0 && text != "" && text[0] != '\n' { ChunkMin(text[1..], n - 1); }
  }

  lemma PlainRest(text: string)
    requires '\0' !in text && Chunk(text, 199) == 199 && text[198] != '\n'
    ensures Discarded(text[199..]) == text[Chunk(text, |text|)..]
  {
    hide Chunk, Discarded, Discardable;
    ChunkOn(text, 199);
    DiscardsLine(text[199..]);
    var n := Chunk(text[199..], |text| - 199);
    assert text[199..][n..] == text[199 + n..];
  }

  // Without NULs, a line is what stands before the newline, newline included,
  // cut to 199 characters, and the next one starts behind the newline.
  lemma PlainLine(text: string)
    requires '\0' !in text
    ensures var all := Chunk(text, |text|);
            Line(text) == text[..if all < 199 then all else 199] && After(text) == text[all..]
  {
    hide Chunk, CString, Discarded, Line, After, Overlong;
    var k, all := Chunk(text, 199), Chunk(text, |text|);
    ChunkMin(text, 199);
    ChunkOn(text, 199);
    CStringPlain(text[..k]);
    LineFacts(text);
    if k == 199 {
      assert text[..k][198] == text[198];
      if text[198] != '\n' { PlainRest(text); }
    }
  }

  // The rest of an overlong line is read in pieces of 15 characters, and a NUL
  // does harm only at the start of one.
  lemma NulAtPiece(n: nat)
    requires n <= 15
    ensures Discardable(seq(n, _ => 'b') + "\0") <==> 0 < n < 15
  {
    hide CString;
    var text := seq(n, _ => 'b') + "\0";
    assert text[..n] == seq(n, _ => 'b') && |text| == n + 1;
    if 0 < n < 15 {
      var k := Chunk(text, 15);
      ChunkFull(text, n + 1);
      ChunkMin(text, 15);
      ChunkMin(text, n + 1);
      assert k == n + 1 && text[..k] == text && text[k..] == "";
      NothingDiscarded();
    } else if n == 15 {
      ChunkFull(text, 15);
      CStringPlain(text[..15]);
      assert text[15..] == "\0" && CString(text[..15]) == text[..15] && text[..15][14] == 'b';
    }
  }

  // A byte order mark before the first line is not part of it.
  lemma MarkSkipped(line: string)
    ensures ParseLine("\U{EF}\U{BB}\U{BF}" + line, true, false) == ParseLine(line, false, false)
    ensures !("\U{EF}\U{BB}\U{BF}" <= line) ==> ParseLine(line, true, false) == ParseLine(line, false, false)
  {
    hide RStrip, LSkip, ParseSection, ParsePair, Uncommented;
    var marked := "\U{EF}\U{BB}\U{BF}" + line;
    assert marked[..3] == "\U{EF}\U{BB}\U{BF}" && marked[3..] == line;
  }
}

// What an INI text means to the parser: a sequence of lines, each of which is a
// comment, a section, a name with a value, the continuation of a value, or an
// error; and the calls of the handler that they give.
module IniParser {
  import opened Options
  import opened IniText

  // INI_MAX_LINE, and MAX_SECTION and MAX_NAME, all without the NUL.
  const LINE: nat := 199
  const NAME: nat := 49
  // The pieces in which the rest of an overlong line is read.
  const ABYSS: nat := 15

  datatype Call = Call(section: string, name: string, value: string)

  // ---------------------------------------------------------------- one line

  datatype Parsed = Ignored | Section(name: string) | Pair(name: string, value: string) | More(value: string) | Bad

  // A byte order mark at the start of the text is skipped.
  function Unmarked(line: string, first: bool): string {
    if first && |line| >= 3 && line[..3] == "\U{EF}\U{BB}\U{BF}" then line[3..] else line
  }

  function Body(line: string, first: bool): string {
    RStrip(LSkip(Unmarked(line, first)))
  }

  predicate Indented(line: string, first: bool) {
    |LSkip(Unmarked(line, first))| < |line|
  }

  // Up to an inline comment.
  function Uncommented(s: string): string {
    s[..Find(s, "", false)]
  }

  // `prev` says that there is a name whose value may be continued.
  function ParseLine(line: string, first: bool, prev: bool): Parsed {
    var s := Body(line, first);
    if s == "" || s[0] == ';' || s[0] == '#' then Ignored
    else if prev && Indented(line, first) then More(RStrip(Uncommented(s)))
    else if s[0] == '[' then ParseSection(s[1..])
    else ParsePair(s)
  }

  function ParseSection(s: string): Parsed {
    var e := Find(s, "]", false);
    if e < |s| && s[e] == ']' then Section(Truncate(s[..e], NAME)) else Bad
  }

  function ParsePair(s: string): Parsed {
    var e := Find(s, "=:", false);
    if e < |s| && (s[e] == '=' || s[e] == ':') then Pair(RStrip(s[..e]), RStrip(LSkip(Uncommented(s[e + 1..]))))
    else Bad
  }

  // ------------------------------------------------------------------- a text

  // How much of a text one read of at most n characters takes: up to and with
  // the first newline.
  function Chunk(text: string, n: nat): (k: nat)
    ensures k <= n && k <= |text|
    ensures text != "" && n > 0 ==> k > 0
  {
    if n == 0 || text == "" then 0
    else if text[0] == '\n' then 1
    else 1 + Chunk(text[1..], n - 1)
  }

  lemma ChunkNext(text: string, pos: nat, n: nat)
    requires pos < |text| && n > 0
    ensures Chunk(text[pos..], n) == if text[pos] == '\n' then 1 else 1 + Chunk(text[pos + 1..], n - 1)
  {
    assert text[pos..][0] == text[pos] && text[pos..][1..] == text[pos + 1..];
  }

  // The line that a read of the text leaves in the buffer.  A NUL ends it early.
  function Line(text: string): (line: string)
    ensures |line| <= LINE && line <= text
  {
    CString(text[..Chunk(text, LINE)])
  }

  // The line was too long for the buffer.
  predicate Overlong(text: string) {
    var line := Line(text);
    |line| == LINE && line[LINE - 1] != '\n'
  }

  // A piece of an overlong line is its last if the string it shows ends so.
  predicate EndsLine(piece: string) {
    var s := CString(piece);
    s != "" && s[|s| - 1] == '\n'
  }

  // What discarding the rest of an overlong line leaves of a text.
  function Discarded(text: string): (r: string)
    ensures |r| <= |text|
    decreases |text|
  {
    if text == "" then ""
    else
      var k := Chunk(text, ABYSS);
      if EndsLine(text[..k]) then text[k..] else Discarded(text[k..])
  }

  // No discarded piece shows an empty string, which has no last character.
  predicate Discardable(text: string)
    decreases |text|
  {
    text == "" || (text[0] != '\0' && var k := Chunk(text, ABYSS); EndsLine(text[..k]) || Discardable(text[k..]))
  }

  // What is left behind the first line; the rest of an overlong line is lost.
  function After(text: string): (r: string)
    ensures text != "" ==> |r| < |text|
  {
    if Overlong(text) then Discarded(text[LINE..]) else text[Chunk(text, LINE)..]
  }

  // The parser never looks for the last character of an empty string.
  predicate Readable(text: string)
    decreases |text|
  {
    text == "" || ((Overlong(text) ==> Discardable(text[LINE..])) && Readable(After(text)))
  }

  // The parser between two lines: the section, the name whose value may be
  // continued, and whether no line has been read.
  datatype State = State(section: string, prev: string, first: bool)

  const START := State("", "", true)

  function Next(st: State, line: string): State {
    Moved(st, ParseLine(line, st.first, st.prev != ""))
  }

  function Moved(st: State, p: Parsed): State {
    match p
    case Section(name) => State(name, "", false)
    case Pair(name, _) => State(st.section, Truncate(name, NAME), false)
    case _ => st.(first := false)
  }

  // The handler call that a line gives.
  function CallOf(st: State, line: string): Option<Call> {
    CallFor(st, ParseLine(line, st.first, st.prev != ""))
  }

  function CallFor(st: State, p: Parsed): Option<Call> {
    match p
    case Pair(name, value) => Some(Call(st.section, name, value))
    case More(value) => Some(Call(st.section, st.prev, value))
    case _ => None
  }

  // A line is wrong if it does not parse, or if some of it was lost.
  predicate Wrong(st: State, text: string) {
    ParseLine(Line(text), st.first, st.prev != "").Bad? || (Overlong(text) && LINE < |text|)
  }

  // All handler calls of a text, in order.
  function Calls(st: State, text: string): seq<Call>
    decreases |text|
  {
    if text == "" then []
    else
      var line := Line(text);
      var rest := Calls(Next(st, line), After(text));
      match CallOf(st, line) case Some(c) => [c] + rest case None => rest
  }

  // Every line parses.
  predicate Clean(st: State, text: string)
    decreases |text|
  {
    text == "" || (!Wrong(st, text) && Clean(Next(st, Line(text)), After(text)))
  }

  // Reading on where a read stopped short of the newline.
  lemma {:induction false} ChunkOn(text: string, n: nat)
    ensures var k, all := Chunk(text, n), Chunk(text, |text|);
            if k > 0 && text[k - 1] == '\n' then all == k else all == k + Chunk(text[k..], |text| - k)
  {
    if n > 0 && text != "" && text[0] != '\n' {
      var k := Chunk(text[1..], n - 1);
      ChunkOn(text[1..], n - 1);
      assert text[1..][k..] == text[k + 1..];
      assert k > 0 ==> text[1..][k - 1] == text[k];
    } else {
      assert text[0..] == text;
    }
  }

  lemma NothingDiscarded()
    ensures Discarded("") == "" && Discardable("")
  {
  }

  // One piece of an overlong line.
  lemma DiscardPiece(text: string)
    requires text != ""
    ensures var k := Chunk(text, ABYSS);
            if CString(text[..k]) == "" then !Discardable(text)
            else if EndsLine(text[..k]) then Discardable(text) && Discarded(text) == text[k..]
            else Discarded(text) == Discarded(text[k..]) && (Discardable(text) <==> Discardable(text[k..]))
  {
    hide Chunk;
    assert text[..Chunk(text, ABYSS)][0] == text[0];
  }

  lemma LineFacts(text: string)
    ensures Line(text) == CString(text[..Chunk(text, LINE)])
    ensures Overlong(text) <==> |Line(text)| == LINE && Line(text)[LINE - 1] != '\n'
    ensures Overlong(text) ==> Chunk(text, LINE) == LINE && After(text) == Discarded(text[LINE..])
    ensures !Overlong(text) ==> After(text) == text[Chunk(text, LINE)..]
  {
    hide Chunk, CString, Discarded;
  }

  lemma ReadableOn(text: string)
    ensures if text == "" then Readable(text)
            else Readable(text) <==> (Overlong(text) ==> Discardable(text[LINE..])) && Readable(After(text))
  {
    hide Overlong, Discardable, After;
  }

  // A text that cannot be read: a line that fills the buffer, and a NUL.
  const UNREADABLE := seq(LINE, _ => 'a') + "\0"

  lemma {:induction false} ChunkFull(text: string, n: nat)
    requires n <= |text| && '\n' !in text[..n]
    ensures Chunk(text, n) == n
  {
    if n > 0 {
      assert text[0] == text[..n][0] && text[1..][..n - 1] == text[..n][1..];
      ChunkFull(text[1..], n - 1);
    }
  }

  lemma NulOverrun()
    ensures !Readable(UNREADABLE)
  {
    hide Chunk, CString;
    var text := UNREADABLE;
    assert text[..LINE] == seq(LINE, _ => 'a');
    ChunkFull(text, LINE);
    CStringPlain(text[..LINE]);
    assert text[LINE..] == "\0" && Overlong(text);
  }

  // Without NULs, what is discarded is the rest of the line.
  lemma {:induction false} DiscardsLine(text: string)
    requires '\0' !in text
    ensures Discardable(text) && Discarded(text) == text[Chunk(text, |text|)..]
    decreases |text|
  {
    hide Chunk, Discarded, Discardable, CString;
    if text == "" {
      NothingDiscarded();
    } else {
      var k := Chunk(text, ABYSS);
      DiscardPiece(text);
      ChunkOn(text, ABYSS);
      CStringPlain(text[..k]);
      assert text[..k][k - 1] == text[k - 1];
      if text[k - 1] != '\n' {
        DiscardsLine(text[k..]);
        assert text[k..][Chunk(text[k..], |text| - k)..] == text[k + Chunk(text[k..], |text| - k)..];
      }
    }
  }

  // Every text without NULs can be read.
  lemma {:induction false} PlainReadable(text: string)
    requires '\0' !in text
    ensures Readable(text)
    decreases |text|
  {
    hide Chunk, Discarded, Discardable;
    if text != "" {
      if Overlong(text) { DiscardsLine(text[LINE..]); }
      PlainReadable(After(text));
    }
  }
}

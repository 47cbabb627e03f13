// Continued values: the parser hands the continuation of a value to the handler
// under the name it continues.  While names fit the parser's buffer, strict
// loading takes that for a repeated key and non-strict lookup never sees it.
module ConfigContinue {
  import opened Options
  import opened IniText
  import opened IniParser
  import opened ConfigModel
  import opened IniGrammar

  // Some line of the text continues a value.
  predicate Continues(st: State, text: string)
    decreases |text|
  {
    text != "" &&
    var line := Line(text);
    ParseLine(line, st.first, st.prev != "").More? || Continues(Next(st, line), After(text))
  }

  // Names that fit the parser's buffer.
  ghost predicate ShortNames(calls: seq<Call>) {
    forall i | 0 <= i < |calls| :: |calls[i].name| <= NAME
  }

  ghost predicate HasName(calls: seq<Call>, section: string, name: string) {
    exists i :: 0 <= i < |calls| && calls[i].section == section && calls[i].name == name
  }

  lemma HasNameStays(calls: seq<Call>, c: Call, section: string, name: string)
    requires HasName(calls, section, name) || (c.section == section && c.name == name)
    ensures HasName(calls + [c], section, name)
  {
    var more := calls + [c];
    if HasName(calls, section, name) {
      var i :| 0 <= i < |calls| && calls[i].section == section && calls[i].name == name;
      assert more[i] == calls[i];
    } else {
      assert more[|calls|] == c;
    }
  }

  lemma NameTwice(done: seq<Call>, c: Call, rest: seq<Call>)
    requires HasName(done, c.section, c.name)
    ensures !DistinctKeys(done + [c] + rest)
  {
    var i :| 0 <= i < |done| && done[i].section == c.section && done[i].name == c.name;
    var all := done + [c] + rest;
    assert all[i] == done[i] && all[|done|] == c;
    assert KeyOf(all[i]) == KeyOf(all[|done|]);
  }

  lemma MoreNeedsName(line: string, first: bool, prev: bool)
    ensures ParseLine(line, first, prev).More? ==> prev
  {
    hide Body, Indented, RStrip, Find, Uncommented;
  }

  lemma {:induction false} ContinuedTwice(done: seq<Call>, st: State, text: string)
    requires Continues(st, text) && ShortNames(Calls(st, text))
    requires st.prev != "" ==> HasName(done, st.section, st.prev)
    ensures !DistinctKeys(done + Calls(st, text))
    decreases |text|
  {
    hide Line, Body, Indented, ParsePair, ParseSection, DistinctKeys, HasName, After, KeyOf;
    var line := Line(text);
    var p := ParseLine(line, st.first, st.prev != "");
    var st', rest := Next(st, line), Calls(Next(st, line), After(text));
    match CallOf(st, line)
    case None => ContinuedTwice(done, st', After(text));
    case Some(c) =>
      assert Calls(st, text) == [c] + rest && ([c] + rest)[0] == c && ([c] + rest)[1..] == rest;
      assert done + ([c] + rest) == done + [c] + rest;
      if p.More? {
        MoreNeedsName(line, st.first, st.prev != "");
        NameTwice(done, c, rest);
      } else {
        HasNameStays(done, c, c.section, c.name);
        assert ShortNames(rest) by {
          assert forall i | 0 <= i < |rest| :: rest[i] == ([c] + rest)[i + 1];
        }
        ContinuedTwice(done + [c], st', After(text));
      }
  }

  // A text with a continued value is never accepted by strict loading, as long
  // as its names fit the parser's buffer.
  lemma StrictRejectsContinuation(text: string)
    requires Continues(START, text) && ShortNames(Calls(START, text))
    ensures !Proper(Calls(START, text))
  {
    ContinuedTwice([], START, text);
    assert [] + Calls(START, text) == Calls(START, text);
  }

  // ---------------------------------------------------------------- non-strict

  // The calls that the lines with a name give.
  function PairCalls(st: State, text: string): seq<Call>
    decreases |text|
  {
    if text == "" then []
    else
      var line := Line(text);
      var rest := PairCalls(Next(st, line), After(text));
      match ParseLine(line, st.first, st.prev != "")
      case Pair(name, value) => [Call(st.section, name, value)] + rest
      case _ => rest
  }

  lemma {:induction false} SameFirstFrom(done: seq<Call>, pairs: seq<Call>, st: State, text: string, key: string)
    requires forall k :: FirstValue(done, k) == FirstValue(pairs, k)
    requires st.prev != "" ==> FirstValue(done, FullKey(st.section, st.prev)).Some?
    requires ShortNames(Calls(st, text))
    ensures FirstValue(done + Calls(st, text), key) == FirstValue(pairs + PairCalls(st, text), key)
    decreases |text|
  {
    hide Line, Body, Indented, ParsePair, ParseSection, FirstValue, After, FullKey;
    if text == "" {
      assert done + [] == done && pairs + [] == pairs;
    } else {
      var line := Line(text);
      var p := ParseLine(line, st.first, st.prev != "");
      var st', text' := Next(st, line), After(text);
      match CallOf(st, line)
      case None => SameFirstFrom(done, pairs, st', text', key);
      case Some(c) =>
        ShortTail(c, Calls(st', text'));
        assert done + Calls(st, text) == done + [c] + Calls(st', text');
        forall k ensures FirstValue(done + [c], k) == (if FirstValue(done, k).Some? then FirstValue(done, k)
                                                       else if KeyOf(c) == k then Some(c.value) else None) {
          FirstValueOneMore(done, c, k);
        }
        if p.More? {
          MoreNeedsName(line, st.first, st.prev != "");
          SameFirstFrom(done + [c], pairs, st', text', key);
        } else {
          forall k ensures FirstValue(pairs + [c], k) == FirstValue(done + [c], k) {
            FirstValueOneMore(pairs, c, k);
          }
          assert pairs + PairCalls(st, text) == pairs + [c] + PairCalls(st', text');
          SameFirstFrom(done + [c], pairs + [c], st', text', key);
        }
    }
  }

  lemma ShortTail(c: Call, rest: seq<Call>)
    requires ShortNames([c] + rest)
    ensures |c.name| <= NAME && ShortNames(rest)
  {
    assert ([c] + rest)[0] == c;
    assert forall i | 0 <= i < |rest| :: rest[i] == ([c] + rest)[i + 1];
  }

  // Lookup without strictness never sees a continuation: it gives the first
  // value of the lines with the name itself.
  lemma LenientIgnoresContinuation(text: string, key: string)
    requires ShortNames(Calls(START, text))
    ensures FirstValue(Calls(START, text), key) == FirstValue(PairCalls(START, text), key)
  {
    SameFirstFrom([], [], START, text, key);
    assert [] + Calls(START, text) == Calls(START, text) && [] + PairCalls(START, text) == PairCalls(START, text);
  }

  // ------------------------------------------------------ where names are long

  // A line that fits the buffer, and what follows it.
  lemma FirstLine(line: string, rest: string, n: nat)
    requires '\n' !in line && |line| < n
    ensures Chunk(line + "\n" + rest, n) == |line| + 1
  {
    var text := line + "\n" + rest;
    if line == "" {
      assert text[0] == '\n';
    } else {
      assert text[0] == line[0] && text[1..] == line[1..] + "\n" + rest;
      FirstLine(line[1..], rest, n - 1);
    }
  }

  lemma OneLine(st: State, line: string, rest: string)
    requires '\n' !in line && '\0' !in line && |line| < LINE
    ensures var text, l := line + "\n" + rest, line + "\n"; var st' := Next(st, l);
            && Calls(st, text) == (match CallOf(st, l) case Some(c) => [c] + Calls(st', rest) case None => Calls(st', rest))
            && (Clean(st, text) <==> !ParseLine(l, st.first, st.prev != "").Bad? && Clean(st', rest))
            && (Continues(st, text) <==> ParseLine(l, st.first, st.prev != "").More? || Continues(st', rest))
  {
    hide ParseLine, Chunk;
    FirstLine(line, rest, LINE);
    var text := line + "\n" + rest;
    assert text[..|line| + 1] == line + "\n" && text[|line| + 1..] == rest && text[|line|] == '\n';
    CStringPlain(line + "\n");
    assert Line(text) == line + "\n" && After(text) == rest && !Overlong(text);
  }

  lemma NoLines(st: State)
    ensures Calls(st, "") == [] && Clean(st, "") && !Continues(st, "")
  {
  }

  // A name one character longer than the buffer.
  const LONG := seq(NAME + 1, _ => 'a')
  const SECTION_LINE := "[s]"
  const PAIR_LINE := LONG + "=v"
  const MORE_LINE := " w"
  const TEXT := SECTION_LINE + "\n" + (PAIR_LINE + "\n" + (MORE_LINE + "\n" + ""))

  lemma SectionParses()
    ensures ParseLine(SECTION_LINE + "\n", true, false) == Section("s")
  {
    hide ParseLine, RStrip, LSkip, Find;
    var h := Heading("", "s", "\n");
    assert RenderHeading(h) == SECTION_LINE + "\n" == Unmarked(SECTION_LINE + "\n", true);
    HeadingParses(h, true, false, SECTION_LINE + "\n");
  }

  lemma PairLineParses()
    ensures ParseLine(PAIR_LINE + "\n", false, false) == Pair(LONG, "v")
  {
    hide ParseLine, RStrip, LSkip, Find;
    var l := Layout("", LONG, "", '=', Tail("", "v", "\n", ""));
    assert Render(l) == PAIR_LINE + "\n" == Unmarked(PAIR_LINE + "\n", false);
    PairParses(l, false, false, PAIR_LINE + "\n");
  }

  lemma MoreParses()
    ensures ParseLine(MORE_LINE + "\n", false, true) == More("w")
  {
    hide RStrip, LSkip, Find;
    LSkipIs(" ", "w\n");
    RStripIs("w", "\n");
    RStripIs("w", "");
    FindIs("w", "", 1);
    assert " " + "w\n" == MORE_LINE + "\n" && "w" + "\n" == "w\n" && "w" + "" == "w";
  }

  // Strict loading accepts this text, although it continues a value: the parser
  // remembers the name without its last character.
  lemma LongNameContinued()
    ensures Continues(START, TEXT) && Clean(START, TEXT) && Proper(Calls(START, TEXT))
    ensures Calls(START, TEXT) == [Call("s", LONG, "v"), Call("s", LONG[..NAME], "w")]
  {
    hide ParseLine, Calls, Clean, Continues;
    SectionParses();
    PairLineParses();
    MoreParses();
    var s1, s2 := State("s", "", false), State("s", LONG[..NAME], false);
    assert Next(START, SECTION_LINE + "\n") == s1 && Next(s1, PAIR_LINE + "\n") == s2;
    OneLine(START, SECTION_LINE, PAIR_LINE + "\n" + (MORE_LINE + "\n" + ""));
    OneLine(s1, PAIR_LINE, MORE_LINE + "\n" + "");
    OneLine(s2, MORE_LINE, "");
    NoLines(s2);
    LongKeysDiffer();
  }

  lemma LongKeysDiffer()
    ensures Proper([Call("s", LONG, "v"), Call("s", LONG[..NAME], "w")])
  {
    assert |FullKey("s", LONG)| == NAME + 3 && |FullKey("s", LONG[..NAME])| == NAME + 2;
  }
}

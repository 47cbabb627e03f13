// How Clay cuts a text into measured words: at spaces, which stay with the word
// before them, and at newlines, which become words of length zero.
module TextTokens {

  datatype Token = Token(start: nat, len: nat, width: real)

  // The width of a piece of text; a pure function, fixed with the text's style.
  type Measure = string -> real

  // The width of text[start..end]; nothing is measured for an empty piece.
  function WidthOf(m: Measure, text: string, start: nat, end: nat): real
    requires start <= end <= |text|
  {
    if start < end then m(text[start..end]) else 0.0
  }

  // The words that begin when the scan stands at `end` and the current word
  // began at `start`.
  function Scan(m: Measure, text: string, start: nat, end: nat): seq<Token>
    requires start <= end <= |text|
    decreases |text| - end
  {
    if end == |text| then Tail(m, text, start, end)
    else if text[end] == ' ' || text[end] == '\n' then Cut(m, text, start, end) + Scan(m, text, end + 1, end + 1)
    else Scan(m, text, start, end + 1)
  }

  // The words that a separator at `end` completes.
  function Cut(m: Measure, text: string, start: nat, end: nat): seq<Token>
    requires start <= end < |text|
  {
    var w := WidthOf(m, text, start, end);
    if text[end] == ' ' then [Token(start, end - start + 1, w + m(" "))]
    else Tail(m, text, start, end) + [Token(end + 1, 0, 0.0)]
  }

  // The word that ends at `end`, if it is not empty.
  function Tail(m: Measure, text: string, start: nat, end: nat): seq<Token>
    requires start <= end <= |text|
  {
    if start < end then [Token(start, end - start, WidthOf(m, text, start, end))] else []
  }

  function Tokens(m: Measure, text: string): seq<Token> {
    Scan(m, text, 0, 0)
  }

  // The text that a list of words stands for.
  function Spelled(text: string, ts: seq<Token>): string {
    if ts == [] then "" else Piece(text, ts[0]) + Spelled(text, ts[1..])
  }

  function Piece(text: string, t: Token): string {
    if t.len == 0 then "\n"
    else if t.start + t.len <= |text| then text[t.start..t.start + t.len]
    else ""
  }

  lemma {:induction false} SpelledAppend(text: string, ts: seq<Token>, us: seq<Token>)
    ensures Spelled(text, ts + us) == Spelled(text, ts) + Spelled(text, us)
  {
    hide Piece;
    if ts == [] {
      assert ts + us == us;
    } else {
      SpelledAppend(text, ts[1..], us);
      assert (ts + us)[1..] == ts[1..] + us && (ts + us)[0] == ts[0];
    }
  }

  lemma SpelledOne(text: string, t: Token)
    ensures Spelled(text, [t]) == Piece(text, t)
  {
    hide Piece;
    assert [t][1..] == [];
  }

  lemma TailSpells(m: Measure, text: string, start: nat, end: nat)
    requires start <= end <= |text|
    ensures Spelled(text, Tail(m, text, start, end)) == text[start..end]
  {
    hide Spelled, WidthOf, Piece;
    if start < end {
      var w := WidthOf(m, text, start, end);
      assert Tail(m, text, start, end) == [Token(start, end - start, w)];
      SpelledOne(text, Token(start, end - start, w));
      PieceIs(text, start, end, w);
    } else {
      assert Tail(m, text, start, end) == [] && text[start..end] == "";
      SpelledNone(text);
    }
  }

  lemma PieceIs(text: string, start: nat, end: nat, w: real)
    requires start < end <= |text|
    ensures Piece(text, Token(start, end - start, w)) == text[start..end]
  {
  }

  lemma SpelledNone(text: string)
    ensures Spelled(text, []) == ""
  {
  }

  lemma SplitAt(text: string, a: nat, b: nat, c: nat)
    requires a <= b <= c <= |text|
    ensures text[a..b] + text[b..c] == text[a..c]
  {
  }

  lemma NewlineSpells(m: Measure, text: string, start: nat, end: nat)
    requires start <= end < |text| && text[end] == '\n'
    ensures Spelled(text, Tail(m, text, start, end) + [Token(end + 1, 0, 0.0)]) == text[start..end + 1]
  {
    hide Spelled, Tail;
    var newline := Token(end + 1, 0, 0.0);
    SpelledAppend(text, Tail(m, text, start, end), [newline]);
    SpelledOne(text, newline);
    TailSpells(m, text, start, end);
    SplitAt(text, start, end, end + 1);
    assert text[end..end + 1] == "\n";
  }

  lemma CutSpells(m: Measure, text: string, start: nat, end: nat)
    requires start <= end < |text| && (text[end] == ' ' || text[end] == '\n')
    ensures Spelled(text, Cut(m, text, start, end)) == text[start..end + 1]
  {
    hide Spelled, Tail, WidthOf;
    if text[end] == ' ' {
      SpelledOne(text, Token(start, end - start + 1, WidthOf(m, text, start, end) + m(" ")));
    } else {
      NewlineSpells(m, text, start, end);
    }
  }

  lemma {:induction false} ScanSpells(m: Measure, text: string, start: nat, end: nat)
    requires start <= end <= |text|
    ensures Spelled(text, Scan(m, text, start, end)) == text[start..|text|]
    decreases |text| - end
  {
    hide Spelled, Cut, Tail, WidthOf;
    if end == |text| {
      TailSpells(m, text, start, end);
    } else if text[end] == ' ' || text[end] == '\n' {
      CutSpells(m, text, start, end);
      ScanSpells(m, text, end + 1, end + 1);
      SpelledAppend(text, Cut(m, text, start, end), Scan(m, text, end + 1, end + 1));
      SplitAt(text, start, end + 1, |text|);
    } else {
      ScanSpells(m, text, start, end + 1);
    }
  }

  // Every word lies inside the text.
  lemma {:induction false} ScanInside(m: Measure, text: string, start: nat, end: nat)
    requires start <= end <= |text|
    ensures forall t | t in Scan(m, text, start, end) :: t.start + t.len <= |text|
    decreases |text| - end
  {
    if end < |text| {
      if text[end] == ' ' || text[end] == '\n' {
        ScanInside(m, text, end + 1, end + 1);
      } else {
        ScanInside(m, text, start, end + 1);
      }
    }
  }

  // Nothing of a text is lost: its words, with each empty word read as a
  // newline, spell it out again.
  lemma TokensSpellText(m: Measure, text: string)
    ensures forall t | t in Tokens(m, text) :: t.start + t.len <= |text|
    ensures Spelled(text, Tokens(m, text)) == text
  {
    ScanInside(m, text, 0, 0);
    ScanSpells(m, text, 0, 0);
    assert text[0..|text|] == text;
  }

  // ------------------------------------------------------- words and widths

  predicate Separator(c: char) { c == ' ' || c == '\n' }

  // A word of a text, by its own characters.  An empty one stands behind a
  // newline and has no width.  The others have no separator but a space at the
  // end, which adds its own width; without it a newline or the end follows.
  ghost predicate WordOf(m: Measure, text: string, t: Token) {
    && t.start + t.len <= |text|
    && if t.len == 0 then 0 < t.start && text[t.start - 1] == '\n' && t.width == 0.0
       else
         var end := t.start + t.len;
         && (forall i | t.start <= i < end - 1 :: !Separator(text[i])) && text[end - 1] != '\n'
         && if text[end - 1] == ' ' then
              t.width == m(" ") + if t.len == 1 then 0.0 else m(text[t.start..end - 1])
            else t.width == m(text[t.start..end]) && (end == |text| || text[end] == '\n')
  }

  // The words follow each other without a gap, but for the newlines.
  ghost predicate Tiled(ts: seq<Token>, from: nat, to: nat) {
    if ts == [] then from == to
    else
      && ts[0].start == from + (if ts[0].len == 0 then 1 else 0)
      && Tiled(ts[1..], ts[0].start + ts[0].len, to)
  }

  lemma TiledBehind(t: Token, ts: seq<Token>, from: nat, to: nat)
    requires t.start == from + (if t.len == 0 then 1 else 0) && Tiled(ts, t.start + t.len, to)
    ensures Tiled([t] + ts, from, to)
  {
    assert ([t] + ts)[1..] == ts;
  }

  lemma TailIsWord(m: Measure, text: string, start: nat, end: nat)
    requires start <= end <= |text| && (forall i | start <= i < end :: !Separator(text[i]))
    requires end == |text| || text[end] == '\n'
    ensures forall t | t in Tail(m, text, start, end) :: WordOf(m, text, t)
  {
  }

  lemma CutIsWords(m: Measure, text: string, start: nat, end: nat)
    requires start <= end < |text| && Separator(text[end]) && (forall i | start <= i < end :: !Separator(text[i]))
    ensures forall t | t in Cut(m, text, start, end) :: WordOf(m, text, t)
  {
    hide Tail;
    if text[end] == '\n' {
      TailIsWord(m, text, start, end);
    } else {
      var t := Token(start, end - start + 1, WidthOf(m, text, start, end) + m(" "));
      assert Cut(m, text, start, end) == [t];
      assert WordOf(m, text, t);
    }
  }

  lemma CutTiles(m: Measure, text: string, start: nat, end: nat, rest: seq<Token>)
    requires start <= end < |text| && Separator(text[end]) && Tiled(rest, end + 1, |text|)
    ensures Tiled(Cut(m, text, start, end) + rest, start, |text|)
  {
    hide Tiled;
    var newline := Token(end + 1, 0, 0.0);
    if text[end] == ' ' {
      TiledBehind(Token(start, end - start + 1, WidthOf(m, text, start, end) + m(" ")), rest, start, |text|);
    } else {
      TiledBehind(newline, rest, end, |text|);
      if start < end {
        var word := Token(start, end - start, WidthOf(m, text, start, end));
        TiledBehind(word, [newline] + rest, start, |text|);
        assert [word] + ([newline] + rest) == [word] + [newline] + rest;
      } else {
        assert [] + [newline] + rest == [newline] + rest;
      }
    }
  }

  lemma {:induction false} ScanIsWords(m: Measure, text: string, start: nat, end: nat)
    requires start <= end <= |text| && forall i | start <= i < end :: !Separator(text[i])
    ensures forall t | t in Scan(m, text, start, end) :: WordOf(m, text, t)
    ensures Tiled(Scan(m, text, start, end), start, |text|)
    decreases |text| - end
  {
    hide WordOf, Cut, Tail;
    if end == |text| {
      TailIsWord(m, text, start, end);
      TailTiles(m, text, start);
    } else if Separator(text[end]) {
      CutIsWords(m, text, start, end);
      ScanIsWords(m, text, end + 1, end + 1);
      CutTiles(m, text, start, end, Scan(m, text, end + 1, end + 1));
    } else {
      ScanIsWords(m, text, start, end + 1);
    }
  }

  lemma TailTiles(m: Measure, text: string, start: nat)
    requires start <= |text|
    ensures Tiled(Tail(m, text, start, |text|), start, |text|)
  {
    if start < |text| {
      TiledBehind(Token(start, |text| - start, WidthOf(m, text, start, |text|)), [], start, |text|);
    }
  }

  // Every token is a word of the text with the width of its characters, and the
  // tokens cover the text in order.
  lemma TokensAreWords(m: Measure, text: string)
    ensures forall t | t in Tokens(m, text) :: WordOf(m, text, t)
    ensures Tiled(Tokens(m, text), 0, |text|)
  {
    ScanIsWords(m, text, 0, 0);
  }

  // ------------------------------------------------------- no other cutting

  lemma {:induction false} ScanOver(m: Measure, text: string, start: nat, end: nat, e: nat)
    requires start <= end <= e <= |text| && forall i | end <= i < e :: !Separator(text[i])
    ensures Scan(m, text, start, end) == Scan(m, text, start, e)
    decreases e - end
  {
    if end < e { ScanOver(m, text, start, end + 1, e); }
  }

  // The first word of a tiling is the one that the scan cuts first.
  lemma FirstIsCut(m: Measure, text: string, t: Token, from: nat)
    requires from < |text| && t.start == from + (if t.len == 0 then 1 else 0) && WordOf(m, text, t)
    ensures var end := t.start + t.len;
            if t.len > 0 && text[end - 1] != ' ' then
              if end == |text| then Scan(m, text, from, from) == [t]
              else text[end] == '\n' && Scan(m, text, from, from) ==
                   [t, Token(end + 1, 0, 0.0)] + Scan(m, text, end + 1, end + 1)
            else Scan(m, text, from, from) == [t] + Scan(m, text, end, end)
  {
    hide Cut, Tail, WidthOf;
    var end := t.start + t.len;
    if t.len == 0 {
      NewlineIsCut(m, text, from);
    } else if text[end - 1] == ' ' {
      ScanOver(m, text, from, from, end - 1);
      SpaceIsCut(m, text, t);
    } else {
      ScanOver(m, text, from, from, end);
      PieceIsCut(m, text, t);
    }
  }

  lemma NewlineIsCut(m: Measure, text: string, from: nat)
    requires from < |text| && text[from] == '\n'
    ensures Cut(m, text, from, from) == [Token(from + 1, 0, 0.0)]
  {
  }

  lemma SpaceIsCut(m: Measure, text: string, t: Token)
    requires WordOf(m, text, t) && t.len > 0 && text[t.start + t.len - 1] == ' '
    ensures Cut(m, text, t.start, t.start + t.len - 1) == [t]
  {
  }

  lemma PieceIsCut(m: Measure, text: string, t: Token)
    requires WordOf(m, text, t) && t.len > 0 && text[t.start + t.len - 1] != ' '
    ensures var end := t.start + t.len;
            if end == |text| then Tail(m, text, t.start, end) == [t]
            else text[end] == '\n' && Cut(m, text, t.start, end) == [t, Token(end + 1, 0, 0.0)]
  {
  }

  // Behind a word that a newline ends comes the empty word of the newline.
  lemma NewlineFollows(m: Measure, text: string, ts: seq<Token>, end: nat)
    requires end < |text| && text[end] == '\n' && Tiled(ts, end, |text|) && forall t | t in ts :: WordOf(m, text, t)
    ensures ts != [] && ts[0] == Token(end + 1, 0, 0.0)
  {
    assert ts != [] ==> WordOf(m, text, ts[0]);
  }

  lemma NothingFollows(m: Measure, text: string, ts: seq<Token>)
    requires Tiled(ts, |text|, |text|) && forall t | t in ts :: WordOf(m, text, t)
    ensures ts == []
  {
    assert ts != [] ==> WordOf(m, text, ts[0]);
  }

  lemma {:induction false} OnlyScan(m: Measure, text: string, ts: seq<Token>, from: nat)
    requires from <= |text| && Tiled(ts, from, |text|) && forall t | t in ts :: WordOf(m, text, t)
    ensures ts == Scan(m, text, from, from)
    decreases |ts|
  {
    hide WordOf, Scan;
    if from == |text| {
      NothingFollows(m, text, ts);
      ScanNothing(m, text);
    } else {
      var t, end := ts[0], ts[0].start + ts[0].len;
      InsideText(m, text, t);
      FirstIsCut(m, text, t, from);
      assert ts == [t] + ts[1..];
      if t.len > 0 && text[end - 1] != ' ' {
        if end == |text| {
          NothingFollows(m, text, ts[1..]);
        } else {
          NewlineFollows(m, text, ts[1..], end);
          OnlyScan(m, text, ts[2..], end + 1);
          assert ts[1..][1..] == ts[2..] && ts == [t, ts[1]] + ts[2..];
        }
      } else {
        OnlyScan(m, text, ts[1..], end);
      }
    }
  }

  lemma ScanNothing(m: Measure, text: string)
    ensures Scan(m, text, |text|, |text|) == []
  {
  }

  lemma InsideText(m: Measure, text: string, t: Token)
    requires WordOf(m, text, t)
    ensures t.start + t.len <= |text|
  {
  }

  // No other list of words covers the text.
  lemma OnlyTokens(m: Measure, text: string, ts: seq<Token>)
    ensures ts == Tokens(m, text) <==> Tiled(ts, 0, |text|) && forall t | t in ts :: WordOf(m, text, t)
  {
    hide WordOf, Tiled, Scan;
    TokensAreWords(m, text);
    if Tiled(ts, 0, |text|) && forall t | t in ts :: WordOf(m, text, t) { OnlyScan(m, text, ts, 0); }
  }
}

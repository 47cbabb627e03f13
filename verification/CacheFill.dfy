// Collecting the words of a text that is being measured into the entry under
// construction.
module CacheFill {
  import opened CacheFate
  import opened CacheModel
  import opened CacheGrow
  import opened CacheRoom
  import opened TextTokens
  import opened WordPool

  // Entry e has collected the first words of a text, `rest` are still to come.
  // The list starts at slot `first` and ends at slot `last`, both -1 for none.
  ghost predicate Filling(p: Params, m: Mem, g: Shape, e: nat, first: int, last: int, all: seq<Token>, rest: seq<Token>) {
    && Building(p, m, g, e) && Linked(m.words, first, g.lists[e])
    && last == (if g.lists[e] == [] then -1 else g.lists[e][|g.lists[e]| - 1])
    && TokensOf(m.words, g.lists[e]) + rest == all
  }

  lemma FillStarts(p: Params, m: Mem, g: Shape, e: nat, all: seq<Token>)
    requires Building(p, m, g, e) && g.lists[e] == []
    ensures Filling(p, m, g, e, -1, -1, all, all)
  {
    hide Ok;
    assert TokensOf(m.words, g.lists[e]) == [];
    assert [] + all == all;
  }

  lemma AddStaysBuilding(p: Params, m: Mem, g: Shape, e: nat, t: Token)
    requires Building(p, m, g, e)
    ensures WordFits(m, g)
    ensures Building(p, Added(m, g.lists[e], t), AddedShape(m, g, e), e)
  {
    AddKeepsOk(p, m, g, e, t);
    hide Ok, Added;
    BuildingFacts(p, Added(m, g.lists[e], t), AddedShape(m, g, e), e);
  }

  lemma Reassociate(done: seq<Token>, rest: seq<Token>)
    requires rest != []
    ensures done + [rest[0]] + rest[1..] == done + rest
  {
  }

  lemma FillAdds(p: Params, m: Mem, g: Shape, e: nat, first: int, last: int, all: seq<Token>, rest: seq<Token>)
    requires Filling(p, m, g, e, first, last, all, rest) && rest != []
    ensures WordFits(m, g)
    ensures Filling(p, Added(m, g.lists[e], rest[0]), AddedShape(m, g, e), e,
                    if first == -1 then WordSlot(m) else first, WordSlot(m), all, rest[1..])
  {
    assert first == -1 <==> g.lists[e] == [];
    hide Ok, Linked, TokensOf, Building, Hooked;
    AddStaysBuilding(p, m, g, e, rest[0]);
    AddGrowsList(p, m, g, e, rest[0], first);
    Reassociate(TokensOf(m.words, g.lists[e]), rest);
  }

  // No words are left to come.
  lemma FillEnds(p: Params, m: Mem, g: Shape, e: nat, first: int, last: int, all: seq<Token>)
    requires Filling(p, m, g, e, first, last, all, [])
    ensures Building(p, m, g, e) && Linked(m.words, first, g.lists[e]) && TokensOf(m.words, g.lists[e]) == all
  {
    hide Ok, Linked, TokensOf;
    assert TokensOf(m.words, g.lists[e]) + [] == TokensOf(m.words, g.lists[e]);
  }

  // Nothing but the words and entry e has changed.
  ghost predicate OnlyGrew(m0: Mem, g0: Shape, m: Mem, g: Shape, e: nat) {
    && g.keys == g0.keys && g.chains == g0.chains && g.home == g0.home
    && m.buckets == m0.buckets && m.entryFree == m0.entryFree && |m.entries| == |m0.entries|
    && (forall x | 0 <= x < |m.entries| && x != e :: m.entries[x] == m0.entries[x])
    && (forall x | x in g0.lists && x != e :: x in g.lists && g.lists[x] == g0.lists[x])
  }

  lemma GrewMore(m0: Mem, g0: Shape, m: Mem, g: Shape, e: nat, t: Token)
    requires OnlyGrew(m0, g0, m, g, e) && e in g.lists && (forall k | 0 <= k < |g.lists[e]| :: g.lists[e][k] < |m.words|)
    requires WordFits(m, g)
    ensures OnlyGrew(m0, g0, Added(m, g.lists[e], t), AddedShape(m, g, e), e)
    ensures Added(m, g.lists[e], t).entries == m.entries
    ensures Used(m, Added(m, g.lists[e], t), 1) && Now(Added(m, g.lists[e], t)) == Take(Now(m), 1)
  {
    hide Hooked;
  }

  lemma GrewStamped(m0: Mem, g0: Shape, m: Mem, g: Shape, e: nat, item: Entry)
    requires OnlyGrew(m0, g0, m, g, e) && e < |m.entries|
    ensures OnlyGrew(m0, g0, m.(entries := m.entries[e := item]), g, e)
  {
  }

  // The entry itself may be rewritten meanwhile.
  lemma FillStamps(p: Params, m: Mem, g: Shape, e: nat, first: int, last: int, all: seq<Token>, rest: seq<Token>, item: Entry)
    requires Filling(p, m, g, e, first, last, all, rest)
    ensures e < |m.entries| && Filling(p, m.(entries := m.entries[e := item]), g, e, first, last, all, rest)
  {
    hide Ok, Linked, TokensOf;
    StampKeepsOk(p, m, g, e, item);
  }

  // What is to come at a separator, word by word.
  lemma ScanAtSpace(f: Measure, text: string, start: nat, end: nat)
    requires start <= end < |text| && text[end] == ' '
    ensures var s := Scan(f, text, start, end);
            s != [] && s[0] == Token(start, end - start + 1, WidthOf(f, text, start, end) + f(" "))
            && s[1..] == Scan(f, text, end + 1, end + 1)
  {
  }

  lemma ScanAtNewline(f: Measure, text: string, start: nat, end: nat)
    requires start <= end < |text| && text[end] == '\n'
    ensures var s, t := Scan(f, text, start, end), [Token(end + 1, 0, 0.0)] + Scan(f, text, end + 1, end + 1);
            if start < end then s != [] && s[0] == Token(start, end - start, WidthOf(f, text, start, end)) && s[1..] == t
            else s == t
  {
    var tail, newline, rest := Tail(f, text, start, end), [Token(end + 1, 0, 0.0)], Scan(f, text, end + 1, end + 1);
    assert tail + newline + rest == tail + (newline + rest);
  }

  lemma ScanAtEnd(f: Measure, text: string, start: nat)
    requires start <= |text|
    ensures var s := Scan(f, text, start, |text|);
            if start < |text| then s == [Token(start, |text| - start, f(text[start..|text|]))] && s[1..] == [] else s == []
  {
  }

  // ----------------------------------------------------------- cutting a text

  predicate Newlines(text: string, end: nat)
    requires end <= |text|
  {
    '\n' in text[..end]
  }

  lemma NewlinesUpTo(text: string, end: nat)
    requires end < |text|
    ensures Newlines(text, end + 1) <==> Newlines(text, end) || text[end] == '\n'
  {
    assert text[..end + 1] == text[..end] + [text[end]];
  }

  // Entry e, taken in state m0, has the words of text up to `end`, but for the
  // one that began at `start`.
  ghost predicate Cutting(p: Params, wordCap: nat, m0: Mem, g0: Shape, m: Mem, g: Shape, e: nat, f: Measure,
                          text: string, start: nat, end: nat, first: int, last: int)
  {
    && start <= end <= |text| && OnlyGrew(m0, g0, m, g, e) && e < |m.entries|
    && Filling(p, m, g, e, first, last, Tokens(f, text), Scan(f, text, start, end))
    && |Scan(f, text, start, end)| <= |Tokens(f, text)| && Used(m0, m, |Tokens(f, text)| - |Scan(f, text, start, end)|)
    && |m0.words| <= |m.words| <= wordCap
    && FateOf(Now(m), wordCap, text, start, end) == FateOf(Now(m0), wordCap, text, 0, 0)
    && m.entries[e] == m0.entries[e].(newlines := Newlines(text, end))
  }

  lemma CutStarts(p: Params, wordCap: nat, m: Mem, g: Shape, e: nat, f: Measure, text: string)
    requires Building(p, m, g, e) && g.lists[e] == [] && !m.entries[e].newlines
    requires |m.words| <= wordCap
    ensures Cutting(p, wordCap, m, g, m, g, e, f, text, 0, 0, -1, -1)
  {
    FillStarts(p, m, g, e, Tokens(f, text));
    hide Ok, Filling;
  }

  // The check of the array, and a character that is no separator.
  lemma CutOn(p: Params, wordCap: nat, m0: Mem, g0: Shape, m: Mem, g: Shape, e: nat, f: Measure, text: string, start: nat,
              end: nat, first: int, last: int)
    requires Cutting(p, wordCap, m0, g0, m, g, e, f, text, start, end, first, last) && end < |text|
    ensures |m.words| == wordCap - 1 ==> FateOf(Now(m0), wordCap, text, 0, 0) == NoWords
    ensures |m.words| != wordCap - 1 && text[end] != ' ' && text[end] != '\n' ==>
              Cutting(p, wordCap, m0, g0, m, g, e, f, text, start, end + 1, first, last)
  {
    hide Filling, OnlyGrew, Newlines, Used;
    NewlinesUpTo(text, end);
  }

  // A separator: its words find slots or they do not.
  lemma CutAt(p: Params, wordCap: nat, m0: Mem, g0: Shape, m: Mem, g: Shape, e: nat, f: Measure, text: string, start: nat,
              end: nat, first: int, last: int)
    requires Cutting(p, wordCap, m0, g0, m, g, e, f, text, start, end, first, last)
    requires end < |text| && (text[end] == ' ' || text[end] == '\n') && |m.words| != wordCap - 1
    ensures FateOf(Now(m0), wordCap, text, 0, 0) ==
            var n := CutCount(text, start, end);
            if HasSlots(Now(m), wordCap, n) then FateOf(Take(Now(m), n), wordCap, text, end + 1, end + 1) else Overrun
  {
    hide Filling, OnlyGrew, Newlines, Used, Scan;
  }

  // The end: the last word, if there is one, finds a slot or does not.
  lemma CutLast(p: Params, wordCap: nat, m0: Mem, g0: Shape, m: Mem, g: Shape, e: nat, f: Measure, text: string, start: nat,
                first: int, last: int)
    requires Cutting(p, wordCap, m0, g0, m, g, e, f, text, start, |text|, first, last)
    ensures FateOf(Now(m0), wordCap, text, 0, 0) ==
            if start == |text| || HasSlots(Now(m), wordCap, 1) then Fits else Overrun
  {
    hide Filling, OnlyGrew, Newlines, Used, Scan;
  }

  // What has been stored so far when the text is given up.
  lemma CutStops(p: Params, wordCap: nat, m0: Mem, g0: Shape, m: Mem, g: Shape, e: nat, f: Measure, text: string, start: nat,
                 end: nat, first: int, last: int)
    requires Cutting(p, wordCap, m0, g0, m, g, e, f, text, start, end, first, last)
    ensures Building(p, m, g, e) && OnlyGrew(m0, g0, m, g, e) && |m0.words| <= |m.words| <= wordCap
  {
    hide Ok, Linked, TokensOf, Scan, Newlines;
  }

  // The whole text has been cut.
  lemma CutEnds(p: Params, wordCap: nat, m0: Mem, g0: Shape, m: Mem, g: Shape, e: nat, f: Measure, text: string,
                first: int, last: int)
    requires Cutting(p, wordCap, m0, g0, m, g, e, f, text, |text|, |text|, first, last)
    ensures Building(p, m, g, e) && Linked(m.words, first, g.lists[e])
    ensures TokensOf(m.words, g.lists[e]) == Tokens(f, text)
    ensures OnlyGrew(m0, g0, m, g, e) && Used(m0, m, |Tokens(f, text)|) && |m0.words| <= |m.words| <= wordCap
    ensures m.entries[e] == m0.entries[e].(newlines := '\n' in text)
  {
    hide Filling, OnlyGrew;
    assert text[..|text|] == text;
    ScanAtEnd(f, text, |text|);
    FillEnds(p, m, g, e, first, last, Tokens(f, text));
  }
}

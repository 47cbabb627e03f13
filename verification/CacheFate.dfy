// What becomes of a text that has to be measured, as far as the array of words
// decides it.  The array is checked once for each character, and only for being
// one short of full.
module CacheFate {
  import opened TextTokens

  // All words are stored; or the check fails and the text is given up; or a word
  // finds no slot, which the check should have prevented.
  datatype Fate = Fits | NoWords | Overrun

  // The slots of the array in use, and how many of them are free again.
  datatype Store = Store(used: nat, free: nat)

  // After n more words: the free slots go first.
  function Take(s: Store, n: nat): Store {
    if n <= s.free then Store(s.used, s.free - n) else Store(s.used + n - s.free, 0)
  }

  predicate HasSlots(s: Store, cap: nat, n: nat) {
    s.used + n <= s.free + cap
  }

  // The words that a separator at `end` completes.
  function CutCount(text: string, start: nat, end: nat): nat
    requires start <= end < |text|
  {
    if text[end] == '\n' && start < end then 2 else 1
  }

  function FateOf(s: Store, cap: nat, text: string, start: nat, end: nat): Fate
    requires start <= end <= |text|
    decreases |text| - end
  {
    if end == |text| then
      if start == end || HasSlots(s, cap, 1) then Fits else Overrun
    else if s.used == cap - 1 then NoWords
    else if text[end] == ' ' || text[end] == '\n' then
      var n := CutCount(text, start, end);
      if HasSlots(s, cap, n) then FateOf(Take(s, n), cap, text, end + 1, end + 1) else Overrun
    else FateOf(s, cap, text, start, end + 1)
  }

  // ------------------------------------------------------- when a text fits

  // The text ends with a newline that completes a word.
  predicate EndsPair(text: string, start: nat, end: nat)
    requires start <= end < |text|
  {
    var last := |text| - 1;
    text[last] == '\n' && if last == end then start < end else text[last - 1] != ' ' && text[last - 1] != '\n'
  }

  lemma CutCounts(f: Measure, text: string, start: nat, end: nat)
    requires start <= end < |text|
    ensures var t := |Scan(f, text, start, end)|;
            if text[end] == ' ' || text[end] == '\n' then
              t == CutCount(text, start, end) + |Scan(f, text, end + 1, end + 1)|
            else t == |Scan(f, text, start, end + 1)|
  {
  }

  // While there is text there are words to come, two if it ends in a pair.
  lemma {:induction false} WordsToCome(f: Measure, text: string, start: nat, end: nat)
    requires start <= end < |text|
    ensures |Scan(f, text, start, end)| >= if EndsPair(text, start, end) then 2 else 1
    decreases |text| - end
  {
    hide Scan;
    CutCounts(f, text, start, end);
    if end + 1 < |text| {
      if text[end] == ' ' || text[end] == '\n' {
        WordsToCome(f, text, end + 1, end + 1);
      } else {
        WordsToCome(f, text, start, end + 1);
      }
    } else {
      CountAtEnd(f, text, start);
    }
  }

  lemma CountAtEnd(f: Measure, text: string, start: nat)
    requires start <= |text|
    ensures |Scan(f, text, start, |text|)| == if start < |text| then 1 else 0
  {
  }

  // All words of the text fit exactly when they fill the array to one short of
  // full at most; or if the last two, added at once, fill it.  An array that is
  // full passes the check, and one that is one short of full fails it.
  ghost predicate FitsWhen(s: Store, cap: nat, t: nat, text: string, start: nat, end: nat)
    requires start <= end <= |text|
  {
    if end == |text| || s.used == cap then HasSlots(s, cap, t)
    else if s.used == cap - 1 then false
    else HasSlots(s, cap, t + 1) || (HasSlots(s, cap, t) && EndsPair(text, start, end))
  }

  lemma {:induction false} FitsIff(f: Measure, s: Store, cap: nat, text: string, start: nat, end: nat)
    requires start <= end <= |text| && s.used <= cap
    ensures FateOf(s, cap, text, start, end) == Fits <==> FitsWhen(s, cap, |Scan(f, text, start, end)|, text, start, end)
    decreases |text| - end
  {
    hide Scan;
    if end == |text| {
      CountAtEnd(f, text, start);
    } else {
      CutCounts(f, text, start, end);
      CountAtEnd(f, text, start);
      CountAtEnd(f, text, |text|);
      WordsToCome(f, text, start, end);
      if text[end] == ' ' || text[end] == '\n' {
        var n := CutCount(text, start, end);
        if end + 1 < |text| { WordsToCome(f, text, end + 1, end + 1); }
        if HasSlots(s, cap, n) && s.used != cap - 1 {
          FitsIff(f, Take(s, n), cap, text, end + 1, end + 1);
        }
      } else {
        FitsIff(f, s, cap, text, start, end + 1);
      }
    }
  }

  // --------------------------------------------------- when it does not fit

  // Once the array is one short of full, no text that has a character gets in,
  // whatever is free.
  lemma FullFails(s: Store, cap: nat, text: string)
    requires s.used == cap - 1 && text != ""
    ensures FateOf(s, cap, text, 0, 0) == NoWords
  {
  }

  // Only a newline can get past the check.
  lemma {:induction false} OverrunNeedsNewline(s: Store, cap: nat, text: string, start: nat, end: nat)
    requires start <= end <= |text| && s.used < cap && '\n' !in text[end..]
    ensures FateOf(s, cap, text, start, end) != Overrun
    decreases |text| - end
  {
    if end < |text| && s.used != cap - 1 {
      assert text[end] == text[end..][0] && text[end + 1..] == text[end..][1..];
      if text[end] == ' ' {
        OverrunNeedsNewline(Take(s, 1), cap, text, end + 1, end + 1);
      } else {
        OverrunNeedsNewline(s, cap, text, start, end + 1);
      }
    }
  }

  // And it does, with two slots left.
  lemma NewlineOverruns(cap: nat)
    requires cap >= 2
    ensures FateOf(Store(cap - 2, 0), cap, "a\nb", 0, 0) == Overrun
  {
    var s := "a\nb";
    assert FateOf(Store(cap, 0), cap, s, 2, 3) == Overrun;
    assert FateOf(Store(cap, 0), cap, s, 2, 2) == Overrun;
    assert FateOf(Store(cap - 2, 0), cap, s, 0, 1) == Overrun;
  }
}

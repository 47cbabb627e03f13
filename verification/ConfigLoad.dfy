// Loading a configuration: the parser's loop over the lines of a text, with the
// configuration as its handler.
module ConfigLoad {
  import opened Options
  import opened IniText
  import opened IniParser
  import opened IniLines
  import opened ConfigModel
  import opened ConfigKeys

  // --------------------------------------------------------- the result of it

  // The handler's part of a line that gives a call or none.
  function HandleAny(strict: bool, s: Store, c: Option<Call>): (Store, bool) {
    match c case Some(call) => Handle(strict, s, call) case None => (s, true)
  }

  // The line of the first error, 0 for none: a line that is wrong, or one whose
  // handler call fails.
  function FirstError(strict: bool, s: Store, st: State, text: string, lineno: nat): nat
    decreases |text|
  {
    if text == "" then 0
    else
      var line := Line(text);
      var called := HandleAny(strict, s, CallOf(st, line));
      if Wrong(st, text) || !called.1 then lineno + 1
      else FirstError(strict, called.0, Next(st, line), After(text), lineno + 1)
  }

  lemma RunOneMore(strict: bool, calls: seq<Call>, c: Call)
    ensures Run(strict, calls + [c]).0 == Handle(strict, Run(strict, calls).0, c).0
    ensures Run(strict, calls + [c]).1 <==> Run(strict, calls).1 && Handle(strict, Run(strict, calls).0, c).1
  {
    assert (calls + [c])[..|calls|] == calls;
  }

  // A failed call is never made good.
  lemma {:induction false} RunPrefix(strict: bool, calls: seq<Call>, more: seq<Call>)
    requires Run(strict, calls + more).1
    ensures Run(strict, calls).1
    decreases |more|
  {
    if more == [] {
      assert calls + more == calls;
    } else {
      var init := more[..|more| - 1];
      assert calls + more == calls + init + [more[|more| - 1]];
      RunOneMore(strict, calls + init, more[|more| - 1]);
      RunPrefix(strict, calls, init);
    }
  }

  // There is no error exactly when every line parses and every call succeeds.
  lemma {:induction false} NoErrorFrom(strict: bool, done: seq<Call>, st: State, text: string, lineno: nat)
    requires Run(strict, done).1
    ensures FirstError(strict, Run(strict, done).0, st, text, lineno) == 0 <==>
            Clean(st, text) && Run(strict, done + Calls(st, text)).1
    decreases |text|
  {
    hide Run, Handle, ParseLine, Line, After;
    if text == "" {
      assert done + Calls(st, text) == done;
    } else {
      var line := Line(text);
      var st', text' := Next(st, line), After(text);
      match CallOf(st, line)
      case None => NoErrorFrom(strict, done, st', text', lineno + 1);
      case Some(c) =>
        RunOneMore(strict, done, c);
        assert done + Calls(st, text) == done + [c] + Calls(st', text');
        if Handle(strict, Run(strict, done).0, c).1 {
          NoErrorFrom(strict, done + [c], st', text', lineno + 1);
        } else if Run(strict, done + [c] + Calls(st', text')).1 {
          RunPrefix(strict, done + [c], Calls(st', text'));
        }
    }
  }

  // Loading succeeds exactly when every line parses and, if strict, the calls
  // are proper.
  lemma LoadSucceeds(strict: bool, text: string)
    ensures FirstError(strict, EMPTY, START, text, 0) == 0 <==>
            Clean(START, text) && (strict ==> Proper(Calls(START, text)))
  {
    hide FirstError, Clean, Calls, Proper, Handle;
    assert Run(strict, []) == (EMPTY, true);
    NoErrorFrom(strict, [], START, text, 0);
    assert [] + Calls(START, text) == Calls(START, text);
    hide Run;
    if strict {
      StrictAcceptsProper(Calls(START, text));
    } else {
      LenientAcceptsAll(Calls(START, text));
    }
  }

  // -------------------------------------------------------------- the reader

  // A text that is read line by line, as fgets does.
  class Reader {
    const text: string
    var pos: nat

    ghost predicate Valid()
      reads this
    {
      pos <= |text|
    }

    ghost function Rest(): string
      requires Valid()
      reads this
    {
      text[pos..]
    }

    constructor (text: string)
      ensures Valid() && this.text == text && pos == 0
    {
      this.text, pos := text, 0;
    }

    // Read up to num - 1 characters, but no further than the first newline.
    method Read(buf: array<char>, num: nat) returns (ok: bool)
      requires Valid() && num <= buf.Length
      modifies this`pos, buf
      ensures Valid() && (ok <==> old(Rest()) != "" && num >= 2)
      ensures pos == old(pos) + if ok then Chunk(old(Rest()), num - 1) else 0
      ensures ok ==> Holds(buf[..], 0, CString(text[old(pos)..pos]))
    {
      hide Chunk;
      if pos == |text| || num < 2 {
        return false;
      }
      ghost var start := pos;
      var left, i := num, 0;
      while left > 1 && pos < |text|
        invariant 1 <= left <= num && i == num - left && pos == start + i <= |text|
        invariant buf[..i] == text[start..pos]
        invariant i + Chunk(text[pos..], left - 1) == Chunk(text[start..], num - 1)
        decreases left
      {
        var c := text[pos];
        ChunkNext(text, pos, left - 1);
        pos := pos + 1;
        buf[i] := c;
        i := i + 1;
        assert buf[..i] == text[start..pos];
        if c == '\n' {
          break;
        }
        left := left - 1;
      }
      assert i == Chunk(text[start..], num - 1);
      buf[i] := '\0';
      ok := true;
      assert buf[..][0..i] == text[start..pos];
    }
  }

  // Read to the end of an overlong line, and say whether anything was left.  The
  // code looks at the last character of each piece; `before` says that a piece
  // has none, so that it would look before the buffer.
  method Discard(r: Reader) returns (lost: bool, before: bool)
    requires r.Valid()
    modifies r
    ensures r.Valid() && (before <==> !Discardable(old(r.Rest())))
    ensures !before ==> r.Rest() == Discarded(old(r.Rest())) && (lost <==> old(r.Rest()) != "")
  {
    hide Chunk, Discarded, Discardable, CString;
    NothingDiscarded();
    var abyss := new char[ABYSS + 1];
    lost, before := false, false;
    while true
      invariant r.Valid() && Discarded(r.Rest()) == Discarded(old(r.Rest()))
      invariant Discardable(r.Rest()) <==> Discardable(old(r.Rest()))
      invariant if lost then r.pos > old(r.pos) else r.pos == old(r.pos)
      decreases |r.text| - r.pos
    {
      ghost var rest := r.Rest();
      var ok := r.Read(abyss, ABYSS + 1);
      if !ok {
        break;
      }
      lost := true;
      DiscardPiece(rest);
      ghost var k := Chunk(rest, ABYSS);
      assert r.Rest() == rest[k..] && r.text[r.pos - k..r.pos] == rest[..k];
      ghost var piece := CString(rest[..k]);
      var n := StrLen(abyss, piece);
      if n == 0 {
        before := true;
        return;
      }
      assert abyss[n - 1] == abyss[..][0..n][n - 1] == piece[n - 1];
      if abyss[n - 1] == '\n' {
        return;
      }
    }
  }

  // No other call shares the key; none does if no section has a dot.
  ghost predicate Tellable(calls: seq<Call>, section: string, name: string) {
    NoClash(calls, section, name) || (PlainCalls(calls) && Plain(section))
  }

  // A lookup gives the value of the first call with the section and the name,
  // unless another call shares their key.
  ghost predicate ByName(s: Store, calls: seq<Call>) {
    forall section, name | Tellable(calls, section, name) ::
      Lookup(s, FullKey(section, name)) == FirstOf(calls, section, name)
  }

  // ------------------------------------------------------- the configuration

  class Config {
    const strict: bool
    var entries: map<string, string>
    var sections: set<string>
    var last: Option<string>

    ghost function Content(): Store
      reads this
    {
      Store(entries, sections, last)
    }

    constructor (strict: bool)
      ensures this.strict == strict && Content() == EMPTY
    {
      this.strict, entries, sections, last := strict, map[], {}, None;
    }

    // The parser's handler.
    method OnCall(section: string, name: string, value: string) returns (ok: bool)
      modifies this
      ensures (Content(), ok) == Handle(strict, old(Content()), Call(section, name, value))
    {
      if strict && (section == "" || name == "" || value == "") {
        return false;
      }
      var key := FullKey(section, name);
      if key in entries {
        if strict {
          return false;
        }
      } else {
        entries := entries[key := value];
      }
      if last != Some(section) {
        if section in sections {
          if strict {
            return false;
          }
        } else {
          sections := sections + {section};
        }
        last := Some(section);
      }
      assert section in old(sections) ==> old(sections) + {section} == old(sections);
      ok := true;
    }

    method GetStr(section: string, name: string) returns (r: Option<string>)
      ensures r == Lookup(Content(), FullKey(section, name))
      ensures forall calls | ByName(Content(), calls) && Tellable(calls, section, name) ::
                r == FirstOf(calls, section, name)
    {
      hide Tellable, FirstOf, FullKey;
      var key := FullKey(section, name);
      r := if key in entries then Some(entries[key]) else None;
    }
  }

  // Do what a parsed line says: enter a section, remember a name, call the
  // handler.
  method Act(p: Parsed, cfg: Config, section: string, prev: string, ghost first: bool)
    returns (section': string, prev': string, failed: bool)
    modifies cfg
    ensures State(section', prev', false) == Moved(State(section, prev, first), p)
    ensures var called := HandleAny(cfg.strict, old(cfg.Content()), CallFor(State(section, prev, first), p));
            cfg.Content() == called.0 && (failed <==> p.Bad? || !called.1)
  {
    section', prev', failed := section, prev, false;
    match p
    case Ignored =>
    case Bad => failed := true;
    case Section(name) => section', prev' := name, "";
    case Pair(name, value) =>
      prev' := Truncate(name, NAME);
      var ok := cfg.OnCall(section, name, value);
      failed := !ok;
    case More(value) =>
      var ok := cfg.OnCall(section, prev, value);
      failed := !ok;
  }

  // Where the parser is: behind the calls `done`, in state st, with the first
  // error so far.
  ghost predicate Parsing(strict: bool, text: string, s: Store, st: State, rest: string, lineno: nat, error: nat,
                          done: seq<Call>)
  {
    && done + Calls(st, rest) == Calls(START, text) && s == Run(strict, done).0
    && FirstError(strict, EMPTY, START, text, 0) ==
       if error == 0 then FirstError(strict, s, st, rest, lineno) else error
  }

  lemma ParsingStarts(strict: bool, text: string)
    ensures Parsing(strict, text, EMPTY, START, text, 0, 0, [])
  {
    hide Calls, FirstError;
    assert [] + Calls(START, text) == Calls(START, text);
  }

  lemma ParsingLine(strict: bool, text: string, s: Store, st: State, rest: string, lineno: nat, error: nat, done: seq<Call>)
    returns (more: seq<Call>)
    requires Parsing(strict, text, s, st, rest, lineno, error, done) && rest != ""
    ensures var line := Line(rest);
            var called := HandleAny(strict, s, CallOf(st, line));
            Parsing(strict, text, called.0, Next(st, line), After(rest), lineno + 1,
                    if error == 0 && (Wrong(st, rest) || !called.1) then lineno + 1 else error, more)
  {
    hide Line, ParseLine, After, Run, Handle, Wrong, Moved, CallFor;
    var line := Line(rest);
    match CallOf(st, line)
    case None => more := done;
    case Some(c) =>
      more := done + [c];
      RunOneMore(strict, done, c);
      assert done + ([c] + Calls(Next(st, line), After(rest))) == more + Calls(Next(st, line), After(rest));
  }

  lemma ParsingEnds(strict: bool, text: string, s: Store, st: State, lineno: nat, error: nat, done: seq<Call>)
    requires Parsing(strict, text, s, st, "", lineno, error, done)
    ensures s == Run(strict, Calls(START, text)).0 && error == FirstError(strict, EMPTY, START, text, 0)
  {
    hide Run;
    assert done + [] == done;
  }

  // Read one line into the buffer and drop what does not fit.
  method NextLine(r: Reader, buf: array<char>) returns (ok: bool, offset: nat, lost: bool, before: bool)
    requires r.Valid() && buf.Length == LINE + 1
    modifies r, buf
    ensures r.Valid() && (ok <==> old(r.Rest()) != "")
    ensures before <==> ok && Overlong(old(r.Rest())) && !Discardable(old(r.Rest())[LINE..])
    ensures ok && !before ==>
                   && r.Rest() == After(old(r.Rest())) && offset == |Line(old(r.Rest()))|
                   && Holds(buf[..], 0, Line(old(r.Rest())))
                   && (lost <==> Overlong(old(r.Rest())) && LINE < |old(r.Rest())|)
  {
    hide Chunk, CString, Discarded, Discardable, After, Overlong, Line;
    ghost var rest, start := r.Rest(), r.pos;
    offset, lost, before := 0, false, false;
    ok := r.Read(buf, LINE + 1);
    if ok {
      ghost var k := Chunk(rest, LINE);
      assert r.text[start..r.pos] == rest[..k] && r.Rest() == rest[k..];
      LineFacts(rest);
      ghost var line := Line(rest);
      offset := StrLen(buf, line);
      assert offset > 0 ==> buf[offset - 1] == buf[..][0..offset][offset - 1] == line[offset - 1];
      if offset == LINE && buf[offset - 1] != '\n' {
        lost, before := Discard(r);
      }
    }
  }

  // The parser: read, parse and handle line after line, to the end of the text
  // or until it would look before the buffer, which happens exactly in the texts
  // that are not readable.
  method ParseStream(r: Reader, cfg: Config) returns (error: nat, before: bool)
    requires r.Valid() && r.pos == 0 && cfg.Content() == EMPTY
    modifies r, cfg
    ensures before <==> !Readable(r.text)
    ensures !before ==> error == FirstError(cfg.strict, EMPTY, START, r.text, 0)
    ensures !before ==> cfg.Content() == Run(cfg.strict, Calls(START, r.text)).0
  {
    hide Parsing, Line, ParseLine, After, HandleAny, CallFor, Moved, Overlong, FirstError, Run, Calls, Readable, Discardable;
    var line := new char[LINE + 1];
    var section, prev, lineno := "", "", 0;
    error, before := 0, false;
    ghost var done := [];
    ParsingStarts(cfg.strict, r.text);
    assert r.Rest() == r.text;
    while true
      invariant r.Valid() && (Readable(r.Rest()) <==> Readable(r.text)) && line.Length == LINE + 1
      invariant Parsing(cfg.strict, r.text, cfg.Content(), State(section, prev, lineno == 0), r.Rest(), lineno, error, done)
      decreases |r.Rest()|
    {
      ghost var rest, st := r.Rest(), State(section, prev, lineno == 0);
      ReadableOn(rest);
      var ok, offset, lost;
      ok, offset, lost, before := NextLine(r, line);
      if !ok {
        break;
      }
      if before {
        return;
      }
      done := ParsingLine(cfg.strict, r.text, cfg.Content(), st, rest, lineno, error, done);
      lineno := lineno + 1;
      if lost && error == 0 {
        error := lineno;
      }
      var p := LineIn(line, offset, lineno == 1, prev != "", Line(rest));
      var failed;
      section, prev, failed := Act(p, cfg, section, prev, st.first);
      if failed && error == 0 {
        error := lineno;
      }
    }
    ParsingEnds(cfg.strict, r.text, cfg.Content(), State(section, prev, lineno == 0), lineno, error, done);
  }

  // Load a configuration.  If the text is readable, it succeeds exactly when
  // every line parses and, in strict mode, the calls have no empty part, no key
  // twice and no section entered twice; a lookup then gives the first value seen
  // for a key.
  method Load(text: string, strict: bool) returns (r: Option<Config>, before: bool)
    ensures before <==> !Readable(text)
    ensures r.Some? ==> !before && fresh(r.value) && r.value.strict == strict
    ensures !before ==> (r.Some? <==> Clean(START, text) && (strict ==> Proper(Calls(START, text))))
    ensures r.Some? ==> r.value.Content() == Run(strict, Calls(START, text)).0
    ensures r.Some? ==> forall key :: Lookup(r.value.Content(), key) == FirstValue(Calls(START, text), key)
    ensures r.Some? ==> ByName(r.value.Content(), Calls(START, text))
  {
    hide FirstError, Run, Calls, Clean, Proper, Lookup, ByName;
    var cfg := new Config(strict);
    var reader := new Reader(text);
    var error;
    error, before := ParseStream(reader, cfg);
    LoadSucceeds(strict, text);
    if before || error != 0 {
      return None, before;
    }
    AllCallsSucceed(strict, Calls(START, text));
    forall key ensures Lookup(cfg.Content(), key) == FirstValue(Calls(START, text), key) {
      LookupFirst(strict, Calls(START, text), key);
    }
    RunByName(strict, Calls(START, text));
    r := Some(cfg);
  }

  lemma RunByName(strict: bool, calls: seq<Call>)
    requires Run(strict, calls).1
    ensures ByName(Run(strict, calls).0, calls)
  {
    hide Run, Lookup, FullKey, FirstOf, NoClash, PlainCalls, Plain;
    forall section, name | Tellable(calls, section, name)
      ensures Lookup(Run(strict, calls).0, FullKey(section, name)) == FirstOf(calls, section, name)
    {
      if PlainCalls(calls) && Plain(section) { PlainIsNoClash(calls, section, name); }
      LookupByName(strict, calls, section, name);
    }
  }

  lemma AllCallsSucceed(strict: bool, calls: seq<Call>)
    requires strict ==> Proper(calls)
    ensures Run(strict, calls).1
  {
    hide Run;
    if strict {
      StrictAcceptsProper(calls);
    } else {
      LenientAcceptsAll(calls);
    }
  }
}

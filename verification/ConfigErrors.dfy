// Which line a failed load reports: the first one that does not parse, lost
// some of its characters, or gave a call that the handler refused.
module ConfigErrors {
  import opened Options
  import opened IniParser
  import opened IniReading
  import opened ConfigModel
  import opened ConfigLoad

  // Line k is wrong, or the handler refused a call by the end of it.
  ghost predicate FailsAt(strict: bool, text: string, k: nat) {
    RestAt(text, k) != "" &&
    (|| LineAt(text, k) == Bad
     || (Overlong(RestAt(text, k)) && 199 < |RestAt(text, k)|)
     || !Run(strict, Gathered(Upto(text, k + 1))).1)
  }

  lemma {:induction false} EndStays(text: string, k: nat, j: nat)
    requires RestAt(text, k) == "" && k <= j
    ensures RestAt(text, j) == ""
    decreases j
  {
    hide After;
    if k < j {
      EndStays(text, k, j - 1);
      NoneAfterNone();
    }
  }

  // One line of FirstError.
  lemma ErrorStep(strict: bool, text: string, k: nat)
    requires RestAt(text, k) != "" && Run(strict, Gathered(Upto(text, k))).1
    ensures var s, st := Run(strict, Gathered(Upto(text, k))).0, StateOf(Upto(text, k));
            FirstError(strict, s, st, RestAt(text, k), k) ==
            if FailsAt(strict, text, k) then k + 1
            else FirstError(strict, Run(strict, Gathered(Upto(text, k + 1))).0, StateOf(Upto(text, k + 1)),
                            RestAt(text, k + 1), k + 1)
  {
    hide Run, Handle, Gathered, StateOf, Line, After, ParseLine, Moved, CallFor, LastName, LastSection, Overlong, LineAt;
    var ps, p, rest := Upto(text, k), LineAt(text, k), RestAt(text, k);
    var st := StateOf(ps);
    ReadsUpto(text, k);
    LineIs(text, k);
    OneMore(ps, p);
    match CallFor(st, p)
    case None => assert Gathered(ps) + [] == Gathered(ps);
    case Some(c) => RunOneMore(strict, Gathered(ps), c);
  }

  lemma LineIs(text: string, k: nat)
    requires RestAt(text, k) != "" ==> (Upto(text, k) == [] <==> k == 0)
    ensures var st := StateOf(Upto(text, k));
            RestAt(text, k) != "" ==> LineAt(text, k) == ParseLine(Line(RestAt(text, k)), st.first, st.prev != "")
  {
    hide ParseLine, Line, RestAt, Upto;
  }

  lemma {:induction false} ErrorFrom(strict: bool, text: string, k: nat)
    requires Run(strict, Gathered(Upto(text, k))).1
    ensures var e := FirstError(strict, Run(strict, Gathered(Upto(text, k))).0, StateOf(Upto(text, k)), RestAt(text, k), k);
            && (e == 0 ==> forall j: nat | k <= j :: !FailsAt(strict, text, j))
            && (e > 0 ==> k < e && FailsAt(strict, text, e - 1) && forall j | k <= j < e - 1 :: !FailsAt(strict, text, j))
    decreases |RestAt(text, k)|
  {
    hide Run, Gathered, StateOf, After, Upto, LineAt, Overlong, Wrong, HandleAny, CallOf, Next, Line;
    if RestAt(text, k) == "" {
      forall j: nat | k <= j ensures !FailsAt(strict, text, j) { EndStays(text, k, j); }
    } else {
      ErrorStep(strict, text, k);
      if !FailsAt(strict, text, k) {
        AfterShorter(RestAt(text, k));
        ErrorFrom(strict, text, k + 1);
      }
    }
  }

  // The line reported is the first that fails, and none is reported only if none
  // does.
  lemma ErrorIsFirst(strict: bool, text: string)
    ensures var e := FirstError(strict, EMPTY, START, text, 0);
            && (e == 0 <==> forall k: nat :: !FailsAt(strict, text, k))
            && (e > 0 ==> FailsAt(strict, text, e - 1) && forall k | 0 <= k < e - 1 :: !FailsAt(strict, text, k))
  {
    hide FailsAt, FirstError, Handle;
    assert Upto(text, 0) == [] && Gathered([]) == [] && Run(strict, []) == (EMPTY, true);
    ErrorFrom(strict, text, 0);
  }
}

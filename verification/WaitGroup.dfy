// The wait group: an atomic count, a mutex and a condition variable, used by
// any number of threads whose steps interleave arbitrarily.  The decrement in
// wg_done happens outside the mutex, so the absence of lost wake-ups rests on
// the order of its remaining steps.
module WaitGroup {
  import opened Options

  // Where a thread is inside a call.  `goal` is the number of units that had
  // been added when the wait began; the code does not use it.
  datatype Pc =
    | Idle
    | DoneLock                  // has taken the count to 0, wants the mutex
    | DoneBroadcast
    | DoneUnlock
    | WaitLoad(goal: nat)
    | WaitLock(goal: nat)
    | WaitCheck(goal: nat)
    | WaitSleep(goal: nat)      // has seen a positive count, about to wait
    | Asleep(goal: nat)         // blocked on the condition variable
    | Relock(goal: nat)         // woken, wants the mutex back
    | WaitUnlock(goal: nat)
  {
    predicate Holding() {
      DoneBroadcast? || DoneUnlock? || WaitCheck? || WaitSleep? || WaitUnlock?
    }

    predicate Sleeping() { WaitSleep? || Asleep? }

    predicate Notifying() { DoneLock? || DoneBroadcast? }

    predicate Waiting() {
      WaitLoad? || WaitLock? || WaitCheck? || WaitSleep? || Asleep? || Relock? || WaitUnlock?
    }
  }

  // `added` and `finished` count the units of all calls so far.
  datatype State = State(count: int, owner: Option<nat>, pcs: seq<Pc>, added: nat, finished: nat) {
    function At(t: nat, pc: Pc): State
      requires t < |pcs|
    {
      this.(pcs := pcs[t := pc])
    }
  }

  datatype Action =
    | Add(n: nat)   // wg_add: one atomic addition
    | Done          // wg_done up to its atomic subtraction
    | Wait          // wg_wait is called
    | Go            // a call in progress takes its next step
    | Wake          // a spurious wake-up, which POSIX allows

  datatype Choice = Choice(tid: nat, action: Action)

  function WakeAll(pcs: seq<Pc>): (r: seq<Pc>)
    ensures |r| == |pcs|
    ensures forall t | 0 <= t < |pcs| :: r[t] == if pcs[t].Asleep? then Relock(pcs[t].goal) else pcs[t]
  {
    seq(|pcs|, t requires 0 <= t < |pcs| => if pcs[t].Asleep? then Relock(pcs[t].goal) else pcs[t])
  }

  // One scheduling decision.  A thread that wants a taken mutex stays put.
  function Step(s: State, c: Choice): (s': State)
    requires c.tid < |s.pcs|
    ensures |s'.pcs| == |s.pcs|
  {
    var t := c.tid;
    match c.action
    case Add(n) => if s.pcs[t].Idle? then s.(count := s.count + n, added := s.added + n) else s
    case Done =>
      if !s.pcs[t].Idle? then s
      else s.(count := s.count - 1, finished := s.finished + 1)
            .At(t, if s.count == 1 then DoneLock else Idle)
    case Wait => if s.pcs[t].Idle? then s.At(t, WaitLoad(s.added)) else s
    case Wake => if s.pcs[t].Asleep? then s.At(t, Relock(s.pcs[t].goal)) else s
    case Go =>
      match s.pcs[t]
      case Idle => s
      case DoneLock => if s.owner.None? then s.(owner := Some(t)).At(t, DoneBroadcast) else s
      case DoneBroadcast => s.(pcs := WakeAll(s.pcs)).At(t, DoneUnlock)
      case DoneUnlock => s.(owner := None).At(t, Idle)
      case WaitLoad(g) => s.At(t, if s.count == 0 then Idle else WaitLock(g))
      case WaitLock(g) => if s.owner.None? then s.(owner := Some(t)).At(t, WaitCheck(g)) else s
      case WaitCheck(g) => s.At(t, if s.count > 0 then WaitSleep(g) else WaitUnlock(g))
      // releasing the mutex and blocking are one step (pthread_cond_wait, POSIX.1-2017)
      case WaitSleep(g) => s.(owner := None).At(t, Asleep(g))
      case Asleep(_) => s
      case Relock(g) => if s.owner.None? then s.(owner := Some(t)).At(t, WaitCheck(g)) else s
      case WaitUnlock(g) => s.(owner := None).At(t, Idle)
  }

  function Start(threads: nat): State {
    State(0, None, seq(threads, _ => Idle), 0, 0)
  }

  predicate Schedulable(choices: seq<Choice>, threads: nat) {
    forall i | 0 <= i < |choices| :: choices[i].tid < threads
  }

  function Run(s: State, choices: seq<Choice>): (s': State)
    requires Schedulable(choices, |s.pcs|)
    ensures |s'.pcs| == |s.pcs|
  {
    if choices == [] then s
    else Step(Run(s, choices[..|choices| - 1]), choices[|choices| - 1])
  }

  // ------------------------------------------------------------ the schedule

  // The units that the calls of a schedule have added and done.  A thread makes
  // a call when it is in none.
  function Units(s: State, choices: seq<Choice>): nat
    requires Schedulable(choices, |s.pcs|)
  {
    if choices == [] then 0
    else
      var before, c := choices[..|choices| - 1], choices[|choices| - 1];
      Units(s, before) + if c.action.Add? && Run(s, before).pcs[c.tid].Idle? then c.action.n else 0
  }

  function Dones(s: State, choices: seq<Choice>): nat
    requires Schedulable(choices, |s.pcs|)
  {
    if choices == [] then 0
    else
      var before, c := choices[..|choices| - 1], choices[|choices| - 1];
      Dones(s, before) + if c.action.Done? && Run(s, before).pcs[c.tid].Idle? then 1 else 0
  }

  // The count is the difference of the two, and the bookkeeping is right.
  lemma {:induction false} CountIs(threads: nat, choices: seq<Choice>)
    requires Schedulable(choices, threads)
    ensures var s := Run(Start(threads), choices);
            && s.count == Units(Start(threads), choices) - Dones(Start(threads), choices)
            && s.added == Units(Start(threads), choices) && s.finished == Dones(Start(threads), choices)
  {
    hide Step;
    if choices != [] {
      CountIs(threads, choices[..|choices| - 1]);
      StepCounts(Run(Start(threads), choices[..|choices| - 1]), choices[|choices| - 1]);
    }
  }

  // What a step adds to the count: the units of an Add, less one for a Done.
  lemma StepCounts(s: State, c: Choice)
    requires c.tid < |s.pcs|
    ensures var s' := Step(s, c);
            var up, down := if c.action.Add? && s.pcs[c.tid].Idle? then c.action.n else 0,
                            if c.action.Done? && s.pcs[c.tid].Idle? then 1 else 0;
            s'.count == s.count + up - down && s'.added == s.added + up && s'.finished == s.finished + down
  {
  }

  // The callers' side of the contract: at no time more dones than adds.
  ghost predicate Balanced(s: State, choices: seq<Choice>)
    requires Schedulable(choices, |s.pcs|)
  {
    forall i | 0 <= i <= |choices| :: Dones(s, choices[..i]) <= Units(s, choices[..i])
  }

  // --------------------------------------------------------------- invariant

  ghost predicate MutexOk(s: State) {
    && (s.owner.Some? ==> s.owner.value < |s.pcs| && s.pcs[s.owner.value].Holding())
    && forall t: nat {:trigger s.pcs[t]} | t < |s.pcs| && s.pcs[t].Holding() :: s.owner == Some(t)
  }

  // No lost wake-up: while the count is 0, a thread asleep or committed to
  // sleep has a wg_done that is still going to broadcast.
  ghost predicate NoLostWakeup(s: State) {
    s.count == 0 && (exists t: nat | t < |s.pcs| :: s.pcs[t].Sleeping()) ==>
      exists u: nat | u < |s.pcs| :: s.pcs[u].Notifying()
  }

  ghost predicate GoalOk(s: State, pc: Pc) {
    && (pc.Waiting() ==> pc.goal <= s.added)
    && (pc.WaitUnlock? ==> pc.goal <= s.finished)
  }

  ghost predicate Inv(s: State) {
    && s.count == s.added - s.finished >= 0
    && MutexOk(s)
    && NoLostWakeup(s)
    && forall t: nat {:trigger s.pcs[t]} | t < |s.pcs| :: GoalOk(s, s.pcs[t])
  }

  lemma StepKeepsMutex(s: State, c: Choice)
    requires MutexOk(s) && c.tid < |s.pcs|
    ensures MutexOk(Step(s, c))
  {
  }

  lemma StepKeepsWakeup(s: State, c: Choice)
    requires Inv(s) && c.tid < |s.pcs| && Step(s, c).count >= 0
    ensures NoLostWakeup(Step(s, c))
  {
    var s', t := Step(s, c), c.tid;
    if s'.count == 0 && exists v: nat | v < |s'.pcs| :: s'.pcs[v].Sleeping() {
      var v: nat :| v < |s'.pcs| && s'.pcs[v].Sleeping();
      if s.count != 0 {
        // this step took the count to 0
        assert s'.pcs[t].Notifying();
      } else {
        assert s.pcs[v].Sleeping();
        var u: nat :| u < |s.pcs| && s.pcs[u].Notifying();
        // the broadcast wakes every sleeper, and nobody is committed to sleep
        // while the broadcaster holds the mutex
        assert s'.pcs[u].Notifying() || s'.pcs[t].Notifying();
      }
    }
  }

  lemma StepKeepsInv(s: State, c: Choice)
    requires Inv(s) && c.tid < |s.pcs| && Step(s, c).finished <= Step(s, c).added
    ensures Inv(Step(s, c))
  {
    StepKeepsMutex(s, c);
    StepKeepsWakeup(s, c);
    hide MutexOk, NoLostWakeup;
  }

  // The invariant, and with it the absence of lost wake-ups, holds after every
  // run of any number of threads.
  lemma {:induction false} RunKeepsInv(threads: nat, choices: seq<Choice>)
    requires Schedulable(choices, threads) && Balanced(Start(threads), choices)
    ensures Inv(Run(Start(threads), choices))
  {
    if choices != [] {
      var n := |choices| - 1;
      BalancedBefore(Start(threads), choices);
      RunKeepsInv(threads, choices[..n]);
      assert choices[..|choices|] == choices;
      CountIs(threads, choices);
      StepKeepsInv(Run(Start(threads), choices[..n]), choices[n]);
    }
  }

  // A wait leaves its loop, or skips it, exactly at a moment when every unit
  // added so far is done.
  lemma LeavesAtZero(threads: nat, choices: seq<Choice>, t: nat)
    requires Schedulable(choices, threads) && Balanced(Start(threads), choices) && t < threads
    requires var pc := Run(Start(threads), choices).pcs[t]; pc.WaitLoad? || pc.WaitCheck?
    ensures var pc := Step(Run(Start(threads), choices), Choice(t, Go)).pcs[t];
            pc.Idle? || pc.WaitUnlock? <==> Dones(Start(threads), choices) == Units(Start(threads), choices)
  {
    hide Run, Units, Dones, Balanced, MutexOk, NoLostWakeup;
    RunKeepsInv(threads, choices);
    CountIs(threads, choices);
  }

  // Thread t is in a wait that began when `goal` units had been added, or those
  // units are done.
  ghost predicate WaitsOrDone(s: State, t: nat, goal: nat)
    requires t < |s.pcs|
  {
    goal <= s.finished || (s.pcs[t].Waiting() && s.pcs[t].goal == goal)
  }

  lemma StepWaitsOrDone(s: State, c: Choice, t: nat, goal: nat)
    requires Inv(s) && c.tid < |s.pcs| && t < |s.pcs| && WaitsOrDone(s, t, goal)
    ensures WaitsOrDone(Step(s, c), t, goal)
  {
    assert GoalOk(s, s.pcs[t]);
  }

  lemma WaitBegins(s: State, t: nat)
    requires t < |s.pcs| && s.pcs[t].Idle?
    ensures WaitsOrDone(Step(s, Choice(t, Wait)), t, s.added)
  {
  }

  lemma {:induction false} WaitingOn(threads: nat, choices: seq<Choice>, i: nat, t: nat)
    requires Schedulable(choices, threads) && Balanced(Start(threads), choices) && i < |choices| && t < threads
    requires choices[i] == Choice(t, Wait) && Run(Start(threads), choices[..i]).pcs[t].Idle?
    ensures WaitsOrDone(Run(Start(threads), choices), t, Units(Start(threads), choices[..i]))
    decreases |choices|
  {
    hide Step, Balanced, Units, Dones, Inv, WaitsOrDone;
    var s, n := Start(threads), |choices| - 1;
    if i == n {
      CountIs(threads, choices[..n]);
      WaitBegins(Run(s, choices[..n]), t);
    } else {
      BalancedBefore(s, choices);
      assert choices[..n][..i] == choices[..i];
      WaitingOn(threads, choices[..n], i, t);
      RunKeepsInv(threads, choices[..n]);
      StepWaitsOrDone(Run(s, choices[..n]), choices[n], t, Units(s, choices[..i]));
    }
  }

  lemma BalancedBefore(s: State, choices: seq<Choice>)
    requires Schedulable(choices, |s.pcs|) && Balanced(s, choices) && choices != []
    ensures Balanced(s, choices[..|choices| - 1])
  {
    var n := |choices| - 1;
    forall i | 0 <= i <= n ensures Dones(s, choices[..n][..i]) <= Units(s, choices[..n][..i]) {
      assert choices[..n][..i] == choices[..i];
    }
  }

  // Whenever a thread that has called wg_wait is out of the call again, as many
  // units are done as had been added before it called.
  lemma WaitReturns(threads: nat, choices: seq<Choice>, i: nat, t: nat)
    requires Schedulable(choices, threads) && Balanced(Start(threads), choices) && i < |choices| && t < threads
    requires choices[i] == Choice(t, Wait) && Run(Start(threads), choices[..i]).pcs[t].Idle?
    requires Run(Start(threads), choices).pcs[t].Idle?
    ensures Units(Start(threads), choices[..i]) <= Dones(Start(threads), choices)
  {
    hide Run, Units, Dones, Balanced, Start;
    WaitingOn(threads, choices, i, t);
    CountIs(threads, choices);
  }

  // ---------------------------------------------------------------- progress

  // Steps left for a thread once the count stays 0.
  function Rank(pc: Pc): nat {
    match pc
    case Idle => 0
    case DoneUnlock => 1
    case WaitUnlock(_) => 1
    case DoneBroadcast => 2
    case WaitCheck(_) => 2
    case DoneLock => 3
    case WaitLock(_) => 3
    case Relock(_) => 3
    case Asleep(_) => 4
    case WaitSleep(_) => 5
    case WaitLoad(_) => 6
  }

  function Measure(pcs: seq<Pc>): nat {
    if pcs == [] then 0 else Measure(pcs[..|pcs| - 1]) + Rank(pcs[|pcs| - 1])
  }

  lemma {:induction false} MeasureUpdate(pcs: seq<Pc>, t: nat, pc: Pc)
    requires t < |pcs|
    ensures Measure(pcs[t := pc]) == Measure(pcs) - Rank(pcs[t]) + Rank(pc)
  {
    var n := |pcs| - 1;
    if t < n {
      assert pcs[t := pc][..n] == pcs[..n][t := pc];
      MeasureUpdate(pcs[..n], t, pc);
    } else {
      assert pcs[t := pc][..n] == pcs[..n];
    }
  }

  lemma {:induction false} MeasureWakeAll(pcs: seq<Pc>)
    ensures Measure(WakeAll(pcs)) <= Measure(pcs)
  {
    if pcs != [] {
      var n := |pcs| - 1;
      assert WakeAll(pcs)[..n] == WakeAll(pcs[..n]);
      MeasureWakeAll(pcs[..n]);
    }
  }

  ghost predicate Quiet(c: Choice) {
    c.action.Go? || c.action.Wake?
  }

  // Once the count is 0 and no call is made, every step that changes anything
  // brings some call closer to its return, spurious wake-ups included.
  lemma QuietStepDecreases(s: State, c: Choice)
    requires Inv(s) && s.count == 0 && c.tid < |s.pcs| && Quiet(c) && Step(s, c) != s
    ensures Step(s, c).count == 0
    ensures Measure(Step(s, c).pcs) < Measure(s.pcs)
  {
    hide Inv, Measure;
    var s', t := Step(s, c), c.tid;
    MeasureUpdate(s.pcs, t, s'.pcs[t]);
    if s.pcs[t].DoneBroadcast? && c.action.Go? {
      MeasureWakeAll(s.pcs);
      MeasureUpdate(WakeAll(s.pcs), t, DoneUnlock);
    }
  }

  // And while some call has not returned, some thread can take such a step,
  // without counting on spurious wake-ups.
  lemma QuietNotStuck(s: State)
    requires Inv(s) && s.count == 0
    requires exists t: nat | t < |s.pcs| :: !s.pcs[t].Idle?
    ensures exists u: nat | u < |s.pcs| :: Step(s, Choice(u, Go)) != s
  {
    var t: nat :| t < |s.pcs| && !s.pcs[t].Idle?;
    var u := t;
    if s.owner.Some? {
      u := s.owner.value;
    } else if s.pcs[t].Asleep? {
      assert s.pcs[t].Sleeping();
      u :| 0 <= u < |s.pcs| && s.pcs[u].Notifying();
    }
    assert Step(s, Choice(u, Go)).pcs[u] != s.pcs[u];
  }

  // Every step of the schedule is quiet and changes something.
  ghost predicate Effective(s: State, choices: seq<Choice>)
    requires Schedulable(choices, |s.pcs|)
  {
    forall i | 0 <= i < |choices| ::
      Quiet(choices[i]) && Step(Run(s, choices[..i]), choices[i]) != Run(s, choices[..i])
  }

  // So from any state with count 0 every such schedule is finite, and one that
  // cannot be continued leaves every waiter, and every wg_done, returned.
  lemma {:induction false} AllWaitersReturn(s: State, choices: seq<Choice>)
    requires Inv(s) && s.count == 0 && Schedulable(choices, |s.pcs|) && Effective(s, choices)
    ensures |choices| + Measure(Run(s, choices).pcs) <= Measure(s.pcs)
    ensures Inv(Run(s, choices)) && Run(s, choices).count == 0
    ensures (forall u: nat | u < |s.pcs| :: Step(Run(s, choices), Choice(u, Go)) == Run(s, choices)) ==>
              forall t: nat | t < |s.pcs| :: Run(s, choices).pcs[t].Idle?
  {
    var s' := Run(s, choices);
    if choices != [] {
      var n := |choices| - 1;
      forall i | 0 <= i < n ensures choices[..n][i] == choices[i] && choices[..n][..i] == choices[..i] {
      }
      AllWaitersReturn(s, choices[..n]);
      var before := Run(s, choices[..n]);
      QuietStepDecreases(before, choices[n]);
      StepKeepsInv(before, choices[n]) by { QuietKeepsCounts(before, choices[n]); }
    }
    if exists t: nat | t < |s'.pcs| :: !s'.pcs[t].Idle? {
      QuietNotStuck(s');
    }
  }

  lemma QuietKeepsCounts(s: State, c: Choice)
    requires c.tid < |s.pcs| && Quiet(c)
    ensures Step(s, c).added == s.added && Step(s, c).finished == s.finished
  {
  }
}

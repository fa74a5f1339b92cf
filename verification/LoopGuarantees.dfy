/**
 * What start() guarantees of every run, for a loop that is not running:
 * whatever the callbacks return and call, whatever the polls report, however
 * the clock goes.
 */
module LoopGuarantees {
  import opened PollTypes
  import opened TimerList
  import opened LoopMachine
  import opened LoopCoupling
  import opened LoopRuns
  import opened LoopRemovals
  import opened LoopTimers
  import opened LoopPasses
  import opened LoopDue
  import opened LoopDispatch
  import opened LoopCalls
  import opened LoopIterations

  // ---- Every timer pass and every dispatch of a run ----

  /** The n-th step of the run begins a timer pass. */
  ghost predicate PassBegins(s: State, n: nat) {
    Steps(s, n).control.AtHead? && Steps(s, n + 1).control.InTimers?
  }

  /** The callbacks of the timers that are due leave the timers alone and do
      not stop the loop. */
  ghost predicate QuietToTheEnd(t: State)
    requires t.control.InTimers?
  {
    var n := DueCount(t.timers, t.control.now);
    n <= |t.script| && forall k | 0 <= k < n :: QuietReaction(t.script[k])
  }

  /** The n-th callback is the first that stops the loop, and none so far has
      touched the timers. */
  ghost predicate QuietToTheStop(t: State, n: nat)
    requires t.control.InTimers?
  {
    && 0 < n <= DueCount(t.timers, t.control.now) && n <= |t.script|
    && (forall k | 0 <= k < n - 1 :: QuietReaction(t.script[k])) && QuietRefusal(t.script[n - 1])
  }

  /** What a timer pass promises: when it settles, all that were due have fired
      or been reset exactly when no own reset has stranded one; nothing fires
      after an own reset; no timer that is added in it fires; and if callbacks
      leave the timers alone, the firings and the list at the end are known. */
  ghost predicate PassIsSound(t: State)
    requires t.control.InTimers?
  {
    var r := TimerPass(t);
    && (r.control.TimersDone? ==> (AllDueServed(t, r.log) <==> !OwnResetStrands(t, r.log)))
    && OwnResetsAreLast(r.log, |t.log|)
    && (forall k: nat | |t.log| <= k < |r.log| && r.log[k].Fired? :: r.log[k].timer < t.nextId)
    && (QuietToTheEnd(t) ==> DueFiredOnce(t, r))
    && (forall n: nat | QuietToTheStop(t, n) :: StoppedQuietly(t, r, [], t.timers, n))
  }

  /** What a dispatch promises: the ready handlers are called in order, all of
      them unless one stops it. */
  ghost predicate DispatchIsSound(t: State) {
    var r := ItemPass(t);
    var ready := ReadyHandlers(t.items, t.table);
    && HandlersCalled(r.log) <= HandlersCalled(t.log) + ready
    && (r.control.ItemsDone? ==> HandlersCalled(r.log) == HandlersCalled(t.log) + ready)
  }

  ghost predicate KeptInOrder(s: State, from: nat) {
    InOrder(s, from) && Coupled(s)
  }

  lemma StepKeepsOrder(s: State, from: nat)
    requires KeptInOrder(s, from)
    ensures KeptInOrder(Step(s), from)
  {
    StepInOrder(s, from);
    StepCoupled(s);
  }

  lemma StepsInOrder(s: State, n: nat, from: nat)
    requires KeptInOrder(s, from)
    ensures KeptInOrder(Steps(s, n), from)
  {
    forall t | KeptInOrder(t, from) ensures KeptInOrder(Step(t), from) {
      StepKeepsOrder(t, from);
    }
    IteratedKeeps(Step, t => KeptInOrder(t, from), s, n);
  }

  lemma FirstHeadInOrder(s: State)
    requires Coupled(s) && s.control.AtHead?
    ensures KeptInOrder(Step(s), |Step(s).log|)
  {
    StepCoupled(s);
  }

  lemma LaterStepsInOrder(s: State, n: nat, from: nat)
    requires n > 0 && KeptInOrder(Step(s), from)
    ensures KeptInOrder(Steps(s, n), from)
  {
    forall t | KeptInOrder(t, from) ensures KeptInOrder(Step(t), from) {
      StepKeepsOrder(t, from);
    }
    IteratedKeepsLater(Step, t => KeptInOrder(t, from), s, n);
  }

  lemma SortedAtLaterHead(s: State, n: nat, t: State)
    requires Coupled(s) && s.control.AtHead? && n > 0 && t == Steps(s, n) && t.control.AtHead?
    ensures Sorted(t.timers)
  {
    FirstHeadInOrder(s);
    LaterStepsInOrder(s, n, |Step(s).log|);
  }

  /** At the head of an iteration, after the n-th step `t`, the list is sorted,
      in the first one if it was so at the beginning of the run. */
  lemma SortedAtHeads(s: State, n: nat, t: State)
    requires Coupled(s) && s.control.AtHead? && s.log == [] && (Sorted(s.timers) || n > 0)
    requires t == Steps(s, n) && t.control.AtHead?
    ensures Sorted(t.timers)
  {
    if n > 0 {
      SortedAtLaterHead(s, n, t);
    }
  }

  lemma SortedAtHead(h: State, n: nat, from: nat, t: State)
    requires KeptInOrder(h, from) && t == Steps(h, n) && t.control.AtHead?
    ensures Sorted(t.timers)
  {
    StepsInOrder(h, n, from);
  }

  lemma HeadEntersPass(s: State)
    requires s.control.AtHead? && s.rounds != [] && Sorted(s.timers) && Head(s).control.InTimers?
    ensures var t := Head(s);
            t.control.position == 0 && t.control.now == t.clock && Sorted(t.timers)
  {
    WithoutTimersKeepsOrder(s.timers, PendingTimers(s));
  }

  lemma PassFromHead(s: State)
    requires Coupled(s) && s.control.AtHead? && Sorted(s.timers) && Step(s).control.InTimers?
    ensures PassIsSound(Step(s))
  {
    StepCoupled(s);
    HeadEntersPass(s);
    PassSound(Head(s));
  }

  lemma PassSound(t: State)
    requires Coupled(t) && t.control.InTimers? && t.control.position == 0
    requires t.control.now == t.clock && Sorted(t.timers)
    ensures PassIsSound(t)
  {
    if TimerPass(t).control.TimersDone? {
      DueServedIff(t);
    }
    OwnResetEndsPass(t);
    NewTimersWait(t, |t.log|, t.nextId, t.control.now);
    if QuietToTheEnd(t) {
      QuietPass(t);
    }
    forall n: nat | QuietToTheStop(t, n) ensures StoppedQuietly(t, TimerPass(t), [], t.timers, n) {
      StoppedPassLeaves(t, n);
    }
  }

  /** Every timer pass of a run keeps its promises, the first one if the run
      began with a sorted list. */
  lemma EveryPassIsSound(s: State, n: nat)
    requires Coupled(s) && s.control.AtHead? && s.log == [] && (Sorted(s.timers) || n > 0)
    requires PassBegins(s, n)
    ensures PassIsSound(Steps(s, n + 1))
  {
    SortedAtHeads(s, n, Steps(s, n));
    StepsCoupled(s, n);
    PassFromHead(Steps(s, n));
  }

  lemma EveryDispatchIsSound(s: State, n: nat)
    requires Coupled(s) && Steps(s, n).control == InItems(0)
    ensures DispatchIsSound(Steps(s, n))
  {
    StepsCoupled(s, n);
    DispatchInOrder(Steps(s, n));
  }

  /** The state `r` is one that the run comes to after its n-th step. */
  ghost predicate ReachedFrom(s: State, n: nat, r: State) {
    exists m: nat :: n <= m && Steps(s, m) == r
  }

  lemma FurtherSteps(s: State, n: nat, k: nat, t: State, r: State)
    requires t == Steps(s, n) && r == Steps(t, k)
    ensures ReachedFrom(s, n, r)
  {
    IteratedTwice(Step, s, n, k);
    assert Steps(s, n + k) == r;
  }

  /** A pass or dispatch that is entered ends in a later state of the run. */
  lemma PhaseEndsInRun(s: State, n: nat, t: State)
    requires t == Steps(s, n)
    ensures ReachedFrom(s, n, TimerPass(t)) && ReachedFrom(s, n, ItemPass(t))
  {
    var k := TimerPassIsSteps(t);
    FurtherSteps(s, n, k, t, TimerPass(t));
    var j := ItemPassIsSteps(t);
    FurtherSteps(s, n, j, t, ItemPass(t));
  }

  // ---- Every iteration of a run ----

  /** The iteration that begins where the n-th step ends does what it should, and
      the run goes on where it ends. */
  ghost predicate IterationOfRun(s: State, n: nat)
    requires Steps(s, n).rounds != []
  {
    IterationIsSound(Steps(s, n)) && ReachedFrom(s, n + 1, IterationEnd(Step(Steps(s, n))))
  }

  lemma EveryIterationIsSound(s: State, n: nat)
    requires Coupled(s) && Steps(s, n).control.AtHead? && Steps(s, n).rounds != []
    ensures IterationOfRun(s, n)
  {
    StepsCoupled(s, n);
    IterationSound(Steps(s, n));
    IterationEndsInRun(s, n + 1, Step(Steps(s, n)));
  }

  lemma IterationEndsInRun(s: State, n: nat, t: State)
    requires t == Steps(s, n)
    ensures ReachedFrom(s, n, IterationEnd(t))
  {
    var k := EndIsReached(t);
    FurtherSteps(s, n, k, t, IterationEnd(t));
  }

  /** In every state of a run the callbacks follow the script, and as many rounds
      are used up as polls were made. */
  lemma EveryStepFollows(s: State, n: nat)
    requires Coupled(s) && s.control.AtHead? && s.log == []
    ensures FollowsScript(Steps(s, n), Steps(s, n + 1)) && Accounted(s.rounds, Steps(s, n))
  {
    StepsCoupled(s, n);
    StepFollowsScript(Steps(s, n));
    StepsAccounted(s, n, s.rounds);
  }

  ghost predicate AccountedFor(s: State, rounds: seq<Round>) {
    Accounted(rounds, s) && Coupled(s)
  }

  lemma StepsAccounted(s: State, n: nat, rounds: seq<Round>)
    requires AccountedFor(s, rounds)
    ensures AccountedFor(Steps(s, n), rounds)
  {
    forall t | AccountedFor(t, rounds) ensures AccountedFor(Step(t), rounds) {
      StepAccounted(rounds, t);
      StepCoupled(t);
    }
    IteratedKeeps(Step, t => AccountedFor(t, rounds), s, n);
  }

  // ---- All together ----

  /** A pass keeps its promises, and the run goes on where it ends. */
  ghost predicate PassOfRun(s: State, n: nat) {
    Steps(s, n).control.InTimers? && PassIsSound(Steps(s, n)) && ReachedFrom(s, n, TimerPass(Steps(s, n)))
  }

  ghost predicate DispatchOfRun(s: State, n: nat) {
    DispatchIsSound(Steps(s, n)) && ReachedFrom(s, n, ItemPass(Steps(s, n)))
  }

  /** No timer is left whose removal was asked for. */
  ghost predicate RemovedTimersAreGone(r: State) {
    forall k | 0 <= k < |r.log| && r.log[k].TimerRemovalAsked? :: !HasTimer(r.timers, r.log[k].timer)
  }

  /** What start() guarantees of a run: it ends, and never by a lookup that
      throws; when it returns, nothing is pending; nothing follows a refusal; no
      dispatch is stale; what was removed stays silent; the books of the timers
      balance; polls sleep in time and passes are sound, the first of each if the
      run began with a sorted list; and so are all dispatches; every iteration
      dispatches what its poll has reported, unless the poll set has changed; it
      returns exactly if a callback has returned false; and the handlers left are
      those that the log says. */
  ghost predicate RunIsSound(s: State) {
    var r := Run(s);
    && Halted(r.control) && !r.control.LookupThrew?
    && (r.control.Returned? || r.control.PollThrew? ==> AtRest(r))
    && StopIsFinal(r.log)
    && DispatchIsFresh(r.log)
    && TimersStayRemoved(r.log)
    && ItemsStayRemoved(r.log)
    && (r.control.Returned? ==> RemovedTimersAreGone(r))
    && (forall i | 0 <= i < |r.log| && (Sorted(s.timers) || i > 0) :: SleepsInTime(r.log[i]))
    && (Sorted(s.timers) && r.control.PollThrew? ==> Sorted(r.timers))
    && (forall b | Born(s.timers, r.log, b) ::
          Balanced(b, r.timers, Firings(r.log, b.id), WasReset(r.log, b.id), AskedOut(r.log, b.id)))
    && (forall n: nat | PassBegins(s, n) && (Sorted(s.timers) || n > 0) :: PassOfRun(s, n + 1))
    && (forall n: nat | Steps(s, n).control == InItems(0) :: DispatchOfRun(s, n))
    && (forall n: nat | Steps(s, n).control.AtHead? && Steps(s, n).rounds != [] :: IterationOfRun(s, n))
    && (r.control.Returned? <==> Refused(r.log, 0))
    && r.items == Entries(AllNoted(Registry(s.items, {}), r.log), r.control.Returned?)
    && ReachedFrom(s, 0, r)
  }

  lemma RunLogs(s: State)
    requires AtRest(s) && s.control.AtHead? && s.log == []
    ensures var r := Run(s);
            && Halted(r.control) && !r.control.LookupThrew?
            && (r.control.Returned? || r.control.PollThrew? ==> AtRest(r))
            && StopIsFinal(r.log) && DispatchIsFresh(r.log)
            && TimersStayRemoved(r.log) && ItemsStayRemoved(r.log)
            && (r.control.Returned? ==> RemovedTimersAreGone(r))
  {
    RunHalts(s);
    RunCoupled(s);
    NoCallAfterRefusal(s);
    NoStaleDispatch(s);
    RemovedTimersStaySilent(s);
    RemovedItemsStaySilent(s);
  }

  lemma RunPolls(s: State)
    requires AtRest(s) && s.control.AtHead? && s.log == []
    ensures var r := Run(s);
            && (forall i | 0 <= i < |r.log| && (Sorted(s.timers) || i > 0) :: SleepsInTime(r.log[i]))
            && (Sorted(s.timers) && r.control.PollThrew? ==> Sorted(r.timers))
  {
    if Sorted(s.timers) {
      PollsSleepInTime(s, 0);
      ThrewInOrder(s, 0);
    } else {
      LaterPollsSleepInTime(s);
    }
  }

  /** Every run of a loop that was at rest is sound. */
  lemma RunGuarantees(s: State)
    requires AtRest(s) && s.control.AtHead? && s.log == []
    ensures RunIsSound(s)
  {
    RunLogs(s);
    RunPolls(s);
    TimersConserved(s);
    forall n: nat | PassBegins(s, n) && (Sorted(s.timers) || n > 0) ensures PassOfRun(s, n + 1) {
      EveryPassIsSound(s, n);
      PhaseEndsInRun(s, n + 1, Steps(s, n + 1));
    }
    forall n: nat | Steps(s, n).control == InItems(0) ensures DispatchOfRun(s, n) {
      EveryDispatchIsSound(s, n);
      PhaseEndsInRun(s, n, Steps(s, n));
    }
    forall n: nat | Steps(s, n).control.AtHead? && Steps(s, n).rounds != [] ensures IterationOfRun(s, n) {
      EveryIterationIsSound(s, n);
    }
    RunReturns(s);
    RunEntries(s, Run(s));
    RunIsReached(s);
  }

  lemma RunReturns(s: State)
    requires AtRest(s) && s.control.AtHead? && s.log == []
    ensures Run(s).control.Returned? <==> Refused(Run(s).log, 0)
  {
    BegunAccounted(s);
    RunAccounted(s.rounds, s);
  }

  lemma BegunAccounted(s: State)
    requires s.control.AtHead? && s.log == []
    ensures Accounted(s.rounds, s)
  {
  }

  lemma RunEntries(s: State, r: State)
    requires AtRest(s) && s.control.AtHead? && s.log == [] && r == Run(s)
    ensures r.items == Entries(AllNoted(Registry(s.items, {}), r.log), r.control.Returned?)
  {
    BegunMatches(s);
    RunMatches(Registry(s.items, {}), s);
  }

  lemma BegunMatches(s: State)
    requires AtRest(s) && s.control.AtHead? && s.log == []
    ensures MatchesLog(Registry(s.items, {}), s)
  {
    assert Pending(s) == {};
  }

  lemma RunIsReached(s: State)
    ensures ReachedFrom(s, 0, Run(s))
  {
    var n := RunIsSteps(s);
    assert Steps(s, n) == Run(s);
  }

  // ---- Loops in use ----

  /** Where the i-th operation, a run, begins. */
  ghost function RunBegins(s: State, ops: seq<Operation>, i: nat): State
    requires i < |ops| && ops[i].Start?
  {
    Begun(AllPerformed(s, ops[..i]), ops[i].script, ops[i].rounds)
  }

  /** Whatever was done with a loop before, every run of it is sound. */
  lemma EveryRunIsSound(s: State, ops: seq<Operation>, i: nat)
    requires AtRest(s) && i < |ops| && ops[i].Start?
    requires !AllPerformed(s, ops[..i]).control.CutOff?
    ensures RunIsSound(RunBegins(s, ops, i))
  {
    AllPerformedAtRest(s, ops[..i]);
    RunGuarantees(RunBegins(s, ops, i));
  }

  lemma ServeKeepsSorted(s: State, request: Request)
    requires AtRest(s)
    ensures Sorted(s.timers) ==> Sorted(Serve(s, request, false).timers)
    ensures request.AddTimer? ==> Sorted(Serve(s, request, false).timers)
  {
    match request
    case AddTimer(delay, times, elapsed) => AddedInOrder(s, delay, times, elapsed);
    case ResetTimer(timer, elapsed) =>
      if Sorted(s.timers) {
        ResetInOrder(s, timer, elapsed);
      }
    case RemoveTimer(timer) => WithoutTimersKeepsOrder(s.timers, {timer});
    case _ =>
  }

  /** No run so far has returned: none was stopped by a callback. */
  ghost predicate NoneReturned(s: State, ops: seq<Operation>) {
    forall i | 0 <= i < |ops| && ops[i].Start? :: !AllPerformed(s, ops[..i + 1]).control.Returned?
  }

  /** The list of a loop in use is sorted as long as no run has been stopped, so
      that all its polls sleep in time and all its passes are sound. */
  lemma {:induction false} SortedUntilStopped(s: State, ops: seq<Operation>)
    requires AtRest(s) && Sorted(s.timers) && NoneReturned(s, ops)
    ensures var t := AllPerformed(s, ops);
            t.control.CutOff? || Sorted(t.timers)
  {
    if ops != [] {
      var last, before := |ops| - 1, ops[..|ops| - 1];
      forall i | 0 <= i < |before| && before[i].Start? ensures !AllPerformed(s, before[..i + 1]).control.Returned? {
        assert before[..i + 1] == ops[..i + 1];
      }
      SortedUntilStopped(s, before);
      AllPerformedAtRest(s, before);
      assert ops[..last + 1] == ops;
      PerformedKeepsSorted(AllPerformed(s, before), ops[last]);
    }
  }

  lemma PerformedKeepsSorted(s: State, op: Operation)
    requires s.control.CutOff? || (AtRest(s) && Sorted(s.timers))
    requires op.Start? ==> !Performed(s, op).control.Returned?
    ensures Performed(s, op).control.CutOff? || Sorted(Performed(s, op).timers)
  {
    if !s.control.CutOff? {
      match op
      case Call(request) => ServeKeepsSorted(s, request);
      case Start(script, rounds) =>
        RunLogs(Begun(s, script, rounds));
        RunPolls(Begun(s, script, rounds));
    }
  }
}

/**
 * One iteration of start() as a whole, from one poll to the next: which poll is
 * made, when its results are dispatched, which handlers are then called, and
 * what ends the loop.
 */
module LoopIterations {
  import opened PollTypes
  import opened TimerList
  import opened LoopMachine
  import opened LoopCoupling
  import opened LoopRuns
  import opened LoopDispatch

  // ---- What the log says since the poll ----

  ghost predicate Dispatched(log: seq<Event>, from: nat) {
    exists k :: from <= k < |log| && log[k].DispatchBegan?
  }

  /** A callback has returned false. */
  ghost predicate Refused(log: seq<Event>, from: nat) {
    exists k :: from <= k < |log| && Refuses(log[k])
  }

  /** A poll item was added, or the removal of one asked for, before a dispatch
      began, if one did. */
  ghost predicate PollSetChanged(log: seq<Event>, from: nat) {
    exists k :: from <= k < |log| && ChangesPollSet(log[k]) && forall j | from <= j < k :: !log[j].DispatchBegan?
  }

  lemma DispatchGrows(log: seq<Event>, e: Event, from: nat)
    requires from <= |log|
    ensures Dispatched(log + [e], from) <==> Dispatched(log, from) || e.DispatchBegan?
  {
    assert (log + [e])[|log|] == e;
    if k :| from <= k < |log| && log[k].DispatchBegan? {
      assert (log + [e])[k] == log[k];
    }
  }

  lemma RefusalGrows(log: seq<Event>, e: Event, from: nat)
    requires from <= |log|
    ensures Refused(log + [e], from) <==> Refused(log, from) || Refuses(e)
  {
    assert (log + [e])[|log|] == e;
    if k :| from <= k < |log| && Refuses(log[k]) {
      assert (log + [e])[k] == log[k];
    }
  }

  lemma LogGrows(log: seq<Event>, e: Event, from: nat)
    requires from <= |log|
    ensures Dispatched(log + [e], from) <==> Dispatched(log, from) || e.DispatchBegan?
    ensures Refused(log + [e], from) <==> Refused(log, from) || Refuses(e)
    ensures HandlersCalled(log + [e]) == HandlersCalled(log) + if e.Handled? then [(e.key, e.handler)] else []
  {
    DispatchGrows(log, e, from);
    RefusalGrows(log, e, from);
    assert (log + [e])[..|log|] == log;
  }

  lemma ChangeGrows(log: seq<Event>, e: Event, from: nat)
    requires from <= |log|
    ensures PollSetChanged(log + [e], from) <==> PollSetChanged(log, from) || (ChangesPollSet(e) && !Dispatched(log, from))
  {
    var grown := log + [e];
    assert grown[|log|] == e;
    assert forall k | 0 <= k < |log| :: grown[k] == log[k];
    if PollSetChanged(log, from) {
      var k :| from <= k < |log| && ChangesPollSet(log[k]) && forall j | from <= j < k :: !log[j].DispatchBegan?;
      assert ChangesPollSet(grown[k]);
    }
    if PollSetChanged(grown, from) {
      var k :| from <= k < |grown| && ChangesPollSet(grown[k]) && forall j | from <= j < k :: !grown[j].DispatchBegan?;
      assert k < |log| ==> ChangesPollSet(log[k]);
    }
  }

  // ---- Within an iteration ----

  /** What an iteration works with: where its poll stands in the log, the
      handlers, the poller with the flags that were reported, whether the poll
      failed, whether there are any flags, the rounds left, and the handlers
      called before. */
  datatype Iteration = Iteration(
    from: nat, items: seq<Entry>, table: map<Key, PollItem>, failed: bool, reported: bool, rounds: seq<Round>,
    called: seq<(Key, nat)>)

  function ReadyIn(b: Iteration): seq<(Key, nat)> {
    b.called + ReadyHandlers(b.items, b.table)
  }

  function PolledFlag(c: Control): bool
    requires BeforeDispatch(c)
  {
    match c
    case InTimers(_, _, polled) => polled
    case TimersDone(polled) => polled
    case InCallback(caller, _, _) => caller.polled
  }

  ghost predicate BeforeIts(b: Iteration, s: State)
    requires BeforeDispatch(s.control)
  {
    && PolledFlag(s.control) == b.reported
    && !Dispatched(s.log, b.from) && HandlersCalled(s.log) == b.called
    && (s.rebuild <==> PollSetChanged(s.log, b.from))
    && (!s.rebuild ==> s.items == b.items && s.table == b.table)
  }

  ghost predicate InIts(b: Iteration, s: State)
    requires InDispatch(s.control)
  {
    && Dispatched(s.log, b.from) && b.reported && !PollSetChanged(s.log, b.from)
    && s.table == b.table
    && b.called <= HandlersCalled(s.log) && HandlersCalled(s.log) + StillToCall(s) == ReadyIn(b)
  }

  /** A dispatch begins if the poll has reported flags and the poll set has not
      changed since, and it calls the handlers that are ready in order; when the
      iteration is complete these are all of them, and it begins only if so. */
  ghost predicate Concluded(b: Iteration, s: State) {
    && (Dispatched(s.log, b.from) ==> b.reported && !PollSetChanged(s.log, b.from))
    && b.called <= HandlersCalled(s.log) <= ReadyIn(b)
    && (!Dispatched(s.log, b.from) ==> HandlersCalled(s.log) == b.called)
    && (s.control.AtHead? || s.control.ItemsDone? ==>
          && (Dispatched(s.log, b.from) <==> b.reported && !PollSetChanged(s.log, b.from))
          && (Dispatched(s.log, b.from) ==> HandlersCalled(s.log) == ReadyIn(b)))
  }

  ghost predicate OnePoll(b: Iteration, log: seq<Event>) {
    b.from < |log| && log[b.from].PollCalled? && forall k | b.from < k < |log| :: !log[k].PollCalled?
  }

  predicate Refusing(c: Control) {
    c.Leaving? || (c.InCallback? && !c.proceed)
  }

  ghost predicate Within(b: Iteration, s: State) {
    && OnePoll(b, s.log) && s.rounds == b.rounds
    && (Refused(s.log, b.from) <==> Refusing(s.control))
    && (s.control.PollThrew? <==> b.failed) && (b.failed ==> |s.log| == b.from + 1) && !s.control.Returned?
    && (if BeforeDispatch(s.control) then BeforeIts(b, s)
        else if InDispatch(s.control) then InIts(b, s)
        else Concluded(b, s))
  }

  // ---- Steps ----

  /** An event that is neither a poll nor the beginning of a dispatch. */
  predicate Ordinary(e: Event) {
    !e.PollCalled? && !e.DispatchBegan?
  }

  /** A step before the dispatch that logs an event. */
  lemma LoggedBefore(b: Iteration, s: State, t: State, e: Event)
    requires Within(b, s) && BeforeDispatch(s.control) && BeforeDispatch(t.control)
    requires t.log == s.log + [e] && Ordinary(e) && !e.Handled? && t.rounds == s.rounds
    requires PolledFlag(t.control) == PolledFlag(s.control)
    requires Refusing(t.control) <==> Refusing(s.control) || Refuses(e)
    requires if ChangesPollSet(e) then t.rebuild else t.rebuild == s.rebuild && t.items == s.items && t.table == s.table
    ensures Within(b, t)
  {
    LogGrows(s.log, e, b.from);
    ChangeGrows(s.log, e, b.from);
    assert forall k | 0 <= k < |s.log| :: t.log[k] == s.log[k];
  }

  /** A step of the dispatch that logs an event. */
  lemma LoggedIn(b: Iteration, s: State, t: State, e: Event)
    requires Within(b, s) && InDispatch(s.control) && InDispatch(t.control)
    requires t.log == s.log + [e] && Ordinary(e) && t.rounds == s.rounds && t.table == s.table
    requires Refusing(t.control) <==> Refusing(s.control) || Refuses(e)
    requires HandlersCalled(t.log) + StillToCall(t) == HandlersCalled(s.log) + StillToCall(s)
    ensures Within(b, t)
  {
    LogGrows(s.log, e, b.from);
    ChangeGrows(s.log, e, b.from);
    assert forall k | 0 <= k < |s.log| :: t.log[k] == s.log[k];
  }

  lemma FiringWithin(b: Iteration, s: State)
    requires Within(b, s) && s.control.InTimers?
    ensures Within(b, Step(s))
  {
    if Step(s).control.InCallback? {
      LoggedBefore(b, s, Step(s), Fired(s.timers[s.control.position].id, s.script[0].proceed));
    }
  }

  /** What serving a request changes that an iteration depends on. */
  lemma RequestServed(s: State, request: Request, fromHandler: bool)
    requires s.dispatching
    ensures var t := Serve(s, request, fromHandler);
            && t.control == s.control && t.rounds == s.rounds
            && (fromHandler ==> t.items == s.items && t.table == s.table)
            && (t.log == s.log ==> t.rebuild == s.rebuild && t.items == s.items && t.table == s.table)
            && (t.log != s.log ==>
                  && |t.log| == |s.log| + 1 && t.log == s.log + [t.log[|s.log|]]
                  && Ordinary(t.log[|s.log|]) && !IsCall(t.log[|s.log|])
                  && if ChangesPollSet(t.log[|s.log|]) then t.rebuild
                     else t.rebuild == s.rebuild && t.items == s.items && t.table == s.table)
  {
  }

  lemma TimerRequestWithin(b: Iteration, s: State)
    requires Within(b, s) && s.dispatching && s.control.InCallback? && s.control.caller.OfTimer?
    requires s.control.requests != []
    ensures Within(b, Step(s))
  {
    var rest := s.(control := s.control.(requests := s.control.requests[1..]));
    var t := Serve(rest, s.control.requests[0], false);
    RequestServed(rest, s.control.requests[0], false);
    if t.log != s.log {
      LoggedBefore(b, s, t, t.log[|s.log|]);
    }
  }

  lemma TimerReturnWithin(b: Iteration, s: State)
    requires Within(b, s) && Coupled(s) && s.control.InCallback? && s.control.caller.OfTimer?
    requires s.control.requests == []
    ensures Within(b, Step(s))
  {
  }

  lemma ChoosingWithin(b: Iteration, s: State)
    requires Within(b, s) && s.control.TimersDone?
    ensures Within(b, Step(s))
  {
    if Step(s).control.InItems? {
      LogGrows(s.log, DispatchBegan, b.from);
      ChangeGrows(s.log, DispatchBegan, b.from);
      assert s.items[0..] == s.items;
    }
  }

  lemma HandlerWithin(b: Iteration, s: State)
    requires Within(b, s) && Coupled(s) && s.control.InItems?
    ensures Within(b, Step(s))
  {
    if s.control.position < |s.items| {
      assert s.items[s.control.position].item.key in Keys(s.items);
      VisitWithin(b, s, Visit(s));
    }
  }

  lemma VisitWithin(b: Iteration, s: State, t: State)
    requires Within(b, s) && s.control.InItems? && s.control.position < |s.items|
    requires s.items[s.control.position].item.key in s.table && t == Visit(s)
    ensures Within(b, t)
  {
    HandlerVisit(s);
    if t.control.InCallback? {
      var entry := s.items[s.control.position];
      LoggedIn(b, s, t, Handled(entry.item.key, entry.handler, s.script[0].proceed));
    }
  }

  lemma HandlerRequestWithin(b: Iteration, s: State)
    requires Within(b, s) && s.dispatching && s.control.InCallback? && s.control.caller.OfItem?
    requires s.control.requests != []
    ensures Within(b, Step(s))
  {
    var rest := s.(control := s.control.(requests := s.control.requests[1..]));
    var t := Serve(rest, s.control.requests[0], true);
    RequestServed(rest, s.control.requests[0], true);
    HandlerRequest(s);
    if t.log != s.log {
      LoggedIn(b, s, t, t.log[|s.log|]);
    }
  }

  lemma HandlerReturnWithin(b: Iteration, s: State)
    requires Within(b, s) && s.control.InCallback? && s.control.caller.OfItem?
    requires s.control.requests == []
    ensures Within(b, Step(s))
  {
  }

  /** The iteration is over: at the head of the next one, or on the way out. */
  predicate IterationOver(c: Control) {
    c.AtHead? || c.Leaving? || Halted(c)
  }

  lemma StepWithin(b: Iteration, s: State)
    requires Within(b, s) && Coupled(s) && !IterationOver(s.control)
    ensures Within(b, Step(s))
  {
    match s.control
    case InTimers(_, _, _) => FiringWithin(b, s);
    case TimersDone(_) => ChoosingWithin(b, s);
    case InItems(_) => HandlerWithin(b, s);
    case InCallback(caller, _, requests) =>
      if caller.OfTimer? {
        if requests != [] {
          TimerRequestWithin(b, s);
        } else {
          TimerReturnWithin(b, s);
        }
      } else if requests != [] {
        HandlerRequestWithin(b, s);
      } else {
        HandlerReturnWithin(b, s);
      }
    case _ =>
  }

  /** Where the iteration in progress ends. */
  ghost function IterationEnd(s: State): State
    decreases |s.rounds|, Rank(s.control), |s.script|, Depth(s.control), Work(s)
  {
    if IterationOver(s.control) then s
    else
      StepDescends(s);
      IterationEnd(Step(s))
  }

  lemma {:induction false} EndWithin(b: Iteration, s: State)
    requires Within(b, s) && Coupled(s)
    ensures Within(b, IterationEnd(s)) && IterationOver(IterationEnd(s).control) && s.log <= IterationEnd(s).log
    ensures Coupled(IterationEnd(s))
    decreases |s.rounds|, Rank(s.control), |s.script|, Depth(s.control), Work(s)
  {
    if !IterationOver(s.control) {
      StepDescends(s);
      StepWithin(b, s);
      StepCoupled(s);
      StepExtends(s, Step(s));
      EndWithin(b, Step(s));
    }
  }

  lemma StepExtends(s: State, t: State)
    requires t == Step(s)
    ensures s.log <= t.log
  {
    var logged := StepLogs(s);
  }

  lemma {:induction false} EndIsReached(s: State) returns (n: nat)
    ensures Steps(s, n) == IterationEnd(s)
    decreases |s.rounds|, Rank(s.control), |s.script|, Depth(s.control), Work(s)
  {
    n := 0;
    if !IterationOver(s.control) {
      StepDescends(s);
      var t := Step(s);
      assert Below(t, s);
      n := EndIsReached(t);
      StepFirst(s, n, IterationEnd(t));
      n := n + 1;
    }
  }

  // ---- Whole iterations ----

  /** The timeout is the time from the second clock sample to the front deadline,
      or to one hour after the first sample, in whole milliseconds. */
  ghost predicate TimedFor(e: Event, timers: seq<Timer>, first: int, second: int) {
    var hour := first + 3_600_000_000_000;
    var tick := if timers != [] && timers[0].when < hour then timers[0].when else hour;
    && e.PollCalled? && e.at == second
    && |e.deadlines| == |timers| && (forall i | 0 <= i < |timers| :: e.deadlines[i] == timers[i].when)
    && if tick <= second then e.timeout == 0
       else e.timeout * 1_000_000 <= tick - second < (e.timeout + 1) * 1_000_000
  }

  /** The handlers and the poller without what was asked to be removed. */
  function Started(h: State): Iteration
    requires h.rounds != []
  {
    var outcome, table := h.rounds[0].outcome, h.table - Pending(h);
    Iteration(|h.log|, Without(h.items, Pending(h)), Polled(table, outcome),
              outcome.Failed?,
              outcome.Reported? && exists k | k in table :: FlagsOf(outcome.flags, k) != {},
              h.rounds[1..], HandlersCalled(h.log))
  }

  /** What an iteration that begins at `h` does: it makes one poll, timed for the
      timers that are left; if the poll throws, that is the end. When the timer
      phase and the dispatch are over, a dispatch has begun exactly if flags were
      reported for a monitored key and no poll item was added or asked to be
      removed since the poll; it has then called exactly the handlers that are
      ready, in order. The loop is left exactly if a callback has returned false. */
  ghost predicate IterationIsSound(h: State)
    requires h.rounds != []
  {
    var b, round, r := Started(h), h.rounds[0], IterationEnd(Step(h));
    && h.log <= r.log && OnePoll(b, r.log)
    && TimedFor(r.log[b.from], WithoutTimers(h.timers, PendingTimers(h)), h.clock + round.first,
                h.clock + round.first + round.second)
    && (r.control.AtHead? || r.control.Leaving? || r.control.PollThrew? || r.control.CutOff?)
    && (r.control.PollThrew? <==> round.outcome.Failed?)
    && (round.outcome.Failed? ==> |r.log| == |h.log| + 1)
    && r.rounds == h.rounds[1..]
    && (r.control.Leaving? <==> Refused(r.log, b.from))
    && (r.control.AtHead? ==>
          && (Dispatched(r.log, b.from) <==> b.reported && !PollSetChanged(r.log, b.from))
          && HandlersCalled(r.log) == if Dispatched(r.log, b.from) then ReadyIn(b) else b.called)
    && (Dispatched(r.log, b.from) ==> b.reported && !PollSetChanged(r.log, b.from))
    && b.called <= HandlersCalled(r.log) <= ReadyIn(b)
    && (!Dispatched(r.log, b.from) ==> HandlersCalled(r.log) == b.called)
  }

  lemma HeadTimed(h: State)
    requires h.control.AtHead? && h.rounds != []
    ensures var e, round := Head(h).log[|h.log|], h.rounds[0];
            && Head(h).log == h.log + [e]
            && TimedFor(e, WithoutTimers(h.timers, PendingTimers(h)), h.clock + round.first,
                        h.clock + round.first + round.second)
  {
  }

  /** What the poll leaves. */
  lemma HeadPolls(h: State)
    requires h.control.AtHead? && h.rounds != []
    ensures var t, b := Head(h), Started(h);
            && t.rounds == b.rounds && !t.rebuild
            && if b.failed then t.control.PollThrew?
               else t.control.InTimers? && t.control.polled == b.reported && t.items == b.items && t.table == b.table
  {
    assert Pending(h.(rebuild := false, rounds := h.rounds[1..])) == Pending(h);
  }

  lemma PolledWithin(b: Iteration, log: seq<Event>, e: Event, t: State)
    requires b.from == |log| && b.called == HandlersCalled(log) && e.PollCalled? && t.log == log + [e]
    requires t.rounds == b.rounds && !t.rebuild
    requires if b.failed then t.control.PollThrew?
             else t.control.InTimers? && t.control.polled == b.reported && t.items == b.items && t.table == b.table
    ensures Within(b, t)
  {
    assert (log + [e])[..|log|] == log;
  }

  lemma HeadWithin(h: State)
    requires h.control.AtHead? && h.rounds != []
    ensures Within(Started(h), Head(h))
  {
    HeadPolls(h);
    HeadTimed(h);
    PolledWithin(Started(h), h.log, Head(h).log[|h.log|], Head(h));
  }

  lemma IterationSound(h: State)
    requires Coupled(h) && h.control.AtHead? && h.rounds != []
    ensures IterationIsSound(h)
  {
    HeadWithin(h);
    HeadTimed(h);
    StepCoupled(h);
    EndWithin(Started(h), Head(h));
    EndSound(h, Head(h), IterationEnd(Head(h)));
  }

  lemma EndSound(h: State, t: State, r: State)
    requires h.control.AtHead? && h.rounds != [] && t == Step(h) && r == IterationEnd(t)
    requires Within(Started(h), r) && Coupled(r) && IterationOver(r.control) && t.log <= r.log
    requires |t.log| == |h.log| + 1 && h.log <= t.log
    requires TimedFor(t.log[|h.log|], WithoutTimers(h.timers, PendingTimers(h)), h.clock + h.rounds[0].first,
                      h.clock + h.rounds[0].first + h.rounds[0].second)
    ensures IterationIsSound(h)
  {
    assert r.log[|h.log|] == t.log[|h.log|];
  }

  // ---- Which round answers which poll, and what ends a run ----

  function Polls(log: seq<Event>): nat {
    if log == [] then 0 else Polls(log[..|log| - 1]) + if log[|log| - 1].PollCalled? then 1 else 0
  }

  /** The n-th poll is answered by the n-th round; and a callback has returned
      false exactly if the loop is on its way out or has returned. */
  ghost predicate Accounted(rounds: seq<Round>, s: State) {
    && Polls(s.log) <= |rounds| && s.rounds == rounds[Polls(s.log)..]
    && (Refused(s.log, 0) <==> Refusing(s.control) || s.control.Returned?)
  }

  lemma LoggedAccounted(rounds: seq<Round>, s: State, t: State, e: Event)
    requires Accounted(rounds, s) && t.log == s.log + [e]
    requires if e.PollCalled? then s.rounds != [] && t.rounds == s.rounds[1..] else t.rounds == s.rounds
    requires Refusing(t.control) || t.control.Returned? <==> Refusing(s.control) || s.control.Returned? || Refuses(e)
    ensures Accounted(rounds, t)
  {
    RefusalGrows(s.log, e, 0);
    assert t.log[..|s.log|] == s.log;
  }

  lemma RequestAccounted(rounds: seq<Round>, s: State)
    requires Accounted(rounds, s) && s.dispatching && s.control.InCallback? && s.control.requests != []
    ensures Accounted(rounds, Step(s))
  {
    var rest := s.(control := s.control.(requests := s.control.requests[1..]));
    var t := Serve(rest, s.control.requests[0], s.control.caller.OfItem?);
    RequestServed(rest, s.control.requests[0], s.control.caller.OfItem?);
    if t.log != s.log {
      LoggedAccounted(rounds, s, t, t.log[|s.log|]);
    }
  }

  lemma HeadAccounted(rounds: seq<Round>, s: State)
    requires Accounted(rounds, s) && s.control.AtHead? && s.rounds != []
    ensures Accounted(rounds, Head(s))
  {
    HeadTimed(s);
    LoggedAccounted(rounds, s, Head(s), Head(s).log[|s.log|]);
  }

  lemma FiringAccounted(rounds: seq<Round>, s: State)
    requires Accounted(rounds, s) && s.control.InTimers?
    ensures Accounted(rounds, Step(s))
  {
    if Step(s).control.InCallback? {
      LoggedAccounted(rounds, s, Step(s), Step(s).log[|s.log|]);
    }
  }

  lemma HandlerAccounted(rounds: seq<Round>, s: State)
    requires Accounted(rounds, s) && Coupled(s) && s.control.InItems?
    ensures Accounted(rounds, Step(s))
  {
    if Step(s).control.InCallback? {
      LoggedAccounted(rounds, s, Step(s), Step(s).log[|s.log|]);
    } else if s.control.position < |s.items| {
      assert s.items[s.control.position].item.key in Keys(s.items);
    }
  }

  lemma StepAccounted(rounds: seq<Round>, s: State)
    requires Accounted(rounds, s) && Coupled(s)
    ensures Accounted(rounds, Step(s))
  {
    match s.control
    case AtHead =>
      if s.rounds != [] {
        HeadAccounted(rounds, s);
      }
    case InTimers(_, _, _) => FiringAccounted(rounds, s);
    case InItems(_) => HandlerAccounted(rounds, s);
    case TimersDone(_) =>
      if Step(s).control.InItems? {
        LoggedAccounted(rounds, s, Step(s), DispatchBegan);
      }
    case InCallback(caller, proceed, requests) =>
      if requests != [] {
        RequestAccounted(rounds, s);
      }
    case _ =>
  }

  /** start() returns exactly if some callback has returned false. */
  lemma {:induction false} RunAccounted(rounds: seq<Round>, s: State)
    requires Accounted(rounds, s) && Coupled(s)
    ensures Accounted(rounds, Run(s)) && (Run(s).control.Returned? <==> Refused(Run(s).log, 0))
    decreases |s.rounds|, Rank(s.control), |s.script|, Depth(s.control), Work(s)
  {
    if !Halted(s.control) {
      StepDescends(s);
      StepAccounted(rounds, s);
      StepCoupled(s);
      RunAccounted(rounds, Step(s));
    }
  }
}

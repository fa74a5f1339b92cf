/**
 * Timers over several passes: one that was due in a pass and neither fired nor
 * was reset stays in the list with its deadline, and is due in every later pass
 * until it has fired, was reset, or its removal was asked for.
 */
module LoopStranded {
  import opened PollTypes
  import opened TimerList
  import opened LoopMachine
  import opened LoopCoupling
  import opened LoopRuns
  import opened LoopRemovals
  import opened LoopTimers
  import opened LoopPasses
  import opened LoopDue
  import opened LoopGuarantees

  /** Since `from` the timer has fired or been reset, or its removal has been
      asked for. */
  ghost predicate Settled(log: seq<Event>, from: nat, id: nat) {
    FiredSince(log, from, id) || ResetSince(log, from, id) || AskedOut(log, id)
  }

  ghost predicate HasDue(ts: seq<Timer>, id: nat, now: int) {
    exists u :: u in ts && u.id == id && u.when < now
  }

  /** It is settled, or still in the list and due at the time `now`. */
  ghost predicate StaysDue(s: State, from: nat, id: nat, now: int) {
    && from <= |s.log| && now <= s.clock
    && (s.control.InCallback? && s.control.caller.OfTimer? ==> FiredSince(s.log, from, s.control.caller.timer))
    && (Settled(s.log, from, id) || HasDue(s.timers, id, now))
  }

  lemma SettledGrows(log: seq<Event>, e: Event, from: nat, id: nat)
    requires from <= |log|
    ensures Settled(log, from, id) ==> Settled(log + [e], from, id)
    ensures (e.Fired? || e.TimerWasReset? || e.TimerRemovalAsked?) && e.timer == id ==> Settled(log + [e], from, id)
  {
    SinceGrows(log, e, from, id);
    LoggedFirings(log, e, id);
    assert (log + [e])[|log|] == e;
  }

  /** A step that logs an event and leaves the caller, if there was one. */
  lemma LoggedStaysDue(s: State, r: State, e: Event, from: nat, id: nat, now: int)
    requires StaysDue(s, from, id, now) && r.log == s.log + [e] && s.clock <= r.clock
    requires r.control.InCallback? && r.control.caller.OfTimer? ==>
               (e.Fired? && e.timer == r.control.caller.timer) ||
               (s.control.InCallback? && s.control.caller == r.control.caller)
    requires HasDue(s.timers, id, now) ==> HasDue(r.timers, id, now) || Settled(r.log, from, id)
    ensures StaysDue(r, from, id, now)
  {
    SettledGrows(s.log, e, from, id);
    if r.control.InCallback? && r.control.caller.OfTimer? {
      SinceGrows(s.log, e, from, r.control.caller.timer);
    }
  }

  lemma FlushStaysDue(s: State, from: nat, id: nat, now: int)
    requires IdsLogged(s) && HasDue(s.timers, id, now)
    ensures HasDue(Flush(s).timers, id, now) || AskedOut(s.log, id)
  {
    var u :| u in s.timers && u.id == id && u.when < now;
    if id !in PendingTimers(s) {
      assert u in Flush(s).timers;
    }
  }

  lemma SortStaysDue(ts: seq<Timer>, id: nat, now: int)
    requires HasDue(ts, id, now)
    ensures HasDue(Sort(ts), id, now)
  {
    SortIsSortedPermutation(ts);
  }

  lemma ServeStaysDue(s: State, request: Request, fromHandler: bool, from: nat, id: nat, now: int)
    requires StaysDue(s, from, id, now) && s.dispatching && s.control.InCallback? && DistinctIds(s.timers)
    ensures StaysDue(Serve(s, request, fromHandler), from, id, now)
  {
    match request
    case AddTimer(delay, times, elapsed) => AddStaysDue(s, delay, times, elapsed, from, id, now);
    case ResetTimer(timer, elapsed) => ResetStaysDue(s, timer, elapsed, from, id, now);
    case _ => OtherStaysDue(s, request, fromHandler, from, id, now);
  }

  lemma AddStaysDue(s: State, delay: nat, times: nat, elapsed: nat, from: nat, id: nat, now: int)
    requires StaysDue(s, from, id, now) && s.control.InCallback?
    ensures StaysDue(AddTimerOp(s, delay, times, elapsed), from, id, now)
  {
    var at := s.clock + elapsed;
    var timer := Timer(s.nextId, times, delay, at + delay * NS_PER_MS);
    if HasDue(s.timers, id, now) {
      var u :| u in s.timers && u.id == id && u.when < now;
      assert u in s.timers + [timer];
      SortStaysDue(s.timers + [timer], id, now);
    }
    LoggedStaysDue(s, AddTimerOp(s, delay, times, elapsed), TimerAdded(timer, at), from, id, now);
  }

  lemma ResetStaysDue(s: State, timer: nat, elapsed: nat, from: nat, id: nat, now: int)
    requires StaysDue(s, from, id, now) && s.control.InCallback?
    ensures StaysDue(ResetTimerOp(s, timer, elapsed), from, id, now)
  {
    var x := IndexOf(s.timers, timer);
    if x < |s.timers| {
      var when := s.clock + elapsed + s.timers[x].delay * NS_PER_MS;
      var moved := s.timers[x := s.timers[x].(when := when)];
      if HasDue(s.timers, id, now) && timer != id {
        var u :| u in s.timers && u.id == id && u.when < now;
        var j :| 0 <= j < |s.timers| && s.timers[j] == u;
        assert moved[j] == u;
        SortStaysDue(moved, id, now);
      }
      SettledGrows(s.log, TimerWasReset(timer, when), from, id);
      LoggedStaysDue(s, ResetTimerOp(s, timer, elapsed), TimerWasReset(timer, when), from, id, now);
    }
  }

  lemma OtherStaysDue(s: State, request: Request, fromHandler: bool, from: nat, id: nat, now: int)
    requires StaysDue(s, from, id, now) && s.dispatching && s.control.InCallback?
    requires !request.AddTimer? && !request.ResetTimer?
    ensures StaysDue(Serve(s, request, fromHandler), from, id, now)
  {
    var r := Serve(s, request, fromHandler);
    if r.log != s.log {
      LoggedStaysDue(s, r, r.log[|s.log|], from, id, now);
    }
  }

  lemma CompletedStaysDue(ts: seq<Timer>, i: nat, id: nat, now: int)
    requires i < |ts| && HasDue(ts, id, now) && ts[i].id != id
    ensures HasDue(Completed(ts, i), id, now)
  {
    var u :| u in ts && u.id == id && u.when < now;
    var j :| 0 <= j < |ts| && ts[j] == u;
    assert Completed(ts, i)[if ts[i].times == 1 && j > i then j - 1 else j] == u;
  }

  lemma CallbackStaysDue(s: State, from: nat, id: nat, now: int)
    requires StaysDue(s, from, id, now) && Coupled(s) && s.control.InCallback?
    ensures StaysDue(Step(s), from, id, now)
  {
    if s.control.requests != [] {
      var s' := s.(control := s.control.(requests := s.control.requests[1..]));
      ServeStaysDue(s', s.control.requests[0], s.control.caller.OfItem?, from, id, now);
    } else if s.control.caller.OfTimer? {
      var i := IndexOf(s.timers, s.control.caller.timer);
      if HasDue(s.timers, id, now) && s.control.caller.timer != id {
        CompletedStaysDue(s.timers, i, id, now);
      }
    }
  }

  lemma HeadStaysDue(s: State, from: nat, id: nat, now: int)
    requires StaysDue(s, from, id, now) && IdsLogged(s) && s.control.AtHead? && s.rounds != []
    ensures StaysDue(Head(s), from, id, now)
  {
    var f := s.(rebuild := false, rounds := s.rounds[1..]);
    if HasDue(s.timers, id, now) {
      FlushStaysDue(f, from, id, now);
    }
    var e := Head(s).log[|s.log|];
    assert Head(s).log == s.log + [e];
    SettledGrows(s.log, e, from, id);
    LoggedFirings(s.log, e, id);
    LoggedStaysDue(s, Head(s), e, from, id, now);
  }

  lemma InTimersStaysDue(s: State, from: nat, id: nat, now: int)
    requires StaysDue(s, from, id, now) && s.control.InTimers?
    ensures StaysDue(Step(s), from, id, now)
  {
    if s.control.position < |s.timers| && s.timers[s.control.position].when < s.control.now {
      if s.script != [] {
        LoggedStaysDue(s, Fire(s), Fired(s.timers[s.control.position].id, s.script[0].proceed), from, id, now);
      }
    } else if HasDue(s.timers, id, now) {
      SortStaysDue(s.timers, id, now);
    }
  }

  lemma LeavingStaysDue(s: State, from: nat, id: nat, now: int)
    requires StaysDue(s, from, id, now) && IdsLogged(s) && s.control.Leaving?
    ensures StaysDue(Step(s), from, id, now)
  {
    if HasDue(s.timers, id, now) {
      FlushStaysDue(s.(dispatching := false), from, id, now);
    }
  }

  lemma DispatchStaysDue(s: State, from: nat, id: nat, now: int)
    requires StaysDue(s, from, id, now) && (s.control.TimersDone? || s.control.InItems?)
    ensures StaysDue(Step(s), from, id, now)
  {
    if Step(s).log != s.log {
      LoggedStaysDue(s, Step(s), Step(s).log[|s.log|], from, id, now);
    }
  }

  ghost predicate Tracked(s: State, from: nat, id: nat, now: int) {
    StaysDue(s, from, id, now) && Coupled(s) && IdsLogged(s)
  }

  lemma StepTracked(s: State, from: nat, id: nat, now: int)
    requires Tracked(s, from, id, now)
    ensures Tracked(Step(s), from, id, now)
  {
    StepCoupled(s);
    StepIdsLogged(s);
    match s.control
    case InCallback(_, _, _) => CallbackStaysDue(s, from, id, now);
    case AtHead =>
      if s.rounds != [] {
        HeadStaysDue(s, from, id, now);
      }
    case InTimers(_, _, _) => InTimersStaysDue(s, from, id, now);
    case Leaving => LeavingStaysDue(s, from, id, now);
    case TimersDone(_) => DispatchStaysDue(s, from, id, now);
    case InItems(_) => DispatchStaysDue(s, from, id, now);
    case _ =>
  }

  lemma StepsTracked(s: State, n: nat, from: nat, id: nat, now: int)
    requires Tracked(s, from, id, now)
    ensures Tracked(Steps(s, n), from, id, now)
  {
    forall t | Tracked(t, from, id, now) ensures Tracked(Step(t), from, id, now) {
      StepTracked(t, from, id, now);
    }
    IteratedKeeps(Step, t => Tracked(t, from, id, now), s, n);
  }

  ghost predicate Logged(s: State) {
    Coupled(s) && IdsLogged(s)
  }

  lemma StepsLogged(s: State, n: nat)
    requires Logged(s)
    ensures Logged(Steps(s, n))
  {
    forall t | Logged(t) ensures Logged(Step(t)) {
      StepCoupled(t);
      StepIdsLogged(t);
    }
    IteratedKeeps(Step, t => Logged(t), s, n);
  }

  /** A pass begins here. */
  ghost predicate PassFresh(t: State) {
    t.control.InTimers? && t.control.position == 0 && t.control.now == t.clock
  }

  /** A timer due in one pass is, in any later pass of the run, settled or due
      again. `t` and `u` are where the two passes begin. */
  lemma DueAgain(t: State, u: State, i: nat) returns (j: nat)
    requires Logged(t) && PassFresh(t) && IsDue(t, i)
    requires ReachedFrom(t, 0, u) && PassFresh(u)
    ensures |t.log| <= |u.log| && Coupled(u)
    ensures Settled(u.log, |t.log|, t.timers[i].id) || (IsDue(u, j) && u.timers[j].id == t.timers[i].id)
  {
    var id, now := t.timers[i].id, t.control.now;
    assert t.timers[i] in t.timers;
    assert HasDue(t.timers, id, now);
    var k: nat :| Steps(t, k) == u;
    StepsTracked(t, k, |t.log|, id, now);
    j := 0;
    if !Settled(u.log, |t.log|, id) {
      var v :| v in u.timers && v.id == id && v.when < now;
      var x :| 0 <= x < |u.timers| && u.timers[x] == v;
      j := x;
    }
  }

  lemma SettledStays(log: seq<Event>, more: seq<Event>, from: nat, later: nat, id: nat)
    requires from <= later <= |log| && log <= more
    ensures Settled(log, from, id) ==> Settled(more, from, id)
    ensures FiredSince(more, later, id) ==> FiredSince(more, from, id)
    ensures ResetSince(more, later, id) ==> ResetSince(more, from, id)
  {
    assert forall k | 0 <= k < |log| :: more[k] == log[k];
    if FiredSince(log, from, id) {
      var k: nat :| from <= k < |log| && log[k].Fired? && log[k].timer == id;
      assert more[k].Fired?;
    }
    if ResetSince(log, from, id) {
      var k: nat :| from <= k < |log| && log[k].TimerWasReset? && log[k].timer == id;
      assert more[k].TimerWasReset?;
    }
  }

  /** When a later pass settles in which no callback resets its own timer, every
      timer that was due in the earlier one has fired or been reset since, or its
      removal was asked for. */
  lemma ServedByLaterPass(t: State, u: State, i: nat)
    requires Logged(t) && PassFresh(t) && IsDue(t, i)
    requires ReachedFrom(t, 0, u) && PassFresh(u)
    requires Sorted(u.timers) && TimerPass(u).control.TimersDone?
    ensures ServedSince(t, i, u)
  {
    var id, log := t.timers[i].id, TimerPass(u).log;
    var j := DueAgain(t, u, i);
    PassGrowsLog(u);
    SettledStays(u.log, log, |t.log|, |u.log|, id);
    if !Settled(u.log, |t.log|, id) {
      DueTimersFire(u, j);
    }
  }

  /** At the end of the pass that begins at `u`, what was due where the one at
      `t` began is settled, unless some callback has reset its own timer. */
  ghost predicate ServedSince(t: State, i: nat, u: State)
    requires i < |t.timers|
  {
    Settled(TimerPass(u).log, |t.log|, t.timers[i].id) || SelfReset(TimerPass(u).log, |u.log|)
  }

  /** The step at `h` begins a timer pass, at `t`. */
  ghost predicate BeginsPass(h: State, t: State) {
    h.control.AtHead? && t == Step(h) && t.control.InTimers?
  }

  lemma PassEntered(h: State, t: State)
    requires BeginsPass(h, t)
    ensures PassFresh(t)
  {
  }

  lemma EntersSorted(h: State, t: State)
    requires BeginsPass(h, t) && Sorted(h.timers)
    ensures Sorted(t.timers)
  {
    HeadEntersPass(h);
  }

  lemma EntersLogged(h: State, t: State)
    requires Logged(h) && t == Step(h)
    ensures Logged(t)
  {
    StepCoupled(h);
    StepIdsLogged(h);
  }

  lemma SortedLater(g: State, t: State, h: State)
    requires Coupled(g) && BeginsPass(g, t) && ReachedFrom(t, 0, h) && h.control.AtHead?
    ensures Sorted(h.timers)
  {
    var k: nat :| Steps(t, k) == h;
    FirstHeadInOrder(g);
    SortedAtHead(t, k, |t.log|, h);
  }

  lemma ReachedNext(t: State, h: State, u: State)
    requires ReachedFrom(t, 0, h) && u == Step(h)
    ensures ReachedFrom(t, 0, u)
  {
    var k: nat :| Steps(t, k) == h;
    assert Steps(t, k + 1) == u;
  }

  lemma LoggedLater(s: State, g: State)
    requires Logged(s) && ReachedFrom(s, 0, g)
    ensures Logged(g)
  {
    var k: nat :| Steps(s, k) == g;
    StepsLogged(s, k);
  }

  /** The same for any two passes of a run: one that begins at `t`, and a later
      one that begins at `u`. */
  lemma StrandedAreServed(s: State, g: State, t: State, h: State, u: State, i: nat)
    requires AtRest(s) && s.log == []
    requires ReachedFrom(s, 0, g) && BeginsPass(g, t)
    requires ReachedFrom(t, 0, h) && BeginsPass(h, u)
    requires IsDue(t, i) && TimerPass(u).control.TimersDone?
    ensures ServedSince(t, i, u)
  {
    LoggedLater(s, g);
    EntersLogged(g, t);
    PassEntered(g, t);
    SortedLater(g, t, h);
    EntersSorted(h, u);
    PassEntered(h, u);
    ReachedNext(t, h, u);
    ServedByLaterPass(t, u, i);
  }
}

/**
 * A removal that a callback asks for is deferred, but has taken effect by the
 * next poll: what was removed stays silent from then on.
 */
module LoopRemovals {
  import opened PollTypes
  import opened TimerList
  import opened LoopMachine
  import opened LoopCoupling
  import opened LoopRuns

  // ---- Timers ----

  /** A timer whose removal was asked for does not fire after the next poll. */
  ghost predicate TimersStayRemoved(log: seq<Event>) {
    forall i: nat, k: nat | i < k < |log| && log[i].TimerRemovalAsked? && log[k].Fired?
                            && log[k].timer == log[i].timer ::
      !PollBetween(log, i, k)
  }

  ghost predicate TimerRemovalsKept(s: State) {
    && TimersStayRemoved(s.log)
    && (forall i: nat | i < |s.log| && s.log[i].TimerRemovalAsked? ::
          && s.log[i].timer < s.nextId
          && (s.log[i].timer in s.timerLater || !HasTimer(s.timers, s.log[i].timer))
          && (PollBetween(s.log, i, |s.log|) ==> !HasTimer(s.timers, s.log[i].timer)))
  }

  /** Timers only come by add(), with a fresh id, and a pending removal stays
      pending until the timer is gone. */
  ghost predicate TimersOnlyLeave(s: State, t: State) {
    && s.nextId <= t.nextId
    && (forall id: nat | id < s.nextId && HasTimer(t.timers, id) :: HasTimer(s.timers, id))
    && (forall id: nat | id in s.timerLater :: id in t.timerLater || !HasTimer(t.timers, id))
  }

  ghost predicate TimerEventFits(s: State, t: State, e: Event) {
    match e
    case Fired(timer, _) => HasTimer(s.timers, timer)
    case TimerRemovalAsked(timer) => timer < s.nextId && timer in t.timerLater
    case PollCalled(_, _, _) => forall id: nat | id in s.timerLater :: !HasTimer(t.timers, id)
    case _ => true
  }

  lemma FlushedTimers(s: State)
    ensures forall id: nat :: HasTimer(Flush(s).timers, id) <==> HasTimer(s.timers, id) && id !in s.timerLater
  {
    var f := Flush(s).timers;
    forall id: nat ensures HasTimer(f, id) <==> HasTimer(s.timers, id) && id !in s.timerLater {
      if HasTimer(f, id) {
        var i :| 0 <= i < |f| && f[i].id == id;
        assert f[i] in s.timers && f[i].id !in PendingTimers(s);
        var j :| 0 <= j < |s.timers| && s.timers[j] == f[i];
      }
      if HasTimer(s.timers, id) && id !in s.timerLater {
        var i :| 0 <= i < |s.timers| && s.timers[i].id == id;
        assert s.timers[i] in f;
      }
    }
  }

  lemma AddedTimer(ts: seq<Timer>, timer: Timer)
    ensures forall id: nat :: HasTimer(ts + [timer], id) <==> HasTimer(ts, id) || id == timer.id
  {
    forall id: nat ensures HasTimer(ts + [timer], id) <==> HasTimer(ts, id) || id == timer.id {
      if HasTimer(ts, id) {
        var i :| 0 <= i < |ts| && ts[i].id == id;
        assert (ts + [timer])[i].id == id;
      }
      assert (ts + [timer])[|ts|] == timer;
    }
  }

  lemma MovedTimer(ts: seq<Timer>, i: nat, when: int)
    requires i < |ts| && DistinctIds(ts)
    ensures DistinctIds(ts[i := ts[i].(when := when)])
    ensures forall id: nat :: HasTimer(ts[i := ts[i].(when := when)], id) <==> HasTimer(ts, id)
  {
    var moved := ts[i := ts[i].(when := when)];
    forall id: nat ensures HasTimer(moved, id) <==> HasTimer(ts, id) {
      if HasTimer(ts, id) {
        var j :| 0 <= j < |ts| && ts[j].id == id;
        assert moved[j].id == id;
      }
    }
  }

  lemma AddTimerLeaves(s: State, delay: nat, times: nat, elapsed: nat)
    requires IdsIssued(s) && s.dispatching
    ensures TimersOnlyLeave(s, AddTimerOp(s, delay, times, elapsed))
  {
    var timer := Timer(s.nextId, times, delay, s.clock + elapsed + delay * NS_PER_MS);
    AddedTimer(s.timers, timer);
    SortCoupled(s.timers + [timer]);
  }

  lemma ResetTimerLeaves(s: State, timer: nat, elapsed: nat)
    requires IdsIssued(s) && s.dispatching
    ensures TimersOnlyLeave(s, ResetTimerOp(s, timer, elapsed))
  {
    var i := IndexOf(s.timers, timer);
    if i < |s.timers| {
      var when := s.clock + elapsed + s.timers[i].delay * NS_PER_MS;
      MovedTimer(s.timers, i, when);
      SortCoupled(s.timers[i := s.timers[i].(when := when)]);
    }
  }

  lemma ServedTimers(s: State, request: Request, fromHandler: bool)
    requires IdsIssued(s) && s.dispatching
    ensures TimersOnlyLeave(s, Serve(s, request, fromHandler))
  {
    match request
    case AddTimer(delay, times, elapsed) => AddTimerLeaves(s, delay, times, elapsed);
    case ResetTimer(timer, elapsed) => ResetTimerLeaves(s, timer, elapsed);
    case _ =>
  }

  lemma CallbackTimers(s: State)
    requires Coupled(s) && s.control.InCallback?
    ensures TimersOnlyLeave(s, Step(s))
  {
    var InCallback(caller, proceed, requests) := s.control;
    if requests != [] {
      ServedTimers(s.(control := InCallback(caller, proceed, requests[1..])), requests[0], caller.OfItem?);
    } else if caller.OfTimer? {
      var i := IndexOf(s.timers, caller.timer);
      var done := Completed(s.timers, i);
      CompletedIds(s.timers, i);
      assert AfterTimer(s).timers == done;
      forall id: nat | HasTimer(done, id) ensures HasTimer(s.timers, id) {
        var j :| 0 <= j < |done| && done[j].id == id;
        assert done[j] in done;
      }
    }
  }

  lemma StepTimers(s: State)
    requires Coupled(s)
    ensures TimersOnlyLeave(s, Step(s))
  {
    if s.control.InCallback? {
      CallbackTimers(s);
    } else if s.control.AtHead? && s.rounds != [] {
      FlushedTimers(s.(rebuild := false, rounds := s.rounds[1..]));
    } else if s.control.InTimers? {
      SortCoupled(s.timers);
    } else if s.control.Leaving? {
      FlushedTimers(s.(dispatching := false));
    }
  }

  lemma CallbackTimerEvent(s: State, e: Event)
    requires Coupled(s) && s.control.InCallback? && Step(s).log == s.log + [e]
    ensures TimerEventFits(s, Step(s), e)
  {
    assert Step(s).log[|s.log|] == e;
    var InCallback(caller, proceed, requests) := s.control;
    if requests != [] && requests[0].RemoveTimer? {
      assert Step(s).timerLater == s.timerLater + [requests[0].timer];
    }
  }

  lemma StepTimerEvent(s: State, e: Event)
    requires Coupled(s) && Step(s).log == s.log + [e]
    ensures TimerEventFits(s, Step(s), e)
  {
    assert Step(s).log[|s.log|] == e;
    if s.control.InCallback? {
      CallbackTimerEvent(s, e);
    } else if s.control.AtHead? {
      FlushedTimers(s.(rebuild := false, rounds := s.rounds[1..]));
    }
  }

  lemma LogKeepsTimerRemovals(s: State, t: State, e: Event)
    requires TimerRemovalsKept(s) && t.log == s.log + [e]
    requires TimersOnlyLeave(s, t) && TimerEventFits(s, t, e)
    ensures TimerRemovalsKept(t)
  {
    PollBetweenGrows(s.log, e);
    assert forall i | 0 <= i < |s.log| :: t.log[i] == s.log[i];
    assert !PollBetween(t.log, |s.log|, |t.log|);
  }

  lemma StepKeepsTimerRemovals(s: State)
    requires TimerRemovalsKept(s) && Coupled(s)
    ensures TimerRemovalsKept(Step(s))
  {
    var t := Step(s);
    StepTimers(s);
    var logged := StepLogs(s);
    if logged != [] {
      StepTimerEvent(s, logged[0]);
      LogKeepsTimerRemovals(s, t, logged[0]);
    }
  }

  lemma {:induction false} RemovedTimersStaySilent(s: State)
    requires TimerRemovalsKept(s) && Coupled(s)
    ensures TimerRemovalsKept(Run(s)) && TimersStayRemoved(Run(s).log)
    decreases |s.rounds|, Rank(s.control), |s.script|, Depth(s.control), Work(s)
  {
    if !Halted(s.control) {
      StepDescends(s);
      StepKeepsTimerRemovals(s);
      StepCoupled(s);
      RemovedTimersStaySilent(Step(s));
    }
  }

  // ---- Poll items ----

  predicate AddsKey(e: Event, key: Key) {
    e.ItemAdded? && e.key == key
  }

  /** Since the first poll after place `i`, the key was added again. */
  ghost predicate ReaddedBetween(log: seq<Event>, key: Key, i: nat, k: nat) {
    exists m: nat :: i < m < k && m < |log| && AddsKey(log[m], key) && PollBetween(log, i, m)
  }

  /** A handler whose removal was asked for is not called after the next poll
      unless its key has been added again since that poll. */
  ghost predicate ItemsStayRemoved(log: seq<Event>) {
    forall i: nat, k: nat | i < k < |log| && log[i].ItemRemovalAsked? && log[k].Handled?
                            && log[k].key == log[i].key && PollBetween(log, i, k) ::
      ReaddedBetween(log, log[i].key, i, k)
  }

  ghost predicate ItemRemovalsKept(s: State) {
    && ItemsStayRemoved(s.log)
    && (forall i: nat | i < |s.log| && s.log[i].ItemRemovalAsked? ::
          if PollBetween(s.log, i, |s.log|)
          then s.log[i].key in s.table ==> ReaddedBetween(s.log, s.log[i].key, i, |s.log|)
          else s.log[i].key in Pending(s) || (s.control.Returned? && s.log[i].key !in s.table))
  }

  lemma ReaddedBetweenGrows(log: seq<Event>, e: Event)
    ensures forall key, i: nat, k: nat | k <= |log| && ReaddedBetween(log, key, i, k) ::
              ReaddedBetween(log + [e], key, i, k) && ReaddedBetween(log + [e], key, i, |log + [e]|)
    ensures forall key, i: nat | i < |log| && AddsKey(e, key) && PollBetween(log, i, |log|) ::
              ReaddedBetween(log + [e], key, i, |log + [e]|)
  {
    PollBetweenGrows(log, e);
    forall key, i: nat, k: nat | k <= |log| && ReaddedBetween(log, key, i, k)
      ensures ReaddedBetween(log + [e], key, i, k) && ReaddedBetween(log + [e], key, i, |log + [e]|)
    {
      var m: nat :| i < m < k && m < |log| && AddsKey(log[m], key) && PollBetween(log, i, m);
      assert (log + [e])[m] == log[m] && PollBetween(log + [e], i, m);
    }
    forall key, i: nat | i < |log| && AddsKey(e, key) && PollBetween(log, i, |log|)
      ensures ReaddedBetween(log + [e], key, i, |log + [e]|)
    {
      assert (log + [e])[|log|] == e && PollBetween(log + [e], i, |log|);
    }
  }

  /** The last thing logged is that the key was added. */
  ghost predicate AddedNow(s: State, t: State, key: Key) {
    |t.log| == |s.log| + 1 && s.log <= t.log && AddsKey(t.log[|s.log|], key)
  }

  /** Only add() brings a key, and is logged; only the two flushes end the
      wait of a pending removal, and the key is then gone. */
  ghost predicate KeysOnlyLeave(s: State, t: State) {
    && (forall key | key in t.table :: key in s.table || AddedNow(s, t, key))
    && (Pending(s) <= Pending(t) || forall key | key in Pending(s) :: key !in t.table)
    && (t.log == s.log && !t.control.Returned? ==> Pending(s) <= Pending(t))
  }

  ghost predicate ItemEventFits(s: State, t: State, e: Event) {
    && !s.control.Returned?
    && (e.Handled? ==> e.key in s.table)
    && (e.ItemRemovalAsked? ==> e.key in Pending(t))
    && (if e.PollCalled? then forall key | key in Pending(s) :: key !in t.table else Pending(s) <= Pending(t))
  }

  lemma PendingGrows(s: State, t: State)
    requires s.fdLater <= t.fdLater && s.sockLater <= t.sockLater
    ensures Pending(s) <= Pending(t)
  {
    forall key | key in Pending(s) ensures key in Pending(t) {
      if key.Descriptor? {
        var i :| 0 <= i < |s.fdLater| && Descriptor(s.fdLater[i]) == key;
        assert Descriptor(t.fdLater[i]) == key;
      } else {
        var i :| 0 <= i < |s.sockLater| && Socket(s.sockLater[i]) == key;
        assert Socket(t.sockLater[i]) == key;
      }
    }
  }

  lemma ServedKeys(s: State, request: Request, fromHandler: bool)
    requires s.dispatching
    ensures var t := Serve(s, request, fromHandler);
            && Pending(s) <= Pending(t)
            && (forall key | key in t.table :: key in s.table || AddedNow(s, t, key))
            && (request.RemoveItem? ==> request.key in Pending(t))
  {
    var t := Serve(s, request, fromHandler);
    PendingGrows(s, t);
    if request.RemoveItem? {
      assert if request.key.Socket? then Socket(t.sockLater[|s.sockLater|]) == request.key
             else Descriptor(t.fdLater[|s.fdLater|]) == request.key;
    }
  }

  lemma ServedEvent(s: State, request: Request, fromHandler: bool, e: Event)
    requires s.dispatching && Serve(s, request, fromHandler).log == s.log + [e]
    ensures !e.Handled? && !e.PollCalled? && (e.ItemRemovalAsked? ==> request == RemoveItem(e.key))
  {
    assert Serve(s, request, fromHandler).log[|s.log|] == e;
  }

  lemma CallbackKeys(s: State)
    requires Coupled(s) && s.control.InCallback?
    ensures KeysOnlyLeave(s, Step(s))
  {
    var InCallback(caller, proceed, requests) := s.control;
    if requests != [] {
      ServedKeys(s.(control := InCallback(caller, proceed, requests[1..])), requests[0], caller.OfItem?);
    }
  }

  lemma HeadKeys(s: State)
    requires s.control.AtHead? && s.rounds != []
    ensures KeysOnlyLeave(s, Head(s))
    ensures forall key | key in Pending(s) :: key !in Head(s).table
  {
    var f := s.(rebuild := false, rounds := s.rounds[1..]);
    assert Pending(f) == Pending(s);
    assert forall key | key in Head(s).table :: key in s.table && key !in Pending(s);
  }

  lemma StepKeys(s: State)
    requires Coupled(s)
    ensures KeysOnlyLeave(s, Step(s))
  {
    if s.control.InCallback? {
      CallbackKeys(s);
    } else if s.control.AtHead? && s.rounds != [] {
      HeadKeys(s);
    } else if s.control.Leaving? {
      assert Pending(s.(dispatching := false)) == Pending(s);
    } else {
      OtherKeys(s);
    }
  }

  lemma OtherKeys(s: State)
    requires !s.control.InCallback? && !s.control.Leaving? && (s.control.AtHead? ==> s.rounds == [])
    ensures Step(s).table == s.table && Step(s).fdLater == s.fdLater && Step(s).sockLater == s.sockLater
    ensures Pending(Step(s)) == Pending(s)
  {
  }

  lemma CallbackItemEvent(s: State, e: Event)
    requires Coupled(s) && s.control.InCallback? && Step(s).log == s.log + [e]
    ensures ItemEventFits(s, Step(s), e)
  {
    var InCallback(caller, proceed, requests) := s.control;
    if requests != [] {
      var s' := s.(control := InCallback(caller, proceed, requests[1..]));
      ServedKeys(s', requests[0], caller.OfItem?);
      ServedEvent(s', requests[0], caller.OfItem?, e);
      assert Pending(s') == Pending(s);
    }
  }

  lemma StepItemEvent(s: State, e: Event)
    requires Coupled(s) && Step(s).log == s.log + [e]
    ensures ItemEventFits(s, Step(s), e)
  {
    if s.control.InCallback? {
      CallbackItemEvent(s, e);
    } else if s.control.AtHead? {
      HeadItemEvent(s, e);
    } else {
      OtherItemEvent(s, e);
    }
  }

  lemma HeadItemEvent(s: State, e: Event)
    requires s.control.AtHead? && Step(s).log == s.log + [e]
    ensures ItemEventFits(s, Step(s), e)
  {
    assert Step(s).log[|s.log|] == e;
    HeadKeys(s);
  }

  lemma OtherItemEvent(s: State, e: Event)
    requires Coupled(s) && !s.control.InCallback? && !s.control.AtHead? && Step(s).log == s.log + [e]
    ensures ItemEventFits(s, Step(s), e)
  {
    assert Step(s).log[|s.log|] == e;
    if !s.control.Leaving? {
      OtherKeys(s);
    }
  }

  lemma LogKeepsItemRemovals(s: State, t: State, e: Event)
    requires ItemRemovalsKept(s) && t.log == s.log + [e]
    requires KeysOnlyLeave(s, t) && ItemEventFits(s, t, e)
    ensures ItemRemovalsKept(t)
  {
    PollBetweenGrows(s.log, e);
    ReaddedBetweenGrows(s.log, e);
    assert t.log[|s.log|] == e;
    assert forall i | 0 <= i < |s.log| :: t.log[i] == s.log[i];
    assert forall key | AddedNow(s, t, key) :: AddsKey(e, key);
    assert !PollBetween(t.log, |s.log|, |t.log|);
  }

  lemma StepKeepsItemRemovals(s: State)
    requires ItemRemovalsKept(s) && Coupled(s)
    ensures ItemRemovalsKept(Step(s))
  {
    StepKeys(s);
    var logged := StepLogs(s);
    if logged != [] {
      StepItemEvent(s, logged[0]);
      LogKeepsItemRemovals(s, Step(s), logged[0]);
    } else {
      SilenceKeepsItemRemovals(s, Step(s));
    }
  }

  lemma SilenceKeepsItemRemovals(s: State, t: State)
    requires ItemRemovalsKept(s) && t.log == s.log
    requires KeysOnlyLeave(s, t) && (s.control.Returned? ==> t == s)
    ensures ItemRemovalsKept(t)
  {
    assert forall key :: !AddedNow(s, t, key);
  }

  lemma {:induction false} RemovedItemsStaySilent(s: State)
    requires ItemRemovalsKept(s) && Coupled(s)
    ensures ItemsStayRemoved(Run(s).log)
    decreases |s.rounds|, Rank(s.control), |s.script|, Depth(s.control), Work(s)
  {
    if !Halted(s.control) {
      StepDescends(s);
      StepKeepsItemRemovals(s);
      StepCoupled(s);
      RemovedItemsStaySilent(Step(s));
    }
  }
}

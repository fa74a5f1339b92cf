/**
 * What the log of a whole run of the loop never shows, whatever the callbacks
 * do and whatever the polls report.
 */
module LoopRuns {
  import opened PollTypes
  import opened TimerList
  import opened LoopMachine
  import opened LoopCoupling

  // ---- What one step may log, and from where to where ----

  predicate IsCall(e: Event) {
    e.Fired? || e.Handled?
  }

  predicate Refuses(e: Event) {
    IsCall(e) && !e.proceed
  }

  predicate ChangesPollSet(e: Event) {
    e.ItemAdded? || e.ItemRemovalAsked?
  }

  /** A callback has returned false (or is about to). */
  predicate Stopping(c: Control) {
    c.Leaving? || c.Returned? || c.LookupThrew? || (c.InCallback? && !c.proceed)
  }

  predicate BeforeDispatch(c: Control) {
    c.InTimers? || c.TimersDone? || (c.InCallback? && c.caller.OfTimer?)
  }

  predicate InDispatch(c: Control) {
    c.InItems? || (c.InCallback? && c.caller.OfItem?)
  }

  /** A step that logs nothing. */
  predicate Silent(s: State, t: State) {
    && t.log == s.log
    && (Stopping(s.control) ==> Stopping(t.control))
    && (BeforeDispatch(t.control) ==> BeforeDispatch(s.control) && t.rebuild == s.rebuild)
    && (InDispatch(t.control) ==> InDispatch(s.control))
  }

  /** A step that logs `e`. */
  predicate Logs(s: State, t: State, e: Event) {
    && t.log == s.log + [e]
    && (IsCall(e) || e.PollCalled? || e.DispatchBegan? ==> !Stopping(s.control))
    && (Refuses(e) || Stopping(s.control) ==> Stopping(t.control))
    && (e.DispatchBegan? ==> BeforeDispatch(s.control) && !s.rebuild)
    && (e.Handled? ==> InDispatch(s.control) && e.key in s.table)
    && (ChangesPollSet(e) && BeforeDispatch(t.control) ==> t.rebuild)
    && (BeforeDispatch(t.control) && !e.PollCalled? ==> BeforeDispatch(s.control) && (s.rebuild ==> t.rebuild))
    && (InDispatch(t.control) && !e.DispatchBegan? ==> InDispatch(s.control) && !e.PollCalled?)
  }

  lemma ServeLogs(s: State, request: Request, fromHandler: bool) returns (logged: seq<Event>)
    ensures var t := Serve(s, request, fromHandler);
            && |logged| <= 1 && t.log == s.log + logged && t.control == s.control
            && (s.rebuild ==> t.rebuild)
            && (logged != [] ==>
                  && !IsCall(logged[0]) && !logged[0].PollCalled? && !logged[0].DispatchBegan?
                  && (ChangesPollSet(logged[0]) ==> t.rebuild))
  {
    var t := Serve(s, request, fromHandler);
    if t.log == s.log {
      logged := [];
      assert s.log + [] == s.log;
    } else {
      logged := [t.log[|s.log|]];
    }
  }

  lemma CallbackLogs(s: State) returns (logged: seq<Event>)
    requires s.control.InCallback?
    ensures |logged| <= 1
    ensures logged == [] ==> Silent(s, Step(s))
    ensures logged != [] ==> Logs(s, Step(s), logged[0])
  {
    var InCallback(caller, proceed, requests) := s.control;
    if requests != [] {
      logged := ServeLogs(s.(control := InCallback(caller, proceed, requests[1..])), requests[0], caller.OfItem?);
    } else {
      logged := [];
    }
  }

  lemma TimersDoneLogs(s: State) returns (logged: seq<Event>)
    requires s.control.TimersDone?
    ensures |logged| <= 1
    ensures logged == [] ==> Silent(s, Step(s))
    ensures logged != [] ==> Logs(s, Step(s), logged[0])
  {
    logged := if Step(s).control.InItems? then [DispatchBegan] else [];
  }

  lemma InTimersLogs(s: State) returns (logged: seq<Event>)
    requires s.control.InTimers?
    ensures |logged| <= 1
    ensures logged == [] ==> Silent(s, Step(s))
    ensures logged != [] ==> Logs(s, Step(s), logged[0])
  {
    var t := Step(s);
    logged := if t.control.InCallback? then [t.log[|s.log|]] else [];
  }

  lemma InItemsLogs(s: State) returns (logged: seq<Event>)
    requires s.control.InItems?
    ensures |logged| <= 1
    ensures logged == [] ==> Silent(s, Step(s))
    ensures logged != [] ==> Logs(s, Step(s), logged[0])
  {
    var t := Step(s);
    logged := if t.control.InCallback? then [t.log[|s.log|]] else [];
  }

  lemma StepLogs(s: State) returns (logged: seq<Event>)
    ensures |logged| <= 1
    ensures logged == [] ==> Silent(s, Step(s))
    ensures logged != [] ==> Logs(s, Step(s), logged[0])
  {
    if s.control.InCallback? {
      logged := CallbackLogs(s);
    } else if s.control.InTimers? {
      logged := InTimersLogs(s);
    } else if s.control.TimersDone? {
      logged := TimersDoneLogs(s);
    } else if s.control.InItems? {
      logged := InItemsLogs(s);
    } else if s.control.AtHead? && s.rounds != [] {
      logged := [Step(s).log[|s.log|]];
    } else {
      logged := [];
    }
  }

  // ---- A callback that returns false is the last one ----

  ghost predicate StopIsFinal(log: seq<Event>) {
    forall i, j | 0 <= i < j < |log| && Refuses(log[i]) ::
      !IsCall(log[j]) && !log[j].PollCalled? && !log[j].DispatchBegan?
  }

  ghost predicate StopsInTime(s: State) {
    && StopIsFinal(s.log)
    && (forall i | 0 <= i < |s.log| && Refuses(s.log[i]) :: Stopping(s.control))
  }

  lemma LogStopsInTime(s: State, t: State, e: Event)
    requires StopsInTime(s) && Logs(s, t, e)
    ensures StopsInTime(t)
  {
    assert forall i | 0 <= i < |s.log| :: t.log[i] == s.log[i];
  }

  lemma StepStopsInTime(s: State)
    requires StopsInTime(s)
    ensures StopsInTime(Step(s))
  {
    var logged := StepLogs(s);
    if logged != [] {
      LogStopsInTime(s, Step(s), logged[0]);
    }
  }

  /** After a callback that returned false no callback runs and no poll is made. */
  lemma {:induction false} NoCallAfterRefusal(s: State)
    requires StopsInTime(s)
    ensures StopIsFinal(Run(s).log)
    decreases |s.rounds|, Rank(s.control), |s.script|, Depth(s.control), Work(s)
  {
    if !Halted(s.control) {
      StepDescends(s);
      StepStopsInTime(s);
      NoCallAfterRefusal(Step(s));
    }
  }

  // ---- Poll results are not dispatched once the poll set has changed ----

  /** A poll was called strictly between two places of the log. */
  ghost predicate PollBetween(log: seq<Event>, i: nat, k: nat) {
    exists p :: i < p < k && p < |log| && log[p].PollCalled?
  }

  lemma PollBetweenKept(log: seq<Event>, e: Event, i: nat, k: nat)
    requires k <= |log|
    ensures PollBetween(log + [e], i, k) <==> PollBetween(log, i, k)
  {
    if PollBetween(log, i, k) {
      var p :| i < p < k && p < |log| && log[p].PollCalled?;
      assert (log + [e])[p] == log[p];
    }
  }

  lemma PollBetweenNow(log: seq<Event>, e: Event, i: nat)
    requires i < |log|
    ensures PollBetween(log + [e], i, |log + [e]|) <==> PollBetween(log, i, |log|) || e.PollCalled?
  {
    var grown := log + [e];
    assert grown[|log|] == e;
    if PollBetween(grown, i, |log| + 1) {
      var p :| i < p < |log| + 1 && grown[p].PollCalled?;
      assert p < |log| ==> grown[p] == log[p];
    }
    if PollBetween(log, i, |log|) {
      var p :| i < p < |log| && log[p].PollCalled?;
      assert grown[p] == log[p];
    }
  }

  lemma PollBetweenGrows(log: seq<Event>, e: Event)
    ensures forall i: nat, k: nat | k <= |log| :: PollBetween(log + [e], i, k) <==> PollBetween(log, i, k)
    ensures forall i: nat | i < |log| ::
              PollBetween(log + [e], i, |log + [e]|) <==> PollBetween(log, i, |log|) || e.PollCalled?
  {
    forall i: nat, k: nat | k <= |log| ensures PollBetween(log + [e], i, k) <==> PollBetween(log, i, k) {
      PollBetweenKept(log, e, i, k);
    }
    forall i: nat | i < |log|
      ensures PollBetween(log + [e], i, |log + [e]|) <==> PollBetween(log, i, |log|) || e.PollCalled?
    {
      PollBetweenNow(log, e, i);
    }
  }

  /** A dispatch began before place `k` and after the last poll before it. */
  ghost predicate DispatchOpen(log: seq<Event>, k: nat) {
    exists b: nat :: b < k && b < |log| && log[b].DispatchBegan? && !PollBetween(log, b, k)
  }

  /** Every change to the poll set is followed by a poll. */
  ghost predicate ChangesPolled(log: seq<Event>, k: nat) {
    forall m: nat | m < k && m < |log| && ChangesPollSet(log[m]) :: PollBetween(log, m, k)
  }

  /** No dispatch begins after a change to the poll set without a new poll, and
      handlers are only called in a dispatch that began after the last poll. */
  ghost predicate DispatchIsFresh(log: seq<Event>) {
    && (forall j: nat | j < |log| && log[j].DispatchBegan? :: ChangesPolled(log, j))
    && (forall k: nat | k < |log| && log[k].Handled? :: DispatchOpen(log, k))
  }

  ghost predicate FreshSoFar(s: State) {
    && DispatchIsFresh(s.log)
    && (BeforeDispatch(s.control) ==> s.rebuild || ChangesPolled(s.log, |s.log|))
    && (InDispatch(s.control) ==> DispatchOpen(s.log, |s.log|))
  }

  lemma OpenAndPolledGrow(log: seq<Event>, e: Event)
    ensures forall k: nat | k <= |log| && DispatchOpen(log, k) :: DispatchOpen(log + [e], k)
    ensures forall k: nat | k <= |log| && ChangesPolled(log, k) :: ChangesPolled(log + [e], k)
    ensures (DispatchOpen(log, |log|) && !e.PollCalled?) || e.DispatchBegan? ==> DispatchOpen(log + [e], |log + [e]|)
    ensures (ChangesPolled(log, |log|) && !ChangesPollSet(e)) || e.PollCalled? ==> ChangesPolled(log + [e], |log + [e]|)
  {
    PollBetweenGrows(log, e);
    assert forall i | 0 <= i < |log| :: (log + [e])[i] == log[i];
    forall k: nat | k <= |log| && DispatchOpen(log, k) ensures DispatchOpen(log + [e], k) {
      var b: nat :| b < k && b < |log| && log[b].DispatchBegan? && !PollBetween(log, b, k);
      assert (log + [e])[b] == log[b];
    }
    if DispatchOpen(log, |log|) && !e.PollCalled? {
      var b: nat :| b < |log| && log[b].DispatchBegan? && !PollBetween(log, b, |log|);
      assert (log + [e])[b] == log[b];
    }
    if e.DispatchBegan? {
      assert (log + [e])[|log|] == e;
    }
  }

  lemma LogFresh(s: State, t: State, e: Event)
    requires FreshSoFar(s) && Logs(s, t, e)
    ensures FreshSoFar(t)
  {
    OpenAndPolledGrow(s.log, e);
    assert forall i | 0 <= i < |s.log| :: t.log[i] == s.log[i];
  }

  lemma StepFresh(s: State)
    requires FreshSoFar(s)
    ensures FreshSoFar(Step(s))
  {
    var logged := StepLogs(s);
    if logged != [] {
      LogFresh(s, Step(s), logged[0]);
    }
  }

  /** Poll results are dispatched only in iterations whose timer phase neither
      added a poll item nor asked for the removal of one. */
  lemma {:induction false} NoStaleDispatch(s: State)
    requires FreshSoFar(s)
    ensures DispatchIsFresh(Run(s).log)
    decreases |s.rounds|, Rank(s.control), |s.script|, Depth(s.control), Work(s)
  {
    if !Halted(s.control) {
      StepDescends(s);
      StepFresh(s);
      NoStaleDispatch(Step(s));
    }
  }
}

/**
 * The timer pass when callbacks reset at most the timer they are called for:
 * which of the due timers are served can be told from the list and the
 * reactions before the pass begins.
 */
module LoopOwnResets {
  import opened PollTypes
  import opened TimerList
  import opened LoopMachine
  import opened LoopCoupling
  import opened LoopRuns
  import opened LoopRemovals
  import opened LoopPasses
  import opened LoopDue

  predicate OwnRequest(request: Request, id: nat) {
    !request.AddTimer? && (request.ResetTimer? ==> request.timer == id)
  }

  /** The callback of timer `id` goes on, adds no timer and resets at most its
      own. */
  predicate MildReaction(r: Reaction, id: nat) {
    r.proceed && forall i | 0 <= i < |r.requests| :: OwnRequest(r.requests[i], id)
  }

  /** Some of the requests resets a timer. */
  predicate Resets(requests: seq<Request>) {
    exists i :: 0 <= i < |requests| && requests[i].ResetTimer?
  }

  /** How many of the first `n` timers fire: those up to the first whose callback
      resets it. */
  function FiringCount(script: seq<Reaction>, n: nat): (p: nat)
    requires n <= |script|
    ensures p <= n
    ensures forall k | 0 <= k < p - 1 :: !Resets(script[k].requests)
    ensures p < n ==> p > 0 && Resets(script[p - 1].requests)
  {
    if n == 0 then 0
    else if Resets(script[0].requests) then 1
    else 1 + FiringCount(script[1..], n - 1)
  }

  // ---- Which timers the log says have fired ----

  lemma {:induction false} FiredIdsOfSum(a: seq<Event>, b: seq<Event>)
    ensures FiredIds(a + b) == FiredIds(a) + FiredIds(b)
  {
    if b == [] {
      assert a + b == a;
    } else {
      var short := b[..|b| - 1];
      assert (a + b)[..|a + b| - 1] == a + short && (a + b)[|a + b| - 1] == b[|b| - 1];
      FiredIdsOfSum(a, short);
    }
  }

  lemma {:induction false} FiredIdsHold(log: seq<Event>, id: nat)
    ensures id in FiredIds(log) <==> exists k :: 0 <= k < |log| && log[k].Fired? && log[k].timer == id
  {
    if log != [] {
      var last, short := log[|log| - 1], log[..|log| - 1];
      FiredIdsHold(short, id);
      assert forall k | 0 <= k < |short| :: short[k] == log[k];
    }
  }

  lemma FiredLater(log: seq<Event>, from: nat, later: seq<Event>, id: nat)
    requires from <= |log| && later == log[from..]
    ensures FiredSince(log, from, id) <==> id in FiredIds(later)
  {
    FiredIdsHold(later, id);
    if FiredSince(log, from, id) {
      var k: nat :| from <= k < |log| && log[k].Fired? && log[k].timer == id;
      assert later[k - from] == log[k];
    }
    if k :| 0 <= k < |later| && later[k].Fired? && later[k].timer == id {
      assert log[from + k] == later[k];
    }
  }

  lemma FiredSinceIs(log: seq<Event>, earlier: seq<Event>, ids: seq<nat>, id: nat)
    requires earlier <= log && FiredIds(log) == FiredIds(earlier) + ids
    ensures FiredSince(log, |earlier|, id) <==> id in ids
  {
    var later := log[|earlier|..];
    FiredLater(log, |earlier|, later, id);
    SameRest(log, earlier, later, ids);
  }

  lemma SameRest(log: seq<Event>, earlier: seq<Event>, later: seq<Event>, ids: seq<nat>)
    requires log == earlier + later && FiredIds(log) == FiredIds(earlier) + ids
    ensures FiredIds(later) == ids
  {
    FiredIdsOfSum(earlier, later);
    Cancelled(FiredIds(earlier), FiredIds(later), ids);
  }

  lemma Cancelled<T>(a: seq<T>, b: seq<T>, c: seq<T>)
    requires a + b == a + c
    ensures b == c
  {
    assert b == (a + b)[|a|..] && c == (a + c)[|a|..];
  }

  /** Every timer that was reset has fired. */
  ghost predicate ResetsFired(log: seq<Event>, from: nat) {
    forall id :: ResetSince(log, from, id) ==> FiredSince(log, from, id)
  }

  lemma ResetsFiredGrows(log: seq<Event>, e: Event, from: nat)
    requires from <= |log| && ResetsFired(log, from)
    requires e.TimerWasReset? ==> FiredSince(log, from, e.timer)
    ensures ResetsFired(log + [e], from)
  {
    forall id | ResetSince(log + [e], from, id) ensures FiredSince(log + [e], from, id) {
      var k: nat :| from <= k < |log| + 1 && (log + [e])[k].TimerWasReset? && (log + [e])[k].timer == id;
      if k < |log| {
        assert ResetSince(log, from, id);
      }
      SinceGrows(log, e, from, id);
    }
  }

  // ---- One callback ----

  ghost predicate InMildCallback(s: State, from: nat) {
    && s.control.InCallback? && s.control.caller.OfTimer? && s.control.proceed
    && Coupled(s) && CallerIsLast(s) && Closes(s, from) && ResetsFired(s.log, from)
    && FiredSince(s.log, from, s.control.caller.timer)
    && forall i | 0 <= i < |s.control.requests| :: OwnRequest(s.control.requests[i], s.control.caller.timer)
  }

  /** What a request leaves alone. */
  ghost predicate CallbackGoesOn(s: State, t: State)
    requires s.control.InCallback? && s.control.requests != []
  {
    && t.control == s.control.(requests := s.control.requests[1..])
    && t.script == s.script && FiredIds(t.log) == FiredIds(s.log)
  }

  lemma EventIsNoFiring(log: seq<Event>, e: Event)
    requires !e.Fired?
    ensures FiredIds(log + [e]) == FiredIds(log)
  {
    assert (log + [e])[..|log|] == log;
  }

  lemma OwnResetRequest(s: State, from: nat)
    requires InMildCallback(s, from) && s.control.requests != [] && s.control.requests[0].ResetTimer?
    ensures var t := Step(s);
            && CallbackGoesOn(s, t) && ResetsFired(t.log, from)
            && FiredSince(t.log, from, t.control.caller.timer) && SelfReset(t.log, from)
  {
    var ResetTimer(timer, elapsed) := s.control.requests[0];
    var x := IndexOf(s.timers, timer);
    var e := TimerWasReset(timer, s.clock + elapsed + s.timers[x].delay * NS_PER_MS);
    assert Step(s).log == s.log + [e];
    EventIsNoFiring(s.log, e);
    SinceGrows(s.log, e, from, timer);
    ResetsFiredGrows(s.log, e, from);
  }

  lemma OtherRequest(s: State, from: nat)
    requires InMildCallback(s, from) && s.control.requests != [] && !s.control.requests[0].ResetTimer?
    ensures var t := Step(s);
            && CallbackGoesOn(s, t) && ResetsFired(t.log, from)
            && FiredSince(t.log, from, t.control.caller.timer)
            && t.timers == s.timers
            && (SelfReset(t.log, from) <==> SelfReset(s.log, from))
  {
    var s' := s.(control := s.control.(requests := s.control.requests[1..]));
    OtherServed(s', s.control.requests[0]);
    var t := Serve(s', s.control.requests[0], false);
    if t.log != s.log {
      OtherEvent(s.log, t.log[|s.log|], from, s.control.caller.timer);
    }
  }

  lemma OtherServed(s: State, request: Request)
    requires s.dispatching && !request.AddTimer? && !request.ResetTimer?
    ensures var t := Serve(s, request, false);
            && t.timers == s.timers && t.control == s.control && t.script == s.script
            && (t.log == s.log || (|t.log| == |s.log| + 1 && t.log == s.log + [t.log[|s.log|]]
                                   && !t.log[|s.log|].Fired? && !t.log[|s.log|].TimerWasReset?))
  {
  }

  lemma OtherEvent(log: seq<Event>, e: Event, from: nat, id: nat)
    requires from <= |log| && !e.Fired? && !e.TimerWasReset?
    requires ResetsFired(log, from) && FiredSince(log, from, id) && OwnResetsAreLast(log, from)
    ensures ResetsFired(log + [e], from) && FiredSince(log + [e], from, id)
    ensures FiredIds(log + [e]) == FiredIds(log) && (SelfReset(log + [e], from) <==> SelfReset(log, from))
  {
    EventIsNoFiring(log, e);
    SinceGrows(log, e, from, id);
    ResetsFiredGrows(log, e, from);
    SelfResetOnlyGrows(log, e, from);
  }

  lemma MildRequest(s: State, from: nat)
    requires InMildCallback(s, from) && s.control.requests != []
    ensures var t := Step(s);
            && InMildCallback(t, from) && CallbackGoesOn(s, t)
            && (s.control.requests[0].ResetTimer? ==> SelfReset(t.log, from))
            && (!s.control.requests[0].ResetTimer? ==>
                  t.timers == s.timers && (SelfReset(t.log, from) <==> SelfReset(s.log, from)))
  {
    StepCoupled(s);
    CallerStaysLast(s);
    RequestCloses(s, from);
    if s.control.requests[0].ResetTimer? {
      OwnResetRequest(s, from);
    } else {
      OtherRequest(s, from);
    }
  }

  /** The callback, up to its return: it leaves the timers alone, or has reset
      its own. */
  lemma {:induction false} MildCallback(s: State, from: nat) returns (t: State)
    requires InMildCallback(s, from)
    ensures InMildCallback(t, from) && TimerPass(s) == TimerPass(t)
    ensures t.control == s.control.(requests := []) && t.script == s.script && FiredIds(t.log) == FiredIds(s.log)
    ensures SelfReset(t.log, from) <==> SelfReset(s.log, from) || Resets(s.control.requests)
    ensures !SelfReset(t.log, from) ==> t.timers == s.timers
    decreases |s.control.requests|
  {
    var requests := s.control.requests;
    if requests == [] {
      t := s;
    } else {
      MildRequest(s, from);
      assert Resets(requests) <==> requests[0].ResetTimer? || Resets(requests[1..]) by {
        assert forall i | 0 <= i < |requests[1..]| :: requests[1..][i] == requests[i + 1];
      }
      t := MildCallback(Step(s), from);
    }
  }

  // ---- One firing ----

  ghost predicate InMildPass(s: State, from: nat) {
    s.control.InTimers? && Coupled(s) && Closes(s, from) && ResetsFired(s.log, from)
  }

  lemma MildlyFired(s: State, from: nat)
    requires InMildPass(s, from) && !SelfReset(s.log, from)
    requires s.control.position < |s.timers| && s.timers[s.control.position].when < s.control.now
    requires s.script != [] && MildReaction(s.script[0], s.timers[s.control.position].id)
    ensures InMildCallback(Fire(s), from) && !SelfReset(Fire(s).log, from)
    ensures FiredIds(Fire(s).log) == FiredIds(s.log) + [s.timers[s.control.position].id]
  {
    var e := Fired(s.timers[s.control.position].id, s.script[0].proceed);
    StepCoupled(s);
    FireCloses(s, from);
    CallerStaysLast(s);
    SinceGrows(s.log, e, from, e.timer);
    SelfResetOnlyGrows(s.log, e, from);
    ResetsFiredGrows(s.log, e, from);
    assert (s.log + [e])[..|s.log|] == s.log;
  }

  lemma MildReturn(s: State, from: nat)
    requires InMildCallback(s, from) && s.control.requests == []
    ensures InMildPass(Step(s), from) && Step(s) == AfterTimer(s) && Step(s).log == s.log
    ensures SelfReset(s.log, from) ==> Closing(Step(s))
  {
    StepCoupled(s);
    ReturnCloses(s, from);
  }

  lemma ReturnCompletes(s: State, i: nat)
    requires s.control.InCallback? && s.control.caller.OfTimer? && s.control.proceed
    requires DistinctIds(s.timers) && i < |s.timers| && s.timers[i].id == s.control.caller.timer
    ensures AfterTimer(s).timers == Completed(s.timers, i)
    ensures AfterTimer(s).control.InTimers?
    ensures AfterTimer(s).control.position == if s.timers[i].times == 1 then i else i + 1
  {
    DistinctPlaces(s.timers, i);
  }

  /** The timer has fired: it is completed in place and the next one is next,
      unless its callback has reset it, after which nothing more is due. */
  ghost predicate FiredMildly(s: State, r: State, from: nat)
    requires s.control.InTimers? && s.control.position < |s.timers| && s.script != []
  {
    && InMildPass(r, from)
    && r.control.now == s.control.now && r.control.polled == s.control.polled && r.script == s.script[1..]
    && FiredIds(r.log) == FiredIds(s.log) + [s.timers[s.control.position].id]
    && (SelfReset(r.log, from) <==> Resets(s.script[0].requests))
    && (SelfReset(r.log, from) ==> Closing(r))
    && (!SelfReset(r.log, from) ==>
          && r.timers == Completed(s.timers, s.control.position)
          && r.control.position == if s.timers[s.control.position].times == 1 then s.control.position else s.control.position + 1)
  }

  lemma MildFiring(s: State, from: nat) returns (r: State)
    requires InMildPass(s, from) && !SelfReset(s.log, from)
    requires s.control.position < |s.timers| && s.timers[s.control.position].when < s.control.now
    requires s.script != [] && MildReaction(s.script[0], s.timers[s.control.position].id)
    ensures TimerPass(s) == TimerPass(r) && FiredMildly(s, r, from)
  {
    MildlyFired(s, from);
    r := MildFiringReturns(s, Fire(s), from);
    FiringInPass(s, Fire(s), r);
  }

  lemma FiringInPass(s: State, f: State, r: State)
    requires s.control.InTimers? && s.control.position < |s.timers| && s.script != []
    requires s.timers[s.control.position].when < s.control.now
    requires f == Fire(s) && TimerPass(f) == TimerPass(r)
    ensures TimerPass(s) == TimerPass(r)
  {
    PassGoesOn(s, f, r);
  }

  lemma PassGoesOn(s: State, t: State, r: State)
    requires InPass(s) && t == Step(s) && TimerPass(t) == TimerPass(r)
    ensures TimerPass(s) == TimerPass(r)
  {
  }

  lemma MildFiringReturns(s: State, f: State, from: nat) returns (r: State)
    requires InMildPass(s, from) && s.control.position < |s.timers| && s.script != []
    requires f == Fire(s) && InMildCallback(f, from) && !SelfReset(f.log, from)
    requires FiredIds(f.log) == FiredIds(s.log) + [s.timers[s.control.position].id]
    ensures TimerPass(f) == TimerPass(r) && FiredMildly(s, r, from)
  {
    var c := MildCallback(f, from);
    FiringReturns(s, f, c, from);
    r := AfterTimer(c);
    PassGoesOn(c, r, r);
  }

  lemma FiringReturns(s: State, f: State, c: State, from: nat)
    requires InMildPass(s, from) && s.control.position < |s.timers| && s.script != []
    requires f == Fire(s) && FiredIds(f.log) == FiredIds(s.log) + [s.timers[s.control.position].id]
    requires InMildCallback(c, from) && c.control == f.control.(requests := [])
    requires c.script == f.script && FiredIds(c.log) == FiredIds(f.log)
    requires SelfReset(c.log, from) <==> Resets(f.control.requests)
    requires !SelfReset(c.log, from) ==> c.timers == s.timers
    ensures Step(c) == AfterTimer(c) && FiredMildly(s, AfterTimer(c), from)
  {
    MildReturn(c, from);
    ReturnGoesOn(s, f, c, AfterTimer(c));
    if !SelfReset(c.log, from) {
      ReturnCompletes(c, s.control.position);
    }
  }

  lemma ReturnGoesOn(s: State, f: State, c: State, r: State)
    requires s.control.InTimers? && s.control.position < |s.timers| && s.script != []
    requires f == Fire(s) && c.control == f.control.(requests := []) && c.script == f.script
    requires r == AfterTimer(c) && r.control.InTimers?
    ensures r.control.now == s.control.now && r.control.polled == s.control.polled
    ensures r.script == s.script[1..] && r.log == c.log
  {
  }

  // ---- The pass ----

  /** The pass has settled, and exactly these timers have fired in it. */
  ghost predicate MildlyPassed(s: State, r: State, from: nat, fired: seq<Timer>)
    requires s.control.InTimers?
  {
    && r.control == TimersDone(s.control.polled) && ResetsFired(r.log, from)
    && FiredIds(r.log) == FiredIds(s.log) + Ids(fired)
  }

  lemma MildPassSettles(s: State, r: State, from: nat, rest: seq<Timer>)
    requires InMildPass(s, from) && r == TimerPass(s)
    requires s.control.position < |s.timers| ==> s.timers[s.control.position].when >= s.control.now
    ensures MildlyPassed(s, r, from, rest[..0])
  {
    SettlesAt(s);
    assert Ids(rest[..0]) == [];
  }

  lemma MildPassCutShort(s: State, t: State, r: State, from: nat, rest: seq<Timer>)
    requires s.control.InTimers? && s.control.position < |s.timers| && s.script != []
    requires FiredMildly(s, t, from) && SelfReset(t.log, from) && r == TimerPass(t)
    requires rest != [] && rest[0] == s.timers[s.control.position]
    ensures MildlyPassed(s, r, from, rest[..1])
  {
    SettlesAt(t);
    assert Ids(rest[..1]) == [rest[0].id];
  }

  /** The pass is in front of `rest`, and the next `n` timers are due. */
  ghost predicate MildAhead(s: State, done: seq<Timer>, rest: seq<Timer>, n: nat, from: nat) {
    && InMildPass(s, from) && !SelfReset(s.log, from)
    && s.timers == done + rest && s.control.position == |done|
    && n == DueCount(rest, s.control.now) && n <= |s.script|
    && forall k | 0 <= k < n :: MildReaction(s.script[k], rest[k].id)
  }

  lemma FirstAhead(s: State, done: seq<Timer>, rest: seq<Timer>, n: nat, from: nat) returns (t: State)
    requires MildAhead(s, done, rest, n, from) && n > 0
    ensures |done| < |s.timers| && s.timers[|done|] == rest[0] && n <= |rest|
    ensures TimerPass(s) == TimerPass(t) && FiredMildly(s, t, from)
  {
    t := MildFiring(s, from);
  }

  lemma NextAhead(s: State, t: State, done: seq<Timer>, rest: seq<Timer>, n: nat, from: nat)
    requires MildAhead(s, done, rest, n, from) && n > 0
    requires FiredMildly(s, t, from) && !SelfReset(t.log, from)
    ensures MildAhead(t, done + Survivors(rest[..1]), rest[1..], n - 1, from)
    ensures FiringCount(s.script, n) == 1 + FiringCount(t.script, n - 1)
  {
    CompletedSplit(done, rest);
  }

  lemma {:induction false} MildPassFrom(s: State, r: State, done: seq<Timer>, rest: seq<Timer>, n: nat, from: nat)
    requires MildAhead(s, done, rest, n, from) && r == TimerPass(s)
    ensures MildEnd(s, r, rest, n, from)
    decreases n
  {
    if n == 0 {
      MildPassSettles(s, r, from, rest);
    } else {
      var t := FirstAhead(s, done, rest, n, from);
      if SelfReset(t.log, from) {
        MildPassCutShort(s, t, r, from, rest);
      } else {
        NextAhead(s, t, done, rest, n, from);
        MildPassFrom(t, r, done + Survivors(rest[..1]), rest[1..], n - 1, from);
        MildlyExtended(s, t, r, done, rest, n, from);
      }
    }
  }

  /** The pass has ended, with the firings up to the first own reset. */
  ghost predicate MildEnd(s: State, r: State, rest: seq<Timer>, n: nat, from: nat)
    requires s.control.InTimers? && n <= |rest| && n <= |s.script|
  {
    MildlyPassed(s, r, from, rest[..FiringCount(s.script, n)])
  }

  lemma MildlyExtended(s: State, t: State, r: State, done: seq<Timer>, rest: seq<Timer>, n: nat, from: nat)
    requires MildAhead(s, done, rest, n, from) && n > 0 && n <= |rest| && rest[0] == s.timers[s.control.position]
    requires FiredMildly(s, t, from) && !SelfReset(t.log, from) && n - 1 <= |t.script|
    requires MildEnd(t, r, rest[1..], n - 1, from)
    ensures MildEnd(s, r, rest, n, from)
  {
    var p := FiringCount(t.script, n - 1);
    assert Ids(rest[..p + 1]) == [rest[0].id] + Ids(rest[1..][..p]);
  }

  /** The callbacks of the timers that are due are mild. */
  ghost predicate MildToTheEnd(s: State)
    requires s.control.InTimers?
  {
    var n := DueCount(s.timers, s.control.now);
    n <= |s.script| && forall k | 0 <= k < n :: MildReaction(s.script[k], s.timers[k].id)
  }

  /** The pass, when callbacks go on, add no timer and reset at most their own: it
      settles, and the due timers fire in order, each once, up to the first that
      resets itself. */
  lemma MildPass(s: State)
    requires Coupled(s) && s.control.InTimers? && s.control.position == 0 && s.control.now <= s.clock
    requires MildToTheEnd(s)
    ensures var n := DueCount(s.timers, s.control.now);
            MildlyPassed(s, TimerPass(s), |s.log|, s.timers[..FiringCount(s.script, n)])
  {
    MildPassFromStart(s, TimerPass(s), DueCount(s.timers, s.control.now));
  }

  lemma BeginsMildly(s: State)
    requires Coupled(s) && s.control.InTimers? && s.control.now <= s.clock
    ensures InMildPass(s, |s.log|) && !SelfReset(s.log, |s.log|)
  {
  }

  lemma MildPassFromStart(s: State, r: State, n: nat)
    requires Coupled(s) && s.control.InTimers? && s.control.position == 0 && s.control.now <= s.clock
    requires r == TimerPass(s) && n == DueCount(s.timers, s.control.now) && n <= |s.script|
    requires forall k | 0 <= k < n :: MildReaction(s.script[k], s.timers[k].id)
    ensures MildlyPassed(s, r, |s.log|, s.timers[..FiringCount(s.script, n)])
  {
    BeginsMildly(s);
    assert s.timers == [] + s.timers;
    MildPassFrom(s, r, [], s.timers, n, |s.log|);
  }

  lemma InFront(ts: seq<Timer>, p: nat, i: nat)
    requires DistinctIds(ts) && p <= |ts| && i < |ts|
    ensures ts[i].id in Ids(ts[..p]) <==> i < p
  {
    if i < p {
      assert Ids(ts[..p])[i] == ts[i].id;
    }
  }

  /** None of the first `i` reactions resets a timer. */
  ghost predicate NoneResets(script: seq<Reaction>, i: int)
    requires i <= |script|
  {
    forall k | 0 <= k < i :: !Resets(script[k].requests)
  }

  lemma CutShortIs(script: seq<Reaction>, n: nat, i: nat)
    requires i < n <= |script|
    ensures i < FiringCount(script, n) <==> NoneResets(script, i)
  {
    var p := FiringCount(script, n);
    assert p <= i ==> Resets(script[p - 1].requests);
  }

  ghost predicate FiredOrReset(log: seq<Event>, from: nat, id: nat) {
    FiredSince(log, from, id) || ResetSince(log, from, id)
  }

  /** In that pass the i-th due timer is served exactly when no callback of the
      ones before it resets its own timer. */
  lemma ServedUnlessCutShort(s: State, i: nat)
    requires Coupled(s) && s.control.InTimers? && s.control.position == 0 && s.control.now <= s.clock
    requires MildToTheEnd(s) && i < DueCount(s.timers, s.control.now)
    ensures FiredOrReset(TimerPass(s).log, |s.log|, s.timers[i].id) <==> NoneResets(s.script, i)
  {
    var p := FiringCount(s.script, DueCount(s.timers, s.control.now));
    MildPass(s);
    PassGrowsLog(s);
    FiredSinceIs(TimerPass(s).log, s.log, Ids(s.timers[..p]), s.timers[i].id);
    InFront(s.timers, p, i);
    CutShortIs(s.script, DueCount(s.timers, s.control.now), i);
  }

  lemma DueAreFront(s: State, i: nat)
    requires s.control.InTimers? && Sorted(s.timers)
    ensures IsDue(s, i) <==> i < DueCount(s.timers, s.control.now)
  {
    var n := DueCount(s.timers, s.control.now);
    assert n <= i < |s.timers| ==> s.timers[n].when <= s.timers[i].when;
  }

  /** All due timers, `n` of them, are served exactly when no callback but the last
      one's resets its own timer. `log` is the one of the pass. */
  lemma AllServedUnlessCutShort(s: State, log: seq<Event>, n: nat)
    requires Coupled(s) && s.control.InTimers? && s.control.position == 0 && s.control.now <= s.clock
    requires Sorted(s.timers) && MildToTheEnd(s) && log == TimerPass(s).log && n == DueCount(s.timers, s.control.now)
    ensures AllDueServed(s, log) <==> NoneResets(s.script, n - 1)
  {
    if n > 0 {
      ServedUnlessCutShort(s, n - 1);
      DueAreFront(s, n - 1);
    }
    if NoneResets(s.script, n - 1) {
      forall i: nat | IsDue(s, i) ensures FiredOrReset(log, |s.log|, s.timers[i].id) {
        DueAreFront(s, i);
        ServedUnlessCutShort(s, i);
      }
    }
  }
}

/**
 * One dispatch of poll results to the handlers, and what a loop that was
 * stopped by a timer leaves behind.
 */
module LoopDispatch {
  import opened PollTypes
  import opened TimerList
  import opened LoopMachine
  import opened LoopCoupling
  import opened LoopRuns
  import opened LoopPasses

  /** The handlers that were called, in order. */
  function HandlersCalled(log: seq<Event>): seq<(Key, nat)> {
    if log == [] then []
    else
      var last := log[|log| - 1];
      HandlersCalled(log[..|log| - 1]) + if last.Handled? then [(last.key, last.handler)] else []
  }

  ghost predicate InItemPass(s: State) {
    s.control.InItems? || (s.control.InCallback? && s.control.caller.OfItem?)
  }

  /** The handlers still to be called if nobody stops the loop. */
  function StillToCall(s: State): seq<(Key, nat)>
    requires s.control.InItems? || (s.control.InCallback? && s.control.caller.OfItem?)
  {
    var next := if s.control.InItems? then s.control.position else s.control.caller.position + 1;
    if next <= |s.items| then ReadyHandlers(s.items[next..], s.table) else []
  }

  lemma ServedHandler(s: State, request: Request)
    requires s.dispatching
    ensures var r := Serve(s, request, true);
            r.items == s.items && r.table == s.table && HandlersCalled(r.log) == HandlersCalled(s.log)
  {
    var logged := ServeLogs(s, request, true);
    NoneCalled(s.log, logged);
  }

  lemma NoneCalled(log: seq<Event>, logged: seq<Event>)
    requires |logged| <= 1 && forall e | e in logged :: !e.Handled?
    ensures HandlersCalled(log + logged) == HandlersCalled(log)
  {
    if logged == [] {
      assert log + logged == log;
    } else {
      assert (log + logged)[..|log|] == log;
    }
  }

  lemma HandlerCallback(s: State)
    requires Coupled(s) && s.control.InCallback? && s.control.caller.OfItem?
    ensures HandlersCalled(Step(s).log) == HandlersCalled(s.log)
    ensures InItemPass(Step(s)) ==> StillToCall(Step(s)) == StillToCall(s)
    ensures !InItemPass(Step(s)) ==> Step(s).control.Leaving?
  {
    if s.control.requests != [] {
      HandlerRequest(s);
    }
  }

  lemma HandlerRequest(s: State)
    requires s.dispatching && s.control.InCallback? && s.control.caller.OfItem? && s.control.requests != []
    ensures HandlersCalled(Step(s).log) == HandlersCalled(s.log)
    ensures InItemPass(Step(s)) && StillToCall(Step(s)) == StillToCall(s)
  {
    var rest := s.(control := s.control.(requests := s.control.requests[1..]));
    ServeFrame(rest, s.control.requests[0], true);
    ServedHandler(rest, s.control.requests[0]);
  }

  lemma CalledNext(log: seq<Event>, e: Event, rest: seq<(Key, nat)>)
    requires e.Handled?
    ensures HandlersCalled(log + [e]) == HandlersCalled(log) + [(e.key, e.handler)]
    ensures HandlersCalled(log) + ([(e.key, e.handler)] + rest) == HandlersCalled(log + [e]) + rest
  {
    assert (log + [e])[..|log|] == log;
  }

  lemma HandlerVisit(s: State)
    requires s.control.InItems? && s.control.position < |s.items|
    requires s.items[s.control.position].item.key in s.table
    ensures var r := Visit(s);
            if r.control.CutOff? then r.log == s.log
            else InItemPass(r) && HandlersCalled(s.log) + StillToCall(s) == HandlersCalled(r.log) + StillToCall(r)
  {
    var p := s.control.position;
    var e := s.items[p];
    ReadySplits(s.items, s.table, p);
    var rest := ReadyHandlers(s.items[p + 1..], s.table);
    if Ready(s.table[e.item.key].revents) {
      if s.script != [] {
        CalledNext(s.log, Handled(e.item.key, e.handler, s.script[0].proceed), rest);
      }
    } else {
      assert [] + rest == rest;
    }
  }

  lemma {:induction false} DispatchFrom(s: State)
    requires Coupled(s) && InItemPass(s)
    ensures var r := ItemPass(s);
            && HandlersCalled(r.log) <= HandlersCalled(s.log) + StillToCall(s)
            && (r.control.ItemsDone? ==> HandlersCalled(r.log) == HandlersCalled(s.log) + StillToCall(s))
    decreases |s.rounds|, Rank(s.control), |s.script|, Depth(s.control), Work(s)
  {
    var t := Step(s);
    StepDescends(s);
    StepCoupled(s);
    if s.control.InCallback? {
      HandlerCallback(s);
    } else if s.control.position < |s.items| {
      assert s.items[s.control.position].item.key in Keys(s.items);
      HandlerVisit(s);
    }
    if InItemPass(t) {
      DispatchFrom(t);
    } else {
      assert ItemPass(t) == t;
    }
  }

  /** A dispatch calls exactly the handlers with events at its start, each once
      and in the order they were added, whatever removals they ask for; stopped
      by a handler, it has called the first of them. */
  lemma DispatchInOrder(s: State)
    requires Coupled(s) && s.control == InItems(0)
    ensures var r := ItemPass(s);
            && HandlersCalled(r.log) <= HandlersCalled(s.log) + ReadyHandlers(s.items, s.table)
            && (r.control.ItemsDone? ==>
                  HandlersCalled(r.log) == HandlersCalled(s.log) + ReadyHandlers(s.items, s.table))
  {
    assert s.items[0..] == s.items;
    DispatchFrom(s);
  }

  // ---- A timer pass that a callback stops ----

  /** What a pass leaves that the `n`-th of the due timers in `rest` stops: that
      many have fired, the survivors among them have moved on where they stand,
      and the list is not sorted again. */
  ghost predicate StoppedQuietly(s: State, r: State, done: seq<Timer>, rest: seq<Timer>, n: nat)
    requires n <= |rest| && n <= |s.script|
  {
    && r.control == Leaving
    && r.script == s.script[n..]
    && FiredIds(r.log) == FiredIds(s.log) + Ids(rest[..n])
    && r.timers == done + Survivors(rest[..n]) + rest[n..]
  }

  predicate QuietRefusal(r: Reaction) {
    !r.proceed && forall i | 0 <= i < |r.requests| :: Quiet(r.requests[i])
  }

  lemma RefusedFiring(s: State)
    requires s.control.InTimers? && s.dispatching && IdsIssued(s)
    requires s.control.position < |s.timers| && s.timers[s.control.position].when < s.control.now
    requires s.script != [] && QuietRefusal(s.script[0])
    ensures var r := TimerPass(s);
            && r.control == Leaving && r.script == s.script[1..]
            && r.timers == Completed(s.timers, s.control.position)
            && FiredIds(r.log) == FiredIds(s.log) + [s.timers[s.control.position].id]
  {
    var f := Fire(s);
    assert f.log[..|f.log| - 1] == s.log;
    var c := QuietCallback(f);
    assert IndexOf(c.timers, s.timers[s.control.position].id) == s.control.position;
    assert TimerPass(Step(c)) == Step(c);
  }

  lemma StopExtends(s: State, t: State, r: State, done: seq<Timer>, rest: seq<Timer>, n: nat)
    requires 0 < n <= |rest| && n <= |s.script| && t.script == s.script[1..]
    requires FiredIds(t.log) == FiredIds(s.log) + [rest[0].id]
    requires StoppedQuietly(t, r, done + Survivors(rest[..1]), rest[1..], n - 1)
    ensures StoppedQuietly(s, r, done, rest, n)
  {
    FrontSplits(done, rest, n);
    Regroup(FiredIds(s.log), [rest[0].id], Ids(rest[1..][..n - 1]));
    assert s.script[1..][n - 1..] == s.script[n..];
  }

  lemma StopsAtFirst(s: State, r: State, done: seq<Timer>, rest: seq<Timer>)
    requires InFrontOf(s, done, rest) && r == TimerPass(s)
    requires rest != [] && rest[0].when < s.control.now && s.script != [] && QuietRefusal(s.script[0])
    ensures StoppedQuietly(s, r, done, rest, 1)
  {
    CompletedSplit(done, rest);
    RefusedFiring(s);
    assert Ids(rest[..1]) == [rest[0].id];
  }

  lemma {:induction false} StoppedFrom(s: State, r: State, done: seq<Timer>, rest: seq<Timer>, n: nat)
    requires InFrontOf(s, done, rest) && r == TimerPass(s)
    requires 0 < n <= DueCount(rest, s.control.now) && n <= |s.script|
    requires (forall k | 0 <= k < n - 1 :: QuietReaction(s.script[k])) && QuietRefusal(s.script[n - 1])
    ensures StoppedQuietly(s, r, done, rest, n)
    decreases n
  {
    if n == 1 {
      StopsAtFirst(s, r, done, rest);
    } else {
      var t := QuietNext(s, done, rest);
      StoppedFrom(t, r, done + Survivors(rest[..1]), rest[1..], n - 1);
      StopExtends(s, t, r, done, rest, n);
    }
  }

  /** A pass whose n-th due timer stops it after quiet callbacks: the timers
      behind do not fire, and the list is left in the order it has. */
  lemma StoppedPassLeaves(s: State, n: nat)
    requires Coupled(s) && s.control.InTimers? && s.control.position == 0
    requires 0 < n <= DueCount(s.timers, s.control.now) && n <= |s.script|
    requires (forall k | 0 <= k < n - 1 :: QuietReaction(s.script[k])) && QuietRefusal(s.script[n - 1])
    ensures StoppedQuietly(s, TimerPass(s), [], s.timers, n)
  {
    assert [] + s.timers == s.timers;
    StoppedFrom(s, TimerPass(s), [], s.timers, n);
  }

  /** The deadline of a timer after one more firing. */
  function Later(t: Timer): int {
    t.when + t.delay * NS_PER_MS
  }

  /** When the timers in `fired` move on, except those used up, none of them
      overtakes one behind it or the front of `rest`. */
  ghost predicate MovesInOrder(fired: seq<Timer>, rest: seq<Timer>) {
    && (forall i, j | 0 <= i < j < |fired| && fired[i].times != 1 && fired[j].times != 1 ::
          Later(fired[i]) <= Later(fired[j]))
    && (rest != [] ==> forall i | 0 <= i < |fired| && fired[i].times != 1 :: Later(fired[i]) <= rest[0].when)
  }

  /** A timer callback that returns false leaves before the list is sorted
      again. After n firings the list is in order exactly when no timer that
      fired and goes on has overtaken one behind it. */
  lemma StoppedPass(s: State, n: nat)
    requires Coupled(s) && s.control.InTimers? && s.control.position == 0 && Sorted(s.timers)
    requires 0 < n <= DueCount(s.timers, s.control.now) && n <= |s.script|
    requires (forall k | 0 <= k < n - 1 :: QuietReaction(s.script[k])) && QuietRefusal(s.script[n - 1])
    ensures TimerPass(s).control == Leaving
    ensures Sorted(TimerPass(s).timers) <==> MovesInOrder(s.timers[..n], s.timers[n..])
  {
    StoppedPassLeaves(s, n);
    LeftInOrder(s.timers, TimerPass(s).timers, n);
  }

  lemma LeftInOrder(ts: seq<Timer>, us: seq<Timer>, n: nat)
    requires Sorted(ts) && n <= |ts| && us == [] + Survivors(ts[..n]) + ts[n..]
    ensures Sorted(us) <==> MovesInOrder(ts[..n], ts[n..])
  {
    assert us == Survivors(ts[..n]) + ts[n..];
    MovedOnInOrder(ts[..n], ts[n..]);
  }

  lemma {:induction false} SurvivorsNotBefore(ts: seq<Timer>, when: int)
    ensures (forall u | u in Survivors(ts) :: when <= u.when) <==>
            (forall i | 0 <= i < |ts| && ts[i].times != 1 :: when <= Later(ts[i]))
  {
    if ts != [] {
      SurvivorsNotBefore(ts[1..], when);
      assert forall i | 0 < i < |ts| :: ts[i] == ts[1..][i - 1];
      var first := if ts[0].times == 1 then [] else Survivors(ts)[..1];
      assert Survivors(ts) == first + Survivors(ts[1..]);
      if ts[0].times != 1 {
        assert Survivors(ts)[0].when == Later(ts[0]);
        assert Survivors(ts)[0] in Survivors(ts);
      }
      if forall i | 0 <= i < |ts| && ts[i].times != 1 :: when <= Later(ts[i]) {
        assert forall i | 0 <= i < |ts[1..]| :: ts[1..][i] == ts[i + 1];
      }
    }
  }

  lemma NothingBefore(fired: seq<Timer>, rest: seq<Timer>, when: int)
    requires Sorted(rest)
    ensures (forall u | u in Survivors(fired) + rest :: when <= u.when) <==>
            && (forall j | 0 <= j < |fired| && fired[j].times != 1 :: when <= Later(fired[j]))
            && (rest != [] ==> when <= rest[0].when)
  {
    SurvivorsNotBefore(fired, when);
    var all := Survivors(fired) + rest;
    assert forall u :: u in all <==> u in Survivors(fired) || u in rest;
    if rest != [] {
      assert rest[0] in rest;
      assert when <= rest[0].when ==> forall u | u in rest :: when <= u.when;
    }
  }

  function MovedOn(t: Timer): seq<Timer> {
    if t.times == 1 then []
    else [t.(times := if t.times == 0 then 0 else t.times - 1, when := Later(t))]
  }

  lemma FirstSurvives(fired: seq<Timer>, rest: seq<Timer>)
    requires fired != []
    ensures Survivors(fired) + rest == MovedOn(fired[0]) + (Survivors(fired[1..]) + rest)
  {
    FirstSurvivor(fired);
    Regroup(MovedOn(fired[0]), Survivors(fired[1..]), rest);
  }

  lemma FirstSurvivor(fired: seq<Timer>)
    requires fired != []
    ensures Survivors(fired) == MovedOn(fired[0]) + Survivors(fired[1..])
  {
  }

  lemma FirstMovesOn(t: Timer, behind: seq<Timer>)
    ensures Sorted(MovedOn(t) + behind) <==>
            Sorted(behind) && (t.times != 1 ==> forall u | u in behind :: Later(t) <= u.when)
  {
    if t.times == 1 {
      assert MovedOn(t) + behind == behind;
    } else {
      SortedFirst(MovedOn(t)[0], behind);
    }
  }

  lemma {:induction false} MovedOnInOrder(fired: seq<Timer>, rest: seq<Timer>)
    requires Sorted(rest)
    ensures Sorted(Survivors(fired) + rest) <==> MovesInOrder(fired, rest)
  {
    if fired == [] {
      assert Survivors(fired) + rest == rest;
    } else {
      MovedOnInOrder(fired[1..], rest);
      FirstMoves(fired, rest);
      FirstSurvives(fired, rest);
      FirstMovesOn(fired[0], Survivors(fired[1..]) + rest);
      NothingBefore(fired[1..], rest, Later(fired[0]));
    }
  }

  lemma FirstMoves(fired: seq<Timer>, rest: seq<Timer>)
    requires fired != []
    ensures MovesInOrder(fired, rest) <==>
            && MovesInOrder(fired[1..], rest)
            && (fired[0].times != 1 ==>
                  && (forall j | 0 <= j < |fired[1..]| && fired[1..][j].times != 1 :: Later(fired[0]) <= Later(fired[1..][j]))
                  && (rest != [] ==> Later(fired[0]) <= rest[0].when))
  {
    assert forall i | 0 <= i < |fired[1..]| :: fired[1..][i] == fired[i + 1];
    assert forall i | 0 < i < |fired| :: fired[i] == fired[1..][i - 1];
  }

  lemma SortedFirst(t: Timer, ts: seq<Timer>)
    ensures Sorted([t] + ts) <==> Sorted(ts) && forall u | u in ts :: t.when <= u.when
  {
    var all := [t] + ts;
    assert forall i | 0 < i < |all| :: all[i] == ts[i - 1];
    if Sorted(all) {
      assert forall i | 0 <= i < |ts| :: ts[i] == all[i + 1] && all[0].when <= all[i + 1].when;
    }
  }

  /** No clock is read in a pass whose callbacks leave the timers alone. */
  lemma {:induction false} QuietPassStandsStill(s: State, n: nat)
    requires Coupled(s) && s.control.InTimers? && n <= |s.script|
    requires forall k | 0 <= k < n :: forall i | 0 <= i < |s.script[k].requests| :: Quiet(s.script[k].requests[i])
    requires 0 < n && (forall k | 0 <= k < n - 1 :: s.script[k].proceed) && !s.script[n - 1].proceed
    ensures TimerPass(s).clock == s.clock
    decreases n
  {
    if s.control.position < |s.timers| && s.timers[s.control.position].when < s.control.now {
      var r := QuietlyFired(s);
      if s.script[0].proceed {
        QuietPassStandsStill(r, n - 1);
      } else {
        assert TimerPass(r) == r;
      }
    } else {
      assert TimerPass(Step(s)) == Step(s);
    }
  }

  lemma QuietlyFired(s: State) returns (r: State)
    requires Coupled(s) && s.control.InTimers? && s.script != []
    requires s.control.position < |s.timers| && s.timers[s.control.position].when < s.control.now
    requires forall i | 0 <= i < |s.script[0].requests| :: Quiet(s.script[0].requests[i])
    ensures Coupled(r) && TimerPass(r) == TimerPass(s) && r.clock == s.clock && r.script == s.script[1..]
    ensures if s.script[0].proceed then r.control.InTimers? else r.control.Leaving?
  {
    StepCoupled(s);
    var c := QuietClock(Fire(s));
    StepCoupled(c);
    r := Step(c);
  }

  lemma {:induction false} QuietClock(s: State) returns (r: State)
    requires Coupled(s) && s.control.InCallback? && s.control.caller.OfTimer?
    requires forall i | 0 <= i < |s.control.requests| :: Quiet(s.control.requests[i])
    ensures Coupled(r) && TimerPass(r) == TimerPass(s) && r.clock == s.clock && r.script == s.script
    ensures r.control == s.control.(requests := [])
    decreases |s.control.requests|
  {
    if s.control.requests == [] {
      r := s;
    } else {
      StepCoupled(s);
      ServeFrame(s.(control := s.control.(requests := s.control.requests[1..])), s.control.requests[0], false);
      r := QuietClock(Step(s));
    }
  }

  /** From the list that such a pass leaves, no later poll sleeps past a deadline
      exactly when the front leaves no time to sleep or none of the timers is due
      before it. */
  lemma StoppedPassOversleeps(s: State, n: nat)
    requires Coupled(s) && s.control.InTimers? && s.control.position == 0
    requires 0 < n <= DueCount(s.timers, s.control.now) && n <= |s.script|
    requires (forall k | 0 <= k < n - 1 :: QuietReaction(s.script[k])) && QuietRefusal(s.script[n - 1])
    ensures var r, kept := TimerPass(s), Survivors(s.timers[..n]) + s.timers[n..];
            NeverOversleeps(r.timers, r.clock) <==> FrontDecides(kept, s.clock)
  {
    StoppedPassLeaves(s, n);
    QuietPassStandsStill(s, n);
    LeftOversleeps(s.timers, TimerPass(s).timers, n, s.clock);
  }

  lemma LeftOversleeps(ts: seq<Timer>, us: seq<Timer>, n: nat, clock: int)
    requires n <= |ts| && us == [] + Survivors(ts[..n]) + ts[n..]
    ensures NeverOversleeps(us, clock) <==> FrontDecides(Survivors(ts[..n]) + ts[n..], clock)
  {
    assert us == Survivors(ts[..n]) + ts[n..];
    OversleepsUnlessFrontFirst(us, clock);
  }

  lemma StoppedAtFirst(s: State)
    requires Coupled(s) && s.control.InTimers? && s.control.position == 0 && NothingPending(s)
    requires s.timers != [] && s.timers[0].when < s.control.now
    requires s.script != [] && s.script[0] == Reaction(false, [])
    ensures var r := TimerPass(s);
            && r.control == Leaving && r.timers == Completed(s.timers, 0) && NothingPending(r) && r.clock == s.clock
  {
    var f := Fire(s);
    assert IndexOf(f.timers, s.timers[0].id) == 0;
    assert TimerPass(s) == TimerPass(f) == AfterTimer(f);
  }

  lemma LeftTimers(s: State)
    requires s.control.Leaving? && NothingPending(s)
    ensures Run(s).control.Returned? && Run(s).timers == s.timers && Run(s).clock == s.clock
  {
    var r := Step(s);
    assert PendingTimers(s.(dispatching := false)) == {};
    NoneGone(s.timers);
    assert Run(s) == Run(r) == r;
  }

  /** A run that its first timer stops returns with that timer moved on in place.
      From this list no later poll oversleeps exactly when the timer is used up,
      alone, not due after the next one, or due within a millisecond. */
  lemma StoppedRunOversleeps(s: State)
    requires Coupled(s) && s.control.InTimers? && s.control.position == 0 && NothingPending(s)
    requires Sorted(s.timers) && s.timers != [] && s.timers[0].when < s.control.now
    requires s.script != [] && s.script[0] == Reaction(false, [])
    ensures Run(s).control.Returned?
    ensures NeverOversleeps(Run(s).timers, Run(s).clock) <==>
            || s.timers[0].times == 1 || |s.timers| == 1
            || Later(s.timers[0]) <= s.timers[1].when || Later(s.timers[0]) - NS_PER_MS < s.clock
  {
    StoppedAtFirst(s);
    RunContinues(s);
    LeftTimers(TimerPass(s));
    var us := Run(s).timers;
    OversleepsUnlessFrontFirst(us, s.clock);
    CompletedFront(s.timers, us);
    assert s.timers[0].times != 1 ==> us[0].when == Later(s.timers[0]);
  }

  lemma CompletedFront(ts: seq<Timer>, us: seq<Timer>)
    requires ts != [] && Sorted(ts) && us == Completed(ts, 0)
    ensures (forall u | u in us :: us[0].when <= u.when) <==>
            ts[0].times == 1 || |ts| == 1 || Later(ts[0]) <= ts[1].when
  {
    if ts[0].times == 1 {
      assert us == ts[1..];
      forall u | u in us ensures us[0].when <= u.when {
        var j :| 0 <= j < |us| && us[j] == u;
        assert us[0] == ts[1] && us[j] == ts[j + 1];
      }
    } else {
      assert us[0].when == Later(ts[0]);
      forall u | u in us ensures u == us[0] || (|ts| > 1 && ts[1].when <= u.when) {
        var j :| 0 <= j < |us| && us[j] == u;
        assert j > 0 ==> us[j] == ts[j];
      }
      if |ts| > 1 {
        assert us[1] == ts[1] && us[1] in us;
      }
    }
  }

  /** It happens: a run that begins with a sorted list, and stops at its first
      timer, returns with a list from which the next poll can sleep for ten
      seconds although a timer is due after five. */
  lemma RestartCanOversleep() returns (s: State)
    ensures AtRest(s) && s.control.AtHead? && s.log == [] && Sorted(s.timers)
    ensures Run(s).control.Returned? && !NeverOversleeps(Run(s).timers, Run(s).clock)
  {
    var fired, other := Timer(0, 0, 10_000, 0), Timer(1, 0, 5_000, 5_000 * NS_PER_MS);
    s := State(AtHead, [], map[], [fired, other], [], [], [], false, false, 0, 2,
               [Reaction(false, [])], [Round(0, 0, Reported(map[]), 1)], []);
    assert Keys(s.items) == {};
    var t := FirstPass(s);
    StoppedRunOversleeps(t);
  }

  /** An iteration of a loop with timers only and nothing pending. */
  lemma FirstPass(s: State) returns (t: State)
    requires s.control.AtHead? && Coupled(s) && NothingPending(s) && s.items == [] && s.table == map[]
    requires s.rounds != [] && !s.rounds[0].outcome.Failed?
    ensures Coupled(t) && t.timers == s.timers && t.script == s.script && NothingPending(t)
    ensures t.clock == s.clock + s.rounds[0].first + s.rounds[0].second + s.rounds[0].third
    ensures t.control.InTimers? && t.control.position == 0 && t.control.now == t.clock
    ensures Run(s) == Run(t)
  {
    t := Head(s);
    StepCoupled(s);
    assert Pending(s) == {} && PendingTimers(s) == {};
    NoneGone(s.timers);
  }
}

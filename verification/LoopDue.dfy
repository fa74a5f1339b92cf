/**
 * The timer pass when callbacks add, remove and reset timers: no due timer is
 * forgotten and no timer added on the way fires too early, except that a
 * callback which resets its own timer ends the pass.
 */
module LoopDue {
  import opened PollTypes
  import opened TimerList
  import opened LoopMachine
  import opened LoopCoupling
  import opened LoopRuns
  import opened LoopRemovals
  import opened LoopTimers

  /** The last timer that fired before place `k`. */
  function LastFired(log: seq<Event>, k: nat): int
    requires k <= |log|
  {
    if k == 0 then -1
    else if log[k - 1].Fired? then log[k - 1].timer
    else LastFired(log, k - 1)
  }

  /** At place `k` a callback reset the timer it was called for. */
  ghost predicate OwnResetAt(log: seq<Event>, k: nat) {
    k < |log| && log[k].TimerWasReset? && log[k].timer == LastFired(log, k)
  }

  ghost predicate SelfReset(log: seq<Event>, from: nat) {
    exists k: nat :: from <= k && OwnResetAt(log, k)
  }

  ghost predicate FiredSince(log: seq<Event>, from: nat, id: nat) {
    exists k: nat :: from <= k < |log| && log[k].Fired? && log[k].timer == id
  }

  ghost predicate ResetSince(log: seq<Event>, from: nat, id: nat) {
    exists k: nat :: from <= k < |log| && log[k].TimerWasReset? && log[k].timer == id
  }

  lemma {:induction false} LastFiredKept(log: seq<Event>, e: Event, k: nat)
    requires k <= |log|
    ensures LastFired(log + [e], k) == LastFired(log, k)
  {
    if k > 0 {
      LastFiredKept(log, e, k - 1);
    }
  }

  lemma SinceGrows(log: seq<Event>, e: Event, from: nat, id: nat)
    requires from <= |log|
    ensures FiredSince(log, from, id) || (e.Fired? && e.timer == id) ==> FiredSince(log + [e], from, id)
    ensures ResetSince(log, from, id) || (e.TimerWasReset? && e.timer == id) ==> ResetSince(log + [e], from, id)
    ensures SelfReset(log, from) || (e.TimerWasReset? && e.timer == LastFired(log, |log|)) ==> SelfReset(log + [e], from)
    ensures LastFired(log + [e], |log + [e]|) == if e.Fired? then e.timer else LastFired(log, |log|)
  {
    var grown := log + [e];
    assert grown[|log|] == e;
    LastFiredKept(log, e, |log|);
    if FiredSince(log, from, id) {
      var k: nat :| from <= k < |log| && log[k].Fired? && log[k].timer == id;
      assert grown[k] == log[k];
    }
    if ResetSince(log, from, id) {
      var k: nat :| from <= k < |log| && log[k].TimerWasReset? && log[k].timer == id;
      assert grown[k] == log[k];
    }
    if SelfReset(log, from) {
      var k: nat :| from <= k && OwnResetAt(log, k);
      LastFiredKept(log, e, k);
      assert OwnResetAt(grown, k);
    }
    if e.TimerWasReset? && e.timer == LastFired(log, |log|) {
      assert OwnResetAt(grown, |log|);
    }
  }

  /** The list is in deadline order from place `i` on. */
  ghost predicate SortedFrom(ts: seq<Timer>, i: nat) {
    forall j, k | i <= j < k < |ts| :: ts[j].when <= ts[k].when
  }

  /** A due timer that stands behind place `i`, in the sorted part. */
  ghost predicate WaitsBehind(ts: seq<Timer>, i: int, id: nat, now: int) {
    exists p: nat :: i < p < |ts| && ts[p].id == id && ts[p].when < now
  }

  /** It stands behind the timer `c`, whose callback is running. */
  ghost predicate WaitsAfter(ts: seq<Timer>, c: nat, id: nat, now: int) {
    SortedFrom(ts, IndexOf(ts, c)) && WaitsBehind(ts, IndexOf(ts, c), id, now)
  }

  ghost predicate InPass(s: State) {
    s.control.InTimers? || (s.control.InCallback? && s.control.caller.OfTimer?)
  }

  /** The timer is still to come in this pass. */
  ghost predicate Waiting(s: State, id: nat)
    requires InPass(s)
  {
    if s.control.InTimers? then
      SortedFrom(s.timers, s.control.position) && WaitsBehind(s.timers, s.control.position - 1, id, s.control.now)
    else WaitsAfter(s.timers, s.control.caller.timer, id, s.control.caller.now)
  }

  /** Since `from` the timer has fired or been reset, or it waits, or the pass
      has been cut short by a callback that reset its own timer. */
  ghost predicate Served(s: State, from: nat, id: nat) {
    || FiredSince(s.log, from, id) || ResetSince(s.log, from, id) || SelfReset(s.log, from)
    || (InPass(s) && Waiting(s, id))
  }

  /** In a callback the last timer fired is the one it belongs to. */
  ghost predicate CallerIsLast(s: State) {
    s.control.InCallback? && s.control.caller.OfTimer? ==>
      LastFired(s.log, |s.log|) == s.control.caller.timer
  }

  // ---- What the operations do to a waiting timer ----

  lemma DistinctPlaces(ts: seq<Timer>, i: nat)
    requires DistinctIds(ts) && i < |ts|
    ensures IndexOf(ts, ts[i].id) == i
  {
  }

  /** A stable sort of the list leaves what waited behind a timer behind it. */
  lemma SortKeepsWaiting(ts: seq<Timer>, i: nat, p: nat, now: int)
    requires DistinctIds(ts) && i < p < |ts| && ts[i].when <= ts[p].when < now
    ensures WaitsBehind(Sort(ts), IndexOf(Sort(ts), ts[i].id), ts[p].id, now)
    ensures SortedFrom(Sort(ts), 0)
  {
    SortIsStable(ts, i, p);
    SortIsSortedPermutation(ts);
    SortCoupled(ts);
    var a, b :| 0 <= a < b < |Sort(ts)| && Sort(ts)[a] == ts[i] && Sort(ts)[b] == ts[p];
    DistinctPlaces(Sort(ts), a);
  }

  lemma AddKeepsWaiting(ts: seq<Timer>, timer: Timer, c: nat, id: nat, now: int)
    requires DistinctIds(ts + [timer]) && HasTimer(ts, c) && WaitsAfter(ts, c, id, now)
    ensures WaitsAfter(Sort(ts + [timer]), c, id, now)
  {
    var i := IndexOf(ts, c);
    var p: nat :| i < p < |ts| && ts[p].id == id && ts[p].when < now;
    var grown := ts + [timer];
    assert grown[i] == ts[i] && grown[p] == ts[p];
    SortKeepsWaiting(grown, i, p, now);
  }

  lemma ResetKeepsWaiting(ts: seq<Timer>, x: nat, when: int, c: nat, id: nat, now: int)
    requires DistinctIds(ts) && HasTimer(ts, c) && x < |ts| && ts[x].id != c && ts[x].id != id
    requires WaitsAfter(ts, c, id, now)
    ensures WaitsAfter(Sort(ts[x := ts[x].(when := when)]), c, id, now)
  {
    var i := IndexOf(ts, c);
    var p: nat :| i < p < |ts| && ts[p].id == id && ts[p].when < now;
    var moved := ts[x := ts[x].(when := when)];
    assert moved[i] == ts[i] && moved[p] == ts[p];
    MovedTimer(ts, x, when);
    SortKeepsWaiting(moved, i, p, now);
  }

  lemma ErasedKeepsWaiting(ts: seq<Timer>, us: seq<Timer>, i: nat, id: nat, now: int)
    requires i < |ts| && SortedFrom(ts, i) && WaitsBehind(ts, i, id, now)
    requires |us| == |ts| - 1 && forall j | i <= j < |us| :: us[j] == ts[j + 1]
    ensures SortedFrom(us, i) && WaitsBehind(us, i - 1, id, now)
  {
    var p: nat :| i < p < |ts| && ts[p].id == id && ts[p].when < now;
    assert us[p - 1] == ts[p];
  }

  lemma MovedKeepsWaiting(ts: seq<Timer>, us: seq<Timer>, i: nat, id: nat, now: int)
    requires i < |ts| && SortedFrom(ts, i) && WaitsBehind(ts, i, id, now)
    requires |us| == |ts| && forall j | i < j < |us| :: us[j] == ts[j]
    ensures SortedFrom(us, i + 1) && WaitsBehind(us, i, id, now)
  {
    var p: nat :| i < p < |ts| && ts[p].id == id && ts[p].when < now;
    assert us[p] == ts[p];
  }

  lemma CompletedKeepsWaiting(ts: seq<Timer>, i: nat, id: nat, now: int)
    requires i < |ts| && SortedFrom(ts, i) && WaitsBehind(ts, i, id, now)
    ensures var next := if ts[i].times == 1 then i else i + 1;
            SortedFrom(Completed(ts, i), next) && WaitsBehind(Completed(ts, i), next - 1, id, now)
  {
    CompletedPlaces(ts, i);
    if ts[i].times == 1 {
      ErasedKeepsWaiting(ts, Completed(ts, i), i, id, now);
    } else {
      MovedKeepsWaiting(ts, Completed(ts, i), i, id, now);
    }
  }

  lemma CompletedPlaces(ts: seq<Timer>, i: nat)
    requires i < |ts|
    ensures ts[i].times == 1 ==>
              |Completed(ts, i)| == |ts| - 1 && forall j | i <= j < |ts| - 1 :: Completed(ts, i)[j] == ts[j + 1]
    ensures ts[i].times != 1 ==>
              |Completed(ts, i)| == |ts| && forall j | i < j < |ts| :: Completed(ts, i)[j] == ts[j]
  {
  }

  // ---- Steps ----

  lemma FireServes(s: State, from: nat, id: nat)
    requires s.control.InTimers? && s.control.position < |s.timers| && s.script != [] && DistinctIds(s.timers)
    requires from <= |s.log| && Served(s, from, id)
    ensures Served(Fire(s), from, id)
  {
    var i := s.control.position;
    SinceGrows(s.log, Fired(s.timers[i].id, s.script[0].proceed), from, id);
    DistinctPlaces(s.timers, i);
    if Waiting(s, id) && s.timers[i].id != id {
      var p: nat :| i - 1 < p < |s.timers| && s.timers[p].id == id && s.timers[p].when < s.control.now;
      assert p != i;
    }
  }

  lemma AddServes(s: State, from: nat, id: nat, delay: nat, times: nat, elapsed: nat)
    requires s.control.InCallback? && s.control.caller.OfTimer? && HasTimer(s.timers, s.control.caller.timer)
    requires IdsIssued(s) && from <= |s.log| && Served(s, from, id)
    ensures Served(AddTimerOp(s, delay, times, elapsed), from, id)
  {
    var at := s.clock + elapsed;
    var timer := Timer(s.nextId, times, delay, at + delay * NS_PER_MS);
    SinceGrows(s.log, TimerAdded(timer, at), from, id);
    if Waiting(s, id) {
      AddKeepsWaiting(s.timers, timer, s.control.caller.timer, id, s.control.caller.now);
    }
  }

  lemma ResetServes(s: State, from: nat, id: nat, timer: nat, elapsed: nat)
    requires s.control.InCallback? && s.control.caller.OfTimer? && HasTimer(s.timers, s.control.caller.timer)
    requires DistinctIds(s.timers) && from <= |s.log| && Served(s, from, id) && CallerIsLast(s)
    ensures Served(ResetTimerOp(s, timer, elapsed), from, id)
  {
    var x := IndexOf(s.timers, timer);
    if x < |s.timers| {
      var when := s.clock + elapsed + s.timers[x].delay * NS_PER_MS;
      ResetIsServed(s, s.timers[x := s.timers[x].(when := when)], x, when, from, id);
    }
  }

  lemma ResetIsServed(s: State, moved: seq<Timer>, x: nat, when: int, from: nat, id: nat)
    requires s.control.InCallback? && s.control.caller.OfTimer? && HasTimer(s.timers, s.control.caller.timer)
    requires DistinctIds(s.timers) && from <= |s.log| && Served(s, from, id) && CallerIsLast(s)
    requires x < |s.timers| && moved == s.timers[x := s.timers[x].(when := when)]
    ensures Served(s.(timers := Sort(moved), log := s.log + [TimerWasReset(s.timers[x].id, when)]), from, id)
  {
    SinceGrows(s.log, TimerWasReset(s.timers[x].id, when), from, id);
    if Waiting(s, id) && s.timers[x].id != id && s.timers[x].id != s.control.caller.timer {
      ResetKeepsWaiting(s.timers, x, when, s.control.caller.timer, id, s.control.caller.now);
    }
  }

  lemma LogServes(s: State, r: State, e: Event, from: nat, id: nat)
    requires from <= |s.log| && Served(s, from, id)
    requires r.log == s.log || r.log == s.log + [e]
    requires r.timers == s.timers && s.control.InCallback? && r.control.InCallback?
    requires r.control.caller == s.control.caller && s.control.caller.OfTimer?
    ensures Served(r, from, id)
  {
    SinceGrows(s.log, e, from, id);
  }

  lemma CallbackServes(s: State, from: nat, id: nat)
    requires s.control.InCallback? && s.control.caller.OfTimer?
    requires Coupled(s) && CallerIsLast(s) && from <= |s.log| && Served(s, from, id)
    requires s.control.requests != []
    ensures Served(Step(s), from, id)
  {
    var InCallback(caller, proceed, requests) := s.control;
    var s' := s.(control := InCallback(caller, proceed, requests[1..]));
    LogServes(s, s', DispatchBegan, from, id);
    match requests[0]
    case AddTimer(delay, times, elapsed) => AddServes(s', from, id, delay, times, elapsed);
    case ResetTimer(timer, elapsed) => ResetServes(s', from, id, timer, elapsed);
    case _ =>
      var logged := ServeLogs(s', requests[0], false);
      assert s.log + [] == s.log;
      LogServes(s', Serve(s', requests[0], false), if logged == [] then DispatchBegan else logged[0], from, id);
  }

  lemma AfterTimerServes(s: State, from: nat, id: nat)
    requires s.control.InCallback? && s.control.caller.OfTimer? && s.control.proceed
    requires Coupled(s) && from <= |s.log| && Served(s, from, id)
    ensures Served(AfterTimer(s), from, id)
  {
    var i := IndexOf(s.timers, s.control.caller.timer);
    if Waiting(s, id) {
      CompletedKeepsWaiting(s.timers, i, id, s.control.caller.now);
    }
  }

  lemma CallerStaysLast(s: State)
    requires CallerIsLast(s) && InPass(s)
    ensures CallerIsLast(Step(s))
  {
    if s.control.InTimers? {
      if Step(s).control.InCallback? {
        SinceGrows(s.log, Step(s).log[|s.log|], 0, 0);
      }
    } else if s.control.requests != [] {
      var s' := s.(control := s.control.(requests := s.control.requests[1..]));
      var logged := ServeLogs(s', s.control.requests[0], false);
      assert s.log + [] == s.log;
      if logged != [] {
        SinceGrows(s.log, logged[0], 0, 0);
      }
    }
  }

  lemma StepServes(s: State, from: nat, id: nat)
    requires InPass(s) && Coupled(s) && CallerIsLast(s) && from <= |s.log| && Served(s, from, id)
    ensures InPass(Step(s)) || Step(s).control.TimersDone? ==> Served(Step(s), from, id)
  {
    if s.control.InTimers? {
      if Step(s).control.InCallback? {
        FireServes(s, from, id);
      }
    } else if s.control.requests != [] {
      CallbackServes(s, from, id);
    } else if s.control.proceed {
      AfterTimerServes(s, from, id);
    }
  }

  /** Within the pass, a timer that is served stays so; when the pass settles,
      nothing is left waiting. */
  lemma {:induction false} PassServes(s: State, from: nat, id: nat)
    requires InPass(s) || s.control.TimersDone?
    requires Coupled(s) && CallerIsLast(s) && from <= |s.log| && Served(s, from, id)
    ensures TimerPass(s).control.TimersDone? ==> Served(TimerPass(s), from, id)
    decreases |s.rounds|, Rank(s.control), |s.script|, Depth(s.control), Work(s)
  {
    if InPass(s) {
      var t := Step(s);
      StepDescends(s);
      StepCoupled(s);
      CallerStaysLast(s);
      StepServes(s, from, id);
      var logged := StepLogs(s);
      if InPass(t) || t.control.TimersDone? {
        PassServes(t, from, id);
      } else {
        assert TimerPass(t) == t;
      }
    }
  }

  /** Every timer that is due when a pass over a sorted list begins has fired
      or been reset when the pass settles, unless some callback in the pass
      reset its own timer. */
  lemma DueTimersFire(s: State, i: nat)
    requires Coupled(s) && s.control.InTimers? && s.control.position == 0 && Sorted(s.timers)
    requires i < |s.timers| && s.timers[i].when < s.control.now
    ensures var r := TimerPass(s);
            r.control.TimersDone? ==>
              || FiredSince(r.log, |s.log|, s.timers[i].id)
              || ResetSince(r.log, |s.log|, s.timers[i].id)
              || SelfReset(r.log, |s.log|)
  {
    PassServes(s, |s.log|, s.timers[i].id);
  }

  lemma {:induction false} PassGrowsLog(s: State)
    ensures s.log <= TimerPass(s).log
    decreases |s.rounds|, Rank(s.control), |s.script|, Depth(s.control), Work(s)
  {
    if InPass(s) {
      StepDescends(s);
      var logged := StepLogs(s);
      assert s.log <= Step(s).log;
      PassGrowsLog(Step(s));
    }
  }

  // ---- Timers added on the way ----

  /** Timers that are new since id `n` are not due in this pass, and none of
      them has fired since `from`. */
  ghost predicate NewOnesWait(s: State, from: nat, n: nat, now: int) {
    && now <= s.clock && n <= s.nextId
    && (forall t | t in s.timers && t.id >= n :: t.when >= now)
    && (forall k: nat | from <= k < |s.log| && s.log[k].Fired? :: s.log[k].timer < n)
    && (s.control.InCallback? && s.control.caller.OfTimer? ==> s.control.caller.timer < n && s.control.caller.now == now)
    && (s.control.InTimers? ==> s.control.now == now)
  }

  lemma SortedNewOnes(ts: seq<Timer>, n: nat, now: int)
    requires forall t | t in ts && t.id >= n :: t.when >= now
    ensures forall t | t in Sort(ts) && t.id >= n :: t.when >= now
  {
    SortIsSortedPermutation(ts);
  }

  lemma ServeNewOnes(s: State, request: Request, from: nat, n: nat, now: int)
    requires NewOnesWait(s, from, n, now) && s.dispatching
    ensures NewOnesWait(Serve(s, request, false), from, n, now)
  {
    var r := Serve(s, request, false);
    var logged := ServeLogs(s, request, false);
    assert forall k: nat | k < |r.log| :: r.log[k] == if k < |s.log| then s.log[k] else logged[0];
    match request
    case AddTimer(delay, times, elapsed) =>
      SortedNewOnes(s.timers + [Timer(s.nextId, times, delay, s.clock + elapsed + delay * NS_PER_MS)], n, now);
    case ResetTimer(timer, elapsed) =>
      var i := IndexOf(s.timers, timer);
      if i < |s.timers| {
        var when := s.clock + elapsed + s.timers[i].delay * NS_PER_MS;
        SortedNewOnes(s.timers[i := s.timers[i].(when := when)], n, now);
      }
    case _ =>
  }

  lemma CompletedNewOnes(ts: seq<Timer>, i: nat, n: nat, now: int)
    requires i < |ts| && ts[i].id < n
    requires forall t | t in ts && t.id >= n :: t.when >= now
    ensures forall t | t in Completed(ts, i) && t.id >= n :: t.when >= now
  {
    var done := Completed(ts, i);
    forall j | 0 <= j < |done| && done[j].id >= n ensures done[j].when >= now {
      var k := if ts[i].times == 1 && j >= i then j + 1 else j;
      assert done[j] == ts[k] && ts[k] in ts;
    }
  }

  lemma StepNewOnes(s: State, from: nat, n: nat, now: int)
    requires InPass(s) && Coupled(s) && NewOnesWait(s, from, n, now)
    ensures NewOnesWait(Step(s), from, n, now)
  {
    if s.control.InTimers? {
      SortIsSortedPermutation(s.timers);
      if Step(s).control.InCallback? {
        var t := s.timers[s.control.position];
        assert t in s.timers;
        assert Step(s).log == s.log + [Fired(t.id, s.script[0].proceed)];
      }
    } else if s.control.requests != [] {
      ServeNewOnes(s.(control := s.control.(requests := s.control.requests[1..])), s.control.requests[0], from, n, now);
    } else {
      CompletedNewOnes(s.timers, IndexOf(s.timers, s.control.caller.timer), n, now);
    }
  }

  /** No timer that is added while a pass is under way fires in that pass. */
  lemma {:induction false} NewTimersWait(s: State, from: nat, n: nat, now: int)
    requires Coupled(s) && NewOnesWait(s, from, n, now)
    ensures forall k: nat | from <= k < |TimerPass(s).log| && TimerPass(s).log[k].Fired? ::
              TimerPass(s).log[k].timer < n
    decreases |s.rounds|, Rank(s.control), |s.script|, Depth(s.control), Work(s)
  {
    if InPass(s) {
      StepDescends(s);
      StepCoupled(s);
      StepNewOnes(s, from, n, now);
      NewTimersWait(Step(s), from, n, now);
    }
  }

  // ---- A callback that resets its own timer ----

  /** No timer fires after a callback has reset its own timer. */
  ghost predicate OwnResetsAreLast(log: seq<Event>, from: nat) {
    forall j: nat, k: nat | from <= j < k < |log| && OwnResetAt(log, j) :: !log[k].Fired?
  }

  /** The pass is about to end: nothing that still stands before it is due. */
  ghost predicate Closing(s: State)
    requires InPass(s)
  {
    if s.control.InTimers? then
      s.control.position < |s.timers| ==> s.timers[s.control.position].when >= s.control.now
    else
      && Sorted(s.timers)
      && forall t | t in s.timers && t.id == s.control.caller.timer :: t.when >= s.control.caller.now
  }

  predicate ClockIsPast(s: State) {
    && (s.control.InTimers? ==> s.control.now <= s.clock)
    && (s.control.InCallback? && s.control.caller.OfTimer? ==> s.control.caller.now <= s.clock)
  }

  /** Once a callback has reset its own timer, the pass closes. */
  ghost predicate Closes(s: State, from: nat) {
    && from <= |s.log| && OwnResetsAreLast(s.log, from) && ClockIsPast(s)
    && (SelfReset(s.log, from) && InPass(s) ==> Closing(s))
  }

  lemma SelfResetOnlyGrows(log: seq<Event>, e: Event, from: nat)
    requires from <= |log| && OwnResetsAreLast(log, from)
    ensures SelfReset(log + [e], from) ==>
              SelfReset(log, from) || (e.TimerWasReset? && e.timer == LastFired(log, |log|))
    ensures !e.Fired? || !SelfReset(log, from) ==> OwnResetsAreLast(log + [e], from)
  {
    var grown := log + [e];
    forall k: nat | k <= |log| ensures LastFired(grown, k) == LastFired(log, k) {
      LastFiredKept(log, e, k);
    }
    assert forall k: nat | k < |log| :: OwnResetAt(grown, k) <==> OwnResetAt(log, k);
  }

  lemma LogCloses(s: State, r: State, e: Event, from: nat)
    requires Closes(s, from) && InPass(s) && InPass(r) && ClockIsPast(r) && r.log == s.log + [e]
    requires !e.Fired? || !SelfReset(s.log, from)
    requires SelfReset(s.log, from) || (e.TimerWasReset? && e.timer == LastFired(s.log, |s.log|)) ==> Closing(r)
    ensures Closes(r, from)
  {
    SelfResetOnlyGrows(s.log, e, from);
  }

  lemma SortedElements(ts: seq<Timer>)
    ensures Sorted(Sort(ts)) && forall t :: t in Sort(ts) <==> t in ts
  {
    SortIsSortedPermutation(ts);
  }

  lemma AddCloses(s: State, from: nat, delay: nat, times: nat, elapsed: nat)
    requires s.control.InCallback? && s.control.caller.OfTimer? && IdsIssued(s)
    requires HasTimer(s.timers, s.control.caller.timer) && Closes(s, from)
    ensures Closes(AddTimerOp(s, delay, times, elapsed), from)
  {
    var at := s.clock + elapsed;
    var timer := Timer(s.nextId, times, delay, at + delay * NS_PER_MS);
    SortedElements(s.timers + [timer]);
    var i :| 0 <= i < |s.timers| && s.timers[i].id == s.control.caller.timer;
    assert s.timers[i] in s.timers;
    LogCloses(s, AddTimerOp(s, delay, times, elapsed), TimerAdded(timer, at), from);
  }

  lemma ResetCloses(s: State, from: nat, timer: nat, elapsed: nat)
    requires s.control.InCallback? && s.control.caller.OfTimer? && DistinctIds(s.timers)
    requires CallerIsLast(s) && Closes(s, from)
    ensures Closes(ResetTimerOp(s, timer, elapsed), from)
  {
    var x := IndexOf(s.timers, timer);
    if x < |s.timers| {
      var when := s.clock + elapsed + s.timers[x].delay * NS_PER_MS;
      var moved := s.timers[x := s.timers[x].(when := when)];
      SortedElements(moved);
      forall t | t in moved && t.id == s.control.caller.timer
        ensures t == moved[x] || (t in s.timers && timer != s.control.caller.timer)
      {
        var j :| 0 <= j < |moved| && moved[j] == t;
        assert j != x ==> s.timers[j] == t && s.timers[j].id != s.timers[x].id;
      }
      LogCloses(s, ResetTimerOp(s, timer, elapsed), TimerWasReset(timer, when), from);
    }
  }

  lemma RequestCloses(s: State, from: nat)
    requires s.control.InCallback? && s.control.caller.OfTimer? && s.control.requests != []
    requires Coupled(s) && CallerIsLast(s) && Closes(s, from)
    ensures Closes(Step(s), from)
  {
    var s' := s.(control := s.control.(requests := s.control.requests[1..]));
    assert Closes(s', from);
    match s.control.requests[0]
    case AddTimer(delay, times, elapsed) => AddCloses(s', from, delay, times, elapsed);
    case ResetTimer(timer, elapsed) => ResetCloses(s', from, timer, elapsed);
    case _ => OtherRequestCloses(s', s.control.requests[0], from);
  }

  lemma OtherRequestCloses(s: State, request: Request, from: nat)
    requires s.control.InCallback? && s.control.caller.OfTimer? && s.dispatching && Closes(s, from)
    requires !request.AddTimer? && !request.ResetTimer?
    ensures Closes(Serve(s, request, false), from)
  {
    var r := Serve(s, request, false);
    if r.log != s.log {
      LogCloses(s, r, r.log[|s.log|], from);
    }
  }

  lemma CompletedCloses(ts: seq<Timer>, i: nat, now: int)
    requires i < |ts| && Sorted(ts) && ts[i].when >= now
    ensures var next := if ts[i].times == 1 then i else i + 1;
            next < |Completed(ts, i)| ==> Completed(ts, i)[next].when >= now
  {
    var done := Completed(ts, i);
    assert i + 1 < |ts| ==> ts[i].when <= ts[i + 1].when;
    if ts[i].times == 1 {
      assert i < |done| ==> done[i] == ts[i + 1];
    } else {
      assert i + 1 < |done| ==> done[i + 1] == ts[i + 1];
    }
  }

  lemma ReturnCloses(s: State, from: nat)
    requires s.control.InCallback? && s.control.caller.OfTimer? && s.control.requests == []
    requires Coupled(s) && Closes(s, from)
    ensures Closes(Step(s), from)
  {
    var i := IndexOf(s.timers, s.control.caller.timer);
    if SelfReset(s.log, from) {
      assert s.timers[i] in s.timers;
      CompletedCloses(s.timers, i, s.control.caller.now);
    }
  }

  lemma FireCloses(s: State, from: nat)
    requires s.control.InTimers? && Closes(s, from)
    ensures Closes(Step(s), from)
  {
    if Step(s).control.InCallback? {
      var e := Fired(s.timers[s.control.position].id, s.script[0].proceed);
      LogCloses(s, Step(s), e, from);
    }
  }

  lemma {:induction false} PassCloses(s: State, from: nat)
    requires Coupled(s) && CallerIsLast(s) && Closes(s, from)
    ensures OwnResetsAreLast(TimerPass(s).log, from)
    decreases |s.rounds|, Rank(s.control), |s.script|, Depth(s.control), Work(s)
  {
    if InPass(s) {
      StepDescends(s);
      StepCoupled(s);
      CallerStaysLast(s);
      if s.control.InTimers? {
        FireCloses(s, from);
      } else if s.control.requests != [] {
        RequestCloses(s, from);
      } else {
        ReturnCloses(s, from);
      }
      PassCloses(Step(s), from);
    }
  }

  /** Whatever else the callbacks of a pass ask for and return, no timer fires
      in it after one of them has reset its own timer: the timer moves behind
      everything that is due, and the pass goes on behind it. */
  lemma OwnResetEndsPass(s: State)
    requires Coupled(s) && s.control.InTimers? && s.control.now <= s.clock
    ensures OwnResetsAreLast(TimerPass(s).log, |s.log|)
  {
    PassCloses(s, |s.log|);
  }

  /** The timer was due when the pass began. */
  ghost predicate IsDue(s: State, i: nat)
    requires s.control.InTimers?
  {
    i < |s.timers| && s.timers[i].when < s.control.now
  }

  /** All that were due have fired or been reset in the pass. */
  ghost predicate AllDueServed(s: State, log: seq<Event>)
    requires s.control.InTimers?
  {
    forall i: nat | IsDue(s, i) ::
      FiredSince(log, |s.log|, s.timers[i].id) || ResetSince(log, |s.log|, s.timers[i].id)
  }

  /** Some callback resets its own timer while a due timer waits that has not
      fired, and that timer is not reset in the pass either. */
  ghost predicate OwnResetStrands(s: State, log: seq<Event>)
    requires s.control.InTimers?
  {
    exists k: nat, i: nat :: |s.log| <= k && OwnResetAt(log, k) && IsDue(s, i) &&
      !FiredSince(log[..k], |s.log|, s.timers[i].id) && !ResetSince(log, |s.log|, s.timers[i].id)
  }

  /** When a pass over a sorted list settles, every timer that was due has fired
      or been reset exactly when no callback has reset its own timer while
      another due timer was waiting that is not reset as well. */
  lemma DueServedIff(s: State)
    requires Coupled(s) && s.control.InTimers? && s.control.position == 0 && Sorted(s.timers)
    requires s.control.now <= s.clock && TimerPass(s).control.TimersDone?
    ensures AllDueServed(s, TimerPass(s).log) <==> !OwnResetStrands(s, TimerPass(s).log)
  {
    var log, from := TimerPass(s).log, |s.log|;
    OwnResetEndsPass(s);
    if OwnResetStrands(s, log) {
      var k: nat, i: nat :| from <= k && OwnResetAt(log, k) && IsDue(s, i) &&
        !FiredSince(log[..k], from, s.timers[i].id) && !ResetSince(log, from, s.timers[i].id);
      if FiredSince(log, from, s.timers[i].id) {
        FiredBefore(log, from, k, s.timers[i].id);
      }
    } else {
      forall i: nat | IsDue(s, i)
        ensures FiredSince(log, from, s.timers[i].id) || ResetSince(log, from, s.timers[i].id)
      {
        DueTimersFire(s, i);
        if SelfReset(log, from) && !ResetSince(log, from, s.timers[i].id) {
          var k: nat :| from <= k && OwnResetAt(log, k);
          assert FiredSince(log[..k], from, s.timers[i].id);
          FiredEarlier(log, from, k, s.timers[i].id);
        }
      }
    }
  }

  lemma FiredBefore(log: seq<Event>, from: nat, k: nat, id: nat)
    requires from <= k && OwnResetAt(log, k) && OwnResetsAreLast(log, from) && FiredSince(log, from, id)
    ensures FiredSince(log[..k], from, id)
  {
    var j: nat :| from <= j < |log| && log[j].Fired? && log[j].timer == id;
    assert j < k;
    assert log[..k][j] == log[j];
  }

  lemma FiredEarlier(log: seq<Event>, from: nat, k: nat, id: nat)
    requires k <= |log| && FiredSince(log[..k], from, id)
    ensures FiredSince(log, from, id)
  {
    var j: nat :| from <= j < k && log[..k][j].Fired? && log[..k][j].timer == id;
    assert log[j] == log[..k][j];
  }

  // ---- One such callback alone ----

  lemma OwnResetGoesBehind(ts: seq<Timer>, i: nat, when: int)
    requires DistinctIds(ts) && i < |ts|
    ensures var us := Sort(ts[i := ts[i].(when := when)]);
            var j := IndexOf(us, ts[i].id);
            j < |us| && forall k | j < k < |us| :: us[k].when >= when
  {
    var moved := ts[i := ts[i].(when := when)];
    SortIsSortedPermutation(moved);
    MovedTimer(ts, i, when);
    SortCoupled(moved);
    assert moved[i] in moved;
    var j :| 0 <= j < |Sort(moved)| && Sort(moved)[j] == moved[i];
    DistinctPlaces(Sort(moved), j);
  }

  /** Nothing due stands behind the timer whose callback has just finished. */
  lemma NothingLeftToFire(s: State)
    requires Coupled(s) && s.control.InCallback? && s.control.caller.OfTimer? && s.control.proceed
    requires s.control.requests == []
    requires forall k | IndexOf(s.timers, s.control.caller.timer) < k < |s.timers| ::
               s.timers[k].when >= s.control.caller.now
    ensures TimerPass(s).control == TimersDone(s.control.caller.polled) && TimerPass(s).log == s.log
  {
    var i := IndexOf(s.timers, s.control.caller.timer);
    var u := AfterTimer(s);
    assert u.control.position < |u.timers| ==> u.timers[u.control.position] == s.timers[i + 1];
    SettlesAt(u);
  }

  lemma SettlesAt(s: State)
    requires s.control.InTimers?
    requires s.control.position < |s.timers| ==> s.timers[s.control.position].when >= s.control.now
    ensures TimerPass(s).control == TimersDone(s.control.polled) && TimerPass(s).log == s.log
  {
    assert TimerPass(Step(s)) == Step(s);
  }

  lemma OwnResetServed(s: State, t: State, elapsed: nat) returns (when: int)
    requires Coupled(s) && s.control.InCallback? && s.control.caller.OfTimer? && s.control.proceed
    requires s.control.requests == [ResetTimer(s.control.caller.timer, elapsed)]
    requires s.control.caller.now <= s.clock && t == Step(s)
    ensures Coupled(t) && t.control == s.control.(requests := [])
    ensures t.log == s.log + [TimerWasReset(s.control.caller.timer, when)]
    ensures forall k | IndexOf(t.timers, t.control.caller.timer) < k < |t.timers| :: t.timers[k].when >= t.control.caller.now
  {
    var i := IndexOf(s.timers, s.control.caller.timer);
    when := s.clock + elapsed + s.timers[i].delay * NS_PER_MS;
    OwnResetIs(s, elapsed, i, when);
    OwnResetGoesBehind(s.timers, i, when);
    StepCoupled(s);
  }

  lemma OwnResetIs(s: State, elapsed: nat, i: nat, when: int)
    requires s.control.InCallback? && s.control.caller.OfTimer?
    requires s.control.requests == [ResetTimer(s.control.caller.timer, elapsed)]
    requires i == IndexOf(s.timers, s.control.caller.timer) < |s.timers|
    requires when == s.clock + elapsed + s.timers[i].delay * NS_PER_MS
    ensures Step(s).control == s.control.(requests := [])
    ensures Step(s).timers == Sort(s.timers[i := s.timers[i].(when := when)])
    ensures Step(s).log == s.log + [TimerWasReset(s.control.caller.timer, when)]
  {
  }

  lemma OwnResetSettles(s: State, elapsed: nat) returns (when: int)
    requires Coupled(s) && s.control.InCallback? && s.control.caller.OfTimer? && s.control.proceed
    requires s.control.requests == [ResetTimer(s.control.caller.timer, elapsed)]
    requires s.control.caller.now <= s.clock
    ensures TimerPass(s).control == TimersDone(s.control.caller.polled)
    ensures TimerPass(s).log == s.log + [TimerWasReset(s.control.caller.timer, when)]
  {
    when := OwnResetServed(s, Step(s), elapsed);
    NothingLeftToFire(Step(s));
  }

  lemma FirstOwnReset(log: seq<Event>, own: nat, when: int)
    ensures var grown := log + [Fired(own, true)] + [TimerWasReset(own, when)];
            && FiredSince(grown, |log|, own) && SelfReset(grown, |log|)
            && forall id | id != own :: !FiredSince(grown, |log|, id) && !ResetSince(grown, |log|, id)
  {
    SinceGrows(log, Fired(own, true), |log|, own);
    SinceGrows(log + [Fired(own, true)], TimerWasReset(own, when), |log|, own);
  }

  lemma AnyFiring(s: State)
    requires s.control.InTimers? && s.script != []
    requires s.control.position < |s.timers| && s.timers[s.control.position].when < s.control.now
    ensures Step(s) == Fire(s) && TimerPass(s) == TimerPass(Fire(s))
  {
  }

  /** A first due timer whose callback resets it and asks for nothing else is
      the only one that fires or is reset in the pass, whatever else is due. */
  lemma OwnResetAlone(s: State, elapsed: nat)
    requires Coupled(s) && s.control.InTimers? && s.control.now <= s.clock
    requires s.control.position < |s.timers| && s.timers[s.control.position].when < s.control.now
    requires s.script != []
    requires s.script[0] == Reaction(true, [ResetTimer(s.timers[s.control.position].id, elapsed)])
    ensures var r := TimerPass(s);
            var own := s.timers[s.control.position].id;
            && r.control == TimersDone(s.control.polled)
            && FiredSince(r.log, |s.log|, own) && SelfReset(r.log, |s.log|)
            && forall id | id != own :: !FiredSince(r.log, |s.log|, id) && !ResetSince(r.log, |s.log|, id)
  {
    StepCoupled(s);
    AnyFiring(s);
    var when := OwnResetSettles(Fire(s), elapsed);
    FirstOwnReset(s.log, s.timers[s.control.position].id, when);
  }
}

/**
 * The timers of the loop over whole runs: how often each fires, when it is
 * due, when it disappears, and how long a poll may sleep.
 */
module LoopTimers {
  import opened PollTypes
  import opened TimerList
  import opened LoopMachine
  import opened LoopCoupling
  import opened LoopRuns
  import opened LoopRemovals

  // ---- Accounting ----

  function Firings(log: seq<Event>, id: nat): nat {
    if log == [] then 0
    else
      var last := log[|log| - 1];
      Firings(log[..|log| - 1], id) + if last.Fired? && last.timer == id then 1 else 0
  }

  ghost predicate AskedOut(log: seq<Event>, id: nat) {
    TimerRemovalAsked(id) in log
  }

  ghost predicate WasReset(log: seq<Event>, id: nat) {
    exists i :: 0 <= i < |log| && log[i].TimerWasReset? && log[i].timer == id
  }

  /** The timer as it was when it was created, or when the run began. */
  ghost predicate Born(base: seq<Timer>, log: seq<Event>, b: Timer) {
    b in base || exists i :: 0 <= i < |log| && log[i].TimerAdded? && log[i].added == b
  }

  /** The books of a timer born as `b` after `k` completed firings: a timer with
      a count has fired `k` times and has the rest left, one without a count
      keeps none, and unless it was reset it is due `k` delays after its first
      deadline. It is gone only if its count is used up or it was removed. */
  ghost predicate Balanced(b: Timer, timers: seq<Timer>, k: int, reset: bool, asked: bool) {
    && (b.times > 0 ==> 0 <= k <= b.times)
    && (forall u | u in timers && u.id == b.id ::
          && u.delay == b.delay
          && (if b.times == 0 then u.times == 0 else u.times > 0 && u.times + k == b.times)
          && (!reset ==> u.when == b.when + k * (b.delay * NS_PER_MS)))
    && (!HasTimer(timers, b.id) ==> (b.times > 0 && k == b.times) || asked)
  }

  /** Firings whose callback has returned. */
  ghost function CompletedFirings(s: State, id: nat): int {
    Firings(s.log, id) - if s.control.InCallback? && s.control.caller.OfTimer? && s.control.caller.timer == id then 1 else 0
  }

  ghost predicate BookOf(s: State, b: Timer) {
    && b.id < s.nextId
    && Balanced(b, s.timers, CompletedFirings(s, b.id), WasReset(s.log, b.id), AskedOut(s.log, b.id))
  }

  ghost predicate BooksBalance(base: seq<Timer>, s: State) {
    forall b | Born(base, s.log, b) :: BookOf(s, b)
  }

  /** Ids in the log were issued before, and pending removals are in the log. */
  ghost predicate IdsLogged(s: State) {
    && (forall i | 0 <= i < |s.log| ::
          && (s.log[i].Fired? || s.log[i].TimerRemovalAsked? || s.log[i].TimerWasReset? ==> s.log[i].timer < s.nextId))
    && (forall id | id in s.timerLater :: AskedOut(s.log, id))
  }

  lemma {:induction false} UnseenNeverFired(log: seq<Event>, id: nat)
    requires forall i | 0 <= i < |log| && log[i].Fired? :: log[i].timer != id
    ensures Firings(log, id) == 0
  {
    if log != [] {
      UnseenNeverFired(log[..|log| - 1], id);
    }
  }

  lemma LoggedFirings(log: seq<Event>, e: Event, id: nat)
    ensures Firings(log + [e], id) == Firings(log, id) + if e.Fired? && e.timer == id then 1 else 0
    ensures AskedOut(log, id) ==> AskedOut(log + [e], id)
    ensures WasReset(log, id) ==> WasReset(log + [e], id)
    ensures WasReset(log + [e], id) ==> WasReset(log, id) || (e.TimerWasReset? && e.timer == id)
    ensures e.TimerWasReset? && e.timer == id ==> WasReset(log + [e], id)
  {
    assert (log + [e])[..|log|] == log;
    if WasReset(log, id) {
      var i :| 0 <= i < |log| && log[i].TimerWasReset? && log[i].timer == id;
      assert (log + [e])[i] == log[i];
    }
    assert (log + [e])[|log|] == e;
  }

  lemma LoggedBirths(base: seq<Timer>, log: seq<Event>, e: Event)
    ensures forall b :: Born(base, log + [e], b) <==> Born(base, log, b) || (e.TimerAdded? && e.added == b)
  {
    forall b ensures Born(base, log + [e], b) <==> Born(base, log, b) || (e.TimerAdded? && e.added == b) {
      if Born(base, log, b) && b !in base {
        var i :| 0 <= i < |log| && log[i].TimerAdded? && log[i].added == b;
        assert (log + [e])[i] == log[i];
      }
      assert (log + [e])[|log|] == e;
    }
  }

  // ---- What the operations on the list do to a timer's books ----

  lemma SameTimersBalanced(b: Timer, ts: seq<Timer>, us: seq<Timer>, k: int, reset: bool, asked: bool)
    requires Balanced(b, ts, k, reset, asked)
    requires forall t :: t in us <==> t in ts
    ensures Balanced(b, us, k, reset, asked)
  {
    if HasTimer(ts, b.id) {
      var i :| 0 <= i < |ts| && ts[i].id == b.id;
      assert ts[i] in us;
    }
  }

  lemma FlushBalanced(b: Timer, ts: seq<Timer>, gone: set<nat>, k: int, reset: bool, asked: bool)
    requires Balanced(b, ts, k, reset, asked)
    requires b.id in gone ==> asked
    ensures Balanced(b, WithoutTimers(ts, gone), k, reset, asked)
  {
    if HasTimer(ts, b.id) && b.id !in gone {
      var i :| 0 <= i < |ts| && ts[i].id == b.id;
      assert ts[i] in WithoutTimers(ts, gone);
    }
  }

  lemma AddBalanced(b: Timer, ts: seq<Timer>, timer: Timer, k: int, reset: bool, asked: bool)
    requires Balanced(b, ts, k, reset, asked) && b.id != timer.id
    ensures Balanced(b, ts + [timer], k, reset, asked)
  {
    AddedTimer(ts, timer);
  }

  lemma ResetBalanced(b: Timer, ts: seq<Timer>, i: nat, when: int, k: int, reset: bool, asked: bool)
    requires i < |ts| && DistinctIds(ts) && Balanced(b, ts, k, reset, asked)
    ensures Balanced(b, ts[i := ts[i].(when := when)], k, reset || ts[i].id == b.id, asked)
  {
    var us := ts[i := ts[i].(when := when)];
    MovedTimer(ts, i, when);
    forall u | u in us && u.id == b.id && u !in ts ensures u == us[i] && ts[i].id == b.id && ts[i] in ts {
    }
  }

  lemma CompletedMember(ts: seq<Timer>, i: nat, u: Timer)
    requires i < |ts| && DistinctIds(ts) && u in Completed(ts, i)
    ensures (u in ts && u.id != ts[i].id) ||
            (ts[i].times != 1 && u.id == ts[i].id && u == Completed(ts, i)[i])
  {
    var us := Completed(ts, i);
    var j :| 0 <= j < |us| && us[j] == u;
    if ts[i].times == 1 {
      var k := if j >= i then j + 1 else j;
      assert u == ts[k] && k != i;
    } else {
      assert j != i ==> u == ts[j] && u in ts;
    }
  }

  lemma CompletedBalanced(b: Timer, ts: seq<Timer>, i: nat, k: int, reset: bool, asked: bool)
    requires i < |ts| && DistinctIds(ts) && Balanced(b, ts, k, reset, asked) && 0 <= k
    ensures Balanced(b, Completed(ts, i), if ts[i].id == b.id then k + 1 else k, reset, asked)
  {
    var us := Completed(ts, i);
    CompletedIds(ts, i);
    if ts[i].id == b.id {
      assert ts[i] in ts;
      forall u | u in us && u.id == b.id ensures ts[i].times != 1 && u == us[i] {
        CompletedMember(ts, i, u);
      }
      if ts[i].times != 1 {
        assert us[i] in us && us[i].id == b.id && HasTimer(us, b.id);
      }
      assert (k + 1) * (b.delay * NS_PER_MS) == k * (b.delay * NS_PER_MS) + b.delay * NS_PER_MS;
    } else {
      forall u | u in us && u.id == b.id ensures u in ts {
        CompletedMember(ts, i, u);
      }
    }
  }

  // ---- Requests ----

  /** An event that changes neither a timer nor the caller's place. */
  predicate Harmless(e: Event) {
    !e.Fired? && !e.TimerAdded? && !e.TimerWasReset?
  }

  lemma BookKept(s: State, r: State, e: Event, b: Timer)
    requires BookOf(s, b) && r.log == s.log + [e] && Harmless(e) && s.nextId <= r.nextId
    requires CompletedFirings(r, b.id) - Firings(r.log, b.id) == CompletedFirings(s, b.id) - Firings(s.log, b.id)
    requires Balanced(b, r.timers, CompletedFirings(s, b.id), WasReset(s.log, b.id), AskedOut(s.log, b.id))
    ensures BookOf(r, b)
  {
    LoggedFirings(s.log, e, b.id);
  }

  /** Values that a birth elsewhere leaves to a timer's books. */
  lemma BalancedBeside(b: Timer, ts: seq<Timer>, timer: Timer, at: int, log: seq<Event>, k: int)
    requires Balanced(b, ts, k, WasReset(log, b.id), AskedOut(log, b.id))
    requires b.id != timer.id && DistinctIds(ts + [timer])
    ensures var grown := log + [TimerAdded(timer, at)];
            && Firings(grown, b.id) == Firings(log, b.id)
            && Balanced(b, Sort(ts + [timer]), k, WasReset(grown, b.id), AskedOut(grown, b.id))
  {
    LoggedFirings(log, TimerAdded(timer, at), b.id);
    SortCoupled(ts + [timer]);
    AddBalanced(b, ts, timer, k, WasReset(log, b.id), AskedOut(log, b.id));
    SameTimersBalanced(b, ts + [timer], Sort(ts + [timer]), k, WasReset(log, b.id), AskedOut(log, b.id));
  }

  lemma BookGrown(s: State, t: State, timer: Timer, at: int, b: Timer)
    requires BookOf(s, b) && DistinctIds(s.timers + [timer]) && b.id != timer.id
    requires t.timers == Sort(s.timers + [timer]) && t.log == s.log + [TimerAdded(timer, at)]
    requires t.control == s.control && s.nextId <= t.nextId
    ensures BookOf(t, b)
  {
    BalancedBeside(b, s.timers, timer, at, s.log, CompletedFirings(s, b.id));
  }

  lemma AddTimerBook(s: State, delay: nat, times: nat, elapsed: nat, b: Timer)
    requires BookOf(s, b) && IdsIssued(s)
    ensures BookOf(AddTimerOp(s, delay, times, elapsed), b)
  {
    var at := s.clock + elapsed;
    var timer := Timer(s.nextId, times, delay, at + delay * NS_PER_MS);
    assert DistinctIds(s.timers + [timer]);
    BookGrown(s, AddTimerOp(s, delay, times, elapsed), timer, at, b);
  }

  /** A new timer starts with clean books. */
  lemma BalancedAtBirth(ts: seq<Timer>, timer: Timer, at: int, log: seq<Event>)
    requires DistinctIds(ts + [timer]) && !HasTimer(ts, timer.id)
    requires forall i | 0 <= i < |log| && (log[i].Fired? || log[i].TimerWasReset?) :: log[i].timer != timer.id
    ensures var grown := log + [TimerAdded(timer, at)];
            && Firings(grown, timer.id) == 0
            && Balanced(timer, Sort(ts + [timer]), 0, WasReset(grown, timer.id), AskedOut(grown, timer.id))
  {
    LoggedFirings(log, TimerAdded(timer, at), timer.id);
    UnseenNeverFired(log, timer.id);
    AddedTimer(ts, timer);
    SortCoupled(ts + [timer]);
    assert Balanced(timer, ts + [timer], 0, false, false);
    SameTimersBalanced(timer, ts + [timer], Sort(ts + [timer]), 0, false, false);
  }

  lemma NewTimerBook(s: State, delay: nat, times: nat, elapsed: nat)
    requires IdsLogged(s) && IdsIssued(s)
    requires s.control.InCallback? && s.control.caller.OfTimer? ==> s.control.caller.timer < s.nextId
    ensures BookOf(AddTimerOp(s, delay, times, elapsed),
                   Timer(s.nextId, times, delay, s.clock + elapsed + delay * NS_PER_MS))
  {
    var at := s.clock + elapsed;
    var timer := Timer(s.nextId, times, delay, at + delay * NS_PER_MS);
    assert DistinctIds(s.timers + [timer]);
    BalancedAtBirth(s.timers, timer, at, s.log);
  }

  lemma AddTimerBooks(base: seq<Timer>, s: State, delay: nat, times: nat, elapsed: nat)
    requires BooksBalance(base, s) && IdsLogged(s) && IdsIssued(s)
    requires s.control.InCallback? && s.control.caller.OfTimer? ==> s.control.caller.timer < s.nextId
    ensures BooksBalance(base, AddTimerOp(s, delay, times, elapsed))
  {
    var timer := Timer(s.nextId, times, delay, s.clock + elapsed + delay * NS_PER_MS);
    LoggedBirths(base, s.log, TimerAdded(timer, s.clock + elapsed));
    NewTimerBook(s, delay, times, elapsed);
    forall b | Born(base, s.log, b) ensures BookOf(AddTimerOp(s, delay, times, elapsed), b) {
      AddTimerBook(s, delay, times, elapsed, b);
    }
  }

  lemma BalancedReset(b: Timer, ts: seq<Timer>, i: nat, when: int, log: seq<Event>, k: int)
    requires i < |ts| && DistinctIds(ts)
    requires Balanced(b, ts, k, WasReset(log, b.id), AskedOut(log, b.id))
    ensures var grown := log + [TimerWasReset(ts[i].id, when)];
            && Firings(grown, b.id) == Firings(log, b.id)
            && Balanced(b, Sort(ts[i := ts[i].(when := when)]), k, WasReset(grown, b.id), AskedOut(grown, b.id))
  {
    var moved := ts[i := ts[i].(when := when)];
    MovedTimer(ts, i, when);
    SortCoupled(moved);
    LoggedFirings(log, TimerWasReset(ts[i].id, when), b.id);
    ResetBalanced(b, ts, i, when, k, WasReset(log, b.id), AskedOut(log, b.id));
    var grown := log + [TimerWasReset(ts[i].id, when)];
    SameTimersBalanced(b, moved, Sort(moved), k, WasReset(grown, b.id), AskedOut(grown, b.id));
  }

  lemma ResetBook(s: State, t: State, b: Timer)
    requires b.id < t.nextId && t.control == s.control && Firings(t.log, b.id) == Firings(s.log, b.id)
    requires Balanced(b, t.timers, CompletedFirings(s, b.id), WasReset(t.log, b.id), AskedOut(t.log, b.id))
    ensures BookOf(t, b)
  {
  }

  lemma ResetTimerBook(s: State, timer: nat, elapsed: nat, b: Timer)
    requires BookOf(s, b) && IdsIssued(s)
    ensures BookOf(ResetTimerOp(s, timer, elapsed), b)
  {
    var i := IndexOf(s.timers, timer);
    if i < |s.timers| {
      var when := s.clock + elapsed + s.timers[i].delay * NS_PER_MS;
      BalancedReset(b, s.timers, i, when, s.log, CompletedFirings(s, b.id));
      ResetBook(s, ResetTimerOp(s, timer, elapsed), b);
    }
  }

  lemma ResetTimerBooks(base: seq<Timer>, s: State, timer: nat, elapsed: nat)
    requires BooksBalance(base, s) && IdsIssued(s)
    ensures BooksBalance(base, ResetTimerOp(s, timer, elapsed))
  {
    var r := ResetTimerOp(s, timer, elapsed);
    if r != s {
      LoggedBirths(base, s.log, r.log[|s.log|]);
    }
    forall b | Born(base, s.log, b) ensures BookOf(r, b) {
      ResetTimerBook(s, timer, elapsed, b);
    }
  }

  lemma ServeBooks(base: seq<Timer>, s: State, request: Request, fromHandler: bool)
    requires BooksBalance(base, s) && IdsLogged(s) && IdsIssued(s) && s.dispatching
    requires s.control.InCallback? && s.control.caller.OfTimer? ==> s.control.caller.timer < s.nextId
    ensures BooksBalance(base, Serve(s, request, fromHandler))
  {
    match request
    case AddTimer(delay, times, elapsed) => AddTimerBooks(base, s, delay, times, elapsed);
    case ResetTimer(timer, elapsed) => ResetTimerBooks(base, s, timer, elapsed);
    case RemoveTimer(timer) =>
      if timer < s.nextId {
        LoggedAsk(base, s, TimerRemovalAsked(timer), RemoveTimerOp(s, timer));
      }
    case RemoveItem(key) => LoggedAsk(base, s, ItemRemovalAsked(key), RemoveItemOp(s, key));
    case AddItem(key, events, handler) => LoggedAsk(base, s, ItemAdded(key, events, handler), AddItemOp(s, key, events, handler));
  }

  lemma LoggedAsk(base: seq<Timer>, s: State, e: Event, r: State)
    requires BooksBalance(base, s) && Harmless(e) && r.log == s.log + [e]
    requires r.timers == s.timers && r.control == s.control && r.nextId == s.nextId
    ensures BooksBalance(base, r)
  {
    LoggedBirths(base, s.log, e);
    forall b | Born(base, s.log, b) ensures BookOf(r, b) {
      LoggedFirings(s.log, e, b.id);
      BookKept(s, r, e, b);
    }
  }

  // ---- Steps ----

  lemma FlushBooks(base: seq<Timer>, s: State, b: Timer)
    requires BookOf(s, b) && IdsLogged(s)
    ensures Balanced(b, Flush(s).timers, CompletedFirings(s, b.id), WasReset(s.log, b.id), AskedOut(s.log, b.id))
  {
    FlushBalanced(b, s.timers, PendingTimers(s), CompletedFirings(s, b.id), WasReset(s.log, b.id), AskedOut(s.log, b.id));
  }

  lemma HeadBooks(base: seq<Timer>, s: State)
    requires BooksBalance(base, s) && IdsLogged(s) && s.control.AtHead? && s.rounds != []
    ensures BooksBalance(base, Head(s))
  {
    var f := s.(rebuild := false, rounds := s.rounds[1..]);
    var r := Head(s);
    var e := r.log[|s.log|];
    LoggedBirths(base, s.log, e);
    forall b | Born(base, s.log, b) ensures BookOf(r, b) {
      assert BookOf(f, b);
      FlushBooks(base, f, b);
      BookKept(s, r, e, b);
    }
  }

  lemma FireBook(s: State, b: Timer)
    requires BookOf(s, b) && s.control.InTimers? && s.control.position < |s.timers| && s.script != []
    ensures BookOf(Fire(s), b)
  {
    LoggedFirings(s.log, Fired(s.timers[s.control.position].id, s.script[0].proceed), b.id);
  }

  lemma FireBooks(base: seq<Timer>, s: State)
    requires BooksBalance(base, s) && s.control.InTimers? && s.control.position < |s.timers| && s.script != []
    ensures BooksBalance(base, Fire(s))
  {
    LoggedBirths(base, s.log, Fired(s.timers[s.control.position].id, s.script[0].proceed));
    forall b | Born(base, s.log, b) ensures BookOf(Fire(s), b) {
      FireBook(s, b);
    }
  }

  /** The callback in progress has been logged. */
  ghost predicate CallerLogged(s: State) {
    s.control.InCallback? && s.control.caller.OfTimer? ==> Firings(s.log, s.control.caller.timer) >= 1
  }

  lemma AfterTimerBook(s: State, b: Timer)
    requires BookOf(s, b) && Coupled(s) && CallerLogged(s)
    requires s.control.InCallback? && s.control.caller.OfTimer?
    ensures BookOf(AfterTimer(s), b)
  {
    var i := IndexOf(s.timers, s.control.caller.timer);
    var k := CompletedFirings(s, b.id);
    CompletedBalanced(b, s.timers, i, k, WasReset(s.log, b.id), AskedOut(s.log, b.id));
  }

  lemma CallbackBooks(base: seq<Timer>, s: State)
    requires BooksBalance(base, s) && IdsLogged(s) && CallerLogged(s) && Coupled(s) && s.control.InCallback?
    ensures BooksBalance(base, Step(s))
  {
    var InCallback(caller, proceed, requests) := s.control;
    if requests != [] {
      var s' := s.(control := InCallback(caller, proceed, requests[1..]));
      assert forall b | Born(base, s.log, b) :: BookOf(s, b) && BookOf(s', b);
      ServeBooks(base, s', requests[0], caller.OfItem?);
    } else if caller.OfTimer? {
      forall b | Born(base, s.log, b) ensures BookOf(AfterTimer(s), b) {
        AfterTimerBook(s, b);
      }
    } else {
      assert forall b | Born(base, s.log, b) :: BookOf(s, b) && BookOf(Step(s), b);
    }
  }

  lemma SettledBooks(base: seq<Timer>, s: State, r: State)
    requires BooksBalance(base, s) && r.log == s.log && s.nextId <= r.nextId
    requires forall t :: t in r.timers <==> t in s.timers
    requires !s.control.InCallback? && !r.control.InCallback?
    ensures BooksBalance(base, r)
  {
    forall b | Born(base, r.log, b) ensures BookOf(r, b) {
      assert BookOf(s, b);
      SameTimersBalanced(b, s.timers, r.timers, CompletedFirings(s, b.id),
                         WasReset(s.log, b.id), AskedOut(s.log, b.id));
    }
  }

  lemma TimersPhaseBooks(base: seq<Timer>, s: State)
    requires BooksBalance(base, s) && Coupled(s) && s.control.InTimers?
    ensures BooksBalance(base, Step(s))
  {
    var r := Step(s);
    if r.control.InCallback? {
      FireBooks(base, s);
    } else {
      SortCoupled(s.timers);
      SettledBooks(base, s, r);
    }
  }

  lemma LeavingBooks(base: seq<Timer>, s: State)
    requires BooksBalance(base, s) && IdsLogged(s) && s.control.Leaving?
    ensures BooksBalance(base, Step(s))
  {
    var f := s.(dispatching := false);
    forall b | Born(base, s.log, b) ensures BookOf(Step(s), b) {
      assert BookOf(s, b) && BookOf(f, b);
      FlushBooks(base, f, b);
    }
  }

  /** The other steps leave the timers alone and log nothing about them. */
  lemma OtherBooks(base: seq<Timer>, s: State, e: Event, r: State)
    requires BooksBalance(base, s) && !s.control.InCallback?
    requires r.log == s.log || (r.log == s.log + [e] && Harmless(e))
    requires r.timers == s.timers && r.nextId == s.nextId
    requires !r.control.InCallback? || r.control.caller.OfItem?
    ensures BooksBalance(base, r)
  {
    LoggedBirths(base, s.log, e);
    forall b | Born(base, s.log, b) ensures BookOf(r, b) {
      assert BookOf(s, b);
      LoggedFirings(s.log, e, b.id);
    }
  }

  lemma StepBooks(base: seq<Timer>, s: State)
    requires BooksBalance(base, s) && IdsLogged(s) && CallerLogged(s) && Coupled(s)
    ensures BooksBalance(base, Step(s))
  {
    if s.control.InCallback? {
      CallbackBooks(base, s);
    } else if s.control.InTimers? {
      TimersPhaseBooks(base, s);
    } else if s.control.Leaving? {
      LeavingBooks(base, s);
    } else if s.control.AtHead? && s.rounds != [] {
      HeadBooks(base, s);
    } else {
      var e := if |Step(s).log| > |s.log| then Step(s).log[|s.log|] else DispatchBegan;
      OtherBooks(base, s, e, Step(s));
    }
  }

  lemma CallbackCallerLogged(s: State)
    requires CallerLogged(s) && s.control.InCallback?
    ensures CallerLogged(Step(s))
  {
    var InCallback(caller, proceed, requests) := s.control;
    if requests != [] && caller.OfTimer? {
      var s' := s.(control := InCallback(caller, proceed, requests[1..]));
      var logged := ServeLogs(s', requests[0], false);
      if logged != [] {
        LoggedFirings(s.log, logged[0], caller.timer);
      } else {
        assert s.log + logged == s.log;
      }
    }
  }

  lemma StepCallerLogged(s: State)
    requires CallerLogged(s)
    ensures CallerLogged(Step(s))
  {
    if s.control.InCallback? {
      CallbackCallerLogged(s);
    } else if s.control.InTimers? && Step(s).control.InCallback? {
      var timer := s.timers[s.control.position];
      LoggedFirings(s.log, Fired(timer.id, s.script[0].proceed), timer.id);
    }
  }

  lemma LogKeepsIds(s: State, t: State, e: Event)
    requires IdsLogged(s) && t.log == s.log + [e] && s.nextId <= t.nextId
    requires e.Fired? || e.TimerRemovalAsked? || e.TimerWasReset? ==> e.timer < s.nextId
    requires forall id | id in t.timerLater :: id in s.timerLater || e == TimerRemovalAsked(id)
    ensures IdsLogged(t)
  {
    assert forall i | 0 <= i < |t.log| :: t.log[i] == if i < |s.log| then s.log[i] else e;
    forall id | id in t.timerLater ensures AskedOut(t.log, id) {
      LoggedFirings(s.log, e, id);
      assert t.log[|s.log|] == e;
    }
  }

  lemma CallbackIdsLogged(s: State)
    requires IdsLogged(s) && Coupled(s) && s.control.InCallback?
    ensures IdsLogged(Step(s))
  {
    var InCallback(caller, proceed, requests) := s.control;
    if requests != [] && Step(s).log != s.log {
      var e := Step(s).log[|s.log|];
      if requests[0].ResetTimer? {
        assert s.timers[IndexOf(s.timers, requests[0].timer)] in s.timers;
      }
      LogKeepsIds(s, Step(s), e);
    }
  }

  lemma StepIdsLogged(s: State)
    requires IdsLogged(s) && Coupled(s)
    ensures IdsLogged(Step(s))
  {
    if s.control.InCallback? {
      CallbackIdsLogged(s);
    } else if s.control.AtHead? {
      HeadIdsLogged(s);
    } else if s.control.InTimers? {
      TimersIdsLogged(s);
    } else {
      OtherIdsLogged(s);
    }
  }

  lemma HeadIdsLogged(s: State)
    requires IdsLogged(s) && s.control.AtHead?
    ensures IdsLogged(Step(s))
  {
    if s.rounds != [] {
      var e := Step(s).log[|s.log|];
      assert Step(s).log == s.log + [e];
      LogKeepsIds(s, Step(s), e);
    }
  }

  lemma TimersIdsLogged(s: State)
    requires IdsLogged(s) && Coupled(s) && s.control.InTimers?
    ensures IdsLogged(Step(s))
  {
    if Step(s).control.InCallback? {
      assert s.timers[s.control.position] in s.timers;
      LogKeepsIds(s, Step(s), Step(s).log[|s.log|]);
    }
  }

  lemma OtherIdsLogged(s: State)
    requires IdsLogged(s) && !s.control.InCallback? && !s.control.AtHead? && !s.control.InTimers?
    ensures IdsLogged(Step(s))
  {
    if Step(s).log != s.log {
      LogKeepsIds(s, Step(s), Step(s).log[|s.log|]);
    }
  }

  lemma {:induction false} RunBooks(base: seq<Timer>, s: State)
    requires BooksBalance(base, s) && IdsLogged(s) && CallerLogged(s) && Coupled(s)
    ensures BooksBalance(base, Run(s))
    decreases |s.rounds|, Rank(s.control), |s.script|, Depth(s.control), Work(s)
  {
    if !Halted(s.control) {
      StepDescends(s);
      StepBooks(base, s);
      StepIdsLogged(s);
      StepCallerLogged(s);
      StepCoupled(s);
      RunBooks(base, Step(s));
    }
  }

  /** The books at the end of any run, for the timers it began with and for
      those created on the way. */
  lemma TimersConserved(s: State)
    requires Coupled(s) && s.control.AtHead? && s.log == [] && s.timerLater == []
    ensures forall b | Born(s.timers, Run(s).log, b) ::
              Balanced(b, Run(s).timers, Firings(Run(s).log, b.id), WasReset(Run(s).log, b.id),
                       AskedOut(Run(s).log, b.id))
  {
    forall b | Born(s.timers, s.log, b) ensures BookOf(s, b) {
      assert b in s.timers;
      var i :| 0 <= i < |s.timers| && s.timers[i] == b;
      assert s.timers[i].id == b.id;
    }
    RunBooks(s.timers, s);
    RunHalts(s);
    forall b | Born(s.timers, Run(s).log, b)
      ensures Balanced(b, Run(s).timers, Firings(Run(s).log, b.id), WasReset(Run(s).log, b.id), AskedOut(Run(s).log, b.id))
    {
      assert BookOf(Run(s), b);
    }
  }

  // ---- Deadlines count from creation ----

  /** Every timer created so far was due one delay after the clock sample taken
      at its creation. */
  ghost predicate BirthsAreTimely(log: seq<Event>) {
    forall i | 0 <= i < |log| && log[i].TimerAdded? ::
      log[i].added.when == log[i].at + log[i].added.delay * NS_PER_MS
  }

  lemma StepBirths(s: State)
    requires BirthsAreTimely(s.log)
    ensures BirthsAreTimely(Step(s).log)
  {
    var logged := StepLogs(s);
    var log := Step(s).log;
    if logged != [] && logged[0].TimerAdded? {
      BirthIsRequested(s, logged[0]);
    }
    assert forall i | 0 <= i < |log| :: log[i] == if i < |s.log| then s.log[i] else logged[0];
  }

  lemma BirthIsRequested(s: State, e: Event)
    requires Step(s).log == s.log + [e] && e.TimerAdded?
    ensures e.added.when == e.at + e.added.delay * NS_PER_MS
  {
    assert Step(s).log[|s.log|] == e;
    if s.control.InCallback? && s.control.requests != [] {
      var s' := s.(control := s.control.(requests := s.control.requests[1..]));
      BirthIsServed(s', s.control.requests[0], s.control.caller.OfItem?, e);
    } else {
      OtherStepsBearNone(s, e);
    }
  }

  lemma BirthIsServed(s: State, request: Request, fromHandler: bool, e: Event)
    requires Serve(s, request, fromHandler).log == s.log + [e] && e.TimerAdded?
    ensures e.added.when == e.at + e.added.delay * NS_PER_MS
  {
    assert Serve(s, request, fromHandler).log[|s.log|] == e;
  }

  lemma OtherStepsBearNone(s: State, e: Event)
    requires Step(s).log == s.log + [e] && !(s.control.InCallback? && s.control.requests != [])
    ensures !e.TimerAdded?
  {
    assert Step(s).log[|s.log|] == e;
  }

  lemma {:induction false} RunBirths(s: State)
    requires BirthsAreTimely(s.log)
    ensures BirthsAreTimely(Run(s).log)
    decreases |s.rounds|, Rank(s.control), |s.script|, Depth(s.control), Work(s)
  {
    if !Halted(s.control) {
      StepDescends(s);
      StepBirths(s);
      RunBirths(Step(s));
    }
  }

  /** A timer that was created in the run, fired k times and was never reset is
      due k + 1 delays after its creation. */
  lemma DeadlinesFromCreation(s: State, i: nat, u: Timer)
    requires Coupled(s) && s.control.AtHead? && s.log == [] && s.timerLater == []
    requires i < |Run(s).log| && Run(s).log[i].TimerAdded?
    requires u in Run(s).timers && u.id == Run(s).log[i].added.id && !WasReset(Run(s).log, u.id)
    ensures var e := Run(s).log[i];
            u.when == e.at + (Firings(Run(s).log, u.id) + 1) * (e.added.delay * NS_PER_MS)
  {
    TimersConserved(s);
    RunBirths(s);
    DeadlineIs(s.timers, Run(s).timers, Run(s).log, i, u);
  }

  lemma DeadlineIs(base: seq<Timer>, ts: seq<Timer>, log: seq<Event>, i: nat, u: Timer)
    requires i < |log| && log[i].TimerAdded? && BirthsAreTimely(log)
    requires u in ts && u.id == log[i].added.id && !WasReset(log, u.id)
    requires forall b | Born(base, log, b) :: Balanced(b, ts, Firings(log, b.id), WasReset(log, b.id), AskedOut(log, b.id))
    ensures u.when == log[i].at + (Firings(log, u.id) + 1) * (log[i].added.delay * NS_PER_MS)
  {
    var b := log[i].added;
    assert Born(base, log, b);
    BalancedDeadline(b, ts, Firings(log, b.id), AskedOut(log, b.id), u);
    OneMore(Firings(log, b.id), b.delay * NS_PER_MS);
  }

  lemma BalancedDeadline(b: Timer, ts: seq<Timer>, k: int, asked: bool, u: Timer)
    requires Balanced(b, ts, k, false, asked) && u in ts && u.id == b.id
    ensures u.when == b.when + k * (b.delay * NS_PER_MS)
  {
  }

  lemma OneMore(k: int, d: int)
    ensures (k + 1) * d == k * d + d
  {
  }
}

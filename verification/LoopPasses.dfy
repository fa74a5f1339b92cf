/**
 * One pass over the due timers, one dispatch over the handlers, one flush of
 * the pending removals, one poll: what each of them does as a whole.
 */
module LoopPasses {
  import opened PollTypes
  import opened TimerList
  import opened LoopMachine
  import opened LoopCoupling
  import opened LoopRuns
  import opened LoopRemovals
  import opened LoopTimers

  // ---- Deferred removals ----

  datatype Target = OfKey(key: Key) | OfTimerId(id: nat)

  function RemovedNow(s: State, target: Target): State {
    match target
    case OfKey(key) => RemoveItemNow(s, key)
    case OfTimerId(id) => RemoveTimerNow(s, id)
  }

  /** The targets removed at once, one after the other. */
  function AllRemovedNow(s: State, targets: seq<Target>): State
    decreases targets
  {
    if targets == [] then s else AllRemovedNow(RemovedNow(s, targets[0]), targets[1..])
  }

  function KeysAmong(targets: seq<Target>): set<Key> {
    set i | 0 <= i < |targets| && targets[i].OfKey? :: targets[i].key
  }

  function IdsAmong(targets: seq<Target>): set<nat> {
    set i | 0 <= i < |targets| && targets[i].OfTimerId? :: targets[i].id
  }

  lemma FirstAmong(targets: seq<Target>)
    requires targets != []
    ensures KeysAmong(targets) == (if targets[0].OfKey? then {targets[0].key} else {}) + KeysAmong(targets[1..])
    ensures IdsAmong(targets) == (if targets[0].OfTimerId? then {targets[0].id} else {}) + IdsAmong(targets[1..])
  {
    var rest := targets[1..];
    assert forall i | 0 <= i < |rest| :: rest[i] == targets[i + 1];
    forall k | k in KeysAmong(rest) ensures k in KeysAmong(targets) {
      var i :| 0 <= i < |rest| && rest[i].OfKey? && rest[i].key == k;
      assert targets[i + 1].key == k;
    }
    forall id | id in IdsAmong(rest) ensures id in IdsAmong(targets) {
      var i :| 0 <= i < |rest| && rest[i].OfTimerId? && rest[i].id == id;
      assert targets[i + 1].id == id;
    }
    forall k | k in KeysAmong(targets) && !(targets[0].OfKey? && targets[0].key == k) ensures k in KeysAmong(rest) {
      var i :| 0 <= i < |targets| && targets[i].OfKey? && targets[i].key == k;
      assert rest[i - 1].key == k;
    }
    forall id | id in IdsAmong(targets) && !(targets[0].OfTimerId? && targets[0].id == id) ensures id in IdsAmong(rest) {
      var i :| 0 <= i < |targets| && targets[i].OfTimerId? && targets[i].id == id;
      assert rest[i - 1].id == id;
    }
  }

  lemma {:induction false} NoneGone(ts: seq<Timer>)
    ensures WithoutTimers(ts, {}) == ts
  {
    if ts != [] {
      NoneGone(ts[1..]);
    }
  }

  lemma {:induction false} RemovedOneByOne(s: State, targets: seq<Target>)
    ensures AllRemovedNow(s, targets) ==
            s.(items := Without(s.items, KeysAmong(targets)), table := s.table - KeysAmong(targets),
               timers := WithoutTimers(s.timers, IdsAmong(targets)))
    decreases targets
  {
    if targets == [] {
      assert KeysAmong(targets) == {} && IdsAmong(targets) == {};
      WithoutNothing(s.items, {});
      NoneGone(s.timers);
      assert s.table - {} == s.table;
    } else {
      FirstAmong(targets);
      var r := RemovedNow(s, targets[0]);
      RemovedOneByOne(r, targets[1..]);
      if targets[0].OfKey? {
        WithoutTwice(s.items, {targets[0].key}, KeysAmong(targets[1..]));
        assert s.table - {targets[0].key} - KeysAmong(targets[1..]) == s.table - KeysAmong(targets);
        assert IdsAmong(targets) == IdsAmong(targets[1..]);
      } else {
        assert KeysAmong(targets) == KeysAmong(targets[1..]);
        WithoutTimersTwice(s.timers, {targets[0].id}, IdsAmong(targets[1..]));
      }
    }
  }

  /** Flushing equals removing the pending targets at once, one by one, in any
      order and with any repetitions. */
  lemma FlushIsImmediateRemoval(s: State, targets: seq<Target>)
    requires KeysAmong(targets) == Pending(s) && IdsAmong(targets) == PendingTimers(s)
    ensures Flush(s) == AllRemovedNow(s, targets).(fdLater := [], sockLater := [], timerLater := [])
  {
    RemovedOneByOne(s, targets);
  }

  /** The survivors keep their relative order. */
  lemma {:induction false} FlushKeepsOrder(entries: seq<Entry>, gone: set<Key>, i: nat, j: nat)
    requires i < j < |entries| && entries[i].item.key !in gone && entries[j].item.key !in gone
    ensures exists k, l :: 0 <= k < l < |Without(entries, gone)| &&
              Without(entries, gone)[k] == entries[i] && Without(entries, gone)[l] == entries[j]
  {
    var w := Without(entries[1..], gone);
    if i == 0 {
      assert entries[j] == entries[1..][j - 1];
      assert entries[j] in w;
      var l :| 0 <= l < |w| && w[l] == entries[j];
      assert Without(entries, gone)[0] == entries[i] && Without(entries, gone)[l + 1] == entries[j];
    } else {
      FlushKeepsOrder(entries[1..], gone, i - 1, j - 1);
      var k, l :| 0 <= k < l < |w| && w[k] == entries[i] && w[l] == entries[j];
      if entries[0].item.key !in gone {
        assert Without(entries, gone)[k + 1] == w[k] && Without(entries, gone)[l + 1] == w[l];
      } else {
        assert Without(entries, gone)[k] == w[k] && Without(entries, gone)[l] == w[l];
      }
    }
  }

  // ---- How long a poll sleeps ----

  /** With a sorted list the timeout is the time to the earliest deadline, at
      most an hour, rounded down to whole milliseconds and never negative. */
  lemma TimeoutFits(timers: seq<Timer>, first: int, second: int)
    requires Sorted(timers) && first <= second
    ensures var timeout := Tickless(timers, first, second);
            && 0 <= timeout <= 3_600_000
            && (timeout > 0 ==> forall t | t in timers :: second + timeout * NS_PER_MS <= t.when)
            && (second + (timeout + 1) * NS_PER_MS > first + HOUR ||
                exists t :: t in timers && second + (timeout + 1) * NS_PER_MS > t.when)
  {
    var hour := first + HOUR;
    var tick := if timers != [] && timers[0].when < hour then timers[0].when else hour;
    assert timers != [] ==> timers[0] in timers;
    assert forall t | t in timers :: tick <= t.when;
    var ms := Milliseconds(tick - second);
    if tick - second >= 0 {
      assert ms * NS_PER_MS <= tick - second < (ms + 1) * NS_PER_MS;
    }
  }

  /** Whenever a poll that samples the clock from the time `from` on sleeps, it
      wakes up before every deadline in the list. */
  ghost predicate NeverOversleeps(timers: seq<Timer>, from: int) {
    forall first: int, second: int | from <= first <= second && Tickless(timers, first, second) > 0 ::
      forall t | t in timers :: second + Tickless(timers, first, second) * NS_PER_MS <= t.when
  }

  /** For a list in any order that is so exactly when its front leaves no whole
      millisecond to sleep, or no deadline is before that of its front. */
  ghost predicate FrontDecides(timers: seq<Timer>, from: int) {
    || timers == []
    || timers[0].when - NS_PER_MS < from
    || forall t | t in timers :: timers[0].when <= t.when
  }

  lemma OversleepsUnlessFrontFirst(timers: seq<Timer>, from: int)
    ensures NeverOversleeps(timers, from) <==> FrontDecides(timers, from)
  {
    if FrontDecides(timers, from) {
      forall first: int, second: int | from <= first <= second && Tickless(timers, first, second) > 0
        ensures forall t | t in timers :: second + Tickless(timers, first, second) * NS_PER_MS <= t.when
      {
        if timers != [] && timers[0].when - NS_PER_MS < from {
          FrontIsNear(timers, first, second);
        } else {
          FrontFits(timers, first, second);
        }
      }
    } else {
      var now := timers[0].when - NS_PER_MS;
      assert Tickless(timers, now, now) == 1;
    }
  }

  lemma FrontIsNear(timers: seq<Timer>, first: int, second: int)
    requires timers != [] && timers[0].when - NS_PER_MS < first <= second
    ensures Tickless(timers, first, second) == 0
  {
  }

  lemma FrontFits(timers: seq<Timer>, first: int, second: int)
    requires first <= second && forall t | t in timers :: timers[0].when <= t.when
    ensures var timeout := Tickless(timers, first, second);
            timeout > 0 ==> forall t | t in timers :: second + timeout * NS_PER_MS <= t.when
  {
    var hour := first + HOUR;
    var tick := if timers != [] && timers[0].when < hour then timers[0].when else hour;
    var ms := Milliseconds(tick - second);
    if tick - second >= 0 {
      assert ms * NS_PER_MS <= tick - second;
    }
  }

  /** A poll wakes up before any deadline, or does not sleep at all. */
  ghost predicate SleepsInTime(e: Event) {
    e.PollCalled? ==>
      && 0 <= e.timeout <= 3_600_000
      && (forall i, j | 0 <= i < j < |e.deadlines| :: e.deadlines[i] <= e.deadlines[j])
      && (e.timeout > 0 ==> forall i | 0 <= i < |e.deadlines| :: e.at + e.timeout * NS_PER_MS <= e.deadlines[i])
  }

  /** Every poll logged from place `from` on slept in time, and outside the
      timer phase the list is sorted. */
  ghost predicate InOrder(s: State, from: nat) {
    && (forall i | from <= i < |s.log| :: SleepsInTime(s.log[i]))
    && (KeepsOrder(s.control) ==> Sorted(s.timers))
  }

  /** Where the list is sorted: outside the timer phase. */
  predicate KeepsOrder(c: Control) {
    c.AtHead? || c.TimersDone? || c.ItemsDone? || InDispatch(c)
  }

  lemma LoggedInOrder(s: State, from: nat, r: State, e: Event)
    requires InOrder(s, from) && r.log == s.log + [e] && SleepsInTime(e)
    requires KeepsOrder(r.control) ==> Sorted(r.timers)
    ensures InOrder(r, from)
  {
    assert forall i | 0 <= i < |r.log| :: r.log[i] == if i < |s.log| then s.log[i] else e;
  }

  lemma PollEventFits(timers: seq<Timer>, first: int, second: int)
    requires Sorted(timers) && first <= second
    ensures SleepsInTime(PollCalled(Tickless(timers, first, second), second, Deadlines(timers)))
  {
    TimeoutFits(timers, first, second);
    assert forall i | 0 <= i < |timers| :: timers[i] in timers;
  }

  lemma HeadInOrder(s: State, from: nat)
    requires InOrder(s, from) && s.control.AtHead? && s.rounds != []
    ensures InOrder(Head(s), from)
  {
    var f := Flush(s.(rebuild := false, rounds := s.rounds[1..]));
    var first := s.clock + s.rounds[0].first;
    var second := first + s.rounds[0].second;
    WithoutTimersKeepsOrder(s.timers, PendingTimers(s));
    PollEventFits(f.timers, first, second);
    LoggedInOrder(s, from, Head(s), PollCalled(Tickless(f.timers, first, second), second, Deadlines(f.timers)));
  }

  lemma AddedInOrder(s: State, delay: nat, times: nat, elapsed: nat)
    ensures Sorted(AddTimerOp(s, delay, times, elapsed).timers)
  {
    SortIsSortedPermutation(s.timers + [Timer(s.nextId, times, delay, s.clock + elapsed + delay * NS_PER_MS)]);
  }

  lemma ResetInOrder(s: State, timer: nat, elapsed: nat)
    requires Sorted(s.timers)
    ensures Sorted(ResetTimerOp(s, timer, elapsed).timers)
  {
    var i := IndexOf(s.timers, timer);
    if i < |s.timers| {
      var when := s.clock + elapsed + s.timers[i].delay * NS_PER_MS;
      SortIsSortedPermutation(s.timers[i := s.timers[i].(when := when)]);
    }
  }

  lemma ServedInOrder(s: State, request: Request, fromHandler: bool)
    requires Sorted(s.timers) && s.dispatching
    ensures Sorted(Serve(s, request, fromHandler).timers)
  {
    match request
    case AddTimer(delay, times, elapsed) => AddedInOrder(s, delay, times, elapsed);
    case ResetTimer(timer, elapsed) => ResetInOrder(s, timer, elapsed);
    case _ =>
  }

  lemma CallbackInOrder(s: State, from: nat)
    requires InOrder(s, from) && s.control.InCallback? && s.dispatching
    ensures InOrder(Step(s), from)
  {
    var InCallback(caller, proceed, requests) := s.control;
    if requests != [] {
      var s' := s.(control := InCallback(caller, proceed, requests[1..]));
      var logged := ServeLogs(s', requests[0], caller.OfItem?);
      if caller.OfItem? {
        ServedInOrder(s', requests[0], true);
      }
      if logged != [] {
        LoggedInOrder(s, from, Step(s), logged[0]);
      } else {
        assert s.log + logged == s.log;
      }
    }
  }

  lemma TimersInOrder(s: State, from: nat)
    requires InOrder(s, from) && s.control.InTimers?
    ensures InOrder(Step(s), from)
  {
    if s.control.position < |s.timers| && s.timers[s.control.position].when < s.control.now {
      if s.script != [] {
        LoggedInOrder(s, from, Fire(s), Fired(s.timers[s.control.position].id, s.script[0].proceed));
      }
    } else {
      SortIsSortedPermutation(s.timers);
    }
  }

  lemma HandlersInOrder(s: State, from: nat)
    requires InOrder(s, from) && s.control.InItems?
    ensures InOrder(Step(s), from)
  {
    if Step(s).control.InCallback? {
      LoggedInOrder(s, from, Step(s), Step(s).log[|s.log|]);
    }
  }

  lemma BetweenInOrder(s: State, from: nat)
    requires InOrder(s, from) && s.control.TimersDone?
    ensures InOrder(Step(s), from)
  {
    if Step(s).control.InItems? {
      LoggedInOrder(s, from, Step(s), DispatchBegan);
    }
  }

  lemma StepInOrder(s: State, from: nat)
    requires InOrder(s, from) && Coupled(s)
    ensures InOrder(Step(s), from)
  {
    match s.control
    case InCallback(_, _, _) => CallbackInOrder(s, from);
    case AtHead =>
      if s.rounds != [] {
        HeadInOrder(s, from);
      }
    case InTimers(_, _, _) => TimersInOrder(s, from);
    case InItems(_) => HandlersInOrder(s, from);
    case TimersDone(_) => BetweenInOrder(s, from);
    case _ =>
  }

  /** Begun with a sorted list, every poll of a run finds the list sorted and
      sleeps no longer than to the earliest deadline. */
  lemma {:induction false} PollsSleepInTime(s: State, from: nat)
    requires InOrder(s, from) && Coupled(s)
    ensures InOrder(Run(s), from)
    decreases |s.rounds|, Rank(s.control), |s.script|, Depth(s.control), Work(s)
  {
    if !Halted(s.control) {
      StepDescends(s);
      StepInOrder(s, from);
      StepCoupled(s);
      PollsSleepInTime(Step(s), from);
    }
  }

  /** Begun with any list, every poll but the first does so: a timer phase that
      ends without stopping the loop leaves the list sorted. */
  lemma LaterPollsSleepInTime(s: State)
    requires Coupled(s) && s.control.AtHead? && s.log == []
    ensures forall i | 1 <= i < |Run(s).log| :: SleepsInTime(Run(s).log[i])
    ensures |Run(s).log| > 0 ==> Run(s).log[0].PollCalled?
  {
    if s.rounds != [] {
      var h := Head(s);
      StepDescends(s);
      StepCoupled(s);
      assert h == Step(s) && |h.log| == 1;
      PollsSleepInTime(h, 1);
      LogOnlyGrows(h);
    } else {
      assert Run(s) == Run(Step(s)) == Step(s);
    }
  }

  /** A run that ends in a poll that throws leaves a sorted list sorted. */
  lemma {:induction false} ThrewInOrder(s: State, from: nat)
    requires InOrder(s, from) && Coupled(s) && (s.control.PollThrew? ==> Sorted(s.timers))
    ensures Run(s).control.PollThrew? ==> Sorted(Run(s).timers)
    decreases |s.rounds|, Rank(s.control), |s.script|, Depth(s.control), Work(s)
  {
    if !Halted(s.control) {
      StepDescends(s);
      StepInOrder(s, from);
      StepCoupled(s);
      if Step(s).control.PollThrew? {
        StepThrows(s);
      }
      ThrewInOrder(Step(s), from);
    }
  }

  lemma StepThrows(s: State)
    requires !Halted(s.control) && Step(s).control.PollThrew?
    ensures s.control.AtHead? && (Sorted(s.timers) ==> Sorted(Step(s).timers))
  {
    if s.control.InCallback? && s.control.requests != [] {
      ServeFrame(s.(control := s.control.(requests := s.control.requests[1..])), s.control.requests[0],
                 s.control.caller.OfItem?);
    }
    WithoutTimersKeepsOrder(s.timers, PendingTimers(s));
  }

  lemma {:induction false} LogOnlyGrows(s: State)
    ensures s.log <= Run(s).log
    decreases |s.rounds|, Rank(s.control), |s.script|, Depth(s.control), Work(s)
  {
    if !Halted(s.control) {
      StepDescends(s);
      var logged := StepLogs(s);
      assert s.log <= Step(s).log;
      LogOnlyGrows(Step(s));
    }
  }

  // ---- One pass over the due timers: callbacks that leave the timers alone ----

  /** Which timers fired, in order. */
  function FiredIds(log: seq<Event>): seq<nat> {
    if log == [] then []
    else
      var last := log[|log| - 1];
      FiredIds(log[..|log| - 1]) + if last.Fired? then [last.timer] else []
  }

  function Ids(ts: seq<Timer>): seq<nat> {
    seq(|ts|, i requires 0 <= i < |ts| => ts[i].id)
  }

  /** How many timers at the front of the list are due. */
  function DueCount(ts: seq<Timer>, now: int): (n: nat)
    ensures n <= |ts|
    ensures forall i | 0 <= i < n :: ts[i].when < now
    ensures n < |ts| ==> ts[n].when >= now
  {
    if ts == [] || ts[0].when >= now then 0 else 1 + DueCount(ts[1..], now)
  }

  /** The timers after one firing each: exhausted ones are gone, the others are
      due exactly one delay later. */
  function Survivors(ts: seq<Timer>): seq<Timer> {
    if ts == [] then []
    else
      var t := ts[0];
      (if t.times == 1 then []
       else [t.(times := if t.times == 0 then 0 else t.times - 1, when := t.when + t.delay * NS_PER_MS)])
      + Survivors(ts[1..])
  }

  predicate Quiet(request: Request) {
    !request.AddTimer? && !request.ResetTimer?
  }

  predicate QuietReaction(r: Reaction) {
    r.proceed && forall i | 0 <= i < |r.requests| :: Quiet(r.requests[i])
  }

  lemma QuietlyServed(s: State, request: Request)
    requires s.dispatching && Quiet(request)
    ensures var r := Serve(s, request, false);
            && r.control == s.control && r.dispatching
            && r.timers == s.timers && r.nextId == s.nextId && r.script == s.script
            && FiredIds(r.log) == FiredIds(s.log)
  {
    var logged := ServeLogs(s, request, false);
    if logged != [] {
      assert Serve(s, request, false).log[..|s.log|] == s.log;
    } else {
      assert s.log + logged == s.log;
    }
  }

  lemma QuietRequest(s: State)
    requires s.control.InCallback? && s.control.caller.OfTimer? && s.dispatching
    requires s.control.requests != [] && Quiet(s.control.requests[0])
    ensures var r := Step(s);
            && TimerPass(s) == TimerPass(r)
            && r.control == s.control.(requests := s.control.requests[1..]) && r.dispatching
            && r.timers == s.timers && r.nextId == s.nextId && r.script == s.script
            && FiredIds(r.log) == FiredIds(s.log)
  {
    QuietlyServed(s.(control := s.control.(requests := s.control.requests[1..])), s.control.requests[0]);
  }

  /** The callback of a timer whose requests leave the timers alone. */
  lemma {:induction false} QuietCallback(s: State) returns (r: State)
    requires s.control.InCallback? && s.control.caller.OfTimer? && s.dispatching
    requires forall i | 0 <= i < |s.control.requests| :: Quiet(s.control.requests[i])
    ensures TimerPass(s) == TimerPass(r)
    ensures r.control == s.control.(requests := []) && r.dispatching
    ensures r.timers == s.timers && r.nextId == s.nextId && r.script == s.script
    ensures FiredIds(r.log) == FiredIds(s.log)
    decreases |s.control.requests|
  {
    if s.control.requests == [] {
      r := s;
    } else {
      QuietRequest(s);
      r := QuietCallback(Step(s));
    }
  }

  /** A due timer fires: it is completed in place and the next one is next. */
  lemma QuietFiring(s: State) returns (r: State)
    requires s.control.InTimers? && s.dispatching && IdsIssued(s)
    requires s.control.position < |s.timers| && s.timers[s.control.position].when < s.control.now
    requires s.script != [] && QuietReaction(s.script[0])
    ensures var i := s.control.position;
            && TimerPass(s) == TimerPass(r)
            && r.timers == Completed(s.timers, i) && r.nextId == s.nextId && r.dispatching
            && r.script == s.script[1..]
            && FiredIds(r.log) == FiredIds(s.log) + [s.timers[i].id]
            && r.control == InTimers(s.control.now, if s.timers[i].times == 1 then i else i + 1, s.control.polled)
  {
    var i := s.control.position;
    var f := Fire(s);
    assert f.log[..|f.log| - 1] == s.log;
    var c := QuietCallback(f);
    assert IndexOf(c.timers, s.timers[i].id) == i;
    r := Step(c);
  }

  /** What the pass leaves and reports when the `n` timers at the front of
      `rest` fire quietly after `done`. */
  ghost predicate PassedQuietly(s: State, r: State, done: seq<Timer>, rest: seq<Timer>, n: nat)
    requires s.control.InTimers? && n <= |rest| && n <= |s.script|
  {
    && r.control == TimersDone(s.control.polled)
    && r.script == s.script[n..]
    && FiredIds(r.log) == FiredIds(s.log) + Ids(rest[..n])
    && r.timers == Sort(done + Survivors(rest[..n]) + rest[n..])
  }

  lemma SettlesQuietly(s: State)
    requires s.control.InTimers?
    requires s.control.position == |s.timers| || (s.control.position < |s.timers| && s.timers[s.control.position].when >= s.control.now)
    ensures var r := TimerPass(s);
            && r.control == TimersDone(s.control.polled) && r.script == s.script && r.log == s.log
            && r.timers == Sort(s.timers)
  {
    assert TimerPass(Step(s)) == Step(s);
  }

  /** The first of `n` timers, and the others. */
  lemma FrontSplits(done: seq<Timer>, rest: seq<Timer>, n: nat)
    requires 0 < n <= |rest|
    ensures Ids(rest[..n]) == [rest[0].id] + Ids(rest[1..][..n - 1])
    ensures done + Survivors(rest[..n]) == done + Survivors(rest[..1]) + Survivors(rest[1..][..n - 1])
    ensures rest[n..] == rest[1..][n - 1..]
  {
    var first, others := rest[..1], rest[1..][..n - 1];
    assert rest[..n] == first + others;
    assert (first + others)[0] == rest[0] && (first + others)[1..] == others && first[1..] == [];
    assert Survivors(rest[..n]) == Survivors(first) + Survivors(others);
  }

  lemma PassExtends(s: State, t: State, r: State, done: seq<Timer>, rest: seq<Timer>, n: nat)
    requires s.control.InTimers? && t.control.InTimers? && 0 < n <= |rest| && n <= |s.script|
    requires t.control.polled == s.control.polled && t.script == s.script[1..]
    requires FiredIds(t.log) == FiredIds(s.log) + [rest[0].id]
    requires PassedQuietly(t, r, done + Survivors(rest[..1]), rest[1..], n - 1)
    ensures PassedQuietly(s, r, done, rest, n)
  {
    FrontSplits(done, rest, n);
    Regroup(FiredIds(s.log), [rest[0].id], Ids(rest[1..][..n - 1]));
    assert s.script[1..][n - 1..] == s.script[n..];
  }

  lemma Regroup<T>(a: seq<T>, b: seq<T>, c: seq<T>)
    ensures a + b + c == a + (b + c)
  {
  }

  lemma CompletedSplit(done: seq<Timer>, rest: seq<Timer>)
    requires rest != []
    ensures (done + rest)[|done|] == rest[0]
    ensures Completed(done + rest, |done|) == done + Survivors(rest[..1]) + rest[1..]
    ensures |done + Survivors(rest[..1])| == if rest[0].times == 1 then |done| else |done| + 1
  {
    assert rest[..1][1..] == [];
    var i := |done|;
    assert (done + rest)[..i] == done && (done + rest)[i + 1..] == rest[1..];
    var c := Completed(done + rest, i);
    if rest[0].times != 1 {
      assert Survivors(rest[..1]) == [c[i]];
    }
  }

  /** The pass is in front of `rest`. */
  ghost predicate InFrontOf(s: State, done: seq<Timer>, rest: seq<Timer>) {
    s.control.InTimers? && s.dispatching && IdsIssued(s) && s.timers == done + rest && s.control.position == |done|
  }

  /** The first timer of `rest` has fired. */
  ghost predicate FirstHasFired(s: State, t: State, rest: seq<Timer>)
    requires s.control.InTimers? && t.control.InTimers? && rest != [] && s.script != []
  {
    && t.control.now == s.control.now && t.control.polled == s.control.polled && t.script == s.script[1..]
    && FiredIds(t.log) == FiredIds(s.log) + [rest[0].id]
  }

  lemma QuietNext(s: State, done: seq<Timer>, rest: seq<Timer>) returns (t: State)
    requires InFrontOf(s, done, rest) && rest != [] && rest[0].when < s.control.now
    requires s.script != [] && QuietReaction(s.script[0])
    ensures InFrontOf(t, done + Survivors(rest[..1]), rest[1..])
    ensures FirstHasFired(s, t, rest) && TimerPass(s) == TimerPass(t)
  {
    CompletedSplit(done, rest);
    t := QuietFiring(s);
    CompletedIds(s.timers, |done|);
    QuietIdsIssued(s, t);
  }

  lemma QuietEnd(s: State, r: State, done: seq<Timer>, rest: seq<Timer>)
    requires InFrontOf(s, done, rest) && r == TimerPass(s)
    requires rest != [] ==> rest[0].when >= s.control.now
    ensures PassedQuietly(s, r, done, rest, 0)
  {
    SettlesQuietly(s);
    assert Survivors(rest[..0]) == [] && Ids(rest[..0]) == [];
    assert done + [] + rest[0..] == s.timers;
  }

  lemma {:induction false} QuietPassFrom(s: State, r: State, done: seq<Timer>, rest: seq<Timer>, n: nat)
    requires InFrontOf(s, done, rest) && r == TimerPass(s)
    requires n == DueCount(rest, s.control.now) && n <= |s.script|
    requires forall k | 0 <= k < n :: QuietReaction(s.script[k])
    ensures PassedQuietly(s, r, done, rest, n)
    decreases n
  {
    if n == 0 {
      QuietEnd(s, r, done, rest);
    } else {
      var t := QuietNext(s, done, rest);
      QuietPassFrom(t, r, done + Survivors(rest[..1]), rest[1..], n - 1);
      PassExtends(s, t, r, done, rest, n);
    }
  }

  lemma QuietIdsIssued(s: State, r: State)
    requires IdsIssued(s) && DistinctIds(r.timers) && r.nextId == s.nextId
    requires forall t | t in r.timers :: HasTimer(s.timers, t.id)
    ensures IdsIssued(r)
  {
    forall t | t in r.timers ensures t.id < r.nextId {
      var k :| 0 <= k < |s.timers| && s.timers[k].id == t.id;
      assert s.timers[k] in s.timers;
    }
  }

  /** `us` holds the timers of `ts`, in deadline order. */
  ghost predicate IsSortingOf(us: seq<Timer>, ts: seq<Timer>) {
    Sorted(us) && multiset(us) == multiset(ts)
  }

  /** Exactly the due timers have fired, each once and in deadline order, each
      firing has used one reaction, and the list holds the survivors and the
      timers that were not due, in deadline order. */
  ghost predicate DueFiredOnce(s: State, r: State)
    requires s.control.InTimers?
  {
    var n := DueCount(s.timers, s.control.now);
    && (forall i | 0 <= i < |s.timers| :: s.timers[i].when < s.control.now <==> i < n)
    && r.control == TimersDone(s.control.polled)
    && n <= |s.script| && r.script == s.script[n..]
    && FiredIds(r.log) == FiredIds(s.log) + Ids(s.timers[..n])
    && IsSortingOf(r.timers, Survivors(s.timers[..n]) + s.timers[n..])
  }

  lemma PassedFromStart(s: State, r: State, n: nat)
    requires s.control.InTimers? && Sorted(s.timers) && n == DueCount(s.timers, s.control.now) && n <= |s.script|
    requires PassedQuietly(s, r, [], s.timers, n)
    ensures DueFiredOnce(s, r)
  {
    var kept := Survivors(s.timers[..n]) + s.timers[n..];
    assert [] + Survivors(s.timers[..n]) + s.timers[n..] == kept;
    SortIsSortedPermutation(kept);
  }

  /** The timer pass from a sorted list, when the callbacks go on and neither
      add nor reset timers. */
  lemma QuietPass(s: State)
    requires Coupled(s) && s.control.InTimers? && s.control.position == 0 && Sorted(s.timers)
    requires var n := DueCount(s.timers, s.control.now);
             n <= |s.script| && forall k | 0 <= k < n :: QuietReaction(s.script[k])
    ensures DueFiredOnce(s, TimerPass(s))
  {
    QuietPassFromStart(s, TimerPass(s), DueCount(s.timers, s.control.now));
  }

  lemma QuietPassFromStart(s: State, r: State, n: nat)
    requires s.dispatching && IdsIssued(s) && r == TimerPass(s)
    requires s.control.InTimers? && s.control.position == 0 && Sorted(s.timers)
    requires n == DueCount(s.timers, s.control.now) && n <= |s.script|
    requires forall k | 0 <= k < n :: QuietReaction(s.script[k])
    ensures DueFiredOnce(s, r)
  {
    assert [] + s.timers == s.timers;
    QuietPassFrom(s, r, [], s.timers, n);
    PassedFromStart(s, r, n);
  }
}

/**
 * The event loop itself: an object whose methods update its lists, its flags
 * and its poller in place. Every method does exactly what the machine of
 * LoopMachine does, so what is proved about runs of the machine holds of it.
 */
module EventLoop {
  import opened Wrappers
  import opened PollTypes
  import opened TimerList
  import opened LoopMachine
  import opened LoopCoupling
  import opened LoopCalls
  import opened PollerModel
  import opened LoopPasses

  // ---- The steps of a phase, a whole callback at a time ----

  /** The callback in progress makes all its calls on the loop. */
  ghost function Called(s: State): State
    requires s.control.InCallback?
    decreases |s.control.requests|
  {
    if s.control.requests == [] then s
    else
      var rest := s.(control := s.control.(requests := s.control.requests[1..]));
      ServeFrame(rest, s.control.requests[0], s.control.caller.OfItem?);
      Called(Serve(rest, s.control.requests[0], s.control.caller.OfItem?))
  }

  /** One of its calls. */
  lemma CallServed(s: State, t: State)
    requires s.control.InCallback? && s.control.requests != [] && Coupled(s)
    requires var rest := s.(control := s.control.(requests := s.control.requests[1..]));
             t == Serve(rest, s.control.requests[0], s.control.caller.OfItem?)
    ensures Coupled(t) && t.control == s.control.(requests := s.control.requests[1..])
    ensures t.script == s.script && t.rounds == s.rounds && (s.control.caller.OfItem? ==> t.items == s.items)
    ensures Called(t) == Called(s) && t == Step(s)
  {
    var rest := s.(control := s.control.(requests := s.control.requests[1..]));
    ServeFrame(rest, s.control.requests[0], s.control.caller.OfItem?);
    CallbackCoupled(s);
  }

  lemma PassesOn(s: State)
    requires s.control.InCallback?
    ensures s.control.caller.OfTimer? ==> TimerPass(Step(s)) == TimerPass(s)
    ensures s.control.caller.OfItem? ==> ItemPass(Step(s)) == ItemPass(s)
  {
  }

  lemma {:induction false} CallbackCalled(s: State)
    requires s.control.InCallback? && Coupled(s)
    ensures Coupled(Called(s)) && Called(s).control == s.control.(requests := [])
    ensures Called(s).script == s.script && Called(s).rounds == s.rounds
    ensures s.control.caller.OfTimer? ==> TimerPass(Called(s)) == TimerPass(s)
    ensures s.control.caller.OfItem? ==> ItemPass(Called(s)) == ItemPass(s) && Called(s).items == s.items
    decreases |s.control.requests|
  {
    if s.control.requests != [] {
      var rest := s.(control := s.control.(requests := s.control.requests[1..]));
      var t := Serve(rest, s.control.requests[0], s.control.caller.OfItem?);
      CallServed(s, t);
      PassesOn(s);
      CallbackCalled(t);
    }
  }

  /** A due timer fires and is completed. */
  ghost function FiredAt(s: State): State
    requires s.control.InTimers? && s.control.position < |s.timers| && s.script != [] && Coupled(s)
  {
    CallbackCalled(Fire(s));
    AfterTimer(Called(Fire(s)))
  }

  lemma FiringCalled(s: State)
    requires s.control.InTimers? && s.control.position < |s.timers| && s.script != [] && Coupled(s)
    requires s.timers[s.control.position].when < s.control.now
    ensures var t := Called(Fire(s));
            && t.control == Fire(s).control.(requests := [])
            && HasTimer(t.timers, s.timers[s.control.position].id)
            && FiredAt(s) == AfterTimer(t)
  {
    StepCoupled(s);
    CallbackCalled(Fire(s));
  }

  lemma FiringPasses(s: State)
    requires s.control.InTimers? && s.control.position < |s.timers| && s.script != [] && Coupled(s)
    requires s.timers[s.control.position].when < s.control.now
    ensures var t := FiredAt(s);
            Coupled(t) && TimerPass(t) == TimerPass(s) && |t.script| < |s.script| && t.rounds == s.rounds
  {
    StepCoupled(s);
    CallbackCalled(Fire(s));
    CallbackCoupled(Called(Fire(s)));
  }

  /** Nothing more is due: the list is sorted and the phase is over. */
  lemma SettlingPasses(s: State, t: State)
    requires s.control.InTimers? && Coupled(s)
    requires s.control.position < |s.timers| ==> s.timers[s.control.position].when >= s.control.now
    requires t == s.(timers := Sort(s.timers), control := TimersDone(s.control.polled))
    ensures Coupled(t) && TimerPass(s) == t
  {
    StepCoupled(s);
    assert TimerPass(Step(s)) == Step(s);
  }

  lemma CuttingPasses(s: State, t: State)
    requires s.control.InTimers? && Coupled(s) && s.control.position < |s.timers| && s.script == []
    requires s.timers[s.control.position].when < s.control.now
    requires t == s.(control := CutOff)
    ensures Coupled(t) && TimerPass(s) == t
  {
    StepCoupled(s);
    assert TimerPass(Step(s)) == Step(s);
  }

  lemma LeavingPasses(s: State)
    requires s.control.Leaving? || s.control.CutOff?
    ensures TimerPass(s) == s && ItemPass(s) == s
  {
  }

  /** The handler whose turn it is has events. */
  ghost predicate HasEvents(s: State) {
    && s.control.InItems? && s.control.position < |s.items|
    && s.items[s.control.position].item.key in s.table
    && Ready(s.table[s.items[s.control.position].item.key].revents)
  }

  ghost function AfterItem(s: State): State
    requires s.control.InCallback? && s.control.caller.OfItem?
  {
    s.(control := if s.control.proceed then InItems(s.control.caller.position + 1) else Leaving)
  }

  lemma HandlingCalled(s: State)
    requires HasEvents(s) && s.script != [] && Coupled(s)
    ensures Visit(s).control.InCallback? && Visit(s).control.caller == OfItem(s.control.position)
    ensures var t := Called(Visit(s));
            && Coupled(t) && t.control == Visit(s).control.(requests := [])
            && ItemPass(t) == ItemPass(Visit(s)) && t.items == s.items && t.rounds == s.rounds
  {
    PhaseCoupled(s);
    CallbackCalled(Visit(s));
  }

  /** It is called, and its callback returns. */
  lemma HandlingPasses(s: State, called: State, done: State, end: State)
    requires HasEvents(s) && s.script != [] && Coupled(s) && called == Called(Visit(s))
    requires called.control.InCallback? && called.control.caller.OfItem? && done == AfterItem(called)
    requires DispatchEndsIn(s, end)
    ensures Coupled(done) && done.items == s.items && done.rounds == s.rounds && DispatchEndsIn(done, end)
  {
    HandlingCalled(s);
    CallbackCoupled(called);
    assert ItemPass(done) == ItemPass(s);
  }

  lemma LookupSucceeds(s: State, i: nat)
    requires Coupled(s) && i < |s.items|
    ensures s.items[i].item.key in s.table
  {
    assert s.items[i].item.key in Keys(s.items);
  }

  /** A handler without events is skipped. */
  lemma SkippingPasses(s: State, t: State, end: State)
    requires s.control.InItems? && Coupled(s) && s.control.position < |s.items| && !HasEvents(s)
    requires t == s.(control := InItems(s.control.position + 1)) && DispatchEndsIn(s, end)
    ensures Coupled(t) && DispatchEndsIn(t, end)
  {
    LookupSucceeds(s, s.control.position);
    assert ItemPass(Step(s)) == ItemPass(s);
  }

  lemma CutPasses(s: State, t: State, end: State)
    requires HasEvents(s) && s.script == [] && Coupled(s)
    requires t == s.(control := CutOff) && DispatchEndsIn(s, end)
    ensures Coupled(t) && DispatchEndsIn(t, end)
  {
    assert ItemPass(Step(s)) == ItemPass(s);
  }

  lemma EndingPasses(s: State, t: State, end: State)
    requires s.control.InItems? && Coupled(s) && s.control.position >= |s.items|
    requires t == s.(control := ItemsDone) && DispatchEndsIn(s, end)
    ensures Coupled(t) && t == end
  {
    assert ItemPass(Step(s)) == Step(s);
  }

  /** The dispatch, or the timer phase, in progress ends in the state `end`. */
  ghost predicate DispatchEndsIn(s: State, end: State) {
    ItemPass(s) == end
  }

  ghost predicate TimersEndIn(s: State, end: State) {
    TimerPass(s) == end
  }

  lemma StoppedEnds(s: State, end: State)
    requires s.control.Leaving? || s.control.CutOff?
    ensures DispatchEndsIn(s, end) || TimersEndIn(s, end) ==> end == s
  {
    LeavingPasses(s);
  }

  // ---- The iterations of start() ----

  lemma HeadRuns(s: State)
    requires s.control.AtHead? && Coupled(s)
    ensures s.rounds == [] ==> Run(s) == s.(control := CutOff) && Coupled(s.(control := CutOff))
    ensures s.rounds != [] ==> Run(Head(s)) == Run(s) && Coupled(Head(s))
  {
    StepCoupled(s);
    if s.rounds == [] {
      assert Run(Step(s)) == Step(s);
    }
  }

  /** After the timer phase: another iteration, or the dispatch. */
  ghost function AfterTimers(s: State): State
    requires s.control.TimersDone?
  {
    if s.rebuild || !s.control.polled then s.(dispatching := false, control := AtHead)
    else s.(log := s.log + [DispatchBegan], control := InItems(0))
  }

  lemma BetweenPhasesRuns(s: State)
    requires Coupled(s)
    ensures s.control.TimersDone? ==> Run(AfterTimers(s)) == Run(s) && Coupled(AfterTimers(s))
    ensures s.control.ItemsDone? ==>
              var t := s.(dispatching := false, control := AtHead);
              Run(t) == Run(s) && Coupled(t)
  {
    StepCoupled(s);
  }

  lemma LeavingRuns(s: State)
    requires s.control.Leaving? && Coupled(s)
    ensures var t := Flush(s.(dispatching := false)).(control := Returned);
            Run(s) == t && Coupled(t)
  {
    StepCoupled(s);
    assert Run(Step(s)) == Step(s);
  }

  ghost predicate RunEndsIn(s: State, end: State) {
    Run(s) == end
  }

  lemma PhasesRun(s: State, end: State)
    requires RunEndsIn(s, end)
    ensures RunEndsIn(TimerPass(s), end) && RunEndsIn(ItemPass(s), end)
  {
    RunContinues(s);
  }

  lemma HaltedEnds(s: State, end: State)
    requires Halted(s.control) && RunEndsIn(s, end)
    ensures end == s
  {
  }

  /** How start() ends, or how a piece of it does: the environment is over, or
      it goes on with another iteration. */
  datatype Exit = ReturnedNormally | Threw | EnvironmentOver | GoesOn

  class Loop {
    const poller: Poller
    var items: seq<Entry>
    var timers: seq<Timer>
    var fdLater: seq<int>
    var sockLater: seq<nat>
    var timerLater: seq<nat>
    var dispatching: bool
    var rebuild: bool

    /** The environment: the clock, the issue of timer ids, what callbacks will
        do and what polls will report. */
    var clock: int
    var nextId: nat
    var script: seq<Reaction>
    var rounds: seq<Round>

    ghost var control: Control
    ghost var log: seq<Event>

    ghost function Abs(): State
      reads this, poller
    {
      State(control, items, poller.table, timers, fdLater, sockLater, timerLater, dispatching, rebuild,
            clock, nextId, script, rounds, log)
    }

    ghost predicate Valid()
      reads this, poller
    {
      poller.Valid() && Coupled(Abs())
    }

    constructor (clock: int, script: seq<Reaction>, rounds: seq<Round>)
      ensures Valid() && fresh(poller)
      ensures Abs() == State(AtHead, [], map[], [], [], [], [], false, false, clock, 0, script, rounds, [])
    {
      poller := new Poller();
      items, timers, fdLater, sockLater, timerLater := [], [], [], [], [];
      dispatching, rebuild := false, false;
      this.clock, this.nextId, this.script, this.rounds := clock, 0, script, rounds;
      control, log := AtHead, [];
    }

    method AddItem(key: Key, events: Events, handler: nat)
      requires poller.Valid() && key !in poller.table
      modifies this`items, this`rebuild, this`log, poller
      ensures poller.Valid()
      ensures Abs() == AddItemOp(old(Abs()), key, events, handler)
      ensures ItemIsAdded(old(Abs()), Abs(), key, events, handler)
      ensures old(AtRest(Abs())) ==> AtRest(Abs())
    {
      AddItemAtRest(Abs(), key, events, handler);
      AddItemIs(Abs(), key, events, handler);
      poller.Add(PollItem(key, events, {}));
      rebuild := true;
      items := items + [Entry(PollItem(key, events, {}), handler)];
      log := log + [ItemAdded(key, events, handler)];
    }

    method AddTimer(delay: nat, times: nat, elapsed: nat) returns (id: nat)
      modifies this`timers, this`clock, this`nextId, this`log
      ensures Abs() == AddTimerOp(old(Abs()), delay, times, elapsed)
      ensures TimerIsAdded(old(Abs()), Abs(), delay, times, elapsed)
      ensures id == old(nextId)
      ensures old(AtRest(Abs())) ==> AtRest(Abs())
    {
      AddTimerAtRest(Abs(), delay, times, elapsed);
      AddTimerIs(Abs(), delay, times, elapsed);
      id := InsertTimer(delay, times, elapsed);
    }

    method InsertTimer(delay: nat, times: nat, elapsed: nat) returns (id: nat)
      modifies this`timers, this`clock, this`nextId, this`log
      ensures Abs() == AddTimerOp(old(Abs()), delay, times, elapsed) && id == old(nextId)
    {
      clock := clock + elapsed;
      id := nextId;
      var timer := Timer(id, times, delay, clock + delay * NS_PER_MS);
      nextId := nextId + 1;
      timers := timers + [timer];
      timers := Sort(timers);
      log := log + [TimerAdded(timer, clock)];
    }

    method Reset(timer: nat, elapsed: nat)
      modifies this`timers, this`clock, this`log
      ensures Abs() == ResetTimerOp(old(Abs()), timer, elapsed)
      ensures TimerIsReset(old(Abs()), Abs(), timer, elapsed)
      ensures old(AtRest(Abs())) ==> AtRest(Abs())
    {
      ResetTimerAtRest(Abs(), timer, elapsed);
      ResetTimerIs(Abs(), timer, elapsed);
      RestartTimer(timer, elapsed);
    }

    method RestartTimer(timer: nat, elapsed: nat)
      modifies this`timers, this`clock, this`log
      ensures Abs() == ResetTimerOp(old(Abs()), timer, elapsed)
    {
      var i := 0;
      while i < |timers|
        invariant i <= |timers| && Abs() == old(Abs())
        invariant forall j | 0 <= j < i :: timers[j].id != timer
      {
        if timers[i].id == timer {
          assert IndexOf(timers, timer) == i;
          clock := clock + elapsed;
          timers := timers[i := timers[i].(when := clock + timers[i].delay * NS_PER_MS)];
          log := log + [TimerWasReset(timer, timers[i].when)];
          timers := Sort(timers);
          return;
        }
        i := i + 1;
      }
    }

    method RemoveTimer(timer: nat)
      modifies this`timers, this`timerLater, this`log
      ensures Abs() == RemoveTimerOp(old(Abs()), timer)
      ensures TimerIsRemoved(old(Abs()), Abs(), timer)
      ensures old(AtRest(Abs())) ==> AtRest(Abs())
    {
      RemoveTimerAtRest(Abs(), timer);
      RemoveTimerIs(Abs(), timer);
      if dispatching {
        timerLater := timerLater + [timer];
        log := log + [TimerRemovalAsked(timer)];
        return;
      }
      timers := WithoutTimers(timers, {timer});
    }

    method RemoveSocket(socket: nat)
      requires poller.Valid()
      modifies this`items, this`rebuild, this`sockLater, this`log, poller
      ensures poller.Valid()
      ensures Abs() == RemoveItemOp(old(Abs()), Socket(socket))
      ensures ItemIsRemoved(old(Abs()), Abs(), Socket(socket))
      ensures old(AtRest(Abs())) ==> AtRest(Abs())
    {
      RemoveItemAtRest(Abs(), Socket(socket));
      RemoveItemIs(Abs(), Socket(socket));
      if dispatching {
        rebuild := true;
        sockLater := sockLater + [socket];
        log := log + [ItemRemovalAsked(Socket(socket))];
        return;
      }
      items := Without(items, {Socket(socket)});
      var _ := poller.RemoveSocket(socket);
    }

    method RemoveDescriptor(descriptor: int)
      requires poller.Valid()
      modifies this`items, this`rebuild, this`fdLater, this`log, poller
      ensures poller.Valid()
      ensures Abs() == RemoveItemOp(old(Abs()), Descriptor(descriptor))
      ensures ItemIsRemoved(old(Abs()), Abs(), Descriptor(descriptor))
      ensures old(AtRest(Abs())) ==> AtRest(Abs())
    {
      RemoveItemAtRest(Abs(), Descriptor(descriptor));
      RemoveItemIs(Abs(), Descriptor(descriptor));
      if dispatching {
        rebuild := true;
        fdLater := fdLater + [descriptor];
        log := log + [ItemRemovalAsked(Descriptor(descriptor))];
        return;
      }
      items := Without(items, {Descriptor(descriptor)});
      var _ := poller.RemoveDescriptor(descriptor);
    }

    /** One pending removal after the other takes effect. */
    method FlushRemoveLater()
      requires poller.Valid() && !dispatching
      modifies this`items, this`timers, this`fdLater, this`sockLater, this`timerLater, this`rebuild, this`log, poller
      ensures poller.Valid()
      ensures Abs() == Flush(old(Abs()))
    {
      ghost var s := Abs();
      RemovePending();
      FlushedIs(s, Abs());
      fdLater, sockLater, timerLater := [], [], [];
    }

    method RemovePending()
      requires poller.Valid() && !dispatching
      modifies this`items, this`timers, this`fdLater, this`sockLater, this`timerLater, this`rebuild, this`log, poller
      ensures poller.Valid()
      ensures Abs() == AllRemovedNow(old(Abs()), Targets(old(Abs())))
    {
      ghost var s := Abs();
      FlushDescriptors();
      FlushSockets(s, FdTargets(s.fdLater));
      FlushTimers(s, FdTargets(s.fdLater) + SockTargets(s.sockLater));
    }

    static ghost function Targets(s: State): seq<Target> {
      FdTargets(s.fdLater) + SockTargets(s.sockLater) + TimerTargets(s.timerLater)
    }

    static lemma FlushedIs(s: State, t: State)
      requires t == AllRemovedNow(s, Targets(s))
      ensures t.(fdLater := [], sockLater := [], timerLater := []) == Flush(s)
    {
      TargetsArePending(s);
      FlushIsImmediateRemoval(s, Targets(s));
    }

    static ghost function FdTargets(fds: seq<int>): seq<Target> {
      seq(|fds|, k requires 0 <= k < |fds| => OfKey(Descriptor(fds[k])))
    }

    static ghost function SockTargets(sockets: seq<nat>): seq<Target> {
      seq(|sockets|, k requires 0 <= k < |sockets| => OfKey(Socket(sockets[k])))
    }

    static ghost function TimerTargets(ids: seq<nat>): seq<Target> {
      seq(|ids|, k requires 0 <= k < |ids| => OfTimerId(ids[k]))
    }

    method FlushDescriptors()
      requires poller.Valid() && !dispatching
      modifies this`items, this`rebuild, this`fdLater, this`log, poller
      ensures poller.Valid()
      ensures Abs() == AllRemovedNow(old(Abs()), FdTargets(old(fdLater)))
    {
      for i := 0 to |fdLater|
        invariant poller.Valid() && !dispatching && fdLater == old(fdLater)
        invariant Abs() == AllRemovedNow(old(Abs()), FdTargets(fdLater[..i]))
      {
        RemovedLast(old(Abs()), FdTargets(fdLater[..i]), OfKey(Descriptor(fdLater[i])));
        assert FdTargets(fdLater[..i + 1]) == FdTargets(fdLater[..i]) + [OfKey(Descriptor(fdLater[i]))];
        RemoveDescriptor(fdLater[i]);
      }
      assert fdLater[..|fdLater|] == fdLater;
    }

    method FlushSockets(ghost s: State, ghost done: seq<Target>)
      requires poller.Valid() && !dispatching && Abs() == AllRemovedNow(s, done)
      modifies this`items, this`rebuild, this`sockLater, this`log, poller
      ensures poller.Valid() && !dispatching
      ensures Abs() == AllRemovedNow(s, done + SockTargets(old(sockLater)))
    {
      assert done + SockTargets([]) == done;
      for i := 0 to |sockLater|
        invariant poller.Valid() && !dispatching && sockLater == old(sockLater)
        invariant Abs() == AllRemovedNow(s, done + SockTargets(sockLater[..i]))
      {
        RemovedLast(s, done + SockTargets(sockLater[..i]), OfKey(Socket(sockLater[i])));
        assert done + SockTargets(sockLater[..i + 1]) == done + SockTargets(sockLater[..i]) + [OfKey(Socket(sockLater[i]))];
        RemoveSocket(sockLater[i]);
      }
      assert sockLater[..|sockLater|] == sockLater;
    }

    method FlushTimers(ghost s: State, ghost done: seq<Target>)
      requires !dispatching && Abs() == AllRemovedNow(s, done)
      modifies this`timers, this`timerLater, this`log
      ensures Abs() == AllRemovedNow(s, done + TimerTargets(old(timerLater)))
    {
      assert done + TimerTargets([]) == done;
      for i := 0 to |timerLater|
        invariant !dispatching && timerLater == old(timerLater)
        invariant Abs() == AllRemovedNow(s, done + TimerTargets(timerLater[..i]))
      {
        RemovedLast(s, done + TimerTargets(timerLater[..i]), OfTimerId(timerLater[i]));
        assert done + TimerTargets(timerLater[..i + 1]) == done + TimerTargets(timerLater[..i]) + [OfTimerId(timerLater[i])];
        RemoveTimer(timerLater[i]);
      }
      assert timerLater[..|timerLater|] == timerLater;
    }

    /** The poll timeout; takes two samples of the clock. */
    method SampleTickless(first: nat, second: nat) returns (timeout: int)
      modifies this`clock
      ensures clock == old(clock) + first + second
      ensures timeout == Tickless(timers, old(clock) + first, clock)
    {
      clock := clock + first;
      var tick := clock + HOUR;
      if timers != [] && timers[0].when < tick {
        tick := timers[0].when;
      }
      clock := clock + second;
      timeout := Milliseconds(tick - clock);
      if timeout < 0 {
        timeout := 0;
      }
    }

    /** A call that a callback makes on the loop. */
    method ServeRequest(request: Request, fromHandler: bool)
      requires poller.Valid()
      modifies this`items, this`timers, this`fdLater, this`sockLater, this`timerLater, this`rebuild, this`clock,
               this`nextId, this`log, poller
      ensures poller.Valid()
      ensures Abs() == Serve(old(Abs()), request, fromHandler)
    {
      match request
      case RemoveItem(key) =>
        if key.Socket? {
          RemoveSocket(key.handle);
        } else {
          RemoveDescriptor(key.fd);
        }
      case RemoveTimer(timer) =>
        if timer < nextId {
          RemoveTimer(timer);
        }
      case ResetTimer(timer, elapsed) => Reset(timer, elapsed);
      case AddTimer(delay, times, elapsed) =>
        var _ := AddTimer(delay, times, elapsed);
      case AddItem(key, events, handler) =>
        var has := poller.Has(PollItem(key, events, {}));
        if !fromHandler && !has {
          AddItem(key, events, handler);
        }
    }

    /** The callback `caller` runs: it makes its calls on the loop, one by one. */
    method RunCallback(caller: Caller, reaction: Reaction)
      requires poller.Valid() && control == InCallback(caller, reaction.proceed, reaction.requests)
      modifies this`items, this`timers, this`fdLater, this`sockLater, this`timerLater, this`rebuild, this`clock,
               this`nextId, this`log, this`control, poller
      ensures poller.Valid() && control == InCallback(caller, reaction.proceed, [])
      ensures Abs() == Called(old(Abs()))
    {
      for i := 0 to |reaction.requests|
        invariant poller.Valid() && control == InCallback(caller, reaction.proceed, reaction.requests[i..])
        invariant Called(Abs()) == Called(old(Abs()))
      {
        assert reaction.requests[i..][1..] == reaction.requests[i + 1..];
        ServeNext(caller, reaction.proceed, reaction.requests[i..]);
      }
    }

    method ServeNext(caller: Caller, proceed: bool, requests: seq<Request>)
      requires poller.Valid() && control == InCallback(caller, proceed, requests) && requests != []
      modifies this`items, this`timers, this`fdLater, this`sockLater, this`timerLater, this`rebuild, this`clock,
               this`nextId, this`log, this`control, poller
      ensures poller.Valid() && control == InCallback(caller, proceed, requests[1..])
      ensures Called(Abs()) == Called(old(Abs()))
    {
      ghost var s := Abs();
      control := InCallback(caller, proceed, requests[1..]);
      ServeFrame(Abs(), requests[0], caller.OfItem?);
      ServeRequest(requests[0], caller.OfItem?);
      CalledNext(s, Abs());
    }

    static lemma CalledNext(s: State, t: State)
      requires s.control.InCallback? && s.control.requests != []
      requires t == Serve(s.(control := s.control.(requests := s.control.requests[1..])), s.control.requests[0],
                          s.control.caller.OfItem?)
      ensures t.control.InCallback? && Called(t) == Called(s)
    {
      ServeFrame(s.(control := s.control.(requests := s.control.requests[1..])), s.control.requests[0],
                 s.control.caller.OfItem?);
    }

    /** The head of an iteration: pending removals take effect, and the poller
        polls for as long as no timer is due. */
    method PollRound() returns (polled: Result<bool>)
      requires poller.Valid() && control.AtHead? && !dispatching && rounds != []
      modifies this, poller
      ensures poller.Valid() && rounds == old(rounds)[1..]
      ensures polled.Failure? ==> Abs() == Head(old(Abs())) && control.PollThrew?
      ensures polled.Success? ==>
                && control.AtHead? && !dispatching
                && Entered(Abs().(dispatching := true), old(rounds)[0].third, polled.value) == Head(old(Abs()))
    {
      ghost var s := Abs();
      rebuild := false;
      var round := rounds[0];
      rounds := rounds[1..];
      FlushRemoveLater();
      polled := PollFor(round);
      HeadIs(s, Abs(), polled);
    }

    method PollFor(round: Round) returns (polled: Result<bool>)
      requires poller.Valid() && control.AtHead?
      modifies this`clock, this`log, this`control, poller
      ensures poller.Valid()
      ensures Abs() == PolledFor(old(Abs()), round)
      ensures polled.Failure? <==> round.outcome.Failed?
      ensures polled.Success? ==> (polled.value <==> AnyReported(old(poller.table), round.outcome))
    {
      var timeout := SampleTickless(round.first, round.second);
      log := log + [PollCalled(timeout, clock, Deadlines(timers))];
      polled := poller.Poll(round.outcome);
      if polled.Failure? {
        control := PollThrew;
      }
    }

    static ghost function PolledFor(f: State, round: Round): State {
      var first := f.clock + round.first;
      var second := first + round.second;
      f.(log := f.log + [PollCalled(Tickless(f.timers, first, second), second, Deadlines(f.timers))],
         clock := second, table := Polled(f.table, round.outcome),
         control := if round.outcome.Failed? then PollThrew else f.control)
    }

    static lemma HeadIs(s: State, t: State, polled: Result<bool>)
      requires s.control.AtHead? && s.rounds != []
      requires var f := Flush(s.(rebuild := false, rounds := s.rounds[1..]));
               && t == PolledFor(f, s.rounds[0])
               && (polled.Failure? <==> s.rounds[0].outcome.Failed?)
               && (polled.Success? ==> (polled.value <==> AnyReported(f.table, s.rounds[0].outcome)))
      ensures polled.Failure? ==> t == Head(s)
      ensures polled.Success? ==>
                Entered(t.(dispatching := true), s.rounds[0].third, polled.value) == Head(s)
    {
    }

    /** The callback of the timer at place `position` starts. */
    method BeginTimer(now: int, position: nat, polled: bool) returns (caller: Caller, reaction: Reaction)
      requires control == InTimers(now, position, polled) && position < |timers| && script != []
      modifies this`script, this`log, this`control
      ensures Abs() == Fire(old(Abs()))
      ensures caller == OfTimer(timers[position].id, now, polled)
      ensures control == InCallback(caller, reaction.proceed, reaction.requests)
    {
      caller := OfTimer(timers[position].id, now, polled);
      reaction := script[0];
      script := script[1..];
      log := log + [Fired(caller.timer, reaction.proceed)];
      control := InCallback(caller, reaction.proceed, reaction.requests);
    }

    /** The callback has returned: the timer is erased or moves on. The list
        may have been sorted, but the iterator stays with its timer. */
    method CompleteTimer(caller: Caller, proceed: bool) returns (next: nat)
      requires caller.OfTimer? && control == InCallback(caller, proceed, []) && HasTimer(timers, caller.timer)
      modifies this`timers, this`control
      ensures Abs() == AfterTimer(old(Abs()))
      ensures control == if proceed then InTimers(caller.now, next, caller.polled) else Leaving
    {
      next := IndexOf(timers, caller.timer);
      if timers[next].times == 1 {
        timers := timers[..next] + timers[next + 1..];
      } else {
        var it := timers[next];
        timers := timers[next := it.(times := if it.times == 0 then 0 else it.times - 1,
                                     when := it.when + it.delay * NS_PER_MS)];
        next := next + 1;
      }
      control := if proceed then InTimers(caller.now, next, caller.polled) else Leaving;
    }

    /** A due timer fires, unless the environment is used up. */
    method FireTimer(now: int, position: nat, polled: bool, ghost end: State)
      returns (next: nat, proceed: bool, cut: bool)
      requires Valid() && control == InTimers(now, position, polled) && position < |timers|
      requires timers[position].when < now && TimersEndIn(Abs(), end)
      modifies this, poller
      ensures Valid() && rounds == old(rounds) && TimersEndIn(Abs(), end)
      ensures !cut ==> |script| < |old(script)|
      ensures control == if cut then CutOff else if proceed then InTimers(now, next, polled) else Leaving
    {
      if script == [] {
        CuttingPasses(Abs(), Abs().(control := CutOff));
        control := CutOff;
        return position, false, true;
      }
      FiringCalled(Abs());
      FiringPasses(Abs());
      var caller, reaction := BeginTimer(now, position, polled);
      RunCallback(caller, reaction);
      next := CompleteTimer(caller, reaction.proceed);
      proceed, cut := reaction.proceed, false;
    }

    /** The timer phase; `proceed` is false when a callback stopped the loop,
        `cut` is true when the environment is used up. */
    method StartHandleTimers(elapsed: nat, polled: bool) returns (proceed: bool, cut: bool)
      requires poller.Valid() && Coupled(Entered(Abs(), elapsed, polled))
      modifies this, poller
      ensures Valid() && rounds == old(rounds)
      ensures Abs() == TimerPass(Entered(old(Abs()), elapsed, polled))
      ensures control == if cut then CutOff else if proceed then TimersDone(polled) else Leaving
    {
      clock := clock + elapsed;
      control := InTimers(clock, 0, polled);
      proceed, cut := FireTimers(clock, polled, TimerPass(Abs()));
    }

    method FireTimers(now: int, polled: bool, ghost end: State) returns (proceed: bool, cut: bool)
      requires Valid() && control == InTimers(now, 0, polled) && TimersEndIn(Abs(), end)
      modifies this, poller
      ensures Valid() && rounds == old(rounds) && Abs() == end
      ensures control == if cut then CutOff else if proceed then TimersDone(polled) else Leaving
    {
      var position: nat := 0;
      while position < |timers| && timers[position].when < now
        invariant Valid() && rounds == old(rounds)
        invariant control == InTimers(now, position, polled)
        invariant TimersEndIn(Abs(), end)
        decreases |script|
      {
        position, proceed, cut := FireTimer(now, position, polled, end);
        if cut || !proceed {
          StoppedEnds(Abs(), end);
          return;
        }
      }
      SettleTimers(now, position, polled, end);
      return true, false;
    }

    /** Nothing more is due. */
    method SettleTimers(now: int, position: nat, polled: bool, ghost end: State)
      requires Valid() && control == InTimers(now, position, polled) && TimersEndIn(Abs(), end)
      requires position < |timers| ==> timers[position].when >= now
      modifies this`timers, this`control
      ensures Valid() && Abs() == end && control == TimersDone(polled) && rounds == old(rounds)
    {
      ghost var settled := Abs().(timers := Sort(timers), control := TimersDone(polled));
      SettlingPasses(Abs(), settled);
      timers := Sort(timers);
      control := TimersDone(polled);
      assert Abs() == settled;
    }

    static ghost function Entered(s: State, elapsed: nat, polled: bool): State {
      s.(clock := s.clock + elapsed, control := InTimers(s.clock + elapsed, 0, polled))
    }

    /** The callback of the handler at place `i` starts. */
    method BeginHandler(i: nat) returns (caller: Caller, reaction: Reaction)
      requires control == InItems(i) && i < |items| && script != []
      requires items[i].item.key in poller.table && Ready(poller.table[items[i].item.key].revents)
      modifies this`script, this`log, this`control
      ensures Abs() == Visit(old(Abs()))
      ensures caller == OfItem(i) && control == InCallback(caller, reaction.proceed, reaction.requests)
    {
      caller := OfItem(i);
      reaction := script[0];
      script := script[1..];
      log := log + [Handled(items[i].item.key, items[i].handler, reaction.proceed)];
      control := InCallback(caller, reaction.proceed, reaction.requests);
    }

    /** The callback has returned. */
    method CompleteHandler(i: nat, proceed: bool)
      requires control == InCallback(OfItem(i), proceed, [])
      modifies this`control
      ensures Abs() == AfterItem(old(Abs()))
      ensures control == if proceed then InItems(i + 1) else Leaving
    {
      control := if proceed then InItems(i + 1) else Leaving;
    }

    /** The turn of the handler at place `i`: it is called if it has events.
        Looking up the events never throws, because the poller has the key. */
    method VisitHandler(i: nat, ghost end: State) returns (proceed: bool, cut: bool)
      requires Valid() && control == InItems(i) && i < |items| && DispatchEndsIn(Abs(), end)
      modifies this, poller
      ensures Valid() && rounds == old(rounds) && items == old(items) && DispatchEndsIn(Abs(), end)
      ensures control == if cut then CutOff else if proceed then InItems(i + 1) else Leaving
    {
      var events := HandlerEvents(i);
      if Ready(events) {
        proceed, cut := CallHandler(i, end);
      } else {
        SkipHandler(i, end);
        proceed, cut := true, false;
      }
    }

    method HandlerEvents(i: nat) returns (events: Events)
      requires Valid() && control == InItems(i) && i < |items|
      ensures HasEvents(Abs()) <==> Ready(events)
    {
      LookupSucceeds(Abs(), i);
      var r := poller.EventsOf(items[i].item.key);
      events := r.value;
    }

    method SkipHandler(i: nat, ghost end: State)
      requires Valid() && control == InItems(i) && i < |items| && !HasEvents(Abs()) && DispatchEndsIn(Abs(), end)
      modifies this`control
      ensures Valid() && control == InItems(i + 1) && DispatchEndsIn(Abs(), end)
      ensures rounds == old(rounds) && items == old(items)
    {
      ghost var s := Abs();
      control := InItems(i + 1);
      SkippingPasses(s, Abs(), end);
    }

    /** All handlers have had their turn. */
    method EndDispatch(ghost end: State)
      requires Valid() && control == InItems(|items|) && DispatchEndsIn(Abs(), end)
      modifies this`control
      ensures Valid() && control == ItemsDone && Abs() == end && rounds == old(rounds)
    {
      ghost var s := Abs();
      control := ItemsDone;
      EndingPasses(s, Abs(), end);
    }

    method CutHandler(i: nat, ghost end: State)
      requires Valid() && control == InItems(i) && HasEvents(Abs()) && script == [] && DispatchEndsIn(Abs(), end)
      modifies this`control
      ensures Valid() && control == CutOff && DispatchEndsIn(Abs(), end)
      ensures rounds == old(rounds) && items == old(items)
    {
      ghost var s := Abs();
      control := CutOff;
      CutPasses(s, Abs(), end);
    }

    method CallHandler(i: nat, ghost end: State) returns (proceed: bool, cut: bool)
      requires Valid() && control == InItems(i) && HasEvents(Abs()) && DispatchEndsIn(Abs(), end)
      modifies this, poller
      ensures Valid() && rounds == old(rounds) && items == old(items) && DispatchEndsIn(Abs(), end)
      ensures control == if cut then CutOff else if proceed then InItems(i + 1) else Leaving
    {
      if script == [] {
        CutHandler(i, end);
        return false, true;
      }
      proceed := CallNow(i, end);
      cut := false;
    }

    method CallNow(i: nat, ghost end: State) returns (proceed: bool)
      requires Valid() && control == InItems(i) && HasEvents(Abs()) && script != [] && DispatchEndsIn(Abs(), end)
      modifies this, poller
      ensures Valid() && rounds == old(rounds) && items == old(items) && DispatchEndsIn(Abs(), end)
      ensures control == if proceed then InItems(i + 1) else Leaving
    {
      ghost var s := Abs();
      proceed := RunHandler(i);
      HandlingPasses(s, Called(Visit(s)), Abs(), end);
    }

    /** The callback of the handler at place `i` runs and returns. */
    method RunHandler(i: nat) returns (proceed: bool)
      requires Valid() && control == InItems(i) && HasEvents(Abs()) && script != []
      modifies this, poller
      ensures poller.Valid() && control == if proceed then InItems(i + 1) else Leaving
      ensures var called := Called(Visit(old(Abs())));
              called.control.InCallback? && called.control.caller.OfItem? && Abs() == AfterItem(called)
    {
      var caller, reaction := BeginHandler(i);
      RunCallback(caller, reaction);
      CompleteHandler(i, reaction.proceed);
      proceed := reaction.proceed;
    }

    /** The dispatch of poll results. */
    method StartHandlePoller() returns (proceed: bool, cut: bool)
      requires Valid() && control == InItems(0)
      modifies this, poller
      ensures Valid() && rounds == old(rounds)
      ensures Abs() == ItemPass(old(Abs()))
      ensures control == if cut then CutOff else if proceed then ItemsDone else Leaving
    {
      proceed, cut := VisitHandlers(ItemPass(Abs()));
    }

    method VisitHandlers(ghost end: State) returns (proceed: bool, cut: bool)
      requires Valid() && control == InItems(0) && DispatchEndsIn(Abs(), end)
      modifies this, poller
      ensures Valid() && rounds == old(rounds)
      ensures Abs() == end
      ensures control == if cut then CutOff else if proceed then ItemsDone else Leaving
    {
      var i: nat := 0;
      while i < |items|
        invariant Valid() && rounds == old(rounds)
        invariant control == InItems(i) && i <= |items|
        invariant DispatchEndsIn(Abs(), end)
      {
        proceed, cut := VisitHandler(i, end);
        if cut || !proceed {
          StoppedEnds(Abs(), end);
          return;
        }
        i := i + 1;
      }
      EndDispatch(end);
      return true, false;
    }

    /** The timer phase of an iteration. */
    method TimerPhase(elapsed: nat, polled: bool, ghost end: State) returns (exit: Exit)
      requires poller.Valid() && !dispatching && control.AtHead?
      requires Coupled(Entered(Abs().(dispatching := true), elapsed, polled))
      requires RunEndsIn(Entered(Abs().(dispatching := true), elapsed, polled), end)
      modifies this, poller
      ensures Valid() && RunEndsIn(Abs(), end) && rounds == old(rounds)
      ensures exit.GoesOn? ==> control == TimersDone(polled)
      ensures exit.ReturnedNormally? ==> control.Leaving?
      ensures exit.EnvironmentOver? ==> control.CutOff?
      ensures !exit.Threw?
    {
      dispatching := true;
      PhasesRun(Entered(Abs(), elapsed, polled), end);
      var proceed, cut := StartHandleTimers(elapsed, polled);
      exit := if cut then EnvironmentOver else if proceed then GoesOn else ReturnedNormally;
    }

    /** The dispatch of an iteration. */
    method DispatchPhase(ghost end: State) returns (exit: Exit)
      requires Valid() && control == InItems(0) && RunEndsIn(Abs(), end)
      modifies this, poller
      ensures Valid() && RunEndsIn(Abs(), end) && rounds == old(rounds)
      ensures exit.GoesOn? ==> control.AtHead?
      ensures exit.ReturnedNormally? ==> control.Leaving?
      ensures exit.EnvironmentOver? ==> control.CutOff?
      ensures !exit.Threw?
    {
      PhasesRun(Abs(), end);
      var proceed, cut := StartHandlePoller();
      if cut {
        return EnvironmentOver;
      }
      if !proceed {
        return ReturnedNormally;
      }
      ghost var next := Abs().(dispatching := false, control := AtHead);
      BetweenPhasesRuns(Abs());
      dispatching := false;
      control := AtHead;
      assert Abs() == next;
      return GoesOn;
    }

    /** From the end of the timer phase to the next iteration or the dispatch. */
    method ChoosePhase(polled: bool, ghost end: State) returns (dispatch: bool)
      requires Valid() && control == TimersDone(polled) && RunEndsIn(Abs(), end)
      modifies this`dispatching, this`control, this`log
      ensures Valid() && RunEndsIn(Abs(), end) && rounds == old(rounds)
      ensures control == if dispatch then InItems(0) else AtHead
    {
      ghost var next := AfterTimers(Abs());
      BetweenPhasesRuns(Abs());
      dispatching := false;
      if rebuild {
        control, dispatch := AtHead, false;
      } else if polled {
        dispatching := true;
        log := log + [DispatchBegan];
        control, dispatch := InItems(0), true;
      } else {
        control, dispatch := AtHead, false;
      }
      assert Abs() == next;
    }

    method Iterate(ghost end: State) returns (exit: Exit)
      requires Valid() && control.AtHead? && rounds != [] && RunEndsIn(Abs(), end)
      modifies this, poller
      ensures Valid() && RunEndsIn(Abs(), end)
      ensures exit.GoesOn? ==> control.AtHead? && |rounds| < |old(rounds)|
      ensures exit.ReturnedNormally? ==> control.Leaving?
      ensures exit.Threw? ==> control.PollThrew?
      ensures exit.EnvironmentOver? ==> control.CutOff?
    {
      HeadRuns(Abs());
      var elapsed := rounds[0].third;
      var polled := PollRound();
      if polled.Failure? {
        return Threw;
      }
      exit := Phases(elapsed, polled.value, end);
    }

    /** Both phases of an iteration. */
    method Phases(elapsed: nat, polled: bool, ghost end: State) returns (exit: Exit)
      requires poller.Valid() && !dispatching && control.AtHead?
      requires Coupled(Entered(Abs().(dispatching := true), elapsed, polled))
      requires RunEndsIn(Entered(Abs().(dispatching := true), elapsed, polled), end)
      modifies this, poller
      ensures Valid() && RunEndsIn(Abs(), end) && rounds == old(rounds)
      ensures exit.GoesOn? ==> control.AtHead?
      ensures exit.ReturnedNormally? ==> control.Leaving?
      ensures exit.EnvironmentOver? ==> control.CutOff?
      ensures !exit.Threw?
    {
      exit := TimerPhase(elapsed, polled, end);
      if !exit.GoesOn? {
        return;
      }
      var dispatch := ChoosePhase(polled, end);
      if dispatch {
        exit := DispatchPhase(end);
      }
    }

    /** What is still pending is removed before start() returns. */
    method Leave(ghost end: State)
      requires Valid() && control.Leaving? && RunEndsIn(Abs(), end)
      modifies this, poller
      ensures Valid() && Abs() == end && control.Returned?
    {
      ghost var left := Flush(Abs().(dispatching := false)).(control := Returned);
      LeavingRuns(Abs());
      dispatching := false;
      FlushRemoveLater();
      control := Returned;
      assert Abs() == left;
    }

    /** start(): runs until a callback returns false, or a poll throws, or the
        environment given is used up. */
    method Start() returns (exit: Exit)
      requires Valid() && (control.AtHead? || control.Returned? || control.PollThrew?)
      modifies this, poller
      ensures Valid() && Abs() == Run(old(Abs()).(control := AtHead, log := []))
      ensures exit == match control
                      case Returned => ReturnedNormally
                      case PollThrew => Threw
                      case _ => EnvironmentOver
    {
      ghost var s := Abs();
      control, log := AtHead, [];
      StartsCoupled(s, Abs());
      exit := RunUntilStopped(Run(Abs()));
    }

    static lemma StartsCoupled(s: State, t: State)
      requires Coupled(s) && (s.control.AtHead? || s.control.Returned? || s.control.PollThrew?)
      requires t == s.(control := AtHead, log := [])
      ensures Coupled(t)
    {
    }

    /** Any calls on the loop, with any runs between them, one after the other,
        up to a run whose environment is used up. Adding a key that is there
        and naming a timer id that was not issued have no effect here. */
    method Perform(ops: seq<LoopCoupling.Operation>)
      requires poller.Valid() && AtRest(Abs())
      modifies this, poller
      ensures Valid() && Abs() == AllPerformed(old(Abs()), ops)
      ensures AtRest(Abs()) || control.CutOff?
    {
      ghost var s := Abs();
      AllPerformedAtRest(s, ops);
      for i := 0 to |ops|
        invariant poller.Valid() && Abs() == AllPerformed(s, ops[..i]) && AtRest(Abs())
      {
        NextPerformed(s, ops, i);
        var cut := PerformOne(ops[i]);
        if cut {
          CutStays(s, ops, i + 1);
          return;
        }
      }
      assert ops[..|ops|] == ops;
    }

    static lemma NextPerformed(s: State, ops: seq<LoopCoupling.Operation>, i: nat)
      requires AtRest(s) && i < |ops|
      ensures var t := AllPerformed(s, ops[..i + 1]);
              t == Performed(AllPerformed(s, ops[..i]), ops[i]) && Coupled(t) && (AtRest(t) || t.control.CutOff?)
    {
      assert ops[..i + 1][..i] == ops[..i];
      AllPerformedAtRest(s, ops[..i + 1]);
    }

    /** `cut` tells whether the environment of a run was used up. */
    method PerformOne(op: LoopCoupling.Operation) returns (cut: bool)
      requires poller.Valid() && AtRest(Abs())
      modifies this, poller
      ensures poller.Valid() && Abs() == Performed(old(Abs()), op)
      ensures cut <==> control.CutOff?
    {
      match op
      case Call(request) =>
        ServeRequest(request, false);
        return false;
      case Start(script, rounds) => cut := StartIn(script, rounds);
    }

    method StartIn(script: seq<Reaction>, rounds: seq<Round>) returns (cut: bool)
      requires poller.Valid() && AtRest(Abs())
      modifies this, poller
      ensures poller.Valid() && Abs() == Run(Begun(old(Abs()), script, rounds))
      ensures cut <==> control.CutOff?
    {
      ghost var s := Abs();
      this.script, this.rounds := script, rounds;
      RestingBegins(s, Abs(), script, rounds);
      var exit := Start();
      cut := exit.EnvironmentOver?;
    }

    static lemma RestingBegins(s: State, t: State, script: seq<Reaction>, rounds: seq<Round>)
      requires AtRest(s) && t == s.(script := script, rounds := rounds)
      ensures Coupled(t) && t.(control := AtHead, log := []) == Begun(s, script, rounds)
      ensures var r := Run(Begun(s, script, rounds));
              r.control.CutOff? <==> !r.control.Returned? && !r.control.PollThrew?
    {
      RunHalts(Begun(s, script, rounds));
      RunCoupled(Begun(s, script, rounds));
    }

    static lemma {:induction false} CutStays(s: State, ops: seq<LoopCoupling.Operation>, n: nat)
      requires n <= |ops| && AllPerformed(s, ops[..n]).control.CutOff?
      ensures AllPerformed(s, ops) == AllPerformed(s, ops[..n])
      decreases |ops|
    {
      if n < |ops| {
        assert ops[..|ops| - 1][..n] == ops[..n];
        CutStays(s, ops[..|ops| - 1], n);
      } else {
        assert ops[..n] == ops;
      }
    }

    method RunUntilStopped(ghost end: State) returns (exit: Exit)
      requires Valid() && control.AtHead? && RunEndsIn(Abs(), end)
      modifies this, poller
      ensures Valid() && Abs() == end
      ensures exit == match control
                      case Returned => ReturnedNormally
                      case PollThrew => Threw
                      case _ => EnvironmentOver
    {
      while rounds != []
        invariant Valid() && control.AtHead? && RunEndsIn(Abs(), end)
        decreases |rounds|
      {
        exit := Iterate(end);
        if exit.ReturnedNormally? {
          Leave(end);
          return;
        }
        if !exit.GoesOn? {
          HaltedEnds(Abs(), end);
          return;
        }
      }
      ghost var cut := Abs().(control := CutOff);
      HeadRuns(Abs());
      control := CutOff;
      assert Abs() == cut;
      return EnvironmentOver;
    }

    static lemma {:induction false} RemovedLast(s: State, targets: seq<Target>, target: Target)
      ensures AllRemovedNow(s, targets + [target]) == RemovedNow(AllRemovedNow(s, targets), target)
      ensures var r := AllRemovedNow(s, targets);
              && r.fdLater == s.fdLater && r.sockLater == s.sockLater && r.timerLater == s.timerLater
              && r.dispatching == s.dispatching
      decreases targets
    {
      if targets == [] {
        assert ([] + [target])[1..] == [];
      } else {
        assert (targets + [target])[1..] == targets[1..] + [target];
        RemovedLast(RemovedNow(s, targets[0]), targets[1..], target);
      }
    }

    static lemma TargetsArePending(s: State)
      ensures KeysAmong(Targets(s)) == Pending(s) && IdsAmong(Targets(s)) == PendingTimers(s)
    {
      var targets := Targets(s);
      var f, k := |s.fdLater|, |s.sockLater|;
      assert forall i | 0 <= i < f :: targets[i] == OfKey(Descriptor(s.fdLater[i]));
      assert forall i | 0 <= i < k :: targets[f + i] == OfKey(Socket(s.sockLater[i]));
      assert forall i | 0 <= i < |s.timerLater| :: targets[f + k + i] == OfTimerId(s.timerLater[i]);
      assert forall i | f <= i < f + k :: targets[i] == OfKey(Socket(s.sockLater[i - f]));
      assert forall i | f + k <= i < |targets| :: targets[i] == OfTimerId(s.timerLater[i - f - k]);
      forall key | key in Pending(s) ensures key in KeysAmong(targets) {
        if key.Descriptor? {
          var i :| 0 <= i < f && Descriptor(s.fdLater[i]) == key;
          assert targets[i].key == key;
        } else {
          var i :| 0 <= i < k && Socket(s.sockLater[i]) == key;
          assert targets[f + i].key == key;
        }
      }
      forall id | id in PendingTimers(s) ensures id in IdsAmong(targets) {
        var i :| 0 <= i < |s.timerLater| && s.timerLater[i] == id;
        assert targets[f + k + i].id == id;
      }
    }
  }
}

/**
 * The event loop as a machine that takes one small step at a time. The
 * environment is given in advance: how long each clock sample is after the
 * previous one, what each poll reports, and how each callback reacts (what it
 * returns and which calls it makes on the loop first). A machine whose
 * environment is used up is cut off, so a statement about all machines is a
 * statement about all finite pieces of all runs.
 */
module LoopMachine {
  import opened PollTypes
  import opened TimerList

  /** A call that a callback makes on its loop. `elapsed` is the time that has
      passed at the clock sample the call takes. */
  datatype Request =
    | RemoveItem(key: Key)
    | RemoveTimer(timer: nat)
    | ResetTimer(timer: nat, elapsed: nat)
    | AddTimer(delay: nat, times: nat, elapsed: nat)
    | AddItem(key: Key, events: Events, handler: nat)

  datatype Reaction = Reaction(proceed: bool, requests: seq<Request>)

  /** One iteration: the time to the two samples of tickless, the answer of
      zmq_poll, and the time from then to the sample of the timer phase. */
  datatype Round = Round(first: nat, second: nat, outcome: PollOutcome, third: nat)

  /** What happened, for statements about whole runs. */
  datatype Event =
    | PollCalled(timeout: int, at: int, deadlines: seq<int>)
    | Fired(timer: nat, proceed: bool)
    | DispatchBegan
    | Handled(key: Key, handler: nat, proceed: bool)
    | ItemRemovalAsked(key: Key)
    | TimerRemovalAsked(timer: nat)
    | ItemAdded(key: Key, events: Events, handler: nat)
    | TimerAdded(added: Timer, at: int)
    | TimerWasReset(timer: nat, when: int)

  /** Which callback is being executed, and where the phase then goes on. */
  datatype Caller = OfTimer(timer: nat, now: int, polled: bool) | OfItem(position: nat)

  datatype Control =
    | AtHead
    | InTimers(now: int, position: nat, polled: bool)
    | TimersDone(polled: bool)
    | InItems(position: nat)
    | ItemsDone
    | InCallback(caller: Caller, proceed: bool, requests: seq<Request>)
    | Leaving
    | Returned
    | PollThrew
    | LookupThrew
    | CutOff

  datatype State = State(
    control: Control,
    items: seq<Entry>,
    table: map<Key, PollItem>,
    timers: seq<Timer>,
    fdLater: seq<int>,
    sockLater: seq<nat>,
    timerLater: seq<nat>,
    dispatching: bool,
    rebuild: bool,
    clock: int,
    nextId: nat,
    script: seq<Reaction>,
    rounds: seq<Round>,
    log: seq<Event>)

  // ---- The operations of the loop's users ----

  function RemoveItemNow(s: State, key: Key): State {
    s.(items := Without(s.items, {key}), table := s.table - {key})
  }

  function RemoveItemOp(s: State, key: Key): State {
    if !s.dispatching then RemoveItemNow(s, key)
    else if key.Socket? then
      s.(rebuild := true, sockLater := s.sockLater + [key.handle], log := s.log + [ItemRemovalAsked(key)])
    else
      s.(rebuild := true, fdLater := s.fdLater + [key.fd], log := s.log + [ItemRemovalAsked(key)])
  }

  function RemoveTimerNow(s: State, timer: nat): State {
    s.(timers := WithoutTimers(s.timers, {timer}))
  }

  function RemoveTimerOp(s: State, timer: nat): State {
    if !s.dispatching then RemoveTimerNow(s, timer)
    else s.(timerLater := s.timerLater + [timer], log := s.log + [TimerRemovalAsked(timer)])
  }

  function AddTimerOp(s: State, delay: nat, times: nat, elapsed: nat): State {
    var at := s.clock + elapsed;
    var timer := Timer(s.nextId, times, delay, at + delay * NS_PER_MS);
    s.(timers := Sort(s.timers + [timer]), nextId := s.nextId + 1, clock := at,
       log := s.log + [TimerAdded(timer, at)])
  }

  function ResetTimerOp(s: State, timer: nat, elapsed: nat): State {
    var i := IndexOf(s.timers, timer);
    if i == |s.timers| then s
    else
      var when := s.clock + elapsed + s.timers[i].delay * NS_PER_MS;
      s.(timers := Sort(s.timers[i := s.timers[i].(when := when)]), clock := s.clock + elapsed,
         log := s.log + [TimerWasReset(timer, when)])
  }

  function AddItemOp(s: State, key: Key, events: Events, handler: nat): State {
    var item := PollItem(key, events, {});
    s.(table := s.table[key := item], rebuild := true, items := s.items + [Entry(item, handler)],
       log := s.log + [ItemAdded(key, events, handler)])
  }

  /** A request that callers must not make has no effect: adding a key that is
      there, adding an item from a poll handler, naming a timer id that add()
      has not returned. */
  function Serve(s: State, request: Request, fromHandler: bool): State {
    match request
    case RemoveItem(key) => RemoveItemOp(s, key)
    case RemoveTimer(timer) => if timer < s.nextId then RemoveTimerOp(s, timer) else s
    case ResetTimer(timer, elapsed) => ResetTimerOp(s, timer, elapsed)
    case AddTimer(delay, times, elapsed) => AddTimerOp(s, delay, times, elapsed)
    case AddItem(key, events, handler) =>
      if fromHandler || key in s.table then s else AddItemOp(s, key, events, handler)
  }

  // ---- The phases of start() ----

  /** The keys whose removal is pending. */
  function Pending(s: State): set<Key> {
    (set i | 0 <= i < |s.fdLater| :: Descriptor(s.fdLater[i])) +
    (set i | 0 <= i < |s.sockLater| :: Socket(s.sockLater[i]))
  }

  function PendingTimers(s: State): set<nat> {
    set id | id in s.timerLater
  }

  /** All pending removals take effect at once. */
  function Flush(s: State): State {
    s.(items := Without(s.items, Pending(s)),
       table := s.table - Pending(s),
       timers := WithoutTimers(s.timers, PendingTimers(s)),
       fdLater := [], sockLater := [], timerLater := [])
  }

  const HOUR: int := 3_600_000 * NS_PER_MS

  /** Conversion of a duration to milliseconds truncates toward zero. */
  function Milliseconds(ns: int): int {
    if ns < 0 then -((-ns) / NS_PER_MS) else ns / NS_PER_MS
  }

  /** The poll timeout, computed with clock samples `first` and `second`. */
  function Tickless(timers: seq<Timer>, first: int, second: int): int {
    var hour := first + HOUR;
    var tick := if timers != [] && timers[0].when < hour then timers[0].when else hour;
    var timeout := Milliseconds(tick - second);
    if timeout < 0 then 0 else timeout
  }

  function Deadlines(timers: seq<Timer>): seq<int> {
    seq(|timers|, i requires 0 <= i < |timers| => timers[i].when)
  }

  ghost function Head(s: State): State
    requires s.rounds != []
  {
    var round := s.rounds[0];
    var f := Flush(s.(rebuild := false, rounds := s.rounds[1..]));
    var first := s.clock + round.first;
    var second := first + round.second;
    var p := f.(log := f.log + [PollCalled(Tickless(f.timers, first, second), second, Deadlines(f.timers))]);
    if round.outcome.Failed? then p.(clock := second, control := PollThrew)
    else
      p.(table := Polled(p.table, round.outcome), clock := second + round.third, dispatching := true,
         control := InTimers(second + round.third, 0, AnyReported(p.table, round.outcome)))
  }

  function Fire(s: State): State
    requires s.control.InTimers? && s.control.position < |s.timers| && s.script != []
  {
    var timer := s.timers[s.control.position];
    s.(script := s.script[1..],
       log := s.log + [Fired(timer.id, s.script[0].proceed)],
       control := InCallback(OfTimer(timer.id, s.control.now, s.control.polled),
                             s.script[0].proceed, s.script[0].requests))
  }

  /** After its callback a timer is erased if that was its last time, and is
      otherwise due one delay later than it was. */
  function Completed(timers: seq<Timer>, i: nat): seq<Timer>
    requires i < |timers|
  {
    var t := timers[i];
    if t.times == 1 then timers[..i] + timers[i + 1..]
    else timers[i := t.(times := if t.times == 0 then 0 else t.times - 1, when := t.when + t.delay * NS_PER_MS)]
  }

  function AfterTimer(s: State): State
    requires s.control.InCallback? && s.control.caller.OfTimer?
  {
    var c := s.control.caller;
    var i := IndexOf(s.timers, c.timer);
    if i == |s.timers| then s.(control := LookupThrew)
    else
      s.(timers := Completed(s.timers, i),
         control := if !s.control.proceed then Leaving
                    else InTimers(c.now, if s.timers[i].times == 1 then i else i + 1, c.polled))
  }

  /** One iteration of the loop over the handlers. */
  function Visit(s: State): State
    requires s.control.InItems? && s.control.position < |s.items|
  {
    var entry := s.items[s.control.position];
    if entry.item.key !in s.table then s.(control := LookupThrew)
    else if !Ready(s.table[entry.item.key].revents) then s.(control := InItems(s.control.position + 1))
    else if s.script == [] then s.(control := CutOff)
    else
      s.(script := s.script[1..],
         log := s.log + [Handled(entry.item.key, entry.handler, s.script[0].proceed)],
         control := InCallback(OfItem(s.control.position), s.script[0].proceed, s.script[0].requests))
  }

  ghost function Step(s: State): State {
    match s.control
    case AtHead => if s.rounds == [] then s.(control := CutOff) else Head(s)
    case InTimers(now, position, polled) =>
      if position < |s.timers| && s.timers[position].when < now then
        if s.script == [] then s.(control := CutOff) else Fire(s)
      else s.(timers := Sort(s.timers), control := TimersDone(polled))
    case TimersDone(polled) =>
      if s.rebuild then s.(dispatching := false, control := AtHead)
      else if !polled then s.(dispatching := false, control := AtHead)
      else s.(log := s.log + [DispatchBegan], control := InItems(0))
    case InItems(position) =>
      if position >= |s.items| then s.(control := ItemsDone) else Visit(s)
    case ItemsDone => s.(dispatching := false, control := AtHead)
    case InCallback(caller, proceed, requests) =>
      if requests != [] then
        Serve(s.(control := InCallback(caller, proceed, requests[1..])), requests[0], caller.OfItem?)
      else if caller.OfTimer? then AfterTimer(s)
      else s.(control := if proceed then InItems(caller.position + 1) else Leaving)
    case Leaving => Flush(s.(dispatching := false)).(control := Returned)
    case _ => s
  }

  predicate Halted(c: Control) {
    c.Returned? || c.PollThrew? || c.LookupThrew? || c.CutOff?
  }

  // ---- Whole runs ----

  function Rank(c: Control): nat {
    match c
    case InTimers(_, _, _) => 5
    case TimersDone(_) => 4
    case InItems(_) => 3
    case ItemsDone => 2
    case InCallback(caller, _, _) => if caller.OfTimer? then 5 else 3
    case AtHead => 1
    case Leaving => 1
    case _ => 0
  }

  /** What is left to do within a phase when no callback starts. */
  function Work(s: State): nat {
    match s.control
    case InCallback(_, _, requests) => |requests|
    case InItems(position) => if position < |s.items| then |s.items| - position else 0
    case _ => 0
  }

  function Depth(c: Control): nat {
    if c.InCallback? then 1 else 0
  }

  lemma ServeFrame(s: State, request: Request, fromHandler: bool)
    ensures var t := Serve(s, request, fromHandler);
            && t.control == s.control && t.script == s.script && t.rounds == s.rounds
            && t.dispatching == s.dispatching
  {
  }

  ghost predicate Below(t: State, s: State) {
    || |t.rounds| < |s.rounds|
    || (|t.rounds| == |s.rounds| && Rank(t.control) < Rank(s.control))
    || (|t.rounds| == |s.rounds| && Rank(t.control) == Rank(s.control) && |t.script| < |s.script|)
    || (|t.rounds| == |s.rounds| && Rank(t.control) == Rank(s.control) && |t.script| == |s.script|
        && (Depth(t.control) < Depth(s.control) || (Depth(t.control) == Depth(s.control) && Work(t) < Work(s))))
  }

  lemma CallbackDescends(s: State)
    requires s.control.InCallback?
    ensures Below(Step(s), s)
  {
    var InCallback(caller, proceed, requests) := s.control;
    if requests != [] {
      ServeFrame(s.(control := InCallback(caller, proceed, requests[1..])), requests[0], caller.OfItem?);
    }
  }

  lemma HandlersDescend(s: State)
    requires s.control.InItems?
    ensures Below(Step(s), s)
  {
  }

  lemma HeadDescends(s: State)
    requires s.control.AtHead?
    ensures Below(Step(s), s)
  {
  }

  /** Every step gets closer to the end: no phase is endless. */
  lemma StepDescends(s: State)
    requires !Halted(s.control)
    ensures Below(Step(s), s)
  {
    if s.control.InCallback? {
      CallbackDescends(s);
    } else if s.control.InItems? {
      HandlersDescend(s);
    } else if s.control.AtHead? {
      HeadDescends(s);
    }
  }

  /** The machine run until it halts. */
  ghost function Run(s: State): State
    decreases |s.rounds|, Rank(s.control), |s.script|, Depth(s.control), Work(s)
  {
    if Halted(s.control) then s
    else
      StepDescends(s);
      Run(Step(s))
  }

  /** The timer phase alone. */
  ghost function TimerPass(s: State): State
    decreases |s.rounds|, Rank(s.control), |s.script|, Depth(s.control), Work(s)
  {
    if s.control.InTimers? || (s.control.InCallback? && s.control.caller.OfTimer?) then
      StepDescends(s);
      TimerPass(Step(s))
    else s
  }

  /** The poll dispatch alone. */
  ghost function ItemPass(s: State): State
    decreases |s.rounds|, Rank(s.control), |s.script|, Depth(s.control), Work(s)
  {
    if s.control.InItems? || (s.control.InCallback? && s.control.caller.OfItem?) then
      StepDescends(s);
      ItemPass(Step(s))
    else s
  }

  /** The phases are parts of a run. */
  lemma {:induction false} RunContinues(s: State)
    ensures Run(TimerPass(s)) == Run(s) && Run(ItemPass(s)) == Run(s)
    decreases |s.rounds|, Rank(s.control), |s.script|, Depth(s.control), Work(s)
  {
    if !Halted(s.control) {
      StepDescends(s);
      RunContinues(Step(s));
    }
  }

  ghost function Iterated<T>(f: T -> T, x: T, n: nat): T {
    if n == 0 then x else f(Iterated(f, x, n - 1))
  }

  lemma {:induction false} IteratedFurther<T>(f: T -> T, x: T, n: nat)
    ensures Iterated(f, f(x), n) == Iterated(f, x, n + 1)
  {
    if n > 0 {
      IteratedFurther(f, x, n - 1);
    }
  }

  lemma {:induction false} IteratedTwice<T>(f: T -> T, x: T, m: nat, n: nat)
    ensures Iterated(f, Iterated(f, x, m), n) == Iterated(f, x, m + n)
  {
    if n > 0 {
      IteratedTwice(f, x, m, n - 1);
    }
  }

  lemma {:induction false} IteratedKeeps<T(!new)>(f: T -> T, inv: T -> bool, x: T, n: nat)
    requires inv(x) && forall y :: inv(y) ==> inv(f(y))
    ensures inv(Iterated(f, x, n))
  {
    if n > 0 {
      IteratedKeeps(f, inv, x, n - 1);
    }
  }

  lemma {:induction false} IteratedKeepsLater<T(!new)>(f: T -> T, inv: T -> bool, x: T, n: nat)
    requires n > 0 && inv(f(x)) && forall y :: inv(y) ==> inv(f(y))
    ensures inv(Iterated(f, x, n))
  {
    if n > 1 {
      IteratedKeepsLater(f, inv, x, n - 1);
    }
  }

  /** The machine after its first `n` steps. */
  ghost function Steps(s: State, n: nat): State {
    Iterated(Step, s, n)
  }

  lemma StepFirst(s: State, n: nat, r: State)
    requires Steps(Step(s), n) == r
    ensures Steps(s, n + 1) == r
  {
    IteratedFurther(Step, s, n);
  }

  /** Runs and phases are made of steps. */
  lemma {:induction false} RunIsSteps(s: State) returns (n: nat)
    ensures Steps(s, n) == Run(s)
    decreases |s.rounds|, Rank(s.control), |s.script|, Depth(s.control), Work(s)
  {
    n := 0;
    if !Halted(s.control) {
      StepDescends(s);
      var t := Step(s);
      assert Below(t, s);
      n := RunIsSteps(t);
      StepFirst(s, n, Run(t));
      n := n + 1;
    }
  }

  lemma {:induction false} TimerPassIsSteps(s: State) returns (n: nat)
    ensures Steps(s, n) == TimerPass(s)
    decreases |s.rounds|, Rank(s.control), |s.script|, Depth(s.control), Work(s)
  {
    n := 0;
    if s.control.InTimers? || (s.control.InCallback? && s.control.caller.OfTimer?) {
      StepDescends(s);
      var t := Step(s);
      assert Below(t, s);
      n := TimerPassIsSteps(t);
      StepFirst(s, n, TimerPass(t));
      n := n + 1;
    }
  }

  lemma {:induction false} ItemPassIsSteps(s: State) returns (n: nat)
    ensures Steps(s, n) == ItemPass(s)
    decreases |s.rounds|, Rank(s.control), |s.script|, Depth(s.control), Work(s)
  {
    n := 0;
    if s.control.InItems? || (s.control.InCallback? && s.control.caller.OfItem?) {
      StepDescends(s);
      var t := Step(s);
      assert Below(t, s);
      n := ItemPassIsSteps(t);
      StepFirst(s, n, ItemPass(t));
      n := n + 1;
    }
  }
}

/**
 * What every step of the loop keeps about its tables: the handler list and
 * the poller hold the same keys, each once; timer ids are distinct and
 * already issued; the timer whose callback runs stays in the list.
 */
module LoopCoupling {
  import opened PollTypes
  import opened TimerList
  import opened LoopMachine

  ghost predicate HasTimer(ts: seq<Timer>, id: nat) {
    exists i :: 0 <= i < |ts| && ts[i].id == id
  }

  /** The handler list and the poller's table describe the same keys. */
  ghost predicate TablesAgree(s: State) {
    DistinctKeys(s.items) && s.table.Keys == Keys(s.items)
  }

  ghost predicate IdsIssued(s: State) {
    DistinctIds(s.timers) && forall t | t in s.timers :: t.id < s.nextId
  }

  predicate NothingPending(s: State) {
    s.fdLater == [] && s.sockLater == [] && s.timerLater == []
  }

  /** What the program counter says about the rest of the state. */
  ghost predicate ControlAgrees(s: State) {
    match s.control
    case AtHead => !s.dispatching
    case Returned => !s.dispatching && NothingPending(s)
    case PollThrew => !s.dispatching && NothingPending(s)
    case InTimers(_, position, _) => s.dispatching && position <= |s.timers|
    case InCallback(caller, _, _) => s.dispatching && (caller.OfTimer? ==> HasTimer(s.timers, caller.timer))
    case LookupThrew => false
    case CutOff => true
    case _ => s.dispatching
  }

  ghost predicate Coupled(s: State) {
    TablesAgree(s) && IdsIssued(s) && ControlAgrees(s)
  }

  // ---- Operations ----

  lemma FlushCoupled(s: State)
    requires TablesAgree(s) && IdsIssued(s)
    ensures TablesAgree(Flush(s)) && IdsIssued(Flush(s)) && NothingPending(Flush(s))
  {
    WithoutKeepsDistinct(s.items, Pending(s));
    WithoutTimersKeepsOrder(s.timers, PendingTimers(s));
  }

  lemma SortCoupled(ts: seq<Timer>)
    requires DistinctIds(ts)
    ensures DistinctIds(Sort(ts)) && |Sort(ts)| == |ts| && forall t :: t in Sort(ts) <==> t in ts
    ensures forall id :: HasTimer(Sort(ts), id) <==> HasTimer(ts, id)
  {
    SortIsSortedPermutation(ts);
    DistinctByCount(ts, Sort(ts));
    forall id ensures HasTimer(Sort(ts), id) <==> HasTimer(ts, id) {
      if HasTimer(ts, id) {
        var i :| 0 <= i < |ts| && ts[i].id == id;
        assert ts[i] in Sort(ts);
      }
      if HasTimer(Sort(ts), id) {
        var i :| 0 <= i < |ts| && Sort(ts)[i].id == id;
        assert Sort(ts)[i] in ts;
      }
    }
  }

  lemma AddTimerCoupled(s: State, delay: nat, times: nat, elapsed: nat)
    requires TablesAgree(s) && IdsIssued(s)
    ensures var t := AddTimerOp(s, delay, times, elapsed);
            TablesAgree(t) && IdsIssued(t) && forall id | HasTimer(s.timers, id) :: HasTimer(t.timers, id)
  {
    var timer := Timer(s.nextId, times, delay, s.clock + elapsed + delay * NS_PER_MS);
    SortCoupled(s.timers + [timer]);
    forall id | HasTimer(s.timers, id) ensures HasTimer(s.timers + [timer], id) {
      var i :| 0 <= i < |s.timers| && s.timers[i].id == id;
      assert (s.timers + [timer])[i].id == id;
    }
  }

  lemma ResetTimerCoupled(s: State, timer: nat, elapsed: nat)
    requires TablesAgree(s) && IdsIssued(s)
    ensures var t := ResetTimerOp(s, timer, elapsed);
            TablesAgree(t) && IdsIssued(t) && forall id | HasTimer(s.timers, id) :: HasTimer(t.timers, id)
  {
    var i := IndexOf(s.timers, timer);
    if i < |s.timers| {
      var moved := s.timers[i := s.timers[i].(when := s.clock + elapsed + s.timers[i].delay * NS_PER_MS)];
      SortCoupled(moved);
      forall id | HasTimer(s.timers, id) ensures HasTimer(moved, id) {
        var j :| 0 <= j < |s.timers| && s.timers[j].id == id;
        assert moved[j].id == id;
      }
    }
  }

  lemma AddItemCoupled(s: State, key: Key, events: Events, handler: nat)
    requires TablesAgree(s) && key !in s.table
    ensures TablesAgree(AddItemOp(s, key, events, handler))
  {
    var t := AddItemOp(s, key, events, handler);
    forall k ensures k in Keys(t.items) <==> k in t.table {
      if k == key {
        assert t.items[|s.items|].item.key == k;
      } else if k in s.table {
        var i :| 0 <= i < |s.items| && s.items[i].item.key == k;
        assert t.items[i].item.key == k;
      }
    }
    assert forall i | 0 <= i < |s.items| :: s.items[i].item.key in s.table;
  }

  lemma ServeCoupled(s: State, request: Request, fromHandler: bool)
    requires TablesAgree(s) && IdsIssued(s) && s.dispatching
    ensures var t := Serve(s, request, fromHandler);
            && TablesAgree(t) && IdsIssued(t) && t.dispatching && t.control == s.control
            && (forall id | HasTimer(s.timers, id) :: HasTimer(t.timers, id))
  {
    match request
    case RemoveItem(key) =>
    case RemoveTimer(timer) =>
    case ResetTimer(timer, elapsed) => ResetTimerCoupled(s, timer, elapsed);
    case AddTimer(delay, times, elapsed) => AddTimerCoupled(s, delay, times, elapsed);
    case AddItem(key, events, handler) =>
      if !fromHandler && key !in s.table {
        AddItemCoupled(s, key, events, handler);
      }
  }

  // ---- Operations between runs ----

  /** No run and no poll is in progress. */
  ghost predicate AtRest(s: State) {
    && Coupled(s) && NothingPending(s) && !s.dispatching
    && (s.control.AtHead? || s.control.Returned? || s.control.PollThrew?)
  }

  lemma AddItemAtRest(s: State, key: Key, events: Events, handler: nat)
    requires key !in s.table
    ensures AtRest(s) ==> AtRest(AddItemOp(s, key, events, handler))
  {
    if AtRest(s) {
      AddItemCoupled(s, key, events, handler);
    }
  }

  lemma AddTimerAtRest(s: State, delay: nat, times: nat, elapsed: nat)
    ensures AtRest(s) ==> AtRest(AddTimerOp(s, delay, times, elapsed))
  {
    if AtRest(s) {
      AddTimerCoupled(s, delay, times, elapsed);
    }
  }

  lemma ResetTimerAtRest(s: State, timer: nat, elapsed: nat)
    ensures AtRest(s) ==> AtRest(ResetTimerOp(s, timer, elapsed))
  {
    if AtRest(s) {
      ResetTimerCoupled(s, timer, elapsed);
    }
  }

  /** Removals take effect at once. */
  lemma RemoveItemAtRest(s: State, key: Key)
    ensures AtRest(s) ==> AtRest(RemoveItemOp(s, key))
  {
    WithoutKeepsDistinct(s.items, {key});
  }

  lemma RemoveTimerAtRest(s: State, timer: nat)
    ensures AtRest(s) ==> AtRest(RemoveTimerOp(s, timer))
  {
    if AtRest(s) {
      WithoutTimersKeepsOrder(s.timers, {timer});
    }
  }

  /** A call on a loop at rest leaves it so. */
  lemma ServeAtRest(s: State, request: Request)
    requires AtRest(s)
    ensures AtRest(Serve(s, request, false))
  {
    match request
    case RemoveItem(key) => RemoveItemAtRest(s, key);
    case RemoveTimer(timer) => RemoveTimerAtRest(s, timer);
    case ResetTimer(timer, elapsed) => ResetTimerAtRest(s, timer, elapsed);
    case AddTimer(delay, times, elapsed) => AddTimerAtRest(s, delay, times, elapsed);
    case AddItem(key, events, handler) =>
      if key !in s.table {
        AddItemAtRest(s, key, events, handler);
      }
  }

  /** What the user of a loop does: a call on it, or a run in an environment. */
  datatype Operation = Call(request: Request) | Start(script: seq<Reaction>, rounds: seq<Round>)

  function Begun(s: State, script: seq<Reaction>, rounds: seq<Round>): State {
    s.(control := AtHead, log := [], script := script, rounds := rounds)
  }

  /** The operation, unless a run before it has been cut off. */
  ghost function Performed(s: State, op: Operation): State {
    if s.control.CutOff? then s
    else
      match op
      case Call(request) => Serve(s, request, false)
      case Start(script, rounds) => Run(Begun(s, script, rounds))
  }

  ghost function AllPerformed(s: State, ops: seq<Operation>): State {
    if ops == [] then s else Performed(AllPerformed(s, ops[..|ops| - 1]), ops[|ops| - 1])
  }

  lemma PerformedAtRest(s: State, op: Operation)
    requires AtRest(s)
    ensures AtRest(Performed(s, op)) || (Coupled(Performed(s, op)) && Performed(s, op).control.CutOff?)
  {
    match op
    case Call(request) => ServeAtRest(s, request);
    case Start(script, rounds) =>
      RunCoupled(Begun(s, script, rounds));
      RunHalts(Begun(s, script, rounds));
  }

  lemma {:induction false} RunHalts(s: State)
    ensures Halted(Run(s).control)
    decreases |s.rounds|, Rank(s.control), |s.script|, Depth(s.control), Work(s)
  {
    if !Halted(s.control) {
      StepDescends(s);
      RunHalts(Step(s));
    }
  }

  /** Whatever is done with a loop, it is coupled; and at rest, unless the
      environment of its last run was used up. */
  lemma {:induction false} AllPerformedAtRest(s: State, ops: seq<Operation>)
    requires AtRest(s)
    ensures var t := AllPerformed(s, ops);
            Coupled(t) && (AtRest(t) || t.control.CutOff?)
  {
    if ops != [] {
      var before := AllPerformed(s, ops[..|ops| - 1]);
      AllPerformedAtRest(s, ops[..|ops| - 1]);
      if !before.control.CutOff? {
        PerformedAtRest(before, ops[|ops| - 1]);
      }
    }
  }

  // ---- Steps ----

  lemma HeadCoupled(s: State)
    requires Coupled(s) && s.control.AtHead? && s.rounds != []
    ensures Coupled(Head(s))
  {
    FlushCoupled(s.(rebuild := false, rounds := s.rounds[1..]));
  }

  lemma CompletedIds(ts: seq<Timer>, i: nat)
    requires i < |ts| && DistinctIds(ts)
    ensures DistinctIds(Completed(ts, i))
    ensures forall t | t in Completed(ts, i) :: HasTimer(ts, t.id)
    ensures forall id | HasTimer(ts, id) && id != ts[i].id :: HasTimer(Completed(ts, i), id)
  {
    var done := Completed(ts, i);
    forall j | 0 <= j < |done| ensures HasTimer(ts, done[j].id) {
      var k := if ts[i].times == 1 && j >= i then j + 1 else j;
      assert ts[k].id == done[j].id;
    }
    forall id | HasTimer(ts, id) && id != ts[i].id ensures HasTimer(done, id) {
      var k :| 0 <= k < |ts| && ts[k].id == id;
      assert done[if ts[i].times == 1 && k > i then k - 1 else k].id == id;
    }
  }

  lemma AfterTimerCoupled(s: State)
    requires Coupled(s) && s.control.InCallback? && s.control.caller.OfTimer?
    ensures Coupled(AfterTimer(s))
  {
    var i := IndexOf(s.timers, s.control.caller.timer);
    CompletedIds(s.timers, i);
    forall t | t in Completed(s.timers, i) ensures t.id < s.nextId {
      var k :| 0 <= k < |s.timers| && s.timers[k].id == t.id;
      assert s.timers[k] in s.timers;
    }
  }

  lemma CallbackCoupled(s: State)
    requires Coupled(s) && s.control.InCallback?
    ensures Coupled(Step(s))
  {
    var InCallback(caller, proceed, requests) := s.control;
    if requests != [] {
      ServeCoupled(s.(control := InCallback(caller, proceed, requests[1..])), requests[0], caller.OfItem?);
    } else if caller.OfTimer? {
      AfterTimerCoupled(s);
    }
  }

  lemma InTimersCoupled(s: State)
    requires Coupled(s) && s.control.InTimers?
    ensures Coupled(Step(s))
  {
    SortCoupled(s.timers);
  }

  lemma InItemsCoupled(s: State)
    requires Coupled(s) && s.control.InItems?
    ensures Coupled(Step(s))
  {
    if s.control.position < |s.items| {
      assert s.items[s.control.position].item.key in Keys(s.items);
    }
  }

  lemma PhaseCoupled(s: State)
    requires Coupled(s) && (s.control.InTimers? || s.control.InItems?)
    ensures Coupled(Step(s))
  {
    if s.control.InTimers? {
      InTimersCoupled(s);
    } else {
      InItemsCoupled(s);
    }
  }

  lemma StepCoupled(s: State)
    requires Coupled(s)
    ensures Coupled(Step(s))
  {
    if s.control.InCallback? {
      CallbackCoupled(s);
    } else if s.control.InTimers? || s.control.InItems? {
      PhaseCoupled(s);
    } else if s.control.AtHead? && s.rounds != [] {
      HeadCoupled(s);
    } else if s.control.Leaving? {
      FlushCoupled(s.(dispatching := false));
    }
  }

  /** In every reachable state handlers and poller agree, so looking up the
      events of a handler's item never throws; and when start() returns (or a
      poll throws) nothing is pending and `dispatching_` is false. */
  lemma {:induction false} RunCoupled(s: State)
    requires Coupled(s)
    ensures Coupled(Run(s))
    ensures !Run(s).control.LookupThrew?
    ensures Run(s).control.Returned? || Run(s).control.PollThrew? ==> NothingPending(Run(s)) && !Run(s).dispatching
    decreases |s.rounds|, Rank(s.control), |s.script|, Depth(s.control), Work(s)
  {
    if !Halted(s.control) {
      StepDescends(s);
      StepCoupled(s);
      RunCoupled(Step(s));
    }
  }

  lemma {:induction false} StepsCoupled(s: State, n: nat)
    requires Coupled(s)
    ensures Coupled(Steps(s, n))
  {
    if n > 0 {
      StepsCoupled(s, n - 1);
      StepCoupled(Steps(s, n - 1));
    }
  }
}

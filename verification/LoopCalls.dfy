/**
 * What the calls on the loop do, and the handler list as they make it: the
 * sequence of the items added, each with its own events and handler, in the
 * order of the calls, without those removed.
 */
module LoopCalls {
  import opened PollTypes
  import opened TimerList
  import opened LoopMachine
  import opened LoopCoupling
  import opened LoopRuns

  // ---- Each call ----

  /** An item stands last in the handler list and is monitored, with nothing
      reported yet; the poll set counts as changed. */
  ghost predicate ItemIsAdded(s: State, t: State, key: Key, events: Events, handler: nat) {
    && t.items == s.items + [Entry(PollItem(key, events, {}), handler)]
    && t.table == s.table[key := PollItem(key, events, {})]
    && t == s.(items := t.items, table := t.table, rebuild := true, log := t.log)
  }

  /** A timer with the next id is in the list, in deadline order, due its delay
      after the clock sample. */
  ghost predicate TimerIsAdded(s: State, t: State, delay: nat, times: nat, elapsed: nat) {
    var at := s.clock + elapsed;
    && Sorted(t.timers)
    && multiset(t.timers) == multiset(s.timers) + multiset{Timer(s.nextId, times, delay, at + delay * 1_000_000)}
    && t == s.(timers := t.timers, clock := at, nextId := s.nextId + 1, log := t.log)
  }

  /** The first timer with the id is due its delay after the clock sample. */
  ghost predicate TimerIsReset(s: State, t: State, timer: nat, elapsed: nat) {
    if !HasTimer(s.timers, timer) then t == s
    else exists i: nat :: FirstWithId(s.timers, i, timer) && IsResetAt(s, t, i, s.clock + elapsed)
  }

  ghost predicate FirstWithId(ts: seq<Timer>, i: nat, id: nat) {
    i < |ts| && ts[i].id == id && forall j | 0 <= j < i :: ts[j].id != id
  }

  ghost predicate IsResetAt(s: State, t: State, i: nat, at: int)
    requires i < |s.timers|
  {
    && Sorted(t.timers)
    && multiset(t.timers) == multiset(s.timers[i := s.timers[i].(when := at + s.timers[i].delay * 1_000_000)])
    && t == s.(timers := t.timers, clock := at, log := t.log)
  }

  ghost predicate TimerIsRemoved(s: State, t: State, timer: nat) {
    if s.dispatching then t == s.(timerLater := s.timerLater + [timer], log := t.log)
    else (forall u :: u in t.timers <==> u in s.timers && u.id != timer) && t == s.(timers := t.timers)
  }

  ghost predicate ItemIsRemoved(s: State, t: State, key: Key) {
    if s.dispatching then
      t == if key.Socket? then s.(rebuild := true, sockLater := s.sockLater + [key.handle], log := t.log)
           else s.(rebuild := true, fdLater := s.fdLater + [key.fd], log := t.log)
    else
      && (forall e :: e in t.items <==> e in s.items && e.item.key != key)
      && t == s.(items := t.items, table := s.table - {key})
  }

  lemma AddItemIs(s: State, key: Key, events: Events, handler: nat)
    ensures ItemIsAdded(s, AddItemOp(s, key, events, handler), key, events, handler)
  {
  }

  lemma AddTimerIs(s: State, delay: nat, times: nat, elapsed: nat)
    ensures TimerIsAdded(s, AddTimerOp(s, delay, times, elapsed), delay, times, elapsed)
  {
    SortIsSortedPermutation(s.timers + [Timer(s.nextId, times, delay, s.clock + elapsed + delay * NS_PER_MS)]);
  }

  lemma ResetTimerIs(s: State, timer: nat, elapsed: nat)
    ensures TimerIsReset(s, ResetTimerOp(s, timer, elapsed), timer, elapsed)
  {
    var i := IndexOf(s.timers, timer);
    if i < |s.timers| {
      ResetFirst(s, ResetTimerOp(s, timer, elapsed), timer, elapsed, i);
      ResetAt(s, ResetTimerOp(s, timer, elapsed), i, s.clock + elapsed,
              s.timers[i := s.timers[i].(when := s.clock + elapsed + s.timers[i].delay * NS_PER_MS)]);
    }
  }

  lemma ResetFirst(s: State, t: State, timer: nat, elapsed: nat, i: nat)
    requires i == IndexOf(s.timers, timer) < |s.timers|
    ensures IsResetAt(s, t, i, s.clock + elapsed) ==> TimerIsReset(s, t, timer, elapsed)
  {
    assert FirstWithId(s.timers, i, timer);
  }

  lemma ResetAt(s: State, t: State, i: nat, at: int, moved: seq<Timer>)
    requires i < |s.timers| && moved == s.timers[i := s.timers[i].(when := at + s.timers[i].delay * 1_000_000)]
    requires t == s.(timers := Sort(moved), clock := at, log := t.log)
    ensures IsResetAt(s, t, i, at)
  {
    SortIsSortedPermutation(moved);
  }

  lemma RemoveTimerIs(s: State, timer: nat)
    ensures TimerIsRemoved(s, RemoveTimerOp(s, timer), timer)
  {
  }

  lemma RemoveItemIs(s: State, key: Key)
    ensures ItemIsRemoved(s, RemoveItemOp(s, key), key)
  {
  }

  // ---- The calls of a callback ----

  /** What a call on the loop in progress is logged as: a removal is asked for; a
      timer gets the next id and is due its delay after the clock sample that the
      call takes, and so is one that is reset. Calls that callers must not make,
      and resets of timers that are gone, do nothing. */
  ghost predicate IsLoggedAs(s: State, request: Request, fromHandler: bool, logged: seq<Event>) {
    match request
    case RemoveItem(key) => logged == [ItemRemovalAsked(key)]
    case RemoveTimer(timer) => logged == if timer < s.nextId then [TimerRemovalAsked(timer)] else []
    case AddTimer(delay, times, elapsed) =>
      var at := s.clock + elapsed;
      logged == [TimerAdded(Timer(s.nextId, times, delay, at + delay * 1_000_000), at)]
    case ResetTimer(timer, elapsed) =>
      if HasTimer(s.timers, timer) then
        exists u :: u in s.timers && u.id == timer &&
          logged == [TimerWasReset(timer, s.clock + elapsed + u.delay * 1_000_000)]
      else logged == []
    case AddItem(key, events, handler) =>
      logged == if fromHandler || key in s.table then [] else [ItemAdded(key, events, handler)]
  }

  /** A callback begins with the next reaction of the script, makes its calls one
      by one in their order, and nobody else makes calls. */
  ghost predicate FollowsScript(s: State, t: State) {
    if s.control.InCallback? && s.control.requests != [] then
      && t.control == s.control.(requests := s.control.requests[1..]) && t.script == s.script
      && s.log <= t.log && IsLoggedAs(s, s.control.requests[0], s.control.caller.OfItem?, t.log[|s.log|..])
    else if |t.log| > |s.log| && IsCall(t.log[|s.log|]) then
      && s.script != [] && t.script == s.script[1..] && t.log[|s.log|].proceed == s.script[0].proceed
      && t.control.InCallback? && t.control.proceed == s.script[0].proceed && t.control.requests == s.script[0].requests
    else t.script == s.script && |t.log| <= |s.log| + 1 &&
         (|t.log| > |s.log| ==> t.log[|s.log|].PollCalled? || t.log[|s.log|].DispatchBegan?)
  }

  lemma RequestLogged(s: State, request: Request, fromHandler: bool)
    requires s.dispatching
    ensures var t := Serve(s, request, fromHandler);
            s.log <= t.log && IsLoggedAs(s, request, fromHandler, t.log[|s.log|..]) && t.script == s.script
  {
    if request.ResetTimer? && HasTimer(s.timers, request.timer) {
      assert s.timers[IndexOf(s.timers, request.timer)] in s.timers;
    }
  }

  lemma CallFollowsScript(s: State)
    requires s.dispatching && s.control.InCallback? && s.control.requests != []
    ensures FollowsScript(s, Step(s))
  {
    var rest := s.(control := s.control.(requests := s.control.requests[1..]));
    ServeFrame(rest, s.control.requests[0], s.control.caller.OfItem?);
    RequestLogged(rest, s.control.requests[0], s.control.caller.OfItem?);
  }

  lemma CalleeFollowsScript(s: State)
    requires s.control.InTimers? || s.control.InItems?
    ensures FollowsScript(s, Step(s))
  {
  }

  lemma OtherFollowsScript(s: State)
    requires !s.control.InTimers? && !s.control.InItems? && (s.control.InCallback? ==> s.control.requests == [])
    ensures FollowsScript(s, Step(s))
  {
  }

  lemma StepFollowsScript(s: State)
    requires Coupled(s)
    ensures FollowsScript(s, Step(s))
  {
    if s.control.InCallback? && s.control.requests != [] {
      CallFollowsScript(s);
    } else if s.control.InTimers? || s.control.InItems? {
      CalleeFollowsScript(s);
    } else {
      OtherFollowsScript(s);
    }
  }

  // ---- The handler list, read off the log ----

  /** The items added and not removed yet, and the keys whose removal is pending. */
  datatype Registry = Registry(entries: seq<Entry>, pending: set<Key>)

  function Noted(r: Registry, e: Event): Registry {
    match e
    case ItemAdded(key, events, handler) => r.(entries := r.entries + [Entry(PollItem(key, events, {}), handler)])
    case ItemRemovalAsked(key) => r.(pending := r.pending + {key})
    case PollCalled(_, _, _) => Registry(Without(r.entries, r.pending), {})
    case _ => r
  }

  function AllNoted(r: Registry, log: seq<Event>): Registry {
    if log == [] then r else Noted(AllNoted(r, log[..|log| - 1]), log[|log| - 1])
  }

  /** The list once start() has returned, or as it is. */
  function Entries(r: Registry, returned: bool): seq<Entry> {
    if returned then Without(r.entries, r.pending) else r.entries
  }

  ghost predicate MatchesLog(base: Registry, s: State) {
    var r := AllNoted(base, s.log);
    && s.items == Entries(r, s.control.Returned?)
    && Pending(s) == if s.control.Returned? then {} else r.pending
  }

  lemma NotedNext(base: Registry, log: seq<Event>, e: Event)
    ensures AllNoted(base, log + [e]) == Noted(AllNoted(base, log), e)
  {
    assert (log + [e])[..|log|] == log;
  }

  lemma PendingAfter(s: State, key: Key)
    requires s.dispatching
    ensures Pending(RemoveItemOp(s, key)) == Pending(s) + {key}
  {
    var t := RemoveItemOp(s, key);
    assert t.fdLater[..|s.fdLater|] == s.fdLater && t.sockLater[..|s.sockLater|] == s.sockLater;
    forall k | k in Pending(s) ensures k in Pending(t) {
      if k.Descriptor? {
        var i :| 0 <= i < |s.fdLater| && Descriptor(s.fdLater[i]) == k;
        assert Descriptor(t.fdLater[i]) == k;
      } else {
        var i :| 0 <= i < |s.sockLater| && Socket(s.sockLater[i]) == k;
        assert Socket(t.sockLater[i]) == k;
      }
    }
    if key.Socket? {
      assert Socket(t.sockLater[|s.sockLater|]) == key;
    } else {
      assert Descriptor(t.fdLater[|s.fdLater|]) == key;
    }
  }

  lemma ServedMatches(base: Registry, s: State, request: Request, fromHandler: bool)
    requires MatchesLog(base, s) && s.dispatching && !s.control.Returned?
    ensures MatchesLog(base, Serve(s, request, fromHandler))
  {
    var t := Serve(s, request, fromHandler);
    match request
    case RemoveItem(key) =>
      PendingAfter(s, key);
      NotedNext(base, s.log, ItemRemovalAsked(key));
    case AddItem(key, events, handler) =>
      if t.log != s.log {
        AddedMatches(base, s, t, key, events, handler);
      }
    case _ =>
      TimerRequestServed(s, request, fromHandler);
      StillMatches(base, s, t);
  }

  lemma AddedMatches(base: Registry, s: State, t: State, key: Key, events: Events, handler: nat)
    requires MatchesLog(base, s) && !s.control.Returned? && !t.control.Returned?
    requires t.items == s.items + [Entry(PollItem(key, events, {}), handler)]
    requires t.log == s.log + [ItemAdded(key, events, handler)] && t.fdLater == s.fdLater && t.sockLater == s.sockLater
    ensures MatchesLog(base, t)
  {
    NotedNext(base, s.log, ItemAdded(key, events, handler));
    assert Pending(t) == Pending(s);
  }

  lemma TimerRequestServed(s: State, request: Request, fromHandler: bool)
    requires s.dispatching && !request.RemoveItem? && !request.AddItem?
    ensures LeavesHandlers(s, Serve(s, request, fromHandler))
  {
  }

  /** A step that neither adds a poll item nor removes one nor asks for it. */
  ghost predicate LeavesHandlers(s: State, t: State) {
    && t.items == s.items && t.fdLater == s.fdLater && t.sockLater == s.sockLater
    && (t.control.Returned? <==> s.control.Returned?)
    && (t.log == s.log ||
        (|t.log| == |s.log| + 1 && t.log == s.log + [t.log[|s.log|]]
         && !ChangesPollSet(t.log[|s.log|]) && !t.log[|s.log|].PollCalled?))
  }

  lemma StillMatches(base: Registry, s: State, t: State)
    requires MatchesLog(base, s) && LeavesHandlers(s, t)
    ensures MatchesLog(base, t)
  {
    assert Pending(t) == Pending(s);
    if t.log != s.log {
      NotedNext(base, s.log, t.log[|s.log|]);
    }
  }

  lemma HeadMatches(base: Registry, s: State)
    requires MatchesLog(base, s) && s.control.AtHead? && s.rounds != []
    ensures MatchesLog(base, Head(s))
  {
    HeadFlushes(s);
    PolledMatches(base, s, Head(s), Head(s).log[|s.log|]);
  }

  lemma HeadFlushes(s: State)
    requires s.control.AtHead? && s.rounds != []
    ensures var t := Head(s);
            && |t.log| == |s.log| + 1 && t.log == s.log + [t.log[|s.log|]] && t.log[|s.log|].PollCalled?
            && t.items == Without(s.items, Pending(s)) && t.fdLater == [] && t.sockLater == [] && !t.control.Returned?
  {
    assert Pending(s.(rebuild := false, rounds := s.rounds[1..])) == Pending(s);
  }

  lemma PolledMatches(base: Registry, s: State, t: State, e: Event)
    requires MatchesLog(base, s) && !s.control.Returned? && t.log == s.log + [e] && e.PollCalled?
    requires t.items == Without(s.items, Pending(s)) && t.fdLater == [] && t.sockLater == [] && !t.control.Returned?
    ensures MatchesLog(base, t)
  {
    NotedNext(base, s.log, e);
    assert Pending(t) == {};
  }

  lemma LeavingMatches(base: Registry, s: State)
    requires MatchesLog(base, s) && s.control.Leaving?
    ensures MatchesLog(base, Step(s))
  {
    assert Pending(s.(dispatching := false)) == Pending(s);
  }

  lemma CalleeStep(s: State)
    requires s.control.InTimers? || s.control.InItems?
    ensures LeavesHandlers(s, Step(s))
  {
  }

  lemma OtherStep(s: State)
    requires !s.control.AtHead? && !s.control.Leaving?
    requires s.control.InCallback? ==> s.control.requests == []
    ensures LeavesHandlers(s, Step(s))
  {
    if s.control.InTimers? || s.control.InItems? {
      CalleeStep(s);
    }
  }

  lemma StepMatches(base: Registry, s: State)
    requires MatchesLog(base, s) && Coupled(s)
    ensures MatchesLog(base, Step(s))
  {
    if s.control.AtHead? {
      if s.rounds != [] {
        HeadMatches(base, s);
      } else {
        assert Pending(Step(s)) == Pending(s);
      }
    } else if s.control.Leaving? {
      LeavingMatches(base, s);
    } else if s.control.InCallback? && s.control.requests != [] {
      var rest := s.(control := s.control.(requests := s.control.requests[1..]));
      assert Pending(rest) == Pending(s);
      ServedMatches(base, rest, s.control.requests[0], s.control.caller.OfItem?);
      ServeFrame(rest, s.control.requests[0], s.control.caller.OfItem?);
    } else {
      OtherStep(s);
      StillMatches(base, s, Step(s));
    }
  }

  /** In every run the handler list is what the log says: the items it began with
      and those added, in order, without those whose removal was asked for before
      a later poll, or before start() returned. */
  lemma {:induction false} RunMatches(base: Registry, s: State)
    requires MatchesLog(base, s) && Coupled(s)
    ensures MatchesLog(base, Run(s))
    decreases |s.rounds|, Rank(s.control), |s.script|, Depth(s.control), Work(s)
  {
    if !Halted(s.control) {
      StepDescends(s);
      StepMatches(base, s);
      StepCoupled(s);
      RunMatches(base, Step(s));
    }
  }

  // ---- The monitored events ----

  /** The poller monitors each item for the events it was added with. */
  ghost predicate EventsAgree(s: State) {
    forall e | e in s.items :: e.item.key in s.table && s.table[e.item.key].events == e.item.events
  }

  lemma ServedEvents(s: State, request: Request, fromHandler: bool)
    requires EventsAgree(s)
    ensures EventsAgree(Serve(s, request, fromHandler))
  {
  }

  lemma FlushedEvents(s: State)
    requires EventsAgree(s)
    ensures EventsAgree(Flush(s))
  {
  }

  lemma HeadEvents(s: State)
    requires EventsAgree(s) && s.control.AtHead? && s.rounds != []
    ensures EventsAgree(Head(s))
  {
    FlushedEvents(s.(rebuild := false, rounds := s.rounds[1..]));
  }

  lemma StepEvents(s: State)
    requires EventsAgree(s)
    ensures EventsAgree(Step(s))
  {
    if s.control.AtHead? && s.rounds != [] {
      HeadEvents(s);
    } else if s.control.Leaving? {
      FlushedEvents(s.(dispatching := false));
    } else if s.control.InCallback? && s.control.requests != [] {
      ServedEvents(s.(control := s.control.(requests := s.control.requests[1..])), s.control.requests[0],
                   s.control.caller.OfItem?);
    } else if !s.control.AtHead? {
      OtherStep(s);
      OtherTable(s);
    }
  }

  lemma OtherTable(s: State)
    requires !s.control.AtHead? && !s.control.Leaving?
    requires s.control.InCallback? ==> s.control.requests == []
    ensures Step(s).table == s.table
  {
  }

  lemma {:induction false} RunEvents(s: State)
    requires EventsAgree(s)
    ensures EventsAgree(Run(s))
    decreases |s.rounds|, Rank(s.control), |s.script|, Depth(s.control), Work(s)
  {
    if !Halted(s.control) {
      StepDescends(s);
      StepEvents(s);
      RunEvents(Step(s));
    }
  }

  // ---- Over calls and runs ----

  /** The handler list that the user of a loop expects: an item whose key is not
      there is put behind the others with its own events and handler, a removed
      one is gone, and a run leaves what its log says. */
  ghost function Registered(s: State, ops: seq<Operation>): seq<Entry> {
    if ops == [] then s.items
    else
      var before, t := Registered(s, ops[..|ops| - 1]), AllPerformed(s, ops[..|ops| - 1]);
      if t.control.CutOff? then before
      else
        match ops[|ops| - 1]
        case Call(request) =>
          (match request
           case AddItem(key, events, handler) =>
             if exists i :: 0 <= i < |before| && before[i].item.key == key then before
             else before + [Entry(PollItem(key, events, {}), handler)]
           case RemoveItem(key) => Without(before, {key})
           case _ => before)
        case Start(script, rounds) =>
          var r := Run(Begun(t, script, rounds));
          Entries(AllNoted(Registry(before, {}), r.log), r.control.Returned?)
  }

  lemma CallRegisters(t: State, request: Request)
    requires AtRest(t)
    ensures Serve(t, request, false).items ==
            match request
            case AddItem(key, events, handler) =>
              if exists i :: 0 <= i < |t.items| && t.items[i].item.key == key then t.items
              else t.items + [Entry(PollItem(key, events, {}), handler)]
            case RemoveItem(key) => Without(t.items, {key})
            case _ => t.items
  {
    if request.AddItem? {
      assert request.key in t.table <==> request.key in Keys(t.items);
    }
  }

  lemma RunRegisters(t: State, script: seq<Reaction>, rounds: seq<Round>)
    requires AtRest(t)
    ensures var r := Run(Begun(t, script, rounds));
            r.items == Entries(AllNoted(Registry(t.items, {}), r.log), r.control.Returned?)
  {
    var b := Begun(t, script, rounds);
    assert Pending(b) == {};
    RunMatches(Registry(t.items, {}), b);
  }

  /** Whatever is done with a loop, its handler list is the accepted adds, each
      with its own events and handler, in the order in which they were made, less
      those removed; and the poller monitors each for its events. */
  lemma {:induction false} HandlersAreRegistered(s: State, ops: seq<Operation>)
    requires AtRest(s) && EventsAgree(s)
    ensures AllPerformed(s, ops).items == Registered(s, ops) && EventsAgree(AllPerformed(s, ops))
  {
    if ops != [] {
      var t := AllPerformed(s, ops[..|ops| - 1]);
      HandlersAreRegistered(s, ops[..|ops| - 1]);
      AllPerformedAtRest(s, ops[..|ops| - 1]);
      if !t.control.CutOff? {
        match ops[|ops| - 1]
        case Call(request) =>
          CallRegisters(t, request);
          ServedEvents(t, request, false);
        case Start(script, rounds) =>
          RunRegisters(t, script, rounds);
          RunEvents(Begun(t, script, rounds));
      }
    }
  }
}

/**
 * The reactor: handlers for poll items, called one after the other when a
 * poll reports events. A handler may ask for removals, which wait until the
 * dispatch is over, and may change the events that are monitored.
 */
module ReactorModel {
  import opened Wrappers
  import opened PollTypes
  import opened PollerModel

  /** A call that a handler makes on its reactor. */
  datatype Request = Remove(key: Key) | CheckFor(key: Key, events: Events)

  datatype State = State(items: seq<Entry>, table: map<Key, PollItem>, fdLater: seq<int>, sockLater: seq<nat>,
                         dispatching: bool)

  /** Handlers and poller hold the same keys, each once. */
  ghost predicate Coupled(s: State) {
    DistinctKeys(s.items) && s.table.Keys == Keys(s.items)
  }

  predicate Idle(s: State) {
    !s.dispatching && s.fdLater == [] && s.sockLater == []
  }

  // ---- The operations, one at a time ----

  function Removed(s: State, key: Key): State {
    if s.dispatching then
      if key.Socket? then s.(sockLater := s.sockLater + [key.handle]) else s.(fdLater := s.fdLater + [key.fd])
    else s.(items := Without(s.items, {key}), table := s.table - {key})
  }

  function Served(s: State, request: Request): State {
    match request
    case Remove(key) => Removed(s, key)
    case CheckFor(key, events) =>
      if key in s.table then s.(table := s.table[key := s.table[key].(events := events)]) else s
  }

  function AllServed(s: State, requests: seq<Request>): (t: State)
    ensures s.dispatching ==> t.items == s.items && t.dispatching
    decreases requests
  {
    if requests == [] then s else AllServed(Served(s, requests[0]), requests[1..])
  }

  function Reaction(reactions: seq<seq<Request>>, n: nat): seq<Request> {
    if n < |reactions| then reactions[n] else []
  }

  /** The dispatch from place `i` on, when `called` have been called. */
  function Dispatched(s: State, i: nat, reactions: seq<seq<Request>>, called: seq<(Key, nat)>): (State, seq<(Key, nat)>)
    requires s.dispatching
    decreases if i < |s.items| then |s.items| - i else 0
  {
    if i >= |s.items| then (s, called)
    else
      var e := s.items[i];
      if e.item.key in s.table && Ready(s.table[e.item.key].revents) then
        Dispatched(AllServed(s, Reaction(reactions, |called|)), i + 1, reactions, called + [(e.item.key, e.handler)])
      else Dispatched(s, i + 1, reactions, called)
  }

  // ---- What they amount to ----

  /** The calls of the first `n` handlers called, one after the other. */
  function Requests(reactions: seq<seq<Request>>, n: nat): seq<Request>
    decreases n
  {
    if n == 0 then [] else Requests(reactions, n - 1) + Reaction(reactions, n - 1)
  }

  function RemovalsAsked(requests: seq<Request>): set<Key> {
    set i | 0 <= i < |requests| && requests[i].Remove? :: requests[i].key
  }

  /** The keys of pending removals. */
  function Pending(s: State): set<Key> {
    (set i | 0 <= i < |s.fdLater| :: Descriptor(s.fdLater[i])) + (set i | 0 <= i < |s.sockLater| :: Socket(s.sockLater[i]))
  }

  /** The table after one call. A change of monitored events for a key that is
      not there throws and changes nothing. */
  function RetunedOnce(table: map<Key, PollItem>, request: Request): map<Key, PollItem> {
    match request
    case Remove(_) => table
    case CheckFor(key, events) => if key in table then table[key := table[key].(events := events)] else table
  }

  function Retuned(table: map<Key, PollItem>, requests: seq<Request>): map<Key, PollItem>
    decreases requests
  {
    if requests == [] then table else Retuned(RetunedOnce(table, requests[0]), requests[1..])
  }

  lemma {:induction false} RetunedKeeps(table: map<Key, PollItem>, requests: seq<Request>)
    ensures Retuned(table, requests).Keys == table.Keys
    ensures forall k | k in table :: Retuned(table, requests)[k].revents == table[k].revents
    decreases requests
  {
    if requests != [] {
      RetunedKeeps(RetunedOnce(table, requests[0]), requests[1..]);
    }
  }

  lemma {:induction false} RetunedFurther(table: map<Key, PollItem>, a: seq<Request>, b: seq<Request>)
    ensures Retuned(table, a + b) == Retuned(Retuned(table, a), b)
    decreases a
  {
    if a == [] {
      assert a + b == b;
    } else {
      assert (a + b)[1..] == a[1..] + b;
      RetunedFurther(RetunedOnce(table, a[0]), a[1..], b);
    }
  }

  lemma AskedFurther(a: seq<Request>, b: seq<Request>)
    ensures RemovalsAsked(a + b) == RemovalsAsked(a) + RemovalsAsked(b)
  {
    var c := a + b;
    assert forall i | 0 <= i < |b| :: c[|a| + i] == b[i];
    forall k | k in RemovalsAsked(a) ensures k in RemovalsAsked(c) {
      var i :| 0 <= i < |a| && a[i].Remove? && a[i].key == k;
      assert c[i] == a[i];
    }
    forall k | k in RemovalsAsked(b) ensures k in RemovalsAsked(c) {
      var i :| 0 <= i < |b| && b[i].Remove? && b[i].key == k;
      assert c[|a| + i] == b[i];
    }
    forall k | k in RemovalsAsked(c) ensures k in RemovalsAsked(a) + RemovalsAsked(b) {
      var i :| 0 <= i < |c| && c[i].Remove? && c[i].key == k;
      assert if i < |a| then c[i] == a[i] else c[i] == b[i - |a|];
    }
  }

  lemma RemovalPends(s: State, key: Key)
    requires s.dispatching
    ensures Pending(Removed(s, key)) == Pending(s) + {key}
  {
    var t := Removed(s, key);
    forall k | k in Pending(s) ensures k in Pending(t) {
      if k.Descriptor? {
        var i :| 0 <= i < |s.fdLater| && Descriptor(s.fdLater[i]) == k;
        assert t.fdLater[i] == s.fdLater[i];
      } else {
        var i :| 0 <= i < |s.sockLater| && Socket(s.sockLater[i]) == k;
        assert t.sockLater[i] == s.sockLater[i];
      }
    }
    if key.Socket? {
      assert t.sockLater[|s.sockLater|] == key.handle;
    } else {
      assert t.fdLater[|s.fdLater|] == key.fd;
    }
  }

  /** While dispatching, calls change the monitored events and leave removals
      pending. */
  lemma {:induction false} ServedIs(s: State, requests: seq<Request>)
    requires s.dispatching
    ensures var t := AllServed(s, requests);
            && t.items == s.items && t.table == Retuned(s.table, requests)
            && Pending(t) == Pending(s) + RemovalsAsked(requests)
    decreases requests
  {
    if requests == [] {
      assert RemovalsAsked(requests) == {};
    } else {
      var t := Served(s, requests[0]);
      ServedIs(t, requests[1..]);
      assert requests == [requests[0]] + requests[1..];
      AskedFurther([requests[0]], requests[1..]);
      assert [requests[0]][0] == requests[0];
      if requests[0].Remove? {
        RemovalPends(s, requests[0].key);
        assert RemovalsAsked([requests[0]]) == {requests[0].key};
      } else {
        assert Pending(t) == Pending(s);
        assert RemovalsAsked([requests[0]]) == {};
      }
    }
  }

  /** Where a dispatch stands after calling `called`: nothing but the pending
      removals and the monitored events has changed since the poll. */
  ghost predicate Midway(s: State, polled: map<Key, PollItem>, reactions: seq<seq<Request>>, called: seq<(Key, nat)>) {
    && s.dispatching && Coupled(s)
    && s.table == Retuned(polled, Requests(reactions, |called|))
    && Pending(s) == RemovalsAsked(Requests(reactions, |called|))
  }

  lemma CallMovesOn(s: State, polled: map<Key, PollItem>, reactions: seq<seq<Request>>, called: seq<(Key, nat)>,
                    next: (Key, nat))
    requires Midway(s, polled, reactions, called)
    ensures Midway(AllServed(s, Reaction(reactions, |called|)), polled, reactions, called + [next])
  {
    var done, now := Requests(reactions, |called|), Reaction(reactions, |called|);
    ServedIs(s, now);
    RetunedFurther(polled, done, now);
    AskedFurther(done, now);
    RetunedKeeps(s.table, now);
    assert Requests(reactions, |called + [next]|) == done + now;
  }

  lemma MidwayReady(s: State, polled: map<Key, PollItem>, reactions: seq<seq<Request>>, called: seq<(Key, nat)>, i: nat)
    requires Midway(s, polled, reactions, called) && i < |s.items|
    ensures var key := s.items[i].item.key;
            key in s.table && key in polled && s.table[key].revents == polled[key].revents
  {
    RetunedKeeps(polled, Requests(reactions, |called|));
    assert s.items[i].item.key in Keys(s.items);
  }

  /** A dispatch that went on from `called` with the entries `rest`. */
  ghost predicate DispatchedTo(items: seq<Entry>, rest: seq<Entry>, polled: map<Key, PollItem>,
                               reactions: seq<seq<Request>>, called: seq<(Key, nat)>,
                               t: State, all: seq<(Key, nat)>)
  {
    all == called + ReadyHandlers(rest, polled) && t.items == items && Midway(t, polled, reactions, all)
  }

  lemma OneMoreReady(items: seq<Entry>, i: nat, polled: map<Key, PollItem>, reactions: seq<seq<Request>>,
                     called: seq<(Key, nat)>, t: State, all: seq<(Key, nat)>)
    requires i < |items| && items[i].item.key in polled
    requires var e := items[i];
             DispatchedTo(items, items[i + 1..], polled, reactions,
                          if Ready(polled[e.item.key].revents) then called + [(e.item.key, e.handler)] else called, t, all)
    ensures DispatchedTo(items, items[i..], polled, reactions, called, t, all)
  {
    ReadySplits(items, polled, i);
    var rest := ReadyHandlers(items[i + 1..], polled);
    assert [] + rest == rest;
    assert forall h: (Key, nat) :: called + [h] + rest == called + ([h] + rest);
  }

  /** The dispatch calls exactly the handlers with events, in order: what the
      handlers called before have asked for does not change who is called. */
  lemma {:induction false} DispatchIs(s: State, i: nat, reactions: seq<seq<Request>>, called: seq<(Key, nat)>,
                                      polled: map<Key, PollItem>)
    requires Midway(s, polled, reactions, called) && i <= |s.items|
    ensures var r := Dispatched(s, i, reactions, called);
            DispatchedTo(s.items, s.items[i..], polled, reactions, called, r.0, r.1)
    decreases |s.items| - i
  {
    if i == |s.items| {
      assert s.items[i..] == [] && called + [] == called;
    } else {
      var e := s.items[i];
      MidwayReady(s, polled, reactions, called, i);
      var r := Dispatched(s, i, reactions, called);
      if Ready(polled[e.item.key].revents) {
        CallMovesOn(s, polled, reactions, called, (e.item.key, e.handler));
        DispatchIs(AllServed(s, Reaction(reactions, |called|)), i + 1, reactions, called + [(e.item.key, e.handler)], polled);
      } else {
        DispatchIs(s, i + 1, reactions, called, polled);
      }
      OneMoreReady(s.items, i, polled, reactions, called, r.0, r.1);
    }
  }

  /** The requests that a flush carries out. */
  function FdRemovals(fds: seq<int>): seq<Request> {
    seq(|fds|, i requires 0 <= i < |fds| => Request.Remove(Descriptor(fds[i])))
  }

  function SocketRemovals(sockets: seq<nat>): seq<Request> {
    seq(|sockets|, i requires 0 <= i < |sockets| => Request.Remove(Socket(sockets[i])))
  }

  lemma RemovalsArePending(s: State)
    ensures RemovalsAsked(FdRemovals(s.fdLater) + SocketRemovals(s.sockLater)) == Pending(s)
  {
    var rs := FdRemovals(s.fdLater) + SocketRemovals(s.sockLater);
    assert forall i | 0 <= i < |s.fdLater| :: rs[i] == Request.Remove(Descriptor(s.fdLater[i]));
    assert forall i | 0 <= i < |s.sockLater| :: rs[|s.fdLater| + i] == Request.Remove(Socket(s.sockLater[i]));
    forall k | k in Pending(s) ensures k in RemovalsAsked(rs) {
      if k.Descriptor? {
        var i :| 0 <= i < |s.fdLater| && Descriptor(s.fdLater[i]) == k;
        assert rs[i].key == k;
      } else {
        var i :| 0 <= i < |s.sockLater| && Socket(s.sockLater[i]) == k;
        assert rs[|s.fdLater| + i].key == k;
      }
    }
  }

  /** While not dispatching, removals take effect at once; together they leave
      what none of them names, in its order. */
  lemma {:induction false} RemovedAtOnce(s: State, requests: seq<Request>)
    requires !s.dispatching && forall i | 0 <= i < |requests| :: requests[i].Remove?
    ensures AllServed(s, requests) ==
            s.(items := Without(s.items, RemovalsAsked(requests)), table := s.table - RemovalsAsked(requests))
    decreases requests
  {
    if requests == [] {
      assert RemovalsAsked(requests) == {};
      WithoutNothing(s.items, {});
      assert s.table - {} == s.table;
    } else {
      var key := requests[0].key;
      RemovedAtOnce(Served(s, requests[0]), requests[1..]);
      assert requests == [requests[0]] + requests[1..];
      AskedFurther([requests[0]], requests[1..]);
      assert [requests[0]][0] == requests[0];
      assert RemovalsAsked([requests[0]]) == {key};
      WithoutTwice(s.items, {key}, RemovalsAsked(requests[1..]));
      assert s.table - {key} - RemovalsAsked(requests[1..]) == s.table - RemovalsAsked(requests);
    }
  }

  /** What a poll that reports events leaves behind: the removals its handlers
      asked for have taken effect, and nothing else is gone. */
  ghost predicate PollDone(s: State, polled: map<Key, PollItem>, reactions: seq<seq<Request>>,
                           called: seq<(Key, nat)>, t: State)
  {
    var requests := Requests(reactions, |called|);
    && called == ReadyHandlers(s.items, polled)
    && t.items == Without(s.items, RemovalsAsked(requests))
    && t.table == Retuned(polled, requests) - RemovalsAsked(requests)
  }

  /** A key is asked to be removed exactly if one of the handlers called asks for
      it. */
  lemma {:induction false} AskedByHandlers(reactions: seq<seq<Request>>, n: nat, key: Key)
    ensures key in RemovalsAsked(Requests(reactions, n)) <==>
            exists j: nat :: j < n && j < |reactions| && Request.Remove(key) in reactions[j]
  {
    if n > 0 {
      AskedByHandlers(reactions, n - 1, key);
      AskedFurther(Requests(reactions, n - 1), Reaction(reactions, n - 1));
      AskedIn(Reaction(reactions, n - 1), key);
    }
  }

  lemma AskedIn(requests: seq<Request>, key: Key)
    ensures key in RemovalsAsked(requests) <==> Request.Remove(key) in requests
  {
    if Request.Remove(key) in requests {
      var i :| 0 <= i < |requests| && requests[i] == Request.Remove(key);
    }
  }

  /** The events of the last call that retunes the key. */
  function LastEvents(events: Events, requests: seq<Request>, key: Key): Events {
    if requests == [] then events
    else
      var last := requests[|requests| - 1];
      if last.CheckFor? && last.key == key then last.events else LastEvents(events, requests[..|requests| - 1], key)
  }

  /** A key is monitored for the events it was last retuned to; what was reported
      for it stays. */
  lemma {:induction false} RetunedToLast(table: map<Key, PollItem>, requests: seq<Request>, key: Key)
    requires key in table
    ensures key in Retuned(table, requests)
    ensures Retuned(table, requests)[key] == table[key].(events := LastEvents(table[key].events, requests, key))
  {
    if requests != [] {
      var before, last := requests[..|requests| - 1], requests[|requests| - 1];
      assert requests == before + [last];
      RetunedToLast(table, before, key);
      RetunedFurther(table, before, [last]);
      assert [last][1..] == [];
    }
  }

  // ---- Operations between polls ----

  lemma AddedCoupled(s: State, entry: Entry)
    requires Coupled(s) && entry.item.key !in s.table
    ensures Coupled(s.(items := s.items + [entry], table := s.table[entry.item.key := entry.item]))
  {
    var t := s.(items := s.items + [entry], table := s.table[entry.item.key := entry.item]);
    forall k ensures k in Keys(t.items) <==> k in t.table {
      if k == entry.item.key {
        assert t.items[|s.items|].item.key == k;
      } else if k in s.table {
        var i :| 0 <= i < |s.items| && s.items[i].item.key == k;
        assert t.items[i].item.key == k;
      }
    }
    assert forall i | 0 <= i < |s.items| :: s.items[i].item.key in s.table;
  }

  lemma RemovedCoupled(s: State, key: Key)
    requires Coupled(s)
    ensures Coupled(Removed(s, key))
  {
    WithoutKeepsDistinct(s.items, {key});
  }

  /** What the user of a reactor does: it adds a handler, makes one of the calls
      that handlers make too, or polls. */
  datatype Operation =
    | AddHandler(key: Key, events: Events, handler: nat)
    | Call(request: Request)
    | PollOnce(outcome: PollOutcome, reactions: seq<seq<Request>>)

  /** The state behind a poll. */
  ghost function PolledOnce(s: State, outcome: PollOutcome, reactions: seq<seq<Request>>): State {
    var polled := Polled(s.table, outcome);
    if !outcome.Failed? && AnyReported(s.table, outcome) then
      var requests := Requests(reactions, |ReadyHandlers(s.items, polled)|);
      s.(items := Without(s.items, RemovalsAsked(requests)),
         table := Retuned(polled, requests) - RemovalsAsked(requests))
    else s.(table := polled)
  }

  /** Adding a key that is there, which callers must not do, has no effect here. */
  ghost function Performed(s: State, op: Operation): State {
    match op
    case AddHandler(key, events, handler) =>
      var item := PollItem(key, events, {});
      if key in s.table then s else s.(items := s.items + [Entry(item, handler)], table := s.table[key := item])
    case Call(request) => Served(s, request)
    case PollOnce(outcome, reactions) => PolledOnce(s, outcome, reactions)
  }

  ghost function AllPerformed(s: State, ops: seq<Operation>): State {
    if ops == [] then s else Performed(AllPerformed(s, ops[..|ops| - 1]), ops[|ops| - 1])
  }

  lemma PerformedCoupled(s: State, op: Operation)
    requires Coupled(s) && Idle(s)
    ensures Coupled(Performed(s, op)) && Idle(Performed(s, op))
  {
    match op
    case AddHandler(key, events, handler) =>
      if key !in s.table {
        AddedCoupled(s, Entry(PollItem(key, events, {}), handler));
      }
    case Call(request) =>
      if request.Remove? {
        RemovedCoupled(s, request.key);
      }
    case PollOnce(outcome, reactions) => PolledCoupled(s, outcome, reactions);
  }

  lemma PolledCoupled(s: State, outcome: PollOutcome, reactions: seq<seq<Request>>)
    requires Coupled(s) && Idle(s)
    ensures Coupled(PolledOnce(s, outcome, reactions)) && Idle(PolledOnce(s, outcome, reactions))
  {
    var polled := Polled(s.table, outcome);
    var requests := Requests(reactions, |ReadyHandlers(s.items, polled)|);
    RetunedKeeps(polled, requests);
    WithoutKeepsDistinct(s.items, RemovalsAsked(requests));
  }

  /** Whatever is done with a reactor, handlers and poller hold the same keys. */
  lemma {:induction false} AllPerformedCoupled(s: State, ops: seq<Operation>)
    requires Coupled(s) && Idle(s)
    ensures Coupled(AllPerformed(s, ops)) && Idle(AllPerformed(s, ops))
  {
    if ops != [] {
      AllPerformedCoupled(s, ops[..|ops| - 1]);
      PerformedCoupled(AllPerformed(s, ops[..|ops| - 1]), ops[|ops| - 1]);
    }
  }

  class Reactor {
    const poller: Poller
    var items: seq<Entry>
    var fdLater: seq<int>
    var sockLater: seq<nat>
    var dispatching: bool

    ghost function Abs(): State
      reads this, poller
    {
      State(items, poller.table, fdLater, sockLater, dispatching)
    }

    constructor ()
      ensures poller.Valid() && fresh(poller) && Abs() == State([], map[], [], [], false)
    {
      poller := new Poller();
      items, fdLater, sockLater, dispatching := [], [], [], false;
    }

    method Add(key: Key, events: Events, handler: nat)
      requires poller.Valid() && key !in poller.table
      modifies this`items, poller
      ensures poller.Valid()
      ensures var item := PollItem(key, events, {});
              Abs() == old(Abs()).(items := old(items) + [Entry(item, handler)], table := old(poller.table)[key := item])
      ensures old(Coupled(Abs())) ==> Coupled(Abs())
    {
      ghost var s := Abs();
      if Coupled(s) {
        AddedCoupled(s, Entry(PollItem(key, events, {}), handler));
      }
      poller.Add(PollItem(key, events, {}));
      items := items + [Entry(PollItem(key, events, {}), handler)];
    }

    method RemoveSocket(socket: nat)
      requires poller.Valid()
      modifies this`items, this`sockLater, poller
      ensures poller.Valid() && Abs() == Removed(old(Abs()), Socket(socket))
      ensures dispatching ==>
                sockLater == old(sockLater) + [socket] && items == old(items) && poller.table == old(poller.table)
      ensures !dispatching ==>
                && (forall e :: e in items <==> e in old(items) && e.item.key != Socket(socket))
                && poller.table == old(poller.table) - {Socket(socket)} && sockLater == old(sockLater)
      ensures old(Coupled(Abs())) ==> Coupled(Abs())
    {
      ghost var s := Abs();
      if Coupled(s) {
        RemovedCoupled(s, Socket(socket));
      }
      if dispatching {
        sockLater := sockLater + [socket];
        return;
      }
      items := Without(items, {Socket(socket)});
      var _ := poller.RemoveSocket(socket);
    }

    method RemoveDescriptor(descriptor: int)
      requires poller.Valid()
      modifies this`items, this`fdLater, poller
      ensures poller.Valid() && Abs() == Removed(old(Abs()), Descriptor(descriptor))
      ensures dispatching ==>
                fdLater == old(fdLater) + [descriptor] && items == old(items) && poller.table == old(poller.table)
      ensures !dispatching ==>
                && (forall e :: e in items <==> e in old(items) && e.item.key != Descriptor(descriptor))
                && poller.table == old(poller.table) - {Descriptor(descriptor)} && fdLater == old(fdLater)
      ensures old(Coupled(Abs())) ==> Coupled(Abs())
    {
      ghost var s := Abs();
      if Coupled(s) {
        RemovedCoupled(s, Descriptor(descriptor));
      }
      if dispatching {
        fdLater := fdLater + [descriptor];
        return;
      }
      items := Without(items, {Descriptor(descriptor)});
      var _ := poller.RemoveDescriptor(descriptor);
    }

    /** All that is pending is removed, from both lists, and nothing else. */
    method FlushRemoveLater()
      requires poller.Valid() && !dispatching
      modifies this`items, this`sockLater, this`fdLater, poller
      ensures poller.Valid()
      ensures Abs() == State(Without(old(items), Pending(old(Abs()))), old(poller.table) - Pending(old(Abs())), [], [], false)
    {
      RemovedAtOnce(Abs(), FdRemovals(fdLater) + SocketRemovals(sockLater));
      RemovalsArePending(Abs());
      FlushDescriptors(SocketRemovals(sockLater));
      FlushSockets();
      fdLater, sockLater := [], [];
    }

    method FlushDescriptors(ghost next: seq<Request>)
      requires poller.Valid() && !dispatching
      modifies this`items, this`fdLater, poller
      ensures poller.Valid() && fdLater == old(fdLater)
      ensures AllServed(Abs(), next) == AllServed(old(Abs()), FdRemovals(fdLater) + next)
    {
      for i := 0 to |fdLater|
        invariant poller.Valid() && !dispatching && fdLater == old(fdLater)
        invariant AllServed(Abs(), FdRemovals(fdLater[i..]) + next) == AllServed(old(Abs()), FdRemovals(fdLater) + next)
      {
        assert (FdRemovals(fdLater[i..]) + next)[1..] == FdRemovals(fdLater[i + 1..]) + next;
        RemoveDescriptor(fdLater[i]);
      }
      assert FdRemovals(fdLater[|fdLater|..]) + next == next;
    }

    method FlushSockets()
      requires poller.Valid() && !dispatching
      modifies this`items, this`sockLater, poller
      ensures poller.Valid() && sockLater == old(sockLater)
      ensures Abs() == AllServed(old(Abs()), SocketRemovals(sockLater))
    {
      for i := 0 to |sockLater|
        invariant poller.Valid() && !dispatching && sockLater == old(sockLater)
        invariant AllServed(Abs(), SocketRemovals(sockLater[i..])) == AllServed(old(Abs()), SocketRemovals(sockLater))
      {
        assert SocketRemovals(sockLater[i..])[1..] == SocketRemovals(sockLater[i + 1..]);
        RemoveSocket(sockLater[i]);
      }
    }

    /** A handler makes its calls on the reactor. */
    method Serve(requests: seq<Request>)
      requires poller.Valid()
      modifies this`sockLater, this`fdLater, this`items, poller
      ensures poller.Valid() && Abs() == AllServed(old(Abs()), requests)
    {
      for i := 0 to |requests|
        invariant poller.Valid() && AllServed(Abs(), requests[i..]) == AllServed(old(Abs()), requests)
      {
        assert requests[i..][0] == requests[i] && requests[i..][1..] == requests[i + 1..];
        match requests[i]
        case Remove(key) =>
          if key.Socket? {
            RemoveSocket(key.handle);
          } else {
            RemoveDescriptor(key.fd);
          }
        case CheckFor(key, events) =>
          var _ := poller.CheckFor(key, events);
      }
    }

    /** The handlers with events are called, in order. */
    method Dispatch(reactions: seq<seq<Request>>) returns (called: seq<(Key, nat)>)
      requires poller.Valid() && dispatching && Coupled(Abs())
      modifies this`sockLater, this`fdLater, this`items, poller
      ensures poller.Valid() && (Abs(), called) == Dispatched(old(Abs()), 0, reactions, [])
    {
      called := [];
      var i: nat := 0;
      while i < |items|
        invariant poller.Valid() && dispatching && items == old(items) && poller.table.Keys == old(poller.table).Keys
        invariant Dispatched(Abs(), i, reactions, called) == Dispatched(old(Abs()), 0, reactions, [])
      {
        assert items[i].item.key in Keys(items);
        var events := poller.EventsOf(items[i].item.key);
        if Ready(events.value) {
          ServedIs(Abs(), Reaction(reactions, |called|));
          RetunedKeeps(poller.table, Reaction(reactions, |called|));
          Serve(Reaction(reactions, |called|));
          called := called + [(items[i].item.key, items[i].handler)];
        }
        i := i + 1;
      }
    }

    /** One poll. If it reports events, exactly the handlers with events are
        called, each once and in the order they were added, also those whose
        removal an earlier handler asked for; then all removals asked for take
        effect. `reactions` are the calls the handlers make, in that order. */
    method Poll(outcome: PollOutcome, reactions: seq<seq<Request>>) returns (r: Result<bool>, called: seq<(Key, nat)>)
      requires poller.Valid() && Coupled(Abs()) && Idle(Abs())
      modifies this, poller
      ensures poller.Valid() && Coupled(Abs()) && Idle(Abs())
      ensures r.Failure? <==> outcome.Failed?
      ensures r.Success? ==> (r.value <==> AnyReported(old(poller.table), outcome))
      ensures r == Success(true) ==>
                PollDone(old(Abs()), Polled(old(poller.table), outcome), reactions, called, Abs())
      ensures r != Success(true) ==>
                called == [] && items == old(items) && poller.table == Polled(old(poller.table), outcome)
    {
      called := [];
      r := poller.Poll(outcome);
      if r != Success(true) {
        return;
      }
      dispatching := true;
      ghost var s := Abs();
      FreshDispatch(s, reactions);
      called := Dispatch(reactions);
      FlushedDispatch(s, Abs(), reactions, called);
      dispatching := false;
      FlushRemoveLater();
    }

    /** Any operations with any polls between them; a poll that fails throws, and
        the reactor can go on being used. */
    method Perform(ops: seq<Operation>)
      requires poller.Valid() && Coupled(Abs()) && Idle(Abs())
      modifies this, poller
      ensures poller.Valid() && Coupled(Abs()) && Idle(Abs())
      ensures Abs() == AllPerformed(old(Abs()), ops)
    {
      for i := 0 to |ops|
        invariant poller.Valid() && Coupled(Abs()) && Idle(Abs())
        invariant Abs() == AllPerformed(old(Abs()), ops[..i])
      {
        assert ops[..i + 1][..i] == ops[..i];
        PerformOne(ops[i]);
      }
      assert ops[..|ops|] == ops;
    }

    method PerformOne(op: Operation)
      requires poller.Valid() && Coupled(Abs()) && Idle(Abs())
      modifies this, poller
      ensures poller.Valid() && Coupled(Abs()) && Idle(Abs())
      ensures Abs() == Performed(old(Abs()), op)
    {
      PerformedCoupled(Abs(), op);
      match op
      case AddHandler(key, events, handler) =>
        var has := poller.Has(PollItem(key, events, {}));
        if !has {
          Add(key, events, handler);
        }
      case Call(request) =>
        assert AllServed(Served(Abs(), request), []) == Served(Abs(), request);
        Serve([request]);
      case PollOnce(outcome, reactions) =>
        ghost var s := Abs();
        var r, called := Poll(outcome, reactions);
        PollEnds(s, outcome, reactions, called, Abs(), r);
    }

    static lemma PollEnds(s: State, outcome: PollOutcome, reactions: seq<seq<Request>>, called: seq<(Key, nat)>,
                          t: State, r: Result<bool>)
      requires Idle(s) && Idle(t) && (r.Failure? <==> outcome.Failed?)
      requires r.Success? ==> (r.value <==> AnyReported(s.table, outcome))
      requires if r == Success(true) then PollDone(s, Polled(s.table, outcome), reactions, called, t)
               else t.items == s.items && t.table == Polled(s.table, outcome)
      ensures t == PolledOnce(s, outcome, reactions)
    {
    }

    static lemma FreshDispatch(s: State, reactions: seq<seq<Request>>)
      requires s.dispatching && Coupled(s) && s.fdLater == [] && s.sockLater == []
      ensures var r := Dispatched(s, 0, reactions, []);
              DispatchedTo(s.items, s.items, s.table, reactions, [], r.0, r.1)
    {
      assert Pending(s) == {} && RemovalsAsked([]) == {};
      assert s.items[0..] == s.items;
      DispatchIs(s, 0, reactions, [], s.table);
    }

    /** The flush after a dispatch. */
    static lemma FlushedDispatch(s: State, t: State, reactions: seq<seq<Request>>, called: seq<(Key, nat)>)
      requires Coupled(s) && DispatchedTo(s.items, s.items, s.table, reactions, [], t, called)
      ensures var u := State(Without(t.items, Pending(t)), t.table - Pending(t), [], [], false);
              Coupled(u) && PollDone(s, s.table, reactions, called, u)
    {
      WithoutKeepsDistinct(t.items, Pending(t));
      assert [] + ReadyHandlers(s.items, s.table) == called;
    }
  }
}

/**
 * The parent's side of an actor as an object: the pipe it holds and the fields
 * that stop() and the move operations update. Its methods take the steps that
 * the protocol gives the parent. The mail that arrives while a method waits is
 * on the pipe from the start.
 */
module ActorObject {
  import opened Wrappers
  import opened ActorProtocol

  /** How many messages come before the first signal. */
  function BeforeSignal(mail: seq<Mail>): (n: nat)
    ensures n <= |mail| && (n < |mail| ==> mail[n].Sig?)
    ensures forall i | 0 <= i < n :: mail[i].Plain?
    ensures n < |mail| <==> SignalsIn(mail) != []
  {
    if mail == [] || mail[0].Sig? then 0 else 1 + BeforeSignal(mail[1..])
  }

  /** The first `n` messages have been read. */
  function ReadOff(s: State, n: nat): State
    requires n <= |s.toParent|
  {
    s.(toParent := s.toParent[n..], parentRead := s.parentRead + s.toParent[..n])
  }

  lemma ReadOffMore(s: State, n: nat)
    requires n < |s.toParent|
    ensures ReadOff(ReadOff(s, 1), n) == ReadOff(s, n + 1)
  {
    assert s.toParent[..n + 1] == s.toParent[..1] + s.toParent[1..][..n];
    assert s.toParent[1..][n..] == s.toParent[n + 1..];
  }

  lemma TakenOnce(s: State)
    requires Enabled(s, TakeMail)
    ensures Next(s, TakeMail) == if s.toParent[0].Sig? then Heard(ReadOff(s, 1), s.toParent[0].code) else ReadOff(s, 1)
  {
    assert s.toParent[..1] == [s.toParent[0]];
  }

  /** A waiting parent that takes its mail up to the first signal has heard it. */
  lemma {:induction false} TakenToSignal(s: State)
    requires Waits(s.parent) && SignalsIn(s.toParent) != []
    ensures var n := BeforeSignal(s.toParent);
            Take(s, n + 1) == Heard(ReadOff(s, n + 1), s.toParent[n].code)
    decreases |s.toParent|
  {
    var n := BeforeSignal(s.toParent);
    TakeNext(s, n);
    if n > 0 {
      var t := ReadOff(s, 1);
      BeforeSignalNext(s.toParent, t.toParent);
      TakenToSignal(t);
      ReadOffMore(s, n);
      assert s.toParent[n] == t.toParent[n - 1];
    }
  }

  lemma BeforeSignalNext(mail: seq<Mail>, rest: seq<Mail>)
    requires mail != [] && mail[0].Plain? && rest == mail[1..]
    ensures BeforeSignal(mail) == BeforeSignal(rest) + 1 && SignalsIn(mail) == SignalsIn(rest)
  {
  }

  lemma TakeNext(s: State, n: nat)
    requires Enabled(s, TakeMail)
    ensures s.toParent[0].Plain? ==> Take(s, n + 1) == Take(ReadOff(s, 1), n)
    ensures s.toParent[0].Sig? ==> Take(s, 1) == Heard(ReadOff(s, 1), s.toParent[0].code)
  {
    TakenOnce(s);
    assert Take(s, 1) == Take(Next(s, TakeMail), 0);
  }

  ghost predicate Reachable(s: State) {
    exists actions :: After(actions) == Some(s)
  }

  lemma ReachableNext(s: State, a: Action)
    requires Reachable(s) && Enabled(s, a)
    ensures Reachable(Next(s, a))
  {
    var actions :| After(actions) == Some(s);
    assert (actions + [a])[..|actions|] == actions;
    assert After(actions + [a]) == Some(Next(s, a));
  }

  lemma {:induction false} ReachableTaking(s: State, n: nat)
    requires Reachable(s)
    ensures Reachable(Take(s, n))
    decreases n
  {
    if n > 0 && Enabled(s, TakeMail) {
      ReachableNext(s, TakeMail);
      ReachableTaking(Next(s, TakeMail), n - 1);
    }
  }

  /** Where a blocking stop() from a reachable state s ends. */
  function StopEnds(s: State): State
    requires s.parent.Idle?
  {
    Take(Next(s, StopAndWait), if s.stopped then 0 else BeforeSignal(s.toParent) + 1)
  }

  /** From every reachable state a blocking stop() answers true exactly when the
      routine returned true. */
  lemma StopAnswersTruly(s: State)
    requires Reachable(s) && s.parent.Idle?
    requires !s.stopped ==> SignalsIn(s.toParent) != []
    ensures var t := StopEnds(s);
            && Reachable(t) && t.parent.Idle? && t.stopped && |t.answers| == |s.answers| + 1
            && (t.answers[|s.answers|] <==> t.ending == ReturnedWith(true))
  {
    ReachableNext(s, StopAndWait);
    ReachableTaking(Next(s, StopAndWait), if s.stopped then 0 else BeforeSignal(s.toParent) + 1);
    StopHasEnded(s);
    ReachableAnswers(StopEnds(s), |s.answers|);
  }

  lemma ReachableAnswers(s: State, i: nat)
    requires Reachable(s) && i < |s.answers|
    ensures s.answers[i] <==> s.ending == ReturnedWith(true)
  {
    var actions :| After(actions) == Some(s);
    StopTellsTheResult(actions, s, i);
  }

  lemma StopHasEnded(s: State)
    requires s.parent.Idle? && (s.stopped || SignalsIn(s.toParent) != [])
    ensures StopEnds(s).parent.Idle? && StopEnds(s).stopped && |StopEnds(s).answers| == |s.answers| + 1
  {
    if !s.stopped {
      TakenToSignal(Next(s, StopAndWait));
    }
  }

  /** The parent's end of the two pipes. */
  class Pipe {
    var incoming: seq<Mail>
    var outgoing: seq<Mail>

    constructor (incoming: seq<Mail>, outgoing: seq<Mail>)
      ensures this.incoming == incoming && this.outgoing == outgoing
    {
      this.incoming, this.outgoing := incoming, outgoing;
    }

    method Send(m: Mail)
      modifies this`outgoing
      ensures outgoing == old(outgoing) + [m]
    {
      outgoing := outgoing + [m];
    }

    /** Reads messages until one is a signal. */
    method Wait() returns (code: Signal)
      requires SignalsIn(incoming) != []
      modifies this`incoming
      ensures var n := BeforeSignal(old(incoming));
              old(incoming)[n] == Sig(code) && incoming == old(incoming)[n + 1..]
    {
      ghost var n := BeforeSignal(incoming);
      ghost var read := 0;
      while true
        invariant 0 <= read <= n && incoming == old(incoming)[read..]
        decreases n - read
      {
        var m := incoming[0];
        incoming := incoming[1..];
        read := read + 1;
        if m.Sig? {
          return m.code;
        }
      }
    }
  }

  class Actor {
    var pipe: Pipe?
    var stopped: bool
    var retval: bool

    /** What the two threads share: the slot of the routine's exception, and the
        mutex that guards it. */
    var exceptionStored: bool
    var mutex: Holder

    /** The object is what the protocol's parent is in the state s. */
    ghost predicate Follows(s: State)
      reads this, pipe
    {
      && pipe != null
      && pipe.incoming == s.toParent && pipe.outgoing == s.toChild
      && stopped == s.stopped && retval == s.retval
    }

    ghost predicate Shares(s: State)
      reads this
    {
      exceptionStored == s.exceptionStored && mutex == s.mutex
    }

    constructor (pipe: Pipe)
      ensures this.pipe == pipe && !stopped && !retval && !exceptionStored && mutex.Nobody?
    {
      this.pipe, stopped, retval, exceptionStored, mutex := pipe, false, false, false, Nobody;
    }

    /** The end of the constructor: the child's first signal decides. After ko
        the mutex is taken when the child has released it, and the exception
        thrown carries the routine's if the slot holds one. */
    method Handshake(ghost s: State) returns (r: Outcome, ghost t: State)
      requires Follows(s) && Shares(s) && s.parent.Constructing? && SignalsIn(s.toParent) != []
      requires s.toParent[BeforeSignal(s.toParent)] == Sig(Ko) ==> s.mutex.Nobody?
      modifies this, pipe
      ensures var heard := Take(s, BeforeSignal(s.toParent) + 1);
              if s.toParent[BeforeSignal(s.toParent)] == Sig(Ko) then
                && Enabled(heard, LockForCheck) && Enabled(Next(heard, LockForCheck), Check)
                && t == Next(Next(heard, LockForCheck), Check)
                && r.Fail? && pipe == null
              else r.Pass? && t == heard && t.parent.Idle? && Follows(t)
      ensures Shares(t)
      ensures r.Fail? ==> t.parent.ConstructorThrew? && (r.error == "nested" <==> t.parent.nested)
    {
      TakenToSignal(s);
      t := Take(s, BeforeSignal(s.toParent) + 1);
      var sig := pipe.Wait();
      if sig == Ko {
        pipe := null;
        mutex := ParentThread;
        t := Next(t, LockForCheck);
        r := Fail(if exceptionStored then "nested" else "plain");
        mutex := Nobody;
        t := Next(t, Check);
        return;
      }
      return Pass, t;
    }

    /** stop(): without a pipe there is nothing to do; otherwise the child is
        told, and a blocking call answers what the child's last signal said, or
        says it again. */
    method Stop(block: bool, ghost s: State) returns (answer: bool, ghost t: State)
      requires pipe != null ==> Follows(s) && s.parent.Idle?
      requires pipe != null && block && !stopped ==> SignalsIn(pipe.incoming) != []
      modifies this, pipe
      ensures pipe == old(pipe)
      ensures pipe == null ==> !answer && stopped == old(stopped) && retval == old(retval)
      ensures pipe != null ==> pipe.outgoing == old(pipe.outgoing) + [Sig(ActorProtocol.Stop)]
      ensures pipe != null && (!block || old(stopped)) ==>
                && pipe.incoming == old(pipe.incoming) && stopped == old(stopped) && retval == old(retval)
                && answer == (block ==> retval)
      ensures pipe != null && block && !old(stopped) ==>
                var n := BeforeSignal(old(pipe.incoming));
                && pipe.incoming == old(pipe.incoming)[n + 1..]
                && stopped && answer == retval && (answer <==> old(pipe.incoming)[n] == Sig(Ok))
      ensures pipe != null && !block ==> answer && t == Next(s, StopWithoutWaiting) && Follows(t)
      ensures pipe != null && block ==>
                && Follows(t) && t.parent.Idle?
                && t == StopEnds(s)
                && answer == retval && t.answers == s.answers + [answer]
    {
      t := s;
      if pipe == null {
        return false, t;
      }
      pipe.Send(Sig(ActorProtocol.Stop));
      if !block {
        t := Next(s, StopWithoutWaiting);
        return true, t;
      }
      t := Next(s, StopAndWait);
      if stopped {
        return retval, t;
      }
      TakenToSignal(t);
      t := Take(t, BeforeSignal(s.toParent) + 1);
      var sig := pipe.Wait();
      stopped := true;
      retval := sig == Ok;
      return retval, t;
    }

    /** Move assignment. What the target held before is dropped, not stopped;
        a move to itself leaves the actor without a pipe. The exception slot and
        the mutex stay with the object that the child was started for. */
    method MoveFrom(o: Actor)
      modifies this`pipe, this`stopped, this`retval, o`pipe
      ensures o.pipe == null && o.stopped == old(o.stopped) && o.retval == old(o.retval)
      ensures this != o ==> pipe == old(o.pipe) && stopped == old(o.stopped) && retval == old(o.retval)
    {
      pipe := o.pipe;
      stopped := o.stopped;
      retval := o.retval;
      o.pipe := null;
    }

    /** A move hands the actor over: the target answers stop() as the source
        would have, and the source, told to stop, does nothing. */
    method MoveAndStop(o: Actor, ghost s: State) returns (answer: bool, spent: bool, ghost t: State)
      requires this != o && o.Follows(s) && s.parent.Idle?
      requires !s.stopped ==> SignalsIn(s.toParent) != []
      modifies this, o, o.pipe
      ensures Follows(t) && t == StopEnds(s)
      ensures t.answers == s.answers + [answer] && !spent
      ensures pipe == old(o.pipe) && o.pipe == null
    {
      MoveFrom(o);
      ghost var u;
      spent, u := o.Stop(true, s);
      answer, t := Stop(true, s);
    }
  }
}

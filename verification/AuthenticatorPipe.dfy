/**
 * The pipe between the authenticator's user and its server. The user sends a
 * command and waits for one signal; the server, an actor, announces itself with
 * an ok, acknowledges each command it takes in with an ok, and at last sends
 * the signal of its end. Nothing on the pipe says what a signal is for: below,
 * the causes are written beside the signals, and nobody reads them.
 */
module AuthenticatorPipe {
  import opened Wrappers
  import opened Authentication

  datatype Cause = Announcement | ForCommand(n: nat) | TheEnd

  datatype Signal = Signal(ok: bool, cause: Cause)

  /** What the user's side puts on the pipe. */
  datatype Mail = Ask(command: Command) | StopSignal

  /** The message that the server reads. The bytes of a signal are no command. */
  function MessageIn(mail: Mail): seq<string> {
    match mail
    case Ask(command) => MessageOf(command)
    case StopSignal => [[0x77 as char, 0x66 as char, 0x55 as char, 0x44 as char,
                         0x33 as char, 0x22 as char, 0x11 as char, 0x02 as char]]
  }

  /** Where the user is: in the constructor, between calls, waiting for the
      signal of a command or of TERMINATE, in the actor's stop, or done. */
  datatype User = Constructing | ConstructorThrew | Idle | Waiting(destroying: bool) | Stopping | Destroyed

  /** Where the server is: before its bind, in its loop, behind the loop or a
      failed bind, or behind its last signal. */
  datatype Server = Binding | Looping | BindFailed | Gone

  datatype State = State(
    server: Server,
    user: User,
    service: Service,
    toServer: seq<Mail>,
    toUser: seq<Signal>,
    // What has happened so far.
    announced: bool,
    asked: seq<Command>,
    heard: seq<Signal>)

  const INITIAL: State := State(Binding, Constructing, Service([], 0, [], 0, StillServing), [], [], false, [], [])

  datatype Action =
    | Bind(bound: bool)
    | Interrupt
    | FailPoll
    | Round(request: Option<Incoming>, readable: bool)
    | End(unbound: bool)
    | Hear
    | Send(command: Command)
    | Destroy

  predicate Waits(u: User) {
    u.Constructing? || u.Waiting? || u.Stopping?
  }

  predicate Enabled(s: State, a: Action) {
    match a
    case Bind(_) => s.server.Binding?
    case Interrupt => s.server.Looping? && s.service.end.StillServing?
    case FailPoll => s.server.Looping? && s.service.end.StillServing?
    case Round(_, readable) => s.server.Looping? && s.service.end.StillServing? && (readable ==> s.toServer != [])
    case End(_) => s.server.BindFailed? || (s.server.Looping? && (s.service.end.LoopOver? || s.service.end.ServerThrew?))
    case Hear => Waits(s.user) && s.toUser != []
    case Send(command) => s.user.Idle? && !command.Terminate?
    case Destroy => s.user.Idle?
  }

  /** One turn of the server's loop; a command stays on the pipe if the request
      before it ends the server. */
  ghost function Turned(s: State, request: Option<Incoming>, readable: bool): State
    requires s.service.end.StillServing? && (readable ==> s.toServer != [])
  {
    var command := if readable then Some(MessageIn(s.toServer[0])) else None;
    var next := Serve(s.service, Ready(request, command));
    var read := readable && ServeRequest(s.service, request).end.StillServing?;
    s.(service := next,
       toServer := if read then s.toServer[1..] else s.toServer,
       toUser := if next.oks > s.service.oks then s.toUser + [Signal(true, ForCommand(|s.service.history|))] else s.toUser)
  }

  /** A signal is taken, whatever it was sent for. */
  function Heard(s: State): State
    requires Waits(s.user) && s.toUser != []
  {
    var signal := s.toUser[0];
    var t := s.(toUser := s.toUser[1..], heard := s.heard + [signal]);
    match s.user
    case Constructing => t.(user := if signal.ok then Idle else ConstructorThrew)
    case Waiting(destroying) =>
      if destroying then t.(toServer := t.toServer + [StopSignal], user := Stopping) else t.(user := Idle)
    case _ => t.(user := Destroyed)
  }

  ghost function Next(s: State, a: Action): State
    requires Enabled(s, a)
  {
    match a
    case Bind(bound) =>
      if bound then s.(server := Looping, announced := true, toUser := s.toUser + [Signal(true, Announcement)])
      else s.(server := BindFailed)
    case Interrupt => s.(service := Serve(s.service, PollInterrupted))
    case FailPoll => s.(service := Serve(s.service, PollFailed))
    case Round(request, readable) => Turned(s, request, readable)
    case End(unbound) =>
      s.(server := Gone, toUser := s.toUser + [Signal(s.server.Looping? && s.service.end.LoopOver? && unbound, TheEnd)])
    case Hear => Heard(s)
    case Send(command) =>
      s.(toServer := s.toServer + [Ask(command)], asked := s.asked + [command], user := Waiting(false))
    case Destroy =>
      s.(toServer := s.toServer + [Ask(Terminate)], asked := s.asked + [Terminate], user := Waiting(true))
  }

  ghost function After(actions: seq<Action>): Option<State>
    decreases |actions|
  {
    if actions == [] then Some(INITIAL)
    else
      var last := actions[|actions| - 1];
      match After(actions[..|actions| - 1])
      case Some(r) => if Enabled(r, last) then Some(Next(r, last)) else None
      case None => None
  }

  // ---- The invariant ----

  /** The k-th signal that the server sends: first the announcement, then one ok
      for each command taken in, in their order, and last the one of its end. */
  ghost predicate SentInOrder(s: State, signals: seq<Signal>) {
    var first := if s.announced then 1 else 0;
    var commands := |s.service.history|;
    && |signals| == first + commands + (if s.server.Gone? then 1 else 0)
    && (s.announced ==> signals[0] == Signal(true, Announcement))
    && (forall i | 0 <= i < commands :: signals[first + i] == Signal(true, ForCommand(i)))
    && (s.server.Gone? ==> signals[|signals| - 1].cause == TheEnd)
    && (s.server.Gone? && !s.announced ==> !signals[0].ok)
    && (s.server.Gone? && s.service.end.ServerThrew? ==> !signals[|signals| - 1].ok)
  }

  /** The commands sent are those taken in and those on the pipe, behind which
      there may be the stop signal once the loop is over. */
  ghost predicate CommandsInOrder(s: State) {
    && |s.service.history| <= |s.asked|
    && s.asked[..|s.service.history|] == s.service.history
    && |s.toServer| == |s.asked| - |s.service.history| + (if s.user.Stopping? || s.user.Destroyed? then 1 else 0)
    && (forall i | |s.service.history| <= i < |s.asked| :: s.toServer[i - |s.service.history|] == Ask(s.asked[i]))
  }

  ghost predicate ServerAgrees(s: State) {
    && s.service.oks == |s.service.history|
    && (s.announced ==> !s.server.Binding? && !s.server.BindFailed?)
    && (s.server.Looping? ==> s.announced)
    && (!s.announced ==> s.service.history == [] && s.service.end.StillServing?)
    && (s.announced && s.server.Gone? ==> !s.service.end.StillServing?)
    && (Terminate in s.service.history ==> !s.service.end.StillServing?)
  }

  ghost predicate UserAgrees(s: State) {
    match s.user
    case Constructing => |s.heard| == 0 && s.asked == []
    case ConstructorThrew => |s.heard| == 1 && s.asked == [] && !s.announced
    case Idle => |s.heard| == |s.asked| + 1 && s.announced && Terminate !in s.asked
    case Waiting(destroying) =>
      && |s.heard| == |s.asked| && s.announced && s.asked != []
      && (destroying <==> s.asked[|s.asked| - 1].Terminate?) && Terminate !in s.asked[..|s.asked| - 1]
    case Stopping => |s.heard| == |s.asked| + 1 && s.announced && !s.service.end.StillServing?
    case Destroyed => |s.heard| == |s.asked| + 2 && s.announced && !s.service.end.StillServing?
  }

  ghost predicate Inv(s: State) {
    SentInOrder(s, s.heard + s.toUser) && CommandsInOrder(s) && ServerAgrees(s) && UserAgrees(s)
  }

  lemma BindKeepsInv(s: State, bound: bool)
    requires Inv(s) && Enabled(s, Bind(bound))
    ensures Inv(Next(s, Bind(bound)))
  {
    assert s.heard + s.toUser == [];
  }

  lemma EndKeepsInv(s: State, unbound: bool)
    requires Inv(s) && Enabled(s, End(unbound))
    ensures Inv(Next(s, End(unbound)))
  {
    var t := Next(s, End(unbound));
    assert t.heard + t.toUser == (s.heard + s.toUser) + [t.toUser[|s.toUser|]];
  }

  lemma SendKeepsInv(s: State, a: Action)
    requires Inv(s) && Enabled(s, a) && (a.Send? || a.Destroy?)
    ensures Inv(Next(s, a))
  {
    var t := Next(s, a);
    assert t.asked[..|s.asked|] == s.asked;
    assert t.asked[..|s.service.history|] == s.asked[..|s.service.history|];
  }

  lemma HearKeepsInv(s: State)
    requires Inv(s) && Enabled(s, Hear)
    ensures Inv(Next(s, Hear))
  {
    var t := Next(s, Hear);
    assert t.heard + t.toUser == s.heard + s.toUser;
    assert (s.heard + s.toUser)[|s.heard|] == s.toUser[0];
    if s.user.Waiting? {
      SignalOfLast(s);
    }
  }

  /** The signal that a command's sender takes is its own ok or the one of the
      end; the ok of TERMINATE comes when the loop is over. */
  lemma SignalOfLast(s: State)
    requires Inv(s) && s.user.Waiting? && s.toUser != []
    ensures var i := |s.asked| - 1;
            if i < |s.service.history| then s.toUser[0] == Signal(true, ForCommand(i)) && s.service.history[i] == s.asked[i]
            else s.toUser[0].cause == TheEnd && i == |s.service.history| && !s.service.end.StillServing?
    ensures s.user.destroying ==> !s.service.end.StillServing?
  {
    var i := |s.asked| - 1;
    assert (s.heard + s.toUser)[|s.heard|] == s.toUser[0];
    assert |s.heard| == 1 + i;
    if i < |s.service.history| {
      assert s.asked[..|s.service.history|][i] == s.service.history[i];
    }
  }

  lemma TurnTakesAtMostOne(s: State, request: Option<Incoming>, readable: bool)
    requires Inv(s) && Enabled(s, Round(request, readable))
    ensures var n, t := |s.service.history|, Turned(s, request, readable);
            && (readable ==> n < |s.asked| && s.toServer[0] == Ask(s.asked[n]))
            && (if readable && ServeRequest(s.service, request).end.StillServing? then
                  && t.service.history == s.service.history + [s.asked[n]] && t.service.oks == s.service.oks + 1
                  && (t.service.end.StillServing? <==> !s.asked[n].Terminate?)
                else t.service.history == s.service.history && t.service.oks == s.service.oks)
  {
    if readable {
      assert !s.user.Stopping? && !s.user.Destroyed?;
      CommandsAreUnderstood(MessageIn(s.toServer[0]), s.asked[|s.service.history|]);
    }
  }

  lemma TurnKeepsInv(s: State, request: Option<Incoming>, readable: bool)
    requires Inv(s) && Enabled(s, Round(request, readable))
    ensures Inv(Next(s, Round(request, readable)))
  {
    TurnTakesAtMostOne(s, request, readable);
    if readable && ServeRequest(s.service, request).end.StillServing? {
      TakenKeepsInv(s, Turned(s, request, readable));
    }
  }

  /** The next command has been taken in and acknowledged. */
  lemma TakenKeepsInv(s: State, t: State)
    requires Inv(s) && s.server.Looping? && s.service.end.StillServing?
    requires |s.service.history| < |s.asked| && s.toServer != []
    requires var n, next := |s.service.history|, t.service;
             && t == s.(service := next, toServer := s.toServer[1..],
                        toUser := s.toUser + [Signal(true, ForCommand(n))])
             && next.history == s.service.history + [s.asked[n]] && next.oks == s.service.oks + 1
             && (next.end.StillServing? <==> !s.asked[n].Terminate?)
    ensures Inv(t)
  {
    var n := |s.service.history|;
    assert t.heard + t.toUser == (s.heard + s.toUser) + [Signal(true, ForCommand(n))];
    assert s.asked[..n + 1] == s.asked[..n] + [s.asked[n]];
  }

  lemma StepKeepsInv(s: State, a: Action)
    requires Inv(s) && Enabled(s, a)
    ensures Inv(Next(s, a))
  {
    match a
    case Bind(bound) => BindKeepsInv(s, bound);
    case Interrupt =>
    case FailPoll =>
    case Round(request, readable) => TurnKeepsInv(s, request, readable);
    case End(unbound) => EndKeepsInv(s, unbound);
    case Hear => HearKeepsInv(s);
    case _ => SendKeepsInv(s, a);
  }

  /** Every interleaving of the user and the server keeps the invariant. */
  lemma {:induction false} ReachableInv(actions: seq<Action>, s: State)
    requires After(actions) == Some(s)
    ensures Inv(s)
    decreases |actions|
  {
    if actions != [] {
      var r := After(actions[..|actions| - 1]).value;
      ReachableInv(actions[..|actions| - 1], r);
      StepKeepsInv(r, actions[|actions| - 1]);
    }
  }

  // ---- Whose signal a sender takes ----

  /** The i-th command's sender has taken a signal. */
  predicate Answered(s: State, i: nat) {
    i < |s.asked| && i + 1 < |s.heard|
  }

  /** The signal that the i-th command's sender has taken is the ok of its own
      command exactly when that command was taken in; and it was not exactly
      when the server's loop was over before, which happens to one command at
      most, and then the signal is the one of the server's end: a ko if the loop
      was left by an exception, as it is by a poll that fails. */
  lemma SignalIsOwnIff(actions: seq<Action>, s: State, i: nat)
    requires After(actions) == Some(s) && Answered(s, i)
    ensures s.heard[i + 1] == Signal(true, ForCommand(i)) <==> i < |s.service.history|
    ensures i < |s.service.history| ==> s.service.history[i] == s.asked[i]
    ensures i >= |s.service.history| ==>
              && s.heard[i + 1].cause == TheEnd && s.server.Gone?
              && !s.service.end.StillServing? && i == |s.service.history|
              && (s.service.end.ServerThrew? ==> !s.heard[i + 1].ok)
  {
    ReachableInv(actions, s);
    SignalAt(s, s.heard + s.toUser, i);
    if i < |s.service.history| {
      assert s.asked[..|s.service.history|][i] == s.service.history[i];
    }
  }

  lemma SignalAt(s: State, signals: seq<Signal>, i: nat)
    requires SentInOrder(s, signals) && s.announced && i + 1 < |signals|
    ensures if i < |s.service.history| then signals[i + 1] == Signal(true, ForCommand(i))
            else
              && signals[i + 1].cause == TheEnd && s.server.Gone? && i == |s.service.history|
              && (s.service.end.ServerThrew? ==> !signals[i + 1].ok)
  {
  }

  /** As long as the server serves, the n-th wait takes the ok of the n-th
      command, which has been taken in. */
  lemma NthWaitNthCommand(actions: seq<Action>, s: State, i: nat)
    requires After(actions) == Some(s) && Answered(s, i) && s.service.end.StillServing?
    ensures s.heard[i + 1] == Signal(true, ForCommand(i))
    ensures i < |s.service.history| && s.service.history[i] == s.asked[i]
  {
    SignalIsOwnIff(actions, s, i);
  }

  /** A command that has been taken in has its ok waiting for its sender. */
  lemma OkIsWaiting(actions: seq<Action>, s: State)
    requires After(actions) == Some(s) && s.user.Waiting? && |s.service.history| == |s.asked|
    ensures s.asked != [] && Enabled(s, Hear) && s.toUser[0] == Signal(true, ForCommand(|s.asked| - 1))
  {
    ReachableInv(actions, s);
    assert |s.heard + s.toUser| > |s.heard|;
    SignalOfLast(s);
  }

  /** Behind the signal of the end there is none: whoever waits then waits for
      ever, since this holds in all later states too. */
  lemma NothingBehindTheEnd(actions: seq<Action>, s: State, i: nat)
    requires After(actions) == Some(s) && i < |s.heard| && s.heard[i].cause == TheEnd
    ensures s.toUser == [] && !Enabled(s, Hear)
    ensures forall a | Enabled(s, a) :: Next(s, a).heard == s.heard
  {
    ReachableInv(actions, s);
    assert (s.heard + s.toUser)[i] == s.heard[i];
    TheEndIsLast(s, s.heard + s.toUser, i);
  }

  lemma TheEndIsLast(s: State, signals: seq<Signal>, i: nat)
    requires SentInOrder(s, signals) && ServerAgrees(s) && i < |signals| && signals[i].cause == TheEnd
    ensures s.server.Gone? && i == |signals| - 1
  {
    if s.announced && i > 0 {
      SignalAt(s, signals, i - 1);
    }
  }

  /** The destructor returns only if every command, TERMINATE included, was taken
      in and acknowledged to its sender; the actor's stop has then taken the
      signal of the end. */
  lemma DestroyedInOrder(actions: seq<Action>, s: State)
    requires After(actions) == Some(s) && s.user.Destroyed?
    ensures s.service.history == s.asked && |s.heard| == |s.asked| + 2
    ensures forall i | 0 <= i < |s.asked| :: s.heard[i + 1] == Signal(true, ForCommand(i))
    ensures s.heard[|s.asked| + 1].cause == TheEnd
  {
    ReachableInv(actions, s);
    assert s.asked[..|s.asked|] == s.asked;
    assert forall i | 0 <= i < |s.heard| :: (s.heard + s.toUser)[i] == s.heard[i];
  }

  /** It happens: the poll is interrupted after a command was sent. Its sender
      takes the ok of the end for its own, although the command was never taken
      in. */
  lemma InterruptedPollMisleads(command: Command) returns (actions: seq<Action>, s: State)
    requires !command.Terminate?
    ensures After(actions) == Some(s) && s.user.Idle?
    ensures s.asked == [command] && s.service.history == [] && |s.heard| == 2 && s.heard[1] == Signal(true, TheEnd)
  {
    var a := [Bind(true), Hear, Send(command), Interrupt, End(true), Hear];
    var s0 := INITIAL;
    assert After(a[..0]) == Some(s0);
    var s1 := OneMore(a, 0, s0);
    var s2 := OneMore(a, 1, s1);
    var s3 := OneMore(a, 2, s2);
    var s4 := OneMore(a, 3, s3);
    var s5 := OneMore(a, 4, s4);
    s := OneMore(a, 5, s5);
    actions := a;
    assert a[..6] == a;
  }

  lemma OneMore(actions: seq<Action>, n: nat, s: State) returns (t: State)
    requires n < |actions| && After(actions[..n]) == Some(s) && Enabled(s, actions[n])
    ensures t == Next(s, actions[n]) && After(actions[..n + 1]) == Some(t)
  {
    assert actions[..n + 1][..n] == actions[..n];
    t := Next(s, actions[n]);
  }
}

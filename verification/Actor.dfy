/**
 * An actor: a parent and a child thread with a pair of pipes between them. The
 * child announces itself with one signal and takes its leave with another; the
 * parent's constructor waits for the first, a blocking stop() for the second.
 * The two threads take steps in any order; each action below is one step.
 */
module ActorProtocol {
  import opened Wrappers

  datatype Signal = Ok | Ko | Stop

  /** A message on a pipe: a signal, or something that is not one. */
  datatype Mail = Sig(code: Signal) | Plain(text: string)

  /** What the routine did: it has not ended, it returned a value, or it threw. */
  datatype Ending = Running | ReturnedWith(result: bool) | ThrewException

  /** Where the child thread is in start_routine. */
  datatype Child = InRoutine | Ended | HasLock | HasStored | HasSentKo | HasSentFinal | Gone

  /** Where the parent thread is: in the constructor, out of it (by return or
      by exception), in a blocking stop(), or past the destructor. */
  datatype Parent = Constructing | GotKo | Checking | ConstructorThrew(nested: bool) | Idle | Stopping(destroying: bool) | Destroyed

  datatype Holder = Nobody | ChildThread | ParentThread

  datatype State = State(
    child: Child,
    parent: Parent,
    toParent: seq<Mail>,
    toChild: seq<Mail>,
    mutex: Holder,
    exceptionStored: bool,
    stopped: bool,
    retval: bool,
    // What has happened so far.
    announced: bool,
    ending: Ending,
    sent: seq<Signal>,
    heard: seq<Signal>,
    answers: seq<bool>,
    childRead: seq<Mail>,
    parentRead: seq<Mail>)

  const INITIAL: State :=
    State(InRoutine, Constructing, [], [], Nobody, false, false, false, false, Running, [], [], [], [], [])

  /** The routine may announce itself once, send and read other messages, and
      end; it returns true only after it has announced itself. The parent's
      user may send and read messages that are no signals, and stop the actor
      or destroy it. */
  datatype Action =
    | Announce | ChildSays(text: string) | ChildReads
    | ReturnFrom(result: bool) | Throw
    | LockMutex | StoreException | SendKo | UnlockMutex | SendFinal | ClosePipe
    | TakeMail
    | LockForCheck | Check
    | ParentSays(text: string) | ParentReads
    | StopWithoutWaiting | StopAndWait | Destroy

  predicate Waits(p: Parent) {
    p.Constructing? || p.Stopping?
  }

  predicate Enabled(s: State, a: Action) {
    match a
    case Announce => s.child.InRoutine? && !s.announced
    case ChildSays(_) => s.child.InRoutine?
    case ChildReads => s.child.InRoutine? && s.toChild != []
    case ReturnFrom(result) => s.child.InRoutine? && (result ==> s.announced)
    case Throw => s.child.InRoutine?
    case LockMutex => s.child.Ended? && s.ending.ThrewException? && s.mutex.Nobody?
    case StoreException => s.child.HasLock?
    case SendKo => s.child.HasStored?
    case UnlockMutex => s.child.HasSentKo?
    case SendFinal => s.child.Ended? && s.ending.ReturnedWith?
    case ClosePipe => s.child.HasSentFinal?
    case TakeMail => Waits(s.parent) && s.toParent != []
    case LockForCheck => s.parent.GotKo? && s.mutex.Nobody?
    case Check => s.parent.Checking?
    case ParentSays(_) => s.parent.Idle?
    case ParentReads => s.parent.Idle? && s.toParent != [] && s.toParent[0].Plain?
    case StopWithoutWaiting => s.parent.Idle?
    case StopAndWait => s.parent.Idle?
    case Destroy => s.parent.Idle?
  }

  /** A signal reaches the parent that waits: the constructor goes on, or
      stop() has its answer. */
  function Heard(s: State, code: Signal): State {
    var t := s.(heard := s.heard + [code]);
    if s.parent.Constructing? then t.(parent := if code == Ko then GotKo else Idle)
    else if s.parent.Stopping? then
      t.(stopped := true, retval := code == Ok, answers := s.answers + [code == Ok],
         parent := if s.parent.destroying then Destroyed else Idle)
    else t
  }

  /** stop(true): sends the signal, and waits unless the answer is known. */
  function Stopped(s: State, destroying: bool): State {
    var t := s.(toChild := s.toChild + [Sig(Stop)]);
    if s.stopped then
      t.(answers := s.answers + [s.retval], parent := if destroying then Destroyed else Idle)
    else t.(parent := Stopping(destroying))
  }

  function ChildSends(s: State, code: Signal): State {
    s.(toParent := s.toParent + [Sig(code)], sent := s.sent + [code])
  }

  function Next(s: State, a: Action): State
    requires Enabled(s, a)
  {
    match a
    case Announce => ChildSends(s, Ok).(announced := true)
    case ChildSays(text) => s.(toParent := s.toParent + [Plain(text)])
    case ChildReads => s.(toChild := s.toChild[1..], childRead := s.childRead + [s.toChild[0]])
    case ReturnFrom(result) => s.(child := Ended, ending := ReturnedWith(result))
    case Throw => s.(child := Ended, ending := ThrewException)
    case LockMutex => s.(child := HasLock, mutex := ChildThread)
    case StoreException => s.(child := HasStored, exceptionStored := true)
    case SendKo => ChildSends(s, Ko).(child := HasSentKo)
    case UnlockMutex => s.(child := HasSentFinal, mutex := Nobody)
    case SendFinal => ChildSends(s, if s.ending.result then Ok else Ko).(child := HasSentFinal)
    case ClosePipe => s.(child := Gone)
    case TakeMail =>
      var t := s.(toParent := s.toParent[1..], parentRead := s.parentRead + [s.toParent[0]]);
      if s.toParent[0].Sig? then Heard(t, s.toParent[0].code) else t
    case LockForCheck => s.(parent := Checking, mutex := ParentThread)
    case Check => s.(parent := ConstructorThrew(s.exceptionStored), mutex := Nobody)
    case ParentSays(text) => s.(toChild := s.toChild + [Plain(text)])
    case ParentReads => s.(toParent := s.toParent[1..], parentRead := s.parentRead + [s.toParent[0]])
    case StopWithoutWaiting => s.(toChild := s.toChild + [Sig(Stop)])
    case StopAndWait => Stopped(s, false)
    case Destroy => Stopped(s, true)
  }

  /** The state that a sequence of actions leads to, if each is enabled in its
      turn. */
  function After(actions: seq<Action>): Option<State>
    decreases |actions|
  {
    if actions == [] then Some(INITIAL)
    else
      var last := actions[|actions| - 1];
      match After(actions[..|actions| - 1])
      case Some(r) => if Enabled(r, last) then Some(Next(r, last)) else None
      case None => None
  }

  // ---- The invariant ----

  function SignalsIn(mail: seq<Mail>): seq<Signal> {
    if mail == [] then []
    else (if mail[0].Sig? then [mail[0].code] else []) + SignalsIn(mail[1..])
  }

  predicate FinalSent(c: Child) {
    c.HasSentKo? || c.HasSentFinal? || c.Gone?
  }

  /** The signal that says how the routine ended. */
  function Final(e: Ending): Signal {
    if e == ReturnedWith(true) then Ok else Ko
  }

  /** All the signals the child has sent so far. */
  function SignalsSent(s: State): seq<Signal> {
    (if s.announced then [Ok] else []) + (if FinalSent(s.child) then [Final(s.ending)] else [])
  }

  predicate ChildAgrees(s: State) {
    && (s.child.InRoutine? <==> s.ending.Running?)
    && (s.child.HasLock? || s.child.HasStored? || s.child.HasSentKo? ==> s.ending.ThrewException?)
    && (s.ending == ReturnedWith(true) ==> s.announced)
    && (s.exceptionStored ==> s.ending.ThrewException?)
    && (s.ending.ThrewException? && (s.child.HasStored? || FinalSent(s.child)) ==> s.exceptionStored)
    && (s.mutex.ChildThread? <==> s.child.HasLock? || s.child.HasStored? || s.child.HasSentKo?)
    && (s.mutex.ParentThread? <==> s.parent.Checking?)
  }

  predicate HeardBoth(s: State) {
    |s.heard| == 2 && s.heard[0] == Ok && s.retval == (s.heard[1] == Ok)
  }

  predicate ParentAgrees(s: State) {
    && (s.answers != [] ==> s.stopped)
    && match s.parent
       case Constructing => s.heard == [] && !s.stopped
       case GotKo => s.heard == [Ko] && !s.stopped
       case Checking => s.heard == [Ko] && !s.stopped
       case ConstructorThrew(nested) => s.heard == [Ko] && !s.stopped && (nested <==> s.ending.ThrewException?)
       case Idle => if s.stopped then HeardBoth(s) else s.heard == [Ok]
       case Stopping(_) => s.heard == [Ok] && !s.stopped
       case Destroyed => s.stopped && HeardBoth(s)
  }

  ghost predicate Inv(s: State) {
    && s.sent == s.heard + SignalsIn(s.toParent)
    && s.sent == SignalsSent(s)
    && ChildAgrees(s) && ParentAgrees(s)
    && (forall i | 0 <= i < |s.answers| :: s.answers[i] == s.retval)
  }

  lemma {:induction false} SignalsAppended(mail: seq<Mail>, m: Mail)
    ensures SignalsIn(mail + [m]) == SignalsIn(mail) + if m.Sig? then [m.code] else []
  {
    if mail == [] {
      assert (mail + [m])[1..] == [];
    } else {
      assert (mail + [m])[0] == mail[0] && (mail + [m])[1..] == mail[1..] + [m];
      SignalsAppended(mail[1..], m);
    }
  }

  lemma ChildSaysKeepsInv(s: State, text: string)
    requires Inv(s) && Enabled(s, ChildSays(text))
    ensures Inv(Next(s, ChildSays(text)))
  {
    SignalsAppended(s.toParent, Plain(text));
    assert SignalsIn(s.toParent) + [] == SignalsIn(s.toParent);
  }

  lemma SentIsOnItsWay(s: State, code: Signal)
    requires s.sent == s.heard + SignalsIn(s.toParent)
    ensures var t := ChildSends(s, code);
            t.sent == t.heard + SignalsIn(t.toParent)
  {
    SignalsAppended(s.toParent, Sig(code));
    assert s.heard + SignalsIn(s.toParent) + [code] == s.heard + (SignalsIn(s.toParent) + [code]);
  }

  lemma ChildSignalKeepsInv(s: State, a: Action)
    requires Inv(s) && Enabled(s, a) && (a.Announce? || a.SendKo? || a.SendFinal?)
    ensures Inv(Next(s, a))
  {
    SentIsOnItsWay(s, if a.Announce? then Ok else if a.SendKo? then Ko else Final(s.ending));
  }

  /** The signals sent are ok and a final one, or a final ko alone. */
  lemma SentShape(s: State)
    requires Inv(s)
    ensures s.sent == [] || s.sent == [Ko] || s.sent == [Ok] || s.sent == [Ok, Ok] || s.sent == [Ok, Ko]
    ensures s.sent == [Ko] ==> FinalSent(s.child)
  {
    if s.announced {
      assert s.sent[0] == Ok;
    }
  }

  lemma SignalTaken(s: State)
    requires Inv(s) && Waits(s.parent) && s.toParent != [] && s.toParent[0].Sig?
    ensures var code := s.toParent[0].code;
            && s.sent == s.heard + [code] + SignalsIn(s.toParent[1..])
            && (s.parent.Constructing? ==> s.heard + [code] == [Ok] || s.heard + [code] == [Ko])
            && (s.parent.Stopping? ==> s.heard + [code] == [Ok, Ok] || s.heard + [code] == [Ok, Ko])
  {
    var code := s.toParent[0].code;
    SentShape(s);
    assert s.heard + [code] + SignalsIn(s.toParent[1..]) == s.sent;
    assert s.sent[|s.heard|] == code;
  }

  lemma TakeMailKeepsInv(s: State)
    requires Inv(s) && Enabled(s, TakeMail)
    ensures Inv(Next(s, TakeMail))
  {
    if s.toParent[0].Sig? {
      SignalTaken(s);
    } else {
      assert [] + SignalsIn(s.toParent[1..]) == SignalsIn(s.toParent[1..]);
    }
  }

  lemma CheckKeepsInv(s: State)
    requires Inv(s) && s.parent.Checking?
    ensures Inv(Next(s, Check))
  {
    SentShape(s);
    assert s.sent[0] == Ko;
  }

  lemma EndingKeepsInv(s: State, a: Action)
    requires Inv(s) && Enabled(s, a) && (a.ReturnFrom? || a.Throw?)
    ensures Inv(Next(s, a))
  {
    SentShape(s);
    assert s.heard != [] ==> s.sent[0] == s.heard[0];
  }

  /** The child's steps that neither send nor end the routine. */
  lemma SilentChildKeepsInv(s: State, a: Action)
    requires Inv(s) && Enabled(s, a)
    requires a.ChildReads? || a.LockMutex? || a.StoreException? || a.UnlockMutex? || a.ClosePipe?
    ensures Inv(Next(s, a))
  {
  }

  /** The parent's steps that leave it where it is, and its taking the lock. */
  lemma ParentKeepsInv(s: State, a: Action)
    requires Inv(s) && Enabled(s, a)
    requires a.LockForCheck? || a.ParentSays? || a.ParentReads? || a.StopWithoutWaiting?
    ensures Inv(Next(s, a))
  {
    if a.ParentReads? {
      assert [] + SignalsIn(s.toParent[1..]) == SignalsIn(s.toParent[1..]);
    }
  }

  lemma StopAnswersKeepsInv(s: State, destroying: bool)
    requires Inv(s) && s.parent.Idle? && s.stopped
    ensures Inv(Stopped(s, destroying))
  {
  }

  lemma StopWaitsKeepsInv(s: State, destroying: bool)
    requires Inv(s) && s.parent.Idle? && !s.stopped
    ensures Inv(Stopped(s, destroying))
  {
  }

  lemma StoppedKeepsInv(s: State, a: Action)
    requires Inv(s) && Enabled(s, a) && (a.StopAndWait? || a.Destroy?)
    ensures Inv(Next(s, a))
  {
    if s.stopped {
      StopAnswersKeepsInv(s, a.Destroy?);
    } else {
      StopWaitsKeepsInv(s, a.Destroy?);
    }
  }

  lemma StepKeepsInv(s: State, a: Action)
    requires Inv(s) && Enabled(s, a)
    ensures Inv(Next(s, a))
  {
    match a
    case Announce => ChildSignalKeepsInv(s, a);
    case ChildSays(text) => ChildSaysKeepsInv(s, text);
    case SendKo => ChildSignalKeepsInv(s, a);
    case SendFinal => ChildSignalKeepsInv(s, a);
    case TakeMail => TakeMailKeepsInv(s);
    case Check => CheckKeepsInv(s);
    case ReturnFrom(_) => EndingKeepsInv(s, a);
    case Throw => EndingKeepsInv(s, a);
    case LockForCheck => ParentKeepsInv(s, a);
    case ParentSays(_) => ParentKeepsInv(s, a);
    case ParentReads => ParentKeepsInv(s, a);
    case StopWithoutWaiting => ParentKeepsInv(s, a);
    case StopAndWait => StoppedKeepsInv(s, a);
    case Destroy => StoppedKeepsInv(s, a);
    case _ => SilentChildKeepsInv(s, a);
  }

  /** Every interleaving of the two threads keeps the invariant. */
  lemma {:induction false} ReachableInv(actions: seq<Action>, s: State)
    requires After(actions) == Some(s)
    ensures Inv(s)
    decreases |actions|
  {
    if actions != [] {
      var r := After(actions[..|actions| - 1]).value;
      ReachableInv(actions[..|actions| - 1], r);
      StepKeepsInv(r, actions[|actions| - 1]);
    }
  }

  // ---- What follows for every reachable state ----

  /** The child's signals are a prefix of ok and a final one, or of ko alone;
      ok comes first exactly when the routine has announced itself, and the
      final signal is ok exactly when the routine returned true. */
  lemma SignalsAreWellFormed(actions: seq<Action>, s: State)
    requires After(actions) == Some(s)
    ensures s.sent <= [Ko] || (exists final: Signal :: s.sent <= [Ok, final] && final != Stop)
    ensures |s.sent| >= 1 ==> (s.sent[0] == Ok <==> s.announced)
    ensures |s.sent| == 2 ==> (s.sent[1] == Ok <==> s.ending == ReturnedWith(true))
    ensures s.heard <= s.sent
  {
    ReachableInv(actions, s);
    if s.announced {
      assert s.sent <= [Ok, Final(s.ending)];
    }
  }

  /** The constructor returns exactly when the first signal is ok; it throws
      exactly when it is ko, and then with the routine's exception nested
      exactly when the routine threw. */
  lemma ConstructionFollowsFirstSignal(actions: seq<Action>, s: State)
    requires After(actions) == Some(s) && !s.parent.Constructing?
    ensures |s.sent| >= 1
    ensures s.parent.Idle? || s.parent.Stopping? || s.parent.Destroyed? <==> s.sent[0] == Ok
    ensures s.parent.ConstructorThrew? ==> s.sent == [Ko] && (s.parent.nested <==> s.ending.ThrewException?)
  {
    ReachableInv(actions, s);
    assert s.heard[0] == s.sent[0];
    if !s.announced {
      assert s.sent == [Final(s.ending)];
    }
  }

  /** If the routine threw, its exception is stored before ko can be seen. */
  lemma ExceptionBeforeKo(actions: seq<Action>, s: State)
    requires After(actions) == Some(s) && s.ending.ThrewException?
    requires Sig(Ko) in s.toParent || Ko in s.heard
    ensures s.exceptionStored
  {
    ReachableInv(actions, s);
    if Sig(Ko) in s.toParent {
      var i :| 0 <= i < |s.toParent| && s.toParent[i] == Sig(Ko);
      SignalAmong(s.toParent, i);
    }
    assert Ko in s.sent;
    assert FinalSent(s.child);
  }

  lemma {:induction false} SignalAmong(mail: seq<Mail>, i: nat)
    requires i < |mail| && mail[i].Sig?
    ensures mail[i].code in SignalsIn(mail)
  {
    if i > 0 {
      SignalAmong(mail[1..], i - 1);
    }
  }

  /** Every answer of a blocking stop(), the first and all later ones, says
      whether the routine returned true. */
  lemma StopTellsTheResult(actions: seq<Action>, s: State, i: nat)
    requires After(actions) == Some(s) && i < |s.answers|
    ensures !s.ending.Running?
    ensures s.answers[i] <==> s.ending == ReturnedWith(true)
  {
    ReachableInv(actions, s);
    assert s.heard == s.sent[..|s.heard|];
    assert |s.sent| == 2 && s.sent[1] == s.heard[1];
  }

  lemma WaitingHasMore(s: State)
    requires Inv(s) && Waits(s.parent) && FinalSent(s.child)
    ensures SignalsIn(s.toParent) != [] && s.toParent != []
  {
    if s.parent.Stopping? {
      assert s.sent[0] == Ok;
      assert s.announced;
    }
  }

  /** While the parent waits, some thread can go on: the child unless it is
      gone, and then the parent, for whom a signal is waiting. */
  lemma WaitIsNeverStuck(actions: seq<Action>, s: State)
    requires After(actions) == Some(s) && Waits(s.parent)
    ensures FinalSent(s.child) ==> SignalsIn(s.toParent) != [] && Enabled(s, TakeMail)
    ensures exists a: Action :: Enabled(s, a) && !a.ChildSays? && !a.ChildReads?
  {
    ReachableInv(actions, s);
    if FinalSent(s.child) {
      WaitingHasMore(s);
    }
    match s.child
    case InRoutine => assert Enabled(s, Throw);
    case Ended =>
      if s.ending.ThrewException? {
        assert Enabled(s, LockMutex);
      } else {
        assert Enabled(s, SendFinal);
      }
    case HasLock => assert Enabled(s, StoreException);
    case HasStored => assert Enabled(s, SendKo);
    case _ => assert Enabled(s, TakeMail);
  }

  /** Taking mail `n` times in a row. */
  function Take(s: State, n: nat): State
    decreases n
  {
    if n == 0 || !Enabled(s, TakeMail) then s else Take(Next(s, TakeMail), n - 1)
  }

  lemma {:induction false} TakesUpToSignal(s: State)
    requires Waits(s.parent) && SignalsIn(s.toParent) != []
    ensures exists n: nat :: n <= |s.toParent| && !Waits(Take(s, n).parent)
    decreases |s.toParent|
  {
    var t := Next(s, TakeMail);
    if s.toParent[0].Sig? {
      assert Take(s, 1) == Take(t, 0) == t;
    } else {
      TakesUpToSignal(t);
      var n: nat :| n <= |t.toParent| && !Waits(Take(t, n).parent);
      assert Take(s, n + 1) == Take(t, n);
    }
  }

  /** Once the routine has taken its leave the parent gets out of wait() by its
      own steps, as many as there are messages at most. */
  lemma WaitEnds(actions: seq<Action>, s: State)
    requires After(actions) == Some(s) && Waits(s.parent) && FinalSent(s.child)
    ensures exists n: nat :: n <= |s.toParent| && !Waits(Take(s, n).parent)
  {
    WaitIsNeverStuck(actions, s);
    TakesUpToSignal(s);
  }

  /** A constructor that got ko gets the mutex in the end: nobody holds it, or
      the child does and can go on to release it. */
  lemma CheckIsNeverStuck(actions: seq<Action>, s: State)
    requires After(actions) == Some(s) && (s.parent.GotKo? || s.parent.Checking?)
    ensures FinalSent(s.child)
    ensures Enabled(s, LockForCheck) || Enabled(s, Check) || Enabled(s, UnlockMutex)
  {
    ReachableInv(actions, s);
    assert s.sent[0] == Ko;
  }

  // ---- What travels on the two pipes ----

  /** What an action puts on the child's pipe: what the parent's user says, and
      one stop signal for each stop() and for the destructor, whether it waits or
      not. */
  function ToChildBy(a: Action): seq<Mail> {
    match a
    case ParentSays(text) => [Plain(text)]
    case StopWithoutWaiting => [Sig(Stop)]
    case StopAndWait => [Sig(Stop)]
    case Destroy => [Sig(Stop)]
    case _ => []
  }

  /** What an action puts on the parent's pipe: what the routine says, the ok
      with which it announces itself, and the signal of its end. */
  function ToParentBy(a: Action, returnedTrue: bool): seq<Mail> {
    match a
    case ChildSays(text) => [Plain(text)]
    case Announce => [Sig(Ok)]
    case SendKo => [Sig(Ko)]
    case SendFinal => [Sig(if returnedTrue then Ok else Ko)]
    case _ => []
  }

  function MailToChild(actions: seq<Action>): seq<Mail> {
    if actions == [] then []
    else MailToChild(actions[..|actions| - 1]) + ToChildBy(actions[|actions| - 1])
  }

  function MailToParent(actions: seq<Action>): seq<Mail> {
    if actions == [] then []
    else
      var before := actions[..|actions| - 1];
      MailToParent(before) + ToParentBy(actions[|actions| - 1], ReturnFrom(true) in before)
  }

  lemma StepReturns(r: State, a: Action)
    requires Inv(r) && Enabled(r, a)
    ensures Next(r, a).ending == ReturnedWith(true) <==> r.ending == ReturnedWith(true) || a == ReturnFrom(true)
  {
  }

  lemma {:induction false} ReturnIsAmong(actions: seq<Action>, s: State)
    requires After(actions) == Some(s)
    ensures s.ending == ReturnedWith(true) <==> ReturnFrom(true) in actions
    decreases |actions|
  {
    if actions != [] {
      var before, last := actions[..|actions| - 1], actions[|actions| - 1];
      var r := After(before).value;
      ReturnIsAmong(before, r);
      ReachableInv(before, r);
      StepReturns(r, last);
      assert actions == before + [last];
    }
  }

  lemma ChildsPipeStep(r: State, a: Action)
    requires Enabled(r, a)
    ensures var s := Next(r, a);
            s.childRead + s.toChild == (r.childRead + r.toChild) + ToChildBy(a)
  {
    Appended(r.childRead, r.toChild, ToChildBy(a));
    if a.ChildReads? {
      MovedOver(r.childRead, r.toChild);
    }
  }

  lemma ParentsPipeStep(r: State, a: Action)
    requires Enabled(r, a)
    ensures var s := Next(r, a);
            s.parentRead + s.toParent == (r.parentRead + r.toParent) + ToParentBy(a, r.ending == ReturnedWith(true))
  {
    Appended(r.parentRead, r.toParent, ToParentBy(a, r.ending == ReturnedWith(true)));
    if a.TakeMail? || a.ParentReads? {
      MovedOver(r.parentRead, r.toParent);
    }
  }

  lemma Appended<T>(read: seq<T>, waiting: seq<T>, more: seq<T>)
    ensures read + (waiting + more) == (read + waiting) + more
    ensures more == [] ==> (read + waiting) + more == read + waiting
  {
  }

  lemma MovedOver<T>(read: seq<T>, waiting: seq<T>)
    requires waiting != []
    ensures (read + [waiting[0]]) + waiting[1..] == read + waiting
  {
  }

  /** In every interleaving each pipe delivers exactly what was put on it, first
      in, first out: what has been read and what is still on it are what the
      other side has sent, in order. */
  lemma {:induction false} PipesDeliver(actions: seq<Action>, s: State)
    requires After(actions) == Some(s)
    ensures s.childRead + s.toChild == MailToChild(actions)
    ensures s.parentRead + s.toParent == MailToParent(actions)
    decreases |actions|
  {
    if actions != [] {
      var before, last := actions[..|actions| - 1], actions[|actions| - 1];
      var r := After(before).value;
      PipesDeliver(before, r);
      ReturnIsAmong(before, r);
      ChildsPipeStep(r, last);
      ParentsPipeStep(r, last);
    }
  }

  predicate TellsToStop(a: Action) {
    a.StopWithoutWaiting? || a.StopAndWait? || a.Destroy?
  }

  /** How many times the parent has told the child to stop. */
  function StopsAmong(actions: seq<Action>): nat {
    if actions == [] then 0
    else StopsAmong(actions[..|actions| - 1]) + if TellsToStop(actions[|actions| - 1]) then 1 else 0
  }

  lemma {:induction false} StopsAreSent(actions: seq<Action>)
    ensures var signals := SignalsIn(MailToChild(actions));
            |signals| == StopsAmong(actions) && forall i | 0 <= i < |signals| :: signals[i] == Stop
  {
    if actions != [] {
      var before, last := MailToChild(actions[..|actions| - 1]), actions[|actions| - 1];
      StopsAreSent(actions[..|actions| - 1]);
      if last.ParentSays? || TellsToStop(last) {
        SignalsAppended(before, ToChildBy(last)[0]);
      } else {
        assert before + [] == before;
      }
    }
  }

  /** The parent waits in stop(), has its answer, or is destroyed. */
  predicate HasStopped(s: State) {
    s.parent.Stopping? || s.parent.Destroyed? || s.stopped
  }

  lemma StepStops(r: State, a: Action)
    requires Enabled(r, a)
    ensures HasStopped(Next(r, a)) ==> HasStopped(r) || TellsToStop(a)
  {
  }

  lemma {:induction false} StoppingHasTold(actions: seq<Action>, s: State)
    requires After(actions) == Some(s) && HasStopped(s)
    ensures StopsAmong(actions) > 0
    decreases |actions|
  {
    var before, last := actions[..|actions| - 1], actions[|actions| - 1];
    var r := After(before).value;
    StepStops(r, last);
    if HasStopped(r) {
      StoppingHasTold(before, r);
    }
  }

  lemma {:induction false} SignalOnPipe(mail: seq<Mail>)
    requires SignalsIn(mail) != [] && forall i | 0 <= i < |SignalsIn(mail)| :: SignalsIn(mail)[i] == Stop
    ensures Sig(Stop) in mail
  {
    if mail[0].Sig? {
      assert SignalsIn(mail)[0] == mail[0].code;
    } else {
      assert SignalsIn(mail) == SignalsIn(mail[1..]);
      SignalOnPipe(mail[1..]);
    }
  }

  /** The signals put on the child's pipe are all stop, one for each stop() and
      for the destructor; and where the parent waits in stop(), has its answer,
      or is destroyed, the child has a stop signal on its pipe or has read one. */
  lemma ChildIsTold(actions: seq<Action>, s: State)
    requires After(actions) == Some(s)
    ensures var signals := SignalsIn(s.childRead + s.toChild);
            |signals| == StopsAmong(actions) && forall i | 0 <= i < |signals| :: signals[i] == Stop
    ensures HasStopped(s) ==> Sig(Stop) in s.toChild || Sig(Stop) in s.childRead
  {
    PipesDeliver(actions, s);
    StopsAreSent(actions);
    if HasStopped(s) {
      StoppingHasTold(actions, s);
      SignalOnPipe(MailToChild(actions));
    }
  }
}

/**
 * Sockets: a message goes out as frames that say whether more follow, and
 * comes in by gathering frames up to one that says none do. What the calls of
 * libzmq do is given in advance; the frames are first in, first out.
 */
module Sockets {
  import opened Wrappers
  import opened Inet
  import opened Messages

  datatype Frame = Frame(data: seq<Byte>, more: bool)

  /** What zmq_msg_send or zmq_msg_recv does: it takes or delivers a frame, or
      fails with EAGAIN, with EINTR, or with another error. */
  datatype Outcome = Done | Again | Interrupted | Failed

  /** The outcome of the `i`-th call; where nothing is given, the call is done. */
  function At(outcomes: seq<Outcome>, i: nat): Outcome {
    if i < |outcomes| then outcomes[i] else Done
  }

  // ---- Sending ----

  /** The frames of the first `n` parts that are taken; of `total` parts, all
      but the last are followed by more. */
  function FramesTaken(parts: seq<seq<Byte>>, outcomes: seq<Outcome>, n: nat): seq<Frame>
    requires n <= |parts|
  {
    if n == 0 then []
    else
      FramesTaken(parts, outcomes, n - 1) +
      if At(outcomes, n - 1).Done? then [Frame(parts[n - 1], n - 1 < |parts| - 1)] else []
  }

  /** Sending ends at this part: the call fails for good, or the part is taken
      although it was marked as sent before, which fails an assertion. */
  predicate Ends(parts: seq<Part>, outcomes: seq<Outcome>, i: nat)
    requires i < |parts|
  {
    At(outcomes, i).Again? || At(outcomes, i).Failed? || (At(outcomes, i).Done? && parts[i].sent)
  }

  /** The part at which sending ends, or the number of parts. */
  function Stops(parts: seq<Part>, outcomes: seq<Outcome>, n: nat): (k: nat)
    requires n <= |parts|
    ensures n <= k <= |parts|
    ensures forall i | n <= i < k :: !Ends(parts, outcomes, i)
    ensures k < |parts| ==> Ends(parts, outcomes, k)
    decreases |parts| - n
  {
    if n == |parts| || Ends(parts, outcomes, n) then n else Stops(parts, outcomes, n + 1)
  }

  datatype SendResult = Sent | Refused | InvalidArgument | Threw | AssertionFailed

  function Marked(parts: seq<Part>, outcomes: seq<Outcome>, n: nat): (r: seq<Part>)
    requires n <= |parts|
    ensures |r| == |parts|
    ensures forall i | 0 <= i < |parts| :: r[i] == if i < n && At(outcomes, i).Done? then Part([], true) else parts[i]
  {
    seq(|parts|, i requires 0 <= i < |parts| => if i < n && At(outcomes, i).Done? then Part([], true) else parts[i])
  }

  lemma MarkedNext(parts: seq<Part>, outcomes: seq<Outcome>, i: nat)
    requires i < |parts|
    ensures At(outcomes, i).Done? ==> Marked(parts, outcomes, i)[i := Part([], true)] == Marked(parts, outcomes, i + 1)
    ensures !At(outcomes, i).Done? ==> Marked(parts, outcomes, i) == Marked(parts, outcomes, i + 1)
    ensures Marked(parts, outcomes, i)[i] == parts[i]
  {
  }

  /** What a send does: its result, the frames that go out, and the parts that
      the message is left with. */
  ghost predicate SendDoes(parts: seq<Part>, outcomes: seq<Outcome>, r: SendResult, frames: seq<Frame>, left: seq<Part>)
  {
    var k := Stops(parts, outcomes, 0);
    if |parts| == 0 then r == InvalidArgument && frames == [] && left == []
    else if At(outcomes, 0).Again? || At(outcomes, 0).Interrupted? then r == Refused && frames == [] && left == parts
    else if k == |parts| then r == Sent && frames == FramesTaken(Data(parts), outcomes, k) && left == []
    else
      var taken := if At(outcomes, k).Done? then k + 1 else k;
      && r == (if At(outcomes, k).Failed? then Threw else AssertionFailed)
      && frames == FramesTaken(Data(parts), outcomes, taken)
      && left == Marked(parts, outcomes, taken)
  }

  /** What a call that fails, or a part taken twice, makes of a send. */
  function VerdictOn(parts: seq<Part>, outcomes: seq<Outcome>, i: nat): Option<SendResult>
    requires i < |parts|
  {
    match At(outcomes, i)
    case Done => if parts[i].sent then Some(AssertionFailed) else None
    case Again => Some(if i == 0 then Refused else AssertionFailed)
    case Interrupted => if i == 0 then Some(Refused) else None
    case Failed => Some(Threw)
  }

  /** The result of a send is the verdict on the first part that has one, and true
      if none has; a message without parts is an invalid argument. */
  lemma ResultIs(parts: seq<Part>, outcomes: seq<Outcome>, r: SendResult, frames: seq<Frame>, left: seq<Part>)
    requires SendDoes(parts, outcomes, r, frames, left)
    ensures r.InvalidArgument? <==> parts == []
    ensures r.Sent? <==> parts != [] && forall i | 0 <= i < |parts| :: VerdictOn(parts, outcomes, i).None?
    ensures !r.Sent? && !r.InvalidArgument? <==>
            exists k: nat :: k < |parts| && VerdictOn(parts, outcomes, k) == Some(r) &&
              forall i | 0 <= i < k :: VerdictOn(parts, outcomes, i).None?
  {
    if parts != [] {
      var k := if At(outcomes, 0).Interrupted? then 0 else Stops(parts, outcomes, 0);
      assert forall i | 0 < i < |parts| :: Ends(parts, outcomes, i) <==> VerdictOn(parts, outcomes, i).Some?;
      assert forall i | 0 <= i < k :: VerdictOn(parts, outcomes, i).None?;
      if k < |parts| {
        assert VerdictOn(parts, outcomes, k) == Some(r);
      }
    }
  }

  /** Where the loop over the parts stands: the first `i` are dealt with. */
  ghost predicate Halfway(parts: seq<Part>, outcomes: seq<Outcome>, i: nat, frames: seq<Frame>, left: seq<Part>) {
    && i <= |parts| && (i > 0 ==> At(outcomes, 0).Done?)
    && Stops(parts, outcomes, 0) == Stops(parts, outcomes, i)
    && frames == FramesTaken(Data(parts), outcomes, i)
    && left == Marked(parts, outcomes, i)
  }

  lemma NextTaken(parts: seq<Part>, outcomes: seq<Outcome>, i: nat, frames: seq<Frame>, left: seq<Part>)
    requires Halfway(parts, outcomes, i, frames, left) && i < |parts| && At(outcomes, i).Done?
    ensures left[i] == parts[i]
    ensures var more, marked := frames + [Frame(left[i].data, i < |parts| - 1)], left[i := Part([], true)];
            if parts[i].sent then SendDoes(parts, outcomes, AssertionFailed, more, marked)
            else Halfway(parts, outcomes, i + 1, more, marked)
  {
    MarkedNext(parts, outcomes, i);
  }

  lemma NextSkipped(parts: seq<Part>, outcomes: seq<Outcome>, i: nat, frames: seq<Frame>, left: seq<Part>)
    requires Halfway(parts, outcomes, i, frames, left) && 0 < i < |parts| && At(outcomes, i).Interrupted?
    ensures Halfway(parts, outcomes, i + 1, frames, left)
  {
    MarkedNext(parts, outcomes, i);
  }

  lemma NextRefused(parts: seq<Part>, outcomes: seq<Outcome>, i: nat, frames: seq<Frame>, left: seq<Part>)
    requires Halfway(parts, outcomes, i, frames, left) && i < |parts|
    requires At(outcomes, i).Again? || (At(outcomes, i).Interrupted? && i == 0) || At(outcomes, i).Failed?
    ensures SendDoes(parts, outcomes,
                     if i == 0 && !At(outcomes, i).Failed? then Refused
                     else if At(outcomes, i).Again? then AssertionFailed else Threw,
                     frames, left)
  {
    if i == 0 {
      assert Marked(parts, outcomes, 0) == parts;
    }
  }

  lemma Regroup<T>(a: seq<T>, b: seq<T>, c: seq<T>)
    ensures a + b + c == a + (b + c)
  {
  }

  lemma NoMoreParts(parts: seq<Part>, outcomes: seq<Outcome>, frames: seq<Frame>, left: seq<Part>)
    requires Halfway(parts, outcomes, |parts|, frames, left) && parts != []
    ensures SendDoes(parts, outcomes, Sent, frames, []) && CallsMade(parts, outcomes) == |parts|
  {
  }

  predicate InterruptedBefore(outcomes: seq<Outcome>, n: nat): (before: bool)
    ensures before <==> exists i :: 0 <= i < n && At(outcomes, i).Interrupted?
  {
    n > 0 && (At(outcomes, n - 1).Interrupted? || InterruptedBefore(outcomes, n - 1))
  }

  /** Whether each call may wait: none does after an interruption, and none at
      all if the caller does not want to be blocked. */
  function Waits(dontBlock: bool, outcomes: seq<Outcome>, n: nat): (waits: seq<bool>)
    ensures |waits| == n
    ensures forall i | 0 <= i < n :: waits[i] <==> !dontBlock && forall j | 0 <= j < i :: !At(outcomes, j).Interrupted?
  {
    if n == 0 then [] else Waits(dontBlock, outcomes, n - 1) + [!dontBlock && !InterruptedBefore(outcomes, n - 1)]
  }

  // ---- Receiving ----

  /** The first complete message in a stream of frames, and what follows it. */
  function FirstMessage(frames: seq<Frame>): (r: Option<(seq<seq<Byte>>, seq<Frame>)>)
    ensures r.Some? ==> r.value.0 != [] && |r.value.1| < |frames|
  {
    if frames == [] then None
    else if !frames[0].more then Some(([frames[0].data], frames[1..]))
    else
      match FirstMessage(frames[1..])
      case None => None
      case Some((parts, rest)) => Some(([frames[0].data] + parts, rest))
  }

  /** All messages of a stream, one after the other. */
  function AllMessages(frames: seq<Frame>): seq<seq<seq<Byte>>>
    decreases |frames|
  {
    match FirstMessage(frames)
    case None => []
    case Some((parts, rest)) => [parts] + AllMessages(rest)
  }

  datatype ReceiveResult = Received | NotReceived | ReceiveThrew | ReceiveAssertionFailed | Blocked

  /** Frames taken one after the other after `n` parts have come in: until one
      is the last of its message, or until the call fails for good. */
  datatype Gathered = Gathered(result: ReceiveResult, parts: seq<seq<Byte>>, rest: seq<Frame>, left: seq<Outcome>)

  function Gather(frames: seq<Frame>, script: seq<Outcome>, dontBlock: bool, parts: seq<seq<Byte>>): Gathered
    decreases |script| + |frames|, |script|
  {
    var next := if script == [] then Done else script[0];
    var left := if script == [] then [] else script[1..];
    match next
    case Again =>
      if parts == [] then Gathered(NotReceived, parts, frames, left)
      else Gathered(ReceiveAssertionFailed, parts, frames, left)
    case Interrupted =>
      if parts == [] then Gathered(NotReceived, parts, frames, left)
      else Gather(frames, left, dontBlock, parts)
    case Failed => Gathered(ReceiveThrew, parts, frames, left)
    case Done =>
      if frames == [] then
        if !dontBlock then Gathered(Blocked, parts, frames, left)
        else if parts == [] then Gathered(NotReceived, parts, frames, left)
        else Gathered(ReceiveAssertionFailed, parts, frames, left)
      else if frames[0].more then Gather(frames[1..], left, dontBlock, parts + [frames[0].data])
      else Gathered(Received, parts + [frames[0].data], frames[1..], left)
  }

  /** Interruptions are the only trouble. */
  predicate OnlyInterrupted(script: seq<Outcome>) {
    forall i | 0 <= i < |script| :: script[i].Done? || script[i].Interrupted?
  }

  /** First parts may be refused, with EAGAIN or EINTR, but nothing fails. */
  predicate NeverFails(script: seq<Outcome>) {
    forall i | 0 <= i < |script| :: !script[i].Failed?
  }

  /** Gathering takes exactly the first message, whatever the calls do: a true
      result delivers it whole, a false one has taken nothing; and if the only
      trouble is interruptions, a message that is there is delivered. */
  lemma {:induction false} GatherTakesFirst(frames: seq<Frame>, script: seq<Outcome>, dontBlock: bool,
                                            parts: seq<seq<Byte>>)
    ensures var g := Gather(frames, script, dontBlock, parts);
            && (g.result.Received? ==>
                  FirstMessage(frames).Some? && g.rest == FirstMessage(frames).value.1 &&
                  g.parts == parts + FirstMessage(frames).value.0)
            && (g.result.NotReceived? ==> parts == [] && g.parts == [] && g.rest == frames)
            && (OnlyInterrupted(script) && FirstMessage(frames).Some? ==>
                  g.result == if parts == [] && script != [] && script[0].Interrupted? then NotReceived else Received)
            && (g.result.Received? ==> |g.rest| + |g.left| < |frames| + |script|)
            && (OnlyInterrupted(script) && !dontBlock ==> g.result.Received? || g.result.NotReceived? || g.result.Blocked?)
            && (g.result.NotReceived? && !dontBlock ==> |g.left| < |script|)
            && (OnlyInterrupted(script) ==> OnlyInterrupted(g.left))
            && (g.result.Blocked? ==> !dontBlock && g.rest == [])
    decreases |script| + |frames|, |script|
  {
    var next := if script == [] then Done else script[0];
    var left := if script == [] then [] else script[1..];
    match next
    case Again =>
    case Interrupted =>
      if parts != [] {
        GatherTakesFirst(frames, left, dontBlock, parts);
      }
    case Failed =>
    case Done =>
      if frames != [] && frames[0].more {
        GatherTakesFirst(frames[1..], left, dontBlock, parts + [frames[0].data]);
        if FirstMessage(frames[1..]).Some? {
          var first := FirstMessage(frames[1..]).value.0;
          assert parts + [frames[0].data] + first == parts + ([frames[0].data] + first);
        }
      }
  }

  /** A receive returns false exactly if its first call does not deliver a frame;
      it throws only where a call fails, and an assertion fails only where a call
      for a later part reports that it would block. */
  lemma {:induction false} GatherResultIs(frames: seq<Frame>, script: seq<Outcome>, dontBlock: bool, parts: seq<seq<Byte>>)
    ensures var g := Gather(frames, script, dontBlock, parts);
            && (g.result.NotReceived? <==>
                  parts == [] && if script == [] || script[0].Done? then frames == [] && dontBlock else !script[0].Failed?)
            && (g.result.ReceiveThrew? ==> exists i :: 0 <= i < |script| && script[i].Failed?)
            && (g.result.ReceiveAssertionFailed? ==> dontBlock || exists i :: 0 <= i < |script| && script[i].Again?)
            && (script != [] && script[0].Failed? ==> g.result.ReceiveThrew?)
    decreases |script| + |frames|, |script|
  {
    var next := if script == [] then Done else script[0];
    var left := if script == [] then [] else script[1..];
    if next.Interrupted? && parts != [] {
      GatherResultIs(frames, left, dontBlock, parts);
    } else if next.Done? && frames != [] && frames[0].more {
      GatherResultIs(frames[1..], left, dontBlock, parts + [frames[0].data]);
    }
    assert forall i | 0 <= i < |left| :: left[i] == script[i + 1];
  }

  /** On an empty pipe a receive that may block blocks, and one that may not
      returns false; an interruption makes either return false. */
  lemma NothingThere(script: seq<Outcome>, dontBlock: bool)
    requires OnlyInterrupted(script)
    ensures var g := Gather([], script, dontBlock, []);
            && g.rest == [] && g.parts == []
            && (g.result == if !dontBlock && (script == [] || script[0].Done?) then Blocked else NotReceived)
  {
  }

  /** How many calls a send makes: up to the part at which it ends. */
  function CallsMade(parts: seq<Part>, outcomes: seq<Outcome>): nat {
    if parts == [] then 0
    else if At(outcomes, 0).Interrupted? then 1
    else var k := Stops(parts, outcomes, 0); if k < |parts| then k + 1 else k
  }

  lemma EndsHere(parts: seq<Part>, outcomes: seq<Outcome>, i: nat)
    requires i < |parts| && Stops(parts, outcomes, 0) == Stops(parts, outcomes, i)
    requires i > 0 ==> At(outcomes, 0).Done?
    requires Ends(parts, outcomes, i) || (i == 0 && At(outcomes, 0).Interrupted?)
    ensures CallsMade(parts, outcomes) == i + 1
  {
  }

  // ---- Framing and back ----

  /** The frames of a message that goes out without interruption. */
  function FramesOf(parts: seq<seq<Byte>>): (frames: seq<Frame>)
    ensures |frames| == |parts|
    ensures forall i | 0 <= i < |parts| :: frames[i] == Frame(parts[i], i < |parts| - 1)
  {
    seq(|parts|, i requires 0 <= i < |parts| => Frame(parts[i], i < |parts| - 1))
  }

  lemma {:induction false} TakenWhole(parts: seq<seq<Byte>>, outcomes: seq<Outcome>, n: nat)
    requires n <= |parts| && forall i | 0 <= i < n :: At(outcomes, i).Done?
    ensures FramesTaken(parts, outcomes, n) == FramesOf(parts)[..n]
  {
    if n > 0 {
      TakenWhole(parts, outcomes, n - 1);
      assert FramesOf(parts)[..n] == FramesOf(parts)[..n - 1] + [FramesOf(parts)[n - 1]];
    }
  }

  lemma {:induction false} FirstMessageOf(parts: seq<seq<Byte>>, behind: seq<Frame>)
    requires parts != []
    ensures FirstMessage(FramesOf(parts) + behind) == Some((parts, behind))
  {
    var frames := FramesOf(parts) + behind;
    assert frames[0] == Frame(parts[0], 0 < |parts| - 1);
    if |parts| == 1 {
      assert frames[1..] == behind && parts == [parts[0]];
    } else {
      FirstMessageOf(parts[1..], behind);
      assert frames[1..] == FramesOf(parts[1..]) + behind;
      assert parts == [parts[0]] + parts[1..];
    }
  }

  function AllFrames(messages: seq<seq<seq<Byte>>>): seq<Frame> {
    if messages == [] then [] else FramesOf(messages[0]) + AllFrames(messages[1..])
  }

  /** Any sequence of messages with at least one part each comes back part for
      part from the frames it was sent as. */
  lemma {:induction false} FramingRoundTrip(messages: seq<seq<seq<Byte>>>)
    requires forall i | 0 <= i < |messages| :: messages[i] != []
    ensures AllMessages(AllFrames(messages)) == messages
  {
    if messages != [] {
      FirstMessageOf(messages[0], AllFrames(messages[1..]));
      FramingRoundTrip(messages[1..]);
      assert messages == [messages[0]] + messages[1..];
    }
  }

  // ---- Waiting for a signal ----

  /** The first signal among the messages of a stream, and the frames behind
      it; messages before it are skipped. */
  function FirstSignal(host: Order, frames: seq<Frame>): Option<(int, seq<Frame>)>
    decreases |frames|
  {
    match FirstMessage(frames)
    case None => None
    case Some((parts, rest)) =>
      if IsSignal(host, parts) then Some((IntegerFrom(host, parts[0], true), rest)) else FirstSignal(host, rest)
  }

  /** The `k`-th message is the first signal, and `rest` are the frames behind. */
  ghost predicate SignalAt(host: Order, ms: seq<seq<seq<Byte>>>, k: nat, code: int, rest: seq<Frame>) {
    && k < |ms| && IsSignal(host, ms[k]) && code == OK + ms[k][0][7]
    && (forall i | 0 <= i < k :: !IsSignal(host, ms[i]))
    && AllMessages(rest) == ms[k + 1..]
  }

  lemma SignalLater(host: Order, ms: seq<seq<seq<Byte>>>, m: seq<seq<Byte>>, k: nat, code: int, rest: seq<Frame>)
    requires SignalAt(host, ms, k, code, rest) && !IsSignal(host, m)
    ensures SignalAt(host, [m] + ms, k + 1, code, rest)
  {
    var all := [m] + ms;
    assert all[k + 1] == ms[k] && all[k + 2..] == ms[k + 1..];
    forall i | 0 <= i < k + 1 ensures !IsSignal(host, all[i]) {
      assert all[i] == if i == 0 then m else ms[i - 1];
    }
  }

  /** If there is a signal among the messages, the first one is found and
      exactly the messages up to it are consumed. */
  lemma {:induction false} FirstSignalIs(host: Order, frames: seq<Frame>) returns (k: nat)
    ensures match FirstSignal(host, frames)
            case None => forall i | 0 <= i < |AllMessages(frames)| :: !IsSignal(host, AllMessages(frames)[i])
            case Some((code, rest)) => SignalAt(host, AllMessages(frames), k, code, rest)
    decreases |frames|
  {
    k := 0;
    var first := FirstMessage(frames);
    if first.Some? {
      var (parts, rest) := first.value;
      if IsSignal(host, parts) {
        SignalIffMagic(host, parts);
      } else {
        k := FirstSignalIs(host, rest);
        var found := FirstSignal(host, rest);
        if found.Some? {
          SignalLater(host, AllMessages(rest), parts, k, found.value.0, found.value.1);
          k := k + 1;
        }
      }
    }
  }

  // ---- The socket object ----

  datatype WaitResult = Signalled(code: int) | WaitThrew | WaitBlocked

  class Socket {
    var incoming: seq<Frame>
    var outgoing: seq<Frame>

    constructor ()
      ensures incoming == [] && outgoing == []
    {
      incoming, outgoing := [], [];
    }

    /** Sends the parts one after the other. `waits` tells of each call of
        libzmq whether it was allowed to wait. */
    method Send(message: Message, dontBlock: bool, outcomes: seq<Outcome>)
      returns (r: SendResult, waits: seq<bool>, ghost frames: seq<Frame>)
      modifies this`outgoing, message
      ensures outgoing == old(outgoing) + frames
      ensures SendDoes(old(message.parts), outcomes, r, frames, message.parts)
      ensures message.cursor == if r.Sent? then 0 else old(message.cursor)
      ensures waits == Waits(dontBlock, outcomes, CallsMade(old(message.parts), outcomes))
      ensures dontBlock ==> forall i | 0 <= i < |waits| :: !waits[i]
    {
      waits, frames := [], [];
      var total := |message.parts|;
      if total == 0 {
        return InvalidArgument, waits, frames;
      }
      ghost var parts := message.parts;
      var dontWait := dontBlock;
      var i: nat := 0;
      while i < total
        invariant total == |parts| == |message.parts|
        invariant Halfway(parts, outcomes, i, frames, message.parts) && message.cursor == old(message.cursor)
        invariant outgoing == old(outgoing) + frames
        invariant waits == Waits(dontBlock, outcomes, i)
        invariant dontWait <==> dontBlock || InterruptedBefore(outcomes, i)
      {
        waits := waits + [!dontWait];
        var end, taken := SendPart(message, i, At(outcomes, i), parts, outcomes, frames);
        Regroup(old(outgoing), frames, taken);
        frames := frames + taken;
        if end.Some? {
          return end.value, waits, frames;
        }
        if At(outcomes, i).Interrupted? {
          dontWait := true;
        }
        i := i + 1;
      }
      NoMoreParts(parts, outcomes, frames, message.parts);
      message.parts, message.cursor := [], 0;
      return Sent, waits, frames;
    }

    /** One turn of the loop over the parts: the part is taken, or dropped after
        an interruption, or the send ends with a result. */
    method SendPart(message: Message, i: nat, outcome: Outcome, ghost parts: seq<Part>, ghost outcomes: seq<Outcome>,
                    ghost frames: seq<Frame>)
      returns (end: Option<SendResult>, ghost taken: seq<Frame>)
      requires Halfway(parts, outcomes, i, frames, message.parts) && i < |parts| && outcome == At(outcomes, i)
      modifies this`outgoing, message`parts
      ensures outgoing == old(outgoing) + taken && |message.parts| == |parts|
      ensures end.None? ==> Halfway(parts, outcomes, i + 1, frames + taken, message.parts)
      ensures end.Some? ==> SendDoes(parts, outcomes, end.value, frames + taken, message.parts) && !end.value.Sent?
      ensures end.Some? ==> CallsMade(parts, outcomes) == i + 1
    {
      taken := [];
      assert frames + [] == frames;
      if !outcome.Done? {
        if outcome.Interrupted? && i > 0 {
          NextSkipped(parts, outcomes, i, frames, message.parts);
          return None, taken;
        }
        NextRefused(parts, outcomes, i, frames, message.parts);
        EndsHere(parts, outcomes, i);
        return Some(if i == 0 && !outcome.Failed? then Refused else if outcome.Again? then AssertionFailed else Threw),
               taken;
      }
      NextTaken(parts, outcomes, i, frames, message.parts);
      var sent := message.parts[i].sent;
      if sent {
        EndsHere(parts, outcomes, i);
      }
      var frame := TakePart(message, i, i < |message.parts| - 1);
      taken := [frame];
      return if sent then Some(AssertionFailed) else None, taken;
    }

    /** libzmq takes a part, which is marked as sent. */
    method TakePart(message: Message, i: nat, more: bool) returns (frame: Frame)
      requires i < |message.parts|
      modifies this`outgoing, message`parts
      ensures frame == Frame(old(message.parts)[i].data, more)
      ensures outgoing == old(outgoing) + [frame]
      ensures message.parts == old(message.parts)[i := Part([], true)]
    {
      frame := Frame(message.parts[i].data, more);
      outgoing := outgoing + [frame];
      message.parts := message.parts[i := Part([], true)];
    }

    /** Receives one message into `message`, whose old parts are discarded. */
    method Receive(message: Message, dontBlock: bool, script: seq<Outcome>) returns (r: ReceiveResult, left: seq<Outcome>)
      modifies this`incoming, message
      ensures var g := Gather(old(incoming), script, dontBlock, []);
              && r == g.result && left == g.left && incoming == g.rest && Data(message.parts) == g.parts
      ensures forall i | 0 <= i < |message.parts| :: !message.parts[i].sent
    {
      if |message.parts| > 0 {
        message.parts, message.cursor := [], 0;
      }
      left := script;
      var more := true;
      ghost var g := Gather(incoming, script, dontBlock, []);
      while more
        invariant more ==> Gather(incoming, left, dontBlock, Data(message.parts)) == g
        invariant !more ==> g == Gathered(Received, Data(message.parts), incoming, left)
        invariant forall i | 0 <= i < |message.parts| :: !message.parts[i].sent
        decreases more, |left| + |incoming|, |left|
      {
        var next := Done;
        if left != [] {
          next := left[0];
          left := left[1..];
        }
        if next.Done? && incoming == [] {
          if !dontBlock {
            return Blocked, left;
          }
          next := Again;
        }
        if !next.Done? {
          if |message.parts| == 0 && next.Again? {
            return NotReceived, left;
          }
          if next.Interrupted? {
            if |message.parts| == 0 {
              return NotReceived, left;
            }
            continue;
          }
          return (if next.Again? then ReceiveAssertionFailed else ReceiveThrew), left;
        }
        ghost var before := Data(message.parts);
        message.parts := message.parts + [Part(incoming[0].data, false)];
        assert Data(message.parts) == before + [incoming[0].data];
        more := incoming[0].more;
        incoming := incoming[1..];
      }
      return Received, left;
    }

    /** The inner loop of wait(): tries again until a receive succeeds. */
    method ReceiveRetrying(message: Message, script: seq<Outcome>) returns (r: ReceiveResult, left: seq<Outcome>)
      modifies this`incoming, message
      ensures !r.NotReceived?
      ensures r.Received? ==>
                FirstMessage(old(incoming)) == Some((Data(message.parts), incoming)) &&
                |incoming| + |left| < |old(incoming)| + |script|
      ensures OnlyInterrupted(script) ==> OnlyInterrupted(left)
      ensures OnlyInterrupted(script) && FirstMessage(old(incoming)).Some? ==> r.Received?
      ensures OnlyInterrupted(script) ==> r.Received? || r.Blocked?
    {
      left := script;
      r := NotReceived;
      while r.NotReceived?
        invariant r.NotReceived? ==> incoming == old(incoming) && |left| <= |script|
        invariant r.Received? ==>
                    FirstMessage(old(incoming)) == Some((Data(message.parts), incoming)) &&
                    |incoming| + |left| < |old(incoming)| + |script|
        invariant OnlyInterrupted(script) ==> OnlyInterrupted(left)
        invariant OnlyInterrupted(script) && FirstMessage(old(incoming)).Some? ==> r.NotReceived? || r.Received?
        invariant OnlyInterrupted(script) ==> r.NotReceived? || r.Received? || r.Blocked?
        decreases r.NotReceived?, |left|
      {
        GatherTakesFirst(incoming, left, false, []);
        assert forall parts: seq<seq<Byte>> :: [] + parts == parts;
        r, left := Receive(message, false, left);
      }
    }

    /** Sends one message again and again until it is not refused. `script` says
        how often it is. */
    method SendRetrying(host: Order, parts: seq<seq<Byte>>, script: seq<Outcome>) returns (left: seq<Outcome>)
      requires parts != [] && NeverFails(script)
      modifies this`outgoing
      ensures outgoing == old(outgoing) + FramesOf(parts)
      ensures NeverFails(left)
    {
      var message := new Message.OfParts(host, parts);
      ghost var whole := message.parts;
      left := script;
      while left != [] && !left[0].Done?
        invariant message.parts == whole && outgoing == old(outgoing) && NeverFails(left)
        decreases |left|
      {
        var r, _, frames := Send(message, false, [left[0]]);
        assert outgoing == old(outgoing) + [];
        left := left[1..];
      }
      if left != [] {
        left := left[1..];
      }
      TakenWhole(parts, [], |parts|);
      assert FramesOf(parts)[..|parts|] == FramesOf(parts);
      var _, _, frames := Send(message, false, []);
      assert Data(whole) == parts;
    }

    /** What repeated sends put on the wire when only first parts are refused. */
    method SendAll(host: Order, messages: seq<seq<seq<Byte>>>, script: seq<Outcome>)
      requires NeverFails(script) && forall i | 0 <= i < |messages| :: messages[i] != []
      modifies this`outgoing
      ensures outgoing == old(outgoing) + AllFrames(messages)
    {
      var left := script;
      for n := 0 to |messages|
        invariant NeverFails(left)
        invariant outgoing + AllFrames(messages[n..]) == old(outgoing) + AllFrames(messages)
      {
        assert messages[n..][0] == messages[n] && messages[n..][1..] == messages[n + 1..];
        Regroup(outgoing, FramesOf(messages[n]), AllFrames(messages[n + 1..]));
        left := SendRetrying(host, messages[n], left);
      }
      assert AllFrames(messages[|messages|..]) == [];
    }

    /** What repeated receives get, however often they are interrupted. */
    method ReceiveAll(host: Order, n: nat, script: seq<Outcome>) returns (received: seq<seq<seq<Byte>>>)
      requires OnlyInterrupted(script) && n <= |AllMessages(incoming)|
      modifies this`incoming
      ensures received == AllMessages(old(incoming))[..n]
      ensures AllMessages(incoming) == AllMessages(old(incoming))[n..]
    {
      received := [];
      var left := script;
      for i := 0 to n
        invariant OnlyInterrupted(left)
        invariant received == AllMessages(old(incoming))[..i]
        invariant AllMessages(incoming) == AllMessages(old(incoming))[i..]
      {
        ghost var all := AllMessages(incoming);
        var message := new Message(host);
        var r;
        r, left := ReceiveRetrying(message, left);
        assert all == [Data(message.parts)] + AllMessages(incoming);
        received := received + [Data(message.parts)];
      }
    }

    /** Any messages with at least one part each that are sent through a pipe
        come out part for part and in order, whatever the host orders are,
        however often a message is refused and sent again, and however often the
        receives are interrupted. */
    static method Convey(sender: Socket, receiver: Socket, host: Order, other: Order, messages: seq<seq<seq<Byte>>>,
                         sendScript: seq<Outcome>, script: seq<Outcome>)
      returns (received: seq<seq<seq<Byte>>>)
      requires sender != receiver && sender.outgoing == [] && receiver.incoming == []
      requires NeverFails(sendScript) && OnlyInterrupted(script)
      requires forall i | 0 <= i < |messages| :: messages[i] != []
      modifies sender`outgoing, receiver`incoming
      ensures received == messages && AllMessages(receiver.incoming) == []
    {
      sender.SendAll(host, messages, sendScript);
      receiver.incoming := sender.outgoing;
      FramingRoundTrip(messages);
      assert [] + AllFrames(messages) == AllFrames(messages);
      received := receiver.ReceiveAll(other, |messages|, script);
    }

    /** wait(): receives messages until one is a signal, trying again whenever
        a receive is interrupted. It finds the first signal and consumes exactly
        the messages up to it. */
    method Wait(host: Order, script: seq<Outcome>) returns (r: WaitResult)
      modifies this`incoming
      ensures r.Signalled? ==> FirstSignal(host, old(incoming)) == Some((r.code, incoming))
      ensures OnlyInterrupted(script) ==> (r.Signalled? <==> FirstSignal(host, old(incoming)).Some?)
      ensures OnlyInterrupted(script) ==> r.Signalled? || r.WaitBlocked?
    {
      var left := script;
      while true
        invariant FirstSignal(host, incoming) == FirstSignal(host, old(incoming))
        invariant OnlyInterrupted(script) ==> OnlyInterrupted(left)
        decreases |incoming| + |left|
      {
        var message := new Message(host);
        var received;
        received, left := ReceiveRetrying(message, left);
        if received.Blocked? {
          return WaitBlocked;
        }
        if !received.Received? {
          return WaitThrew;
        }
        if IsSignal(host, Data(message.parts)) {
          return Signalled(IntegerFrom(host, message.parts[0].data, true));
        }
      }
    }
  }
}

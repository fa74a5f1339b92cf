/**
 * What arrives of a sequence of messages whose sends all report success, when
 * calls past the first part of a message may be interrupted. An interrupted
 * part is dropped, and the frames that are taken say whether more follow as if
 * it were not.
 */
module Delivery {
  import opened Wrappers
  import opened Inet
  import opened Messages
  import opened Sockets

  datatype Sending = Sending(parts: seq<seq<Byte>>, outcomes: seq<Sockets.Outcome>)

  /** The send of the message reports success. */
  predicate Succeeds(x: Sending) {
    && x.parts != [] && At(x.outcomes, 0).Done?
    && forall i | 0 <= i < |x.parts| :: At(x.outcomes, i).Done? || At(x.outcomes, i).Interrupted?
  }

  /** For a message that was not sent before, that is what Send reports. */
  lemma SuccessIsReported(parts: seq<Part>, outcomes: seq<Sockets.Outcome>, r: SendResult, frames: seq<Frame>, left: seq<Part>)
    requires SendDoes(parts, outcomes, r, frames, left) && forall i | 0 <= i < |parts| :: !parts[i].sent
    ensures r.Sent? <==> Succeeds(Sending(Data(parts), outcomes))
    ensures r.Sent? ==> frames == Taken(Sending(Data(parts), outcomes))
  {
    var k := Stops(parts, outcomes, 0);
    if k == |parts| {
      forall i | 0 <= i < |parts| ensures At(outcomes, i).Done? || At(outcomes, i).Interrupted? {
        assert !Ends(parts, outcomes, i);
      }
      assert parts != [] && At(outcomes, 0).Done? ==> Data(parts) != [];
    } else {
      assert !At(outcomes, k).Done? && !At(outcomes, k).Interrupted?;
    }
  }

  function Taken(x: Sending): seq<Frame> {
    FramesTaken(x.parts, x.outcomes, |x.parts|)
  }

  /** The frames of all sends, one after the other. */
  function Wire(xs: seq<Sending>): seq<Frame> {
    if xs == [] then [] else Wire(xs[..|xs| - 1]) + Taken(xs[|xs| - 1])
  }

  function Intended(xs: seq<Sending>): seq<seq<seq<Byte>>> {
    seq(|xs|, i requires 0 <= i < |xs| => xs[i].parts)
  }

  /** No part is interrupted. */
  predicate Whole(x: Sending) {
    forall i | 0 <= i < |x.parts| :: !At(x.outcomes, i).Interrupted?
  }

  /** The last part is not interrupted. */
  predicate Closed(x: Sending) {
    x.parts != [] && !At(x.outcomes, |x.parts| - 1).Interrupted?
  }

  // ---- One message ----

  lemma {:induction false} TakenCount(parts: seq<seq<Byte>>, outcomes: seq<Sockets.Outcome>, n: nat)
    requires n <= |parts|
    ensures |FramesTaken(parts, outcomes, n)| <= n
    ensures |FramesTaken(parts, outcomes, n)| == n <==> forall i | 0 <= i < n :: At(outcomes, i).Done?
  {
    if n > 0 {
      TakenCount(parts, outcomes, n - 1);
    }
  }

  /** Of the frames taken of a message, the last says that more follow exactly
      if the last part was dropped. */
  lemma {:induction false} LastTaken(parts: seq<seq<Byte>>, outcomes: seq<Sockets.Outcome>, n: nat)
    requires 0 < n <= |parts| && At(outcomes, 0).Done?
    requires forall i | 0 <= i < n :: At(outcomes, i).Done? || At(outcomes, i).Interrupted?
    ensures var frames := FramesTaken(parts, outcomes, n);
            frames != [] && (!frames[|frames| - 1].more <==> n == |parts| && At(outcomes, n - 1).Done?)
  {
    if At(outcomes, n - 1).Done? {
      assert FramesTaken(parts, outcomes, n)[|FramesTaken(parts, outcomes, n)| - 1] ==
             Frame(parts[n - 1], n - 1 < |parts| - 1);
    } else {
      LastTaken(parts, outcomes, n - 1);
      assert FramesTaken(parts, outcomes, n) == FramesTaken(parts, outcomes, n - 1);
    }
  }

  lemma WholeIsTaken(x: Sending)
    requires Succeeds(x)
    ensures |Taken(x)| <= |x.parts|
    ensures |Taken(x)| == |x.parts| <==> Whole(x)
    ensures Whole(x) ==> Taken(x) == FramesOf(x.parts)
  {
    TakenCount(x.parts, x.outcomes, |x.parts|);
    if Whole(x) {
      TakenWhole(x.parts, x.outcomes, |x.parts|);
      assert FramesOf(x.parts)[..|x.parts|] == FramesOf(x.parts);
    }
  }

  // ---- Where messages begin in a stream ----

  /** The number of parts of the messages together. */
  function PartCount(ms: seq<seq<seq<Byte>>>): nat {
    if ms == [] then 0 else |ms[0]| + PartCount(ms[1..])
  }

  /** A message can begin behind these frames. */
  predicate Boundary(frames: seq<Frame>) {
    frames == [] || !frames[|frames| - 1].more
  }

  lemma {:induction false} FirstMessageTakes(frames: seq<Frame>)
    requires FirstMessage(frames).Some?
    ensures var (parts, rest) := FirstMessage(frames).value;
            && 0 < |parts| <= |frames| && rest == frames[|parts|..]
            && !frames[|parts| - 1].more && (forall i | 0 <= i < |parts| - 1 :: frames[i].more)
  {
    if frames[0].more {
      FirstMessageTakes(frames[1..]);
      var parts := FirstMessage(frames[1..]).value.0;
      assert frames[1..][|parts|..] == frames[|parts| + 1..];
      assert forall i | 0 < i < |frames| :: frames[i] == frames[1..][i - 1];
    }
  }

  lemma {:induction false} LastMakesMessage(frames: seq<Frame>)
    requires frames != [] && Boundary(frames)
    ensures FirstMessage(frames).Some?
  {
    if frames[0].more {
      LastMakesMessage(frames[1..]);
    }
  }

  lemma {:induction false} FirstOfLonger(a: seq<Frame>, b: seq<Frame>)
    requires FirstMessage(a).Some?
    ensures FirstMessage(a + b) == Some((FirstMessage(a).value.0, FirstMessage(a).value.1 + b))
  {
    assert (a + b)[0] == a[0] && (a + b)[1..] == a[1..] + b;
    if a[0].more {
      FirstOfLonger(a[1..], b);
    }
  }

  lemma TailBoundary(a: seq<Frame>)
    requires a != [] && Boundary(a)
    ensures FirstMessage(a).Some? && |FirstMessage(a).value.1| < |a| && Boundary(FirstMessage(a).value.1)
    ensures |FirstMessage(a).value.0| + |FirstMessage(a).value.1| == |a|
  {
    LastMakesMessage(a);
    FirstMessageTakes(a);
    var rest := FirstMessage(a).value.1;
    assert rest != [] ==> rest[|rest| - 1] == a[|a| - 1];
  }

  /** The messages before a boundary and those behind it do not mix. */
  lemma {:induction false} JoinAtBoundary(a: seq<Frame>, b: seq<Frame>)
    requires Boundary(a)
    ensures AllMessages(a + b) == AllMessages(a) + AllMessages(b)
    ensures PartCount(AllMessages(a)) == |a|
    decreases |a|
  {
    if a == [] {
      assert a + b == b;
    } else {
      TailBoundary(a);
      FirstOfLonger(a, b);
      var (parts, rest) := FirstMessage(a).value;
      JoinAtBoundary(rest, b);
      Regroup([parts], AllMessages(rest), AllMessages(b));
    }
  }

  lemma MessageInside(a: seq<Frame>, parts: seq<seq<Byte>>, b: seq<Frame>)
    requires Boundary(a) && parts != []
    ensures AllMessages(a + (FramesOf(parts) + b)) == AllMessages(a) + ([parts] + AllMessages(b))
    ensures PartCount(AllMessages(a)) == |a|
  {
    JoinAtBoundary(a, FramesOf(parts) + b);
    FirstMessageOf(parts, b);
  }

  /** Where the first k messages end there is a boundary. */
  lemma {:induction false} BoundaryAfter(frames: seq<Frame>, k: nat)
    requires k <= |AllMessages(frames)|
    ensures var p := PartCount(AllMessages(frames)[..k]);
            p <= |frames| && Boundary(frames[..p])
    decreases k
  {
    var all := AllMessages(frames);
    if k > 0 {
      FirstMessageTakes(frames);
      var (parts, rest) := FirstMessage(frames).value;
      BoundaryAfter(rest, k - 1);
      assert all[..k][0] == parts && all[..k][1..] == AllMessages(rest)[..k - 1];
      var p := PartCount(AllMessages(rest)[..k - 1]);
      assert p > 0 ==> rest[..p][p - 1] == frames[|parts| + p - 1];
    }
  }

  // ---- All messages ----

  lemma {:induction false} PartCountAppended(ms: seq<seq<seq<Byte>>>, m: seq<seq<Byte>>)
    ensures PartCount(ms + [m]) == PartCount(ms) + |m|
  {
    if ms == [] {
      assert (ms + [m])[1..] == [];
    } else {
      assert (ms + [m])[1..] == ms[1..] + [m];
      PartCountAppended(ms[1..], m);
    }
  }

  /** The parts that go out are all of them exactly if none was interrupted. */
  lemma {:induction false} WireCount(xs: seq<Sending>)
    requires forall i | 0 <= i < |xs| :: Succeeds(xs[i])
    ensures |Wire(xs)| <= PartCount(Intended(xs))
    ensures |Wire(xs)| == PartCount(Intended(xs)) <==> forall i | 0 <= i < |xs| :: Whole(xs[i])
  {
    if xs != [] {
      var before, last := xs[..|xs| - 1], xs[|xs| - 1];
      WireCount(before);
      WholeIsTaken(last);
      PartCountAppended(Intended(before), last.parts);
      assert Intended(xs) == Intended(before) + [last.parts];
      assert forall i | 0 <= i < |before| :: before[i] == xs[i];
    }
  }

  lemma {:induction false} WireOfWhole(xs: seq<Sending>)
    requires forall i | 0 <= i < |xs| :: Succeeds(xs[i]) && Whole(xs[i])
    ensures AllMessages(Wire(xs)) == Intended(xs)
  {
    if xs == [] {
      assert AllMessages([]) == [];
    } else {
      var before, last := xs[..|xs| - 1], xs[|xs| - 1];
      WireOfWhole(before);
      WireCloses(before);
      WholeIsTaken(last);
      MessageInside(Wire(before), last.parts, []);
      assert FramesOf(last.parts) + [] == FramesOf(last.parts);
      assert AllMessages([]) == [];
      assert Intended(xs) == Intended(before) + [last.parts];
    }
  }

  /** The frames of a sequence end with a boundary exactly if the last part of
      the last message was taken. */
  lemma WireCloses(xs: seq<Sending>)
    requires forall i | 0 <= i < |xs| :: Succeeds(xs[i])
    ensures Boundary(Wire(xs)) <==> xs == [] || Closed(xs[|xs| - 1])
  {
    if xs != [] {
      TakenCloses(xs[|xs| - 1]);
      BoundaryOfJoin(Wire(xs[..|xs| - 1]), Taken(xs[|xs| - 1]));
    }
  }

  lemma TakenCloses(x: Sending)
    requires Succeeds(x)
    ensures Taken(x) != [] && (Boundary(Taken(x)) <==> Closed(x))
  {
    LastTaken(x.parts, x.outcomes, |x.parts|);
  }

  lemma BoundaryOfJoin(a: seq<Frame>, b: seq<Frame>)
    requires b != []
    ensures Boundary(a + b) <==> Boundary(b)
  {
  }

  /** The messages that arrive are the messages sent exactly when no part past
      the first of any of them was interrupted. */
  lemma DeliveredIffUninterrupted(xs: seq<Sending>)
    requires forall i | 0 <= i < |xs| :: Succeeds(xs[i])
    ensures AllMessages(Wire(xs)) == Intended(xs) <==> forall i | 0 <= i < |xs| :: Whole(xs[i])
  {
    if forall i | 0 <= i < |xs| :: Whole(xs[i]) {
      WireOfWhole(xs);
    }
    WireCount(xs);
    var all := AllMessages(Wire(xs));
    BoundaryAfter(Wire(xs), |all|);
    assert all[..|all|] == all;
  }

  // ---- Each message ----

  /** The i-th message arrives as it was sent: some message that arrives is made
      of exactly the frames of this send, and has all its parts. */
  ghost predicate ArrivesAsSent(xs: seq<Sending>, i: nat)
    requires i < |xs|
  {
    exists k: nat :: ArrivesAt(xs, i, k)
  }

  ghost predicate ArrivesAt(xs: seq<Sending>, i: nat, k: nat)
    requires i < |xs|
  {
    var all := AllMessages(Wire(xs));
    && k < |all| && all[k] == xs[i].parts
    && PartCount(all[..k]) == |Wire(xs[..i])| && PartCount(all[..k]) + |all[k]| == |Wire(xs[..i + 1])|
  }

  lemma {:induction false} WireSplits(xs: seq<Sending>, i: nat)
    requires i <= |xs|
    ensures |Wire(xs[..i])| <= |Wire(xs)| && Wire(xs)[..|Wire(xs[..i])|] == Wire(xs[..i])
  {
    if i == |xs| {
      assert xs[..i] == xs;
    } else {
      WireSplits(xs[..|xs| - 1], i);
      assert xs[..|xs| - 1][..i] == xs[..i];
    }
  }

  lemma WireNext(xs: seq<Sending>, i: nat)
    requires i < |xs|
    ensures Wire(xs[..i + 1]) == Wire(xs[..i]) + Taken(xs[i])
  {
    assert xs[..i + 1][..i] == xs[..i];
  }

  /** It does exactly when all its own parts are taken and the last part of the
      message before it was taken; otherwise it comes without some part, or
      glued to what is left of its predecessor. */
  lemma ArrivesIff(xs: seq<Sending>, i: nat)
    requires i < |xs| && forall j | 0 <= j < |xs| :: Succeeds(xs[j])
    ensures ArrivesAsSent(xs, i) <==> Whole(xs[i]) && (i == 0 || Closed(xs[i - 1]))
  {
    WireCloses(xs[..i]);
    if k: nat :| ArrivesAt(xs, i, k) {
      WireNext(xs, i);
      WholeIsTaken(xs[i]);
      WireSplits(xs, i);
      BoundaryAfter(Wire(xs), k);
    }
    if Whole(xs[i]) && (i == 0 || Closed(xs[i - 1])) {
      ArrivesBehindBoundary(xs, i);
    }
  }

  lemma ArrivesBehindBoundary(xs: seq<Sending>, i: nat)
    requires i < |xs| && Succeeds(xs[i]) && Whole(xs[i]) && Boundary(Wire(xs[..i]))
    ensures ArrivesAsSent(xs, i)
  {
    var a, c := Wire(xs[..i]), Wire(xs[..i + 1]);
    WireNext(xs, i);
    WholeIsTaken(xs[i]);
    WireSplits(xs, i + 1);
    var b := Wire(xs)[|c|..];
    assert Wire(xs) == c + b;
    assert c + b == a + (FramesOf(xs[i].parts) + b);
    MessageInside(a, xs[i].parts, b);
    FoundBehind(AllMessages(a), xs[i].parts, AllMessages(b), AllMessages(Wire(xs)));
    assert ArrivesAt(xs, i, |AllMessages(a)|);
  }

  lemma FoundBehind(before: seq<seq<seq<Byte>>>, m: seq<seq<Byte>>, behind: seq<seq<seq<Byte>>>,
                    all: seq<seq<seq<Byte>>>)
    requires all == before + ([m] + behind)
    ensures |before| < |all| && all[..|before|] == before && all[|before|] == m
  {
  }

  /** Behind a message whose last part was dropped an uninterrupted one arrives
      glued to it. */
  lemma GluedPair(a: seq<Byte>, b: seq<Byte>, c: seq<Byte>)
    ensures var xs := [Sending([a, b], [Done, Interrupted]), Sending([c], [Done])];
            && Succeeds(xs[0]) && Succeeds(xs[1]) && Whole(xs[1])
            && AllMessages(Wire(xs)) == [[a, c]]
            && !ArrivesAsSent(xs, 1)
  {
    var first, second := Sending([a, b], [Done, Interrupted]), Sending([c], [Done]);
    var xs := [first, second];
    assert FramesTaken(first.parts, first.outcomes, 1) == [Frame(a, true)];
    assert Taken(first) == [Frame(a, true)] && FramesTaken(second.parts, second.outcomes, 0) == [];
    assert Taken(second) == [Frame(c, false)];
    assert xs[..1] == [first] && [first][..0] == [] && Wire([]) == [];
    assert Wire([first]) == [] + Taken(first);
    assert Wire(xs) == [Frame(a, true), Frame(c, false)];
    var rest := [Frame(c, false)];
    assert Wire(xs)[1..] == rest && rest[1..] == [];
    assert FirstMessage(rest) == Some(([c], []));
    assert [a] + [c] == [a, c] && FirstMessage(Wire(xs)) == Some(([a, c], []));
    assert AllMessages([]) == [];
    ArrivesIff(xs, 1);
  }
}

/**
 * Messages: a list of parts, written and read as typed values. Integers go
 * over the wire in network byte order.
 */
module Messages {
  import opened Wrappers
  import opened Inet

  /** A value that can be streamed. Integers have 1, 2, 4 or 8 bytes. */
  datatype Value =
    | Integer(width: nat, signed: bool, number: int)
    | Boolean(truth: bool)
    | SignalValue(code: int)
    | Text(bytes: seq<Byte>)

  datatype Kind = IntegerKind(width: nat, signed: bool) | BooleanKind | SignalKind | TextKind

  predicate Width(w: nat) {
    w == 1 || w == 2 || w == 4 || w == 8
  }

  function KindOf(v: Value): Kind {
    match v
    case Integer(width, signed, _) => IntegerKind(width, signed)
    case Boolean(_) => BooleanKind
    case SignalValue(_) => SignalKind
    case Text(_) => TextKind
  }

  /** The values of the C++ types. */
  predicate Proper(v: Value) {
    match v
    case Integer(width, signed, number) =>
      Width(width) && if signed then FitsSigned(number, width) else 0 <= number < Power(width)
    case SignalValue(code) => FitsSigned(code, 8)
    case _ => true
  }

  /** operator<<: the bytes of the part that holds the value. */
  function Encoded(host: Order, v: Value): seq<Byte> {
    match v
    case Integer(width, signed, number) =>
      Memory(host, Swapped(host, ToUnsigned(number, width), width), width)
    case Boolean(truth) => [if truth then 1 else 0]
    case SignalValue(code) => Memory(host, Swapped(host, ToUnsigned(code, 8), 8), 8)
    case Text(bytes) => bytes
  }

  function IntegerFrom(host: Order, part: seq<Byte>, signed: bool): int {
    var u := Swapped(host, FromMemory(host, part), |part|);
    if signed then ToSigned(u, |part|) else u
  }

  /** get: the value of a part. A part of another size fails an assertion. */
  function Decoded(host: Order, kind: Kind, part: seq<Byte>): Option<Value> {
    match kind
    case IntegerKind(width, signed) =>
      if |part| != width then None else Some(Integer(width, signed, IntegerFrom(host, part, signed)))
    case BooleanKind => if |part| != 1 then None else Some(Boolean(part[0] != 0))
    case SignalKind => if |part| != 8 then None else Some(SignalValue(IntegerFrom(host, part, true)))
    case TextKind => Some(Text(part))
  }

  // ---- What is written is read back, on any host ----

  lemma IntegerIsNetworkOrder(host: Order, number: int, w: nat)
    ensures Memory(host, Swapped(host, ToUnsigned(number, w), w), w) == Network(ToUnsigned(number, w), w)
  {
    SwapIsNetworkOrder(host, ToUnsigned(number, w), w);
  }

  lemma IntegerReadBack(reader: Order, number: int, w: nat, signed: bool)
    requires if signed then FitsSigned(number, w) else 0 <= number < Power(w)
    ensures IntegerFrom(reader, Network(ToUnsigned(number, w), w), signed) == number
  {
    SwapFromMemory(reader, Network(ToUnsigned(number, w), w));
    NetworkInverse(ToUnsigned(number, w), w);
    if signed {
      CastsInverse(number, w);
    } else {
      Modulo(number, Power(w), 0);
    }
  }

  /** The wire format does not depend on the writer's host, and a reader on any
      host gets the value back. */
  lemma ReadBack(writer: Order, reader: Order, v: Value)
    requires Proper(v)
    ensures Encoded(writer, v) == Encoded(BigEndian, v)
    ensures Decoded(reader, KindOf(v), Encoded(writer, v)) == Some(v)
  {
    match v
    case Integer(width, signed, number) =>
      IntegerIsNetworkOrder(writer, number, width);
      IntegerIsNetworkOrder(BigEndian, number, width);
      IntegerReadBack(reader, number, width, signed);
    case SignalValue(code) =>
      IntegerIsNetworkOrder(writer, code, 8);
      IntegerIsNetworkOrder(BigEndian, code, 8);
      IntegerReadBack(reader, code, 8, true);
    case _ =>
  }

  // ---- The bytes of a part ----

  /** What the part that holds a value looks like: an integer or signal is its
      bytes modulo 256^w, most significant first; a bool is 1 or 0; a string is
      its own bytes. */
  predicate OnTheWire(v: Value, part: seq<Byte>) {
    match v
    case Integer(width, _, number) => BigEndianBytes(part, number, width)
    case Boolean(truth) => part == if truth then [1] else [0]
    case SignalValue(code) => BigEndianBytes(part, code, 8)
    case Text(bytes) => part == bytes
  }

  lemma IntegerEncodedIs(host: Order, number: int, w: nat, part: seq<Byte>)
    ensures part == Memory(host, Swapped(host, ToUnsigned(number, w), w), w) <==> BigEndianBytes(part, number, w)
  {
    IntegerIsNetworkOrder(host, number, w);
    NetworkIsBigEndian(part, number, w);
  }

  lemma EncodedIs(host: Order, v: Value, part: seq<Byte>)
    ensures part == Encoded(host, v) <==> OnTheWire(v, part)
  {
    match v
    case Integer(width, _, number) => IntegerEncodedIs(host, number, width, part);
    case SignalValue(code) => IntegerEncodedIs(host, code, 8, part);
    case _ =>
  }

  /** The part has a size that the type can be read from. */
  predicate FitsKind(kind: Kind, part: seq<Byte>) {
    match kind
    case IntegerKind(width, _) => |part| == width
    case BooleanKind => |part| == 1
    case SignalKind => |part| == 8
    case TextKind => true
  }

  /** The value is of the type, in its range, and stands in the part; every byte
      but 0 is true. */
  predicate ReadsAs(kind: Kind, part: seq<Byte>, v: Value) {
    match kind
    case IntegerKind(width, signed) =>
      && v.Integer? && v.width == width && v.signed == signed && BigEndianBytes(part, v.number, width)
      && if signed then FitsSigned(v.number, width) else 0 <= v.number < Power(width)
    case BooleanKind => v.Boolean? && |part| == 1 && (v.truth <==> part != [0])
    case SignalKind => v.SignalValue? && BigEndianBytes(part, v.code, 8) && FitsSigned(v.code, 8)
    case TextKind => v == Text(part)
  }

  lemma IntegerFromIs(host: Order, part: seq<Byte>, signed: bool, number: int)
    ensures IntegerFrom(host, part, signed) == number <==>
            && BigEndianBytes(part, number, |part|)
            && if signed then FitsSigned(number, |part|) else 0 <= number < Power(|part|)
  {
    var w := |part|;
    var u := FromNetwork(part);
    SwapFromMemory(host, part);
    FromNetworkInverse(part);
    NetworkIsBigEndian(part, number, w);
    if IntegerFrom(host, part, signed) == number {
      CastBack(u, w, signed, number);
    }
    if part == Network(number % Power(w), w) && if signed then FitsSigned(number, w) else 0 <= number < Power(w) {
      IntegerReadBack(host, number, w, signed);
    }
  }

  lemma CastBack(u: nat, w: nat, signed: bool, number: int)
    requires u < Power(w) && number == if signed then ToSigned(u, w) else u
    ensures number % Power(w) == u && if signed then FitsSigned(number, w) else 0 <= number < Power(w)
  {
    var q := if number == u then 0 else 1;
    assert q * Power(w) == u - number;
    Modulo(number, Power(w), q);
  }

  /** Reading a part of any size on any host, whoever wrote it: it succeeds
      exactly when the size fits, with the value that stands in the part. */
  lemma DecodedIs(host: Order, kind: Kind, part: seq<Byte>, v: Value)
    ensures Decoded(host, kind, part).Some? <==> FitsKind(kind, part)
    ensures Decoded(host, kind, part) == Some(v) <==> ReadsAs(kind, part, v)
  {
    match kind
    case IntegerKind(width, signed) =>
      if v.Integer? {
        IntegerFromIs(host, part, signed, v.number);
      }
    case SignalKind =>
      if v.SignalValue? {
        IntegerFromIs(host, part, true, v.code);
      }
    case _ =>
  }

  function AllEncoded(host: Order, vs: seq<Value>): (parts: seq<seq<Byte>>)
    ensures |parts| == |vs|
    ensures forall i | 0 <= i < |vs| :: parts[i] == Encoded(host, vs[i])
  {
    seq(|vs|, i requires 0 <= i < |vs| => Encoded(host, vs[i]))
  }

  /** Reading parts from place `cursor` on as values of the given types. */
  function AllDecoded(host: Order, kinds: seq<Kind>, parts: seq<seq<Byte>>, cursor: nat): Option<seq<Value>>
    decreases |kinds|
  {
    if kinds == [] then Some([])
    else
      var last := |kinds| - 1;
      match AllDecoded(host, kinds[..last], parts, cursor)
      case None => None
      case Some(vs) =>
        if cursor + last >= |parts| then None
        else
          match Decoded(host, kinds[last], parts[cursor + last])
          case None => None
          case Some(v) => Some(vs + [v])
  }

  function KindsOf(vs: seq<Value>): seq<Kind> {
    seq(|vs|, i requires 0 <= i < |vs| => KindOf(vs[i]))
  }

  lemma {:induction false} FailureStays(host: Order, kinds: seq<Kind>, parts: seq<seq<Byte>>, cursor: nat, n: nat)
    requires n <= |kinds| && AllDecoded(host, kinds[..n], parts, cursor) == None
    ensures AllDecoded(host, kinds, parts, cursor) == None
    decreases |kinds|
  {
    if n < |kinds| {
      assert kinds[..|kinds| - 1][..n] == kinds[..n];
      FailureStays(host, kinds[..|kinds| - 1], parts, cursor, n);
    } else {
      assert kinds[..n] == kinds;
    }
  }

  lemma DecodedNext(host: Order, kinds: seq<Kind>, k: Kind, parts: seq<seq<Byte>>, cursor: nat, vs: seq<Value>, v: Value)
    requires cursor + |kinds| < |parts|
    requires AllDecoded(host, kinds, parts, cursor) == Some(vs)
    requires Decoded(host, k, parts[cursor + |kinds|]) == Some(v)
    ensures AllDecoded(host, kinds + [k], parts, cursor) == Some(vs + [v])
  {
    assert (kinds + [k])[..|kinds|] == kinds;
  }

  lemma KindsOfLast(vs: seq<Value>)
    requires vs != []
    ensures KindsOf(vs) == KindsOf(vs[..|vs| - 1]) + [KindOf(vs[|vs| - 1])]
  {
  }

  /** The values stand in the parts from place `cursor` on. */
  ghost predicate Streamed(writer: Order, vs: seq<Value>, parts: seq<seq<Byte>>, cursor: nat) {
    && cursor + |vs| <= |parts|
    && forall i | 0 <= i < |vs| :: Proper(vs[i]) && parts[cursor + i] == Encoded(writer, vs[i])
  }

  lemma LastStreamed(writer: Order, reader: Order, vs: seq<Value>, parts: seq<seq<Byte>>, cursor: nat)
    requires Streamed(writer, vs, parts, cursor) && vs != []
    ensures var last := |vs| - 1;
            && Streamed(writer, vs[..last], parts, cursor)
            && Decoded(reader, KindOf(vs[last]), parts[cursor + last]) == Some(vs[last])
  {
    ReadBack(writer, reader, vs[|vs| - 1]);
  }

  lemma LastRead(reader: Order, vs: seq<Value>, parts: seq<seq<Byte>>, cursor: nat)
    requires vs != [] && cursor + |vs| <= |parts|
    requires var last := |vs| - 1;
             && AllDecoded(reader, KindsOf(vs[..last]), parts, cursor) == Some(vs[..last])
             && Decoded(reader, KindOf(vs[last]), parts[cursor + last]) == Some(vs[last])
    ensures AllDecoded(reader, KindsOf(vs), parts, cursor) == Some(vs)
  {
    var last := |vs| - 1;
    KindsOfLast(vs);
    DecodedNext(reader, KindsOf(vs[..last]), KindOf(vs[last]), parts, cursor, vs[..last], vs[last]);
    assert vs == vs[..last] + [vs[last]];
  }

  /** A list of mixed values streamed in on one host and read back on another
      by their types is the list, whatever stands before and behind it. */
  lemma {:induction false} StreamRoundTrip(writer: Order, reader: Order, vs: seq<Value>, parts: seq<seq<Byte>>,
                                           cursor: nat)
    requires Streamed(writer, vs, parts, cursor)
    ensures AllDecoded(reader, KindsOf(vs), parts, cursor) == Some(vs)
    decreases |vs|
  {
    if vs != [] {
      LastStreamed(writer, reader, vs, parts, cursor);
      StreamRoundTrip(writer, reader, vs[..|vs| - 1], parts, cursor);
      LastRead(reader, vs, parts, cursor);
    }
  }

  // ---- Edits between reads ----

  lemma ReadsFrom(writer: Order, reader: Order, ws: seq<Value>, k: nat)
    requires k <= |ws| && forall i | 0 <= i < |ws| :: Proper(ws[i])
    ensures AllDecoded(reader, KindsOf(ws[k..]), AllEncoded(writer, ws), k) == Some(ws[k..])
  {
    assert Streamed(writer, ws[k..], AllEncoded(writer, ws), k);
    StreamRoundTrip(writer, reader, ws[k..], AllEncoded(writer, ws), k);
  }

  /** The read cursor counts parts, and edits leave it where it is. After k
      values have been read, a push_front makes the reader see the last of them
      again. */
  lemma PushFrontIsReadAgain(writer: Order, reader: Order, vs: seq<Value>, v: Value, k: nat)
    requires Proper(v) && forall j | 0 <= j < |vs| :: Proper(vs[j])
    requires 0 < k <= |vs|
    ensures AllDecoded(reader, KindsOf(vs[k - 1..]), [Encoded(writer, v)] + AllEncoded(writer, vs), k) == Some(vs[k - 1..])
  {
    PushedEncoded(writer, vs, v);
    BehindFirst(v, vs, k);
    ReadsFrom(writer, reader, [v] + vs, k);
  }

  lemma BehindFirst<T>(x: T, xs: seq<T>, k: nat)
    requires 0 < k <= |xs| + 1
    ensures ([x] + xs)[k..] == xs[k - 1..]
  {
  }

  lemma PushedEncoded(writer: Order, vs: seq<Value>, v: Value)
    ensures [Encoded(writer, v)] + AllEncoded(writer, vs) == AllEncoded(writer, [v] + vs)
  {
  }

  /** The removal of a part makes the reader skip a value if the part was read
      already, and otherwise only takes that value away. */
  lemma RemovalShiftsReading(writer: Order, reader: Order, vs: seq<Value>, k: nat, i: nat)
    requires forall j | 0 <= j < |vs| :: Proper(vs[j])
    requires k < |vs| && i < |vs|
    ensures var parts := AllEncoded(writer, vs);
            var rest := if i < k then vs[k + 1..] else vs[k..i] + vs[i + 1..];
            AllDecoded(reader, KindsOf(rest), parts[..i] + parts[i + 1..], k) == Some(rest)
  {
    RemovedEncoded(writer, vs, i);
    RemovedRest(vs, k, i);
    ReadsFrom(writer, reader, vs[..i] + vs[i + 1..], k);
  }

  lemma RemovedRest(vs: seq<Value>, k: nat, i: nat)
    requires k < |vs| && i < |vs|
    ensures (vs[..i] + vs[i + 1..])[k..] == if i < k then vs[k + 1..] else vs[k..i] + vs[i + 1..]
  {
  }

  lemma RemovedEncoded(writer: Order, vs: seq<Value>, i: nat)
    requires i < |vs|
    ensures var parts := AllEncoded(writer, vs);
            parts[..i] + parts[i + 1..] == AllEncoded(writer, vs[..i] + vs[i + 1..])
  {
  }

  // ---- Signals ----

  const HEADER: int := 0x77_6655_4433_2211
  const OK: int := HEADER * 256
  const KO: int := HEADER * 256 + 1
  const STOP: int := HEADER * 256 + 2
  const TEST: int := HEADER * 256 + 0xFF

  const MAGIC: seq<Byte> := [0x77, 0x66, 0x55, 0x44, 0x33, 0x22, 0x11]

  /** One part of eight bytes whose integer, shifted right by one byte (keeping
      the sign), is the header. */
  predicate IsSignal(host: Order, parts: seq<seq<Byte>>) {
    |parts| == 1 && |parts[0]| == 8 && IntegerFrom(host, parts[0], true) / 256 == HEADER
  }

  lemma MagicBytes()
    ensures Power(7) == 0x100_0000_0000_0000 && Network(HEADER, 7) == MAGIC
  {
    var n := [HEADER, HEADER / 256, HEADER / 0x1_0000, HEADER / 0x100_0000, HEADER / 0x1_0000_0000,
              HEADER / 0x100_0000_0000, HEADER / 0x1_0000_0000_0000];
    assert Little(n[6], 1) == [0x77] + Little(0, 0);
    assert Little(n[5], 2) == [0x66] + Little(n[6], 1);
    assert Little(n[4], 3) == [0x55] + Little(n[5], 2);
    assert Little(n[3], 4) == [0x44] + Little(n[4], 3);
    assert Little(n[2], 5) == [0x33] + Little(n[3], 4);
    assert Little(n[1], 6) == [0x22] + Little(n[2], 5);
    assert Little(n[0], 7) == [0x11] + Little(n[1], 6);
    assert Power(7) == 0x100_0000_0000_0000 by {
      assert Power(1) == 256 && Power(2) == 0x1_0000 && Power(3) == 0x100_0000 && Power(4) == 0x1_0000_0000;
      assert Power(5) == 0x100_0000_0000 && Power(6) == 0x1_0000_0000_0000;
    }
  }

  /** The integer of network bytes without the last byte. */
  lemma ShiftedBytes(bs: seq<Byte>)
    requires bs != []
    ensures FromNetwork(bs) == 256 * FromNetwork(bs[..|bs| - 1]) + bs[|bs| - 1]
  {
    var r := Reversed(bs);
    assert r[1..] == Reversed(bs[..|bs| - 1]);
    assert r[0] == bs[|bs| - 1];
  }

  lemma SignedShift(u: nat, head: nat, last: Byte)
    requires u == 256 * head + last && head < 0x100_0000_0000_0000
    ensures Power(8) == 0x1_0000_0000_0000_0000
    ensures ToSigned(u, 8) / 256 == HEADER <==> head == HEADER
    ensures head == HEADER ==> ToSigned(u, 8) == OK + last
  {
    MagicBytes();
    assert Power(8) == 256 * Power(7);
    var s := ToSigned(u, 8);
    assert s == u || s == 256 * (head - 0x100_0000_0000_0000) + last;
    assert s / 256 == head || s / 256 == head - 0x100_0000_0000_0000;
  }

  lemma MagicIsHeader(bs: seq<Byte>)
    requires |bs| == 7
    ensures FromNetwork(bs) < 0x100_0000_0000_0000
    ensures FromNetwork(bs) == HEADER <==> bs == MAGIC
  {
    MagicBytes();
    FromNetworkInverse(bs);
    NetworkInverse(HEADER, 7);
  }

  /** A message is a signal exactly when it is a single part of eight bytes that
      begins with the seven magic ones. */
  lemma SignalIffMagic(host: Order, parts: seq<seq<Byte>>)
    ensures IsSignal(host, parts) <==> |parts| == 1 && |parts[0]| == 8 && parts[0][..7] == MAGIC
    ensures IsSignal(host, parts) ==> IntegerFrom(host, parts[0], true) == OK + parts[0][7]
  {
    if |parts| == 1 && |parts[0]| == 8 {
      var part := parts[0];
      SwapFromMemory(host, part);
      ShiftedBytes(part);
      MagicIsHeader(part[..7]);
      SignedShift(FromNetwork(part), FromNetwork(part[..7]), part[7]);
    }
  }

  /** Each signal is sent as one part, recognised as a signal, and read back. */
  lemma SignalRoundTrip(sender: Order, receiver: Order, code: int)
    requires OK <= code <= TEST
    ensures IsSignal(receiver, [Encoded(sender, SignalValue(code))])
    ensures Decoded(receiver, SignalKind, Encoded(sender, SignalValue(code))) == Some(SignalValue(code))
  {
    assert Proper(SignalValue(code)) by {
      MagicBytes();
      assert Power(8) == 256 * Power(7);
    }
    ReadBack(sender, receiver, SignalValue(code));
    assert code / 256 == HEADER;
  }

  /** The bytes of the declared signals: the magic ones, and 0 for ok, 1 for ko, 2
      for stop and 255 for test. */
  lemma DeclaredSignals(host: Order, code: int, last: Byte)
    requires (code == OK && last == 0) || (code == KO && last == 1) || (code == STOP && last == 2) || (code == TEST && last == 0xFF)
    ensures Encoded(host, SignalValue(code)) == MAGIC + [last]
  {
    var part := Encoded(host, SignalValue(code));
    SignalRoundTrip(host, host, code);
    SignalIffMagic(host, [part]);
    assert part == part[..7] + [part[7]];
  }

  // ---- The message object ----

  /** A frame of a message; `sent` once zmq has taken its data. */
  datatype Part = Part(data: seq<Byte>, sent: bool)

  /** The bytes of the parts. */
  function Data(parts: seq<Part>): (bytes: seq<seq<Byte>>)
    ensures |bytes| == |parts| && forall i | 0 <= i < |parts| :: bytes[i] == parts[i].data
  {
    seq(|parts|, i requires 0 <= i < |parts| => parts[i].data)
  }

  class Message {
    const host: Order
    var parts: seq<Part>
    var cursor: nat

    constructor (host: Order)
      ensures parts == [] && cursor == 0 && this.host == host
    {
      this.host := host;
      parts, cursor := [], 0;
    }

    /** A message of the given parts, none of them sent. */
    constructor OfParts(host: Order, data: seq<seq<Byte>>)
      ensures Data(parts) == data && cursor == 0 && this.host == host
      ensures forall i | 0 <= i < |parts| :: !parts[i].sent
    {
      this.host := host;
      parts, cursor := seq(|data|, i requires 0 <= i < |data| => Part(data[i], false)), 0;
    }

    /** operator<< */
    method Write(v: Value)
      modifies this`parts
      ensures parts == old(parts) + [Part(Encoded(host, v), false)]
      ensures OnTheWire(v, parts[|old(parts)|].data)
    {
      EncodedIs(host, v, Encoded(host, v));
      parts := parts + [Part(Encoded(host, v), false)];
    }

    method PushFront(v: Value)
      modifies this`parts
      ensures parts == [Part(Encoded(host, v), false)] + old(parts)
      ensures OnTheWire(v, parts[0].data)
    {
      EncodedIs(host, v, Encoded(host, v));
      parts := [Part(Encoded(host, v), false)] + parts;
    }

    method PopFront()
      requires parts != []
      modifies this`parts
      ensures parts == old(parts)[1..]
    {
      parts := parts[1..];
    }

    method PopBack()
      requires parts != []
      modifies this`parts
      ensures parts == old(parts)[..|old(parts)| - 1]
    {
      parts := parts[..|parts| - 1];
    }

    method Remove(i: nat)
      requires i < |parts|
      modifies this`parts
      ensures parts == old(parts)[..i] + old(parts)[i + 1..]
    {
      parts := parts[..i] + parts[i + 1..];
    }

    /** copy: the parts, with their marks, but not the cursor. */
    method CopyFrom(source: Message)
      modifies this`parts
      ensures parts == old(source.parts)
    {
      var count := |source.parts|;
      if this != source {
        parts := seq(count, _ => Part([], false));
        for i := 0 to count
          invariant |parts| == count && source.parts == old(source.parts)
          invariant parts[..i] == source.parts[..i]
        {
          parts := parts[i := source.parts[i]];
        }
      }
    }

    /** Move assignment: parts and cursor are handed over, and the source is an
        empty message again. A message moved to itself loses its cursor and keeps
        whatever parts the standard library leaves of a vector moved to itself,
        given as `remains`. */
    method MoveFrom(source: Message, remains: seq<Part>)
      modifies this`parts, this`cursor, source`parts, source`cursor
      ensures this != source ==> parts == old(source.parts) && cursor == old(source.cursor)
      ensures this != source ==> source.parts == [] && source.cursor == 0
      ensures this == source ==> parts == remains && cursor == 0
    {
      cursor := source.cursor;
      source.cursor := 0;
      if this == source {
        parts := remains;
      } else {
        parts := source.parts;
        source.parts := [];
      }
    }

    /** operator>>: the read cursor moves on even when the read throws. */
    method Read(kind: Kind) returns (r: Result<Value>)
      modifies this`cursor
      ensures cursor == old(cursor) + 1
      ensures r.Success? <==> old(cursor) < |parts| && Decoded(host, kind, parts[old(cursor)].data).Some?
      ensures r.Success? ==> Decoded(host, kind, parts[old(cursor)].data) == Some(r.value)
      ensures r.Success? <==> old(cursor) < |parts| && FitsKind(kind, parts[old(cursor)].data)
      ensures r.Success? ==> ReadsAs(kind, parts[old(cursor)].data, r.value)
    {
      var part := cursor;
      cursor := cursor + 1;
      if part >= |parts| {
        return Failure("attempting to request a message part outside the valid range");
      }
      match Decoded(host, kind, parts[part].data)
      case Some(v) =>
        DecodedIs(host, kind, parts[part].data, v);
        return Success(v);
      case None =>
        DecodedIs(host, kind, parts[part].data, Text([]));
        return Failure("assertion failed");
    }

    /** Streams a list of values in. */
    method WriteAll(vs: seq<Value>)
      modifies this`parts
      ensures |parts| == |old(parts)| + |vs| && parts[..|old(parts)|] == old(parts)
      ensures forall i | 0 <= i < |vs| :: parts[|old(parts)| + i] == Part(Encoded(host, vs[i]), false)
    {
      for n := 0 to |vs|
        invariant |parts| == |old(parts)| + n && parts[..|old(parts)|] == old(parts)
        invariant forall i | 0 <= i < n :: parts[|old(parts)| + i] == Part(Encoded(host, vs[i]), false)
      {
        Write(vs[n]);
      }
    }

    /** Mixed values streamed into a message on one host are streamed out of it
        on another. */
    static method Transfer(writer: Order, reader: Order, vs: seq<Value>) returns (r: Result<seq<Value>>)
      requires forall i | 0 <= i < |vs| :: Proper(vs[i])
      ensures r == Success(vs)
    {
      var message := new Message(writer);
      message.WriteAll(vs);
      var received := new Message.OfParts(reader, Data(message.parts));
      StreamRoundTrip(writer, reader, vs, Data(received.parts), 0);
      r := received.ReadAll(KindsOf(vs));
    }

    /** Streams values of the given types out; the first read that throws ends
        it, with the cursor behind the offending part. */
    method ReadAll(kinds: seq<Kind>) returns (r: Result<seq<Value>>)
      modifies this`cursor
      ensures match AllDecoded(host, kinds, Data(parts), old(cursor))
              case Some(vs) => r == Success(vs) && cursor == old(cursor) + |kinds|
              case None => r.Failure? && cursor <= old(cursor) + |kinds|
    {
      ghost var start := cursor;
      var read := [];
      for n := 0 to |kinds|
        invariant cursor == start + n
        invariant AllDecoded(host, kinds[..n], Data(parts), start) == Some(read)
      {
        assert kinds[..n + 1][..n] == kinds[..n];
        var v := Read(kinds[n]);
        if v.Failure? {
          FailureStays(host, kinds, Data(parts), start, n + 1);
          return Failure(v.error);
        }
        read := read + [v.value];
      }
      assert kinds[..|kinds|] == kinds;
      return Success(read);
    }
  }
}

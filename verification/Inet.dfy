/**
 * Byte order. An unsigned integer of `w` bytes lies in memory in the order of
 * the host; htons, htonl and swap_if_needed give the integer whose bytes in
 * memory are in network order, which is big endian.
 */
module Inet {

  type Byte = b: nat | b < 256

  datatype Order = BigEndian | LittleEndian

  function Power(w: nat): (p: nat)
    ensures p > 0
  {
    if w == 0 then 1 else 256 * Power(w - 1)
  }

  /** The `w` bytes of `v`, least significant byte first. */
  function Little(v: nat, w: nat): (bs: seq<Byte>)
    ensures |bs| == w
    decreases w
  {
    if w == 0 then [] else [v % 256] + Little(v / 256, w - 1)
  }

  function FromLittle(bs: seq<Byte>): nat {
    if bs == [] then 0 else bs[0] + 256 * FromLittle(bs[1..])
  }

  function Reversed(bs: seq<Byte>): (r: seq<Byte>)
    ensures |r| == |bs|
    ensures forall i | 0 <= i < |bs| :: r[i] == bs[|bs| - 1 - i]
  {
    seq(|bs|, i requires 0 <= i < |bs| => bs[|bs| - 1 - i])
  }

  /** The bytes in network order. */
  function Network(v: nat, w: nat): (bs: seq<Byte>)
    ensures |bs| == w
  {
    Reversed(Little(v, w))
  }

  function FromNetwork(bs: seq<Byte>): nat {
    FromLittle(Reversed(bs))
  }

  /** The bytes as the host keeps them in memory. */
  function Memory(host: Order, v: nat, w: nat): (bs: seq<Byte>)
    ensures |bs| == w
  {
    if host.BigEndian? then Network(v, w) else Little(v, w)
  }

  function FromMemory(host: Order, bs: seq<Byte>): nat {
    if host.BigEndian? then FromNetwork(bs) else FromLittle(bs)
  }

  /** htons, htonl, htonll and their inverses, for integers of `w` bytes. */
  function Swapped(host: Order, v: nat, w: nat): nat {
    if host.BigEndian? then v else FromLittle(Reversed(Little(v, w)))
  }

  lemma {:induction false} LittleInverse(v: nat, w: nat)
    requires v < Power(w)
    ensures FromLittle(Little(v, w)) == v
    decreases w
  {
    if w > 0 {
      LittleInverse(v / 256, w - 1);
      assert Little(v, w)[1..] == Little(v / 256, w - 1);
    }
  }

  lemma {:induction false} FromLittleInverse(bs: seq<Byte>)
    ensures FromLittle(bs) < Power(|bs|)
    ensures Little(FromLittle(bs), |bs|) == bs
  {
    if bs != [] {
      FromLittleInverse(bs[1..]);
      var rest := FromLittle(bs[1..]);
      assert (bs[0] + 256 * rest) % 256 == bs[0] && (bs[0] + 256 * rest) / 256 == rest;
      assert bs == [bs[0]] + bs[1..];
    }
  }

  lemma {:induction false} LittleAt(v: nat, w: nat, i: nat)
    requires i < w
    ensures Little(v, w)[i] == v / Power(i) % 256
    decreases w
  {
    if i > 0 {
      LittleAt(v / 256, w - 1, i - 1);
      DividedTwice(v, Power(i - 1));
    }
  }

  lemma DividedTwice(v: nat, p: nat)
    requires p > 0
    ensures v / 256 / p == v / (256 * p)
  {
    var q, r := v / 256, v % 256;
    var k, m := q / p, q % p;
    assert v == 256 * (k * p + m) + r;
    assert v == k * (256 * p) + (256 * m + r);
    assert 256 * m + r < 256 * p;
    QuotientIs(v, 256 * p, k, 256 * m + r);
  }

  lemma QuotientIs(v: nat, p: nat, k: nat, r: nat)
    requires v == k * p + r && r < p
    ensures v / p == k
  {
    var q := v / p;
    assert q * p + v % p == v;
    assert q < k ==> (q + 1) * p <= k * p;
    assert q > k ==> (k + 1) * p <= q * p;
  }

  /** The bytes of `number`, reduced modulo 256^w, most significant byte first. */
  predicate BigEndianBytes(bs: seq<Byte>, number: int, w: nat) {
    |bs| == w && forall i | 0 <= i < w :: bs[i] == number % Power(w) / Power(w - 1 - i) % 256
  }

  lemma NetworkIsBigEndian(bs: seq<Byte>, number: int, w: nat)
    ensures BigEndianBytes(bs, number, w) <==> bs == Network(number % Power(w), w)
  {
    var v := number % Power(w);
    forall i | 0 <= i < w ensures Network(v, w)[i] == v / Power(w - 1 - i) % 256 {
      LittleAt(v, w, w - 1 - i);
    }
  }

  lemma ReversedTwice(bs: seq<Byte>)
    ensures Reversed(Reversed(bs)) == bs
  {
  }

  /** Network bytes and integers below 256^w are in bijection. */
  lemma NetworkInverse(v: nat, w: nat)
    requires v < Power(w)
    ensures FromNetwork(Network(v, w)) == v
  {
    ReversedTwice(Little(v, w));
    LittleInverse(v, w);
  }

  lemma FromNetworkInverse(bs: seq<Byte>)
    ensures FromNetwork(bs) < Power(|bs|)
    ensures Network(FromNetwork(bs), |bs|) == bs
  {
    FromLittleInverse(Reversed(bs));
    ReversedTwice(bs);
  }

  /** On either host the conversion leaves the network bytes in memory, and
      doing it twice gives the integer back. */
  lemma SwapIsNetworkOrder(host: Order, v: nat, w: nat)
    requires v < Power(w)
    ensures Swapped(host, v, w) < Power(w)
    ensures Memory(host, Swapped(host, v, w), w) == Network(v, w)
    ensures Swapped(host, Swapped(host, v, w), w) == v
  {
    FromLittleInverse(Reversed(Little(v, w)));
    ReversedTwice(Little(v, w));
    LittleInverse(v, w);
  }

  /** Reading: the integer whose bytes were received. */
  lemma SwapFromMemory(host: Order, bs: seq<Byte>)
    ensures Swapped(host, FromMemory(host, bs), |bs|) == FromNetwork(bs)
  {
    FromLittleInverse(bs);
  }

  /** The host's order as the code finds it out: htonl leaves 42 alone. */
  function DetectedOrder(host: Order): Order {
    if Swapped(host, 42, 4) == 42 then BigEndian else LittleEndian
  }

  lemma DetectionIsRight(host: Order)
    ensures DetectedOrder(host) == host
  {
    if host.LittleEndian? {
      var bs := Little(42, 4);
      assert bs == [42] + Little(0, 3) && Little(0, 3) == [0] + Little(0, 2);
      assert Reversed(bs)[0] == bs[3] && Little(0, 2) == [0] + Little(0, 1) && Little(0, 1) == [0] + Little(0, 0);
      assert bs[3] == 0;
      var swapped := FromLittle(Reversed(bs));
      assert swapped % 256 == 0;
    }
  }

  /** swap_if_needed: the eight bytes of the integer are swapped pairwise, in
      place. */
  method SwapIfNeeded(host: Order, v: nat) returns (r: nat)
    requires v < Power(8)
    ensures r == Swapped(host, v, 8)
  {
    DetectionIsRight(host);
    if DetectedOrder(host) == BigEndian {
      return v;
    }
    var memory := Memory(host, v, 8);
    var bytes := new Byte[8](i requires 0 <= i < 8 => memory[i]);
    assert bytes[..] == memory;
    SwapPairs(bytes);
    r := FromMemory(host, bytes[..]);
  }

  method SwapPairs(bytes: array<Byte>)
    requires bytes.Length == 8
    modifies bytes
    ensures bytes[..] == Reversed(old(bytes[..]))
  {
    Swap(bytes, 0, 7);
    Swap(bytes, 1, 6);
    Swap(bytes, 2, 5);
    Swap(bytes, 3, 4);
  }

  method Swap(bytes: array<Byte>, i: nat, j: nat)
    requires i < bytes.Length && j < bytes.Length
    modifies bytes
    ensures bytes[..] == old(bytes[..])[i := old(bytes[j])][j := old(bytes[i])]
  {
    bytes[i], bytes[j] := bytes[j], bytes[i];
  }

  // ---- Two's complement ----

  /** static_cast from a signed to the unsigned integer of `w` bytes: reduction
      modulo 256^w. */
  function ToUnsigned(v: int, w: nat): nat {
    v % Power(w)
  }

  /** static_cast from an unsigned to the signed integer of `w` bytes. */
  function ToSigned(u: nat, w: nat): int {
    if 2 * u < Power(w) then u else u - Power(w)
  }

  predicate FitsSigned(v: int, w: nat) {
    0 <= 2 * v + Power(w) && 2 * v < Power(w)
  }

  lemma Modulo(v: int, p: nat, q: int)
    requires p > 0 && 0 <= v + q * p < p
    ensures v % p == v + q * p
  {
    var r := v % p;
    assert v == v / p * p + r;
    var k := v / p + q;
    assert k * p == v + q * p - r;
    assert k >= 1 ==> k * p >= p;
    assert k <= -1 ==> k * p + p <= 0;
  }

  /** The casts lose nothing. */
  lemma CastsInverse(v: int, w: nat)
    requires FitsSigned(v, w)
    ensures ToUnsigned(v, w) < Power(w) && ToSigned(ToUnsigned(v, w), w) == v
  {
    var q := if v >= 0 then 0 else 1;
    assert q * Power(w) == if v >= 0 then 0 else Power(w);
    Modulo(v, Power(w), q);
  }
}

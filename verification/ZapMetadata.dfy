/**
 * The metadata frame of a ZAP reply: for each property a name of up to 255
 * bytes after its length in one byte, and a value after its length in four
 * bytes in network order. This is the layout of metadata in ZMTP 3.0 (ZeroMQ
 * RFC 23, "Formal Grammar").
 */
module ZapMetadata {
  import opened Wrappers
  import opened Inet
  import PrefixCode

  type Bytes = seq<Byte>

  datatype Property = Property(name: Bytes, value: Bytes)

  const VALUE_LIMIT: nat := 0x1_0000_0000

  /** What serialize_metadata asserts of each property. */
  predicate Fits(p: Property) {
    |p.name| < 256 && |p.value| < VALUE_LIMIT
  }

  predicate AllFit(properties: seq<Property>) {
    PrefixCode.AllFit(Fits, properties)
  }

  /** The casts to one and to four bytes keep the low bytes of a length. */
  function Layout(p: Property): Bytes {
    [|p.name| % 256] + p.name + Network(|p.value|, 4) + p.value
  }

  function Serialized(properties: seq<Property>): Bytes {
    PrefixCode.Joined(Layout, properties)
  }

  /** Appends the properties one by one, on a host of either byte order; a
      property that does not fit fails an assertion. */
  method SerializeMetadata(host: Order, properties: seq<Property>) returns (r: Option<Bytes>)
    ensures r.Some? <==> AllFit(properties)
    ensures r.Some? ==> r.value == Serialized(properties)
  {
    var metadata: Bytes := [];
    var i := 0;
    while i < |properties|
      invariant 0 <= i <= |properties|
      invariant AllFit(properties[..i])
      invariant metadata == Serialized(properties[..i])
    {
      var p := properties[i];
      if !Fits(p) {
        return None;
      }
      metadata := Append(host, metadata, p);
      OneMore(properties, i);
      i := i + 1;
    }
    assert properties[..i] == properties;
    return Some(metadata);
  }

  lemma OneMore(properties: seq<Property>, i: nat)
    requires i < |properties|
    ensures Serialized(properties[..i + 1]) == Serialized(properties[..i]) + Layout(properties[i])
    ensures AllFit(properties[..i]) && Fits(properties[i]) ==> AllFit(properties[..i + 1])
  {
    assert properties[..i + 1] == properties[..i] + [properties[i]];
    PrefixCode.JoinedNext(Layout, properties[..i], properties[i]);
    PrefixCode.AllFitNext(Fits, properties[..i], properties[i]);
  }

  method Append(host: Order, metadata: Bytes, p: Property) returns (more: Bytes)
    requires Fits(p)
    ensures more == metadata + Layout(p)
  {
    more := metadata + [|p.name| % 256];
    more := more + p.name;
    var valueLength := Swapped(host, |p.value|, 4);
    var size := Memory(host, valueLength, 4);
    LengthInMemory(host, |p.value|);
    more := more + size;
    more := more + p.value;
    Regroup(metadata, [|p.name| % 256], p.name, size, p.value);
  }

  lemma Regroup(a: Bytes, b: Bytes, c: Bytes, d: Bytes, e: Bytes)
    ensures a + b + c + d + e == a + (b + c + d + e)
  {
  }

  lemma LengthInMemory(host: Order, n: nat)
    requires n < VALUE_LIMIT
    ensures Memory(host, Swapped(host, n, 4), 4) == Network(n, 4)
  {
    LengthFits(n);
    SwapIsNetworkOrder(host, n, 4);
  }

  lemma LengthFits(n: nat)
    requires n < VALUE_LIMIT
    ensures n < Power(4)
  {
    PowersAre();
  }

  lemma PowersAre()
    ensures Power(1) == 0x100 && Power(2) == 0x1_0000 && Power(3) == 0x100_0000 && Power(4) == 0x1_0000_0000
  {
    assert Power(1) == 256 * Power(0);
    assert Power(2) == 256 * Power(1);
    assert Power(3) == 256 * Power(2);
    assert Power(4) == 256 * Power(3);
  }

  /** Where the bytes of a property stand: the length of the name, the name, the
      four bytes of the value's length from the most significant on, the value. */
  predicate LaidOut(bytes: Bytes, p: Property) {
    var n, v := |p.name|, |p.value|;
    && |bytes| == n + v + 5
    && bytes[0] == n && bytes[1..n + 1] == p.name
    && bytes[n + 1] == v / 0x100_0000 && bytes[n + 2] == v / 0x1_0000 % 256
    && bytes[n + 3] == v / 0x100 % 256 && bytes[n + 4] == v % 256
    && bytes[n + 5..] == p.value
  }

  lemma LengthBytes(v: nat)
    requires v < VALUE_LIMIT
    ensures Network(v, 4) == [v / 0x100_0000, v / 0x1_0000 % 256, v / 0x100 % 256, v % 256]
  {
    PowersAre();
    assert v / 0x100_0000 < 256;
    LittleAt(v, 4, 0);
    LittleAt(v, 4, 1);
    LittleAt(v, 4, 2);
    LittleAt(v, 4, 3);
    assert Power(0) == 1;
  }

  lemma Placed(first: Byte, name: Bytes, size: Bytes, value: Bytes)
    requires |size| == 4
    ensures var bytes, n := [first] + name + size + value, |name|;
            && |bytes| == n + |value| + 5 && bytes[0] == first && bytes[1..n + 1] == name
            && bytes[n + 1] == size[0] && bytes[n + 2] == size[1] && bytes[n + 3] == size[2] && bytes[n + 4] == size[3]
            && bytes[n + 5..] == value
  {
  }

  lemma LayoutBytes(p: Property)
    requires Fits(p)
    ensures LaidOut(Layout(p), p)
  {
    LengthBytes(|p.value|);
    Placed(|p.name| % 256, p.name, Network(|p.value|, 4), p.value);
  }

  /** The bytes of the first property come first, and then those of the others. */
  lemma FirstComesFirst(properties: seq<Property>)
    requires properties != [] && AllFit(properties)
    ensures var bytes, n := Serialized(properties), |properties[0].name| + |properties[0].value| + 5;
            n <= |bytes| && LaidOut(bytes[..n], properties[0]) && bytes[n..] == Serialized(properties[1..])
  {
    var p, rest := properties[0], properties[1..];
    assert properties == [p] + rest;
    PrefixCode.JoinedSplits(Layout, [p], rest);
    OneAlone(p);
    LayoutBytes(p);
    Divided(Layout(p), Serialized(rest));
  }

  lemma OneAlone(p: Property)
    ensures Serialized([p]) == Layout(p)
  {
    PrefixCode.JoinedNext(Layout, [], p);
    assert [] + [p] == [p];
  }

  lemma Divided(a: Bytes, b: Bytes)
    ensures (a + b)[..|a|] == a && (a + b)[|a|..] == b
  {
  }

  // ---- Reading it back ----

  /** The first property in `bytes` and what comes after it, if it is whole. */
  function First(bytes: Bytes): Option<(Property, Bytes)> {
    if |bytes| == 0 then None
    else
      var nameEnd: nat := bytes[0] as nat + 1;
      if |bytes| < nameEnd + 4 then None
      else
        var valueEnd := nameEnd + 4 + FromNetwork(bytes[nameEnd..nameEnd + 4]);
        if |bytes| < valueEnd then None
        else Some((Property(bytes[1..nameEnd], bytes[nameEnd + 4..valueEnd]), bytes[valueEnd..]))
  }

  /** The first `n` properties and what comes after them. */
  function Taken(bytes: Bytes, n: nat): Option<(seq<Property>, Bytes)> {
    PrefixCode.Taken(First, bytes, n)
  }

  lemma FirstIs(bytes: Bytes, p: Property, rest: Bytes)
    requires var n, v := |p.name|, |p.value|;
             && |bytes| == 5 + n + v + |rest| && bytes[0] == n && bytes[1..1 + n] == p.name
             && FromNetwork(bytes[1 + n..5 + n]) == v && bytes[5 + n..5 + n + v] == p.value && bytes[5 + n + v..] == rest
    ensures First(bytes) == Some((p, rest))
  {
  }

  /** Where the pieces stand in the bytes from `at` on. */
  lemma Shifted(bytes: Bytes, at: nat, i: nat, j: nat)
    requires at <= |bytes| && i <= j && at + j <= |bytes|
    ensures bytes[at..][i..j] == bytes[at + i..at + j] && bytes[at..][j..] == bytes[at + j..]
  {
  }

  /** Reads one property at the place `at`; `next` is where it ends. */
  method ParseProperty(bytes: Bytes, at: nat) returns (r: Option<Property>, next: nat)
    requires at <= |bytes|
    ensures at <= next <= |bytes|
    ensures First(bytes[at..]) == if r.Some? then Some((r.value, bytes[next..])) else None
  {
    next := at;
    ghost var rest := bytes[at..];
    if at == |bytes| {
      return None, next;
    }
    var nameSize: nat := bytes[at];
    if |bytes| < at + 1 + nameSize + 4 {
      return None, next;
    }
    Shifted(bytes, at, 1, 1 + nameSize);
    Shifted(bytes, at, 1 + nameSize, 5 + nameSize);
    var name := bytes[at + 1..at + 1 + nameSize];
    var valueSize := FromNetwork(bytes[at + 1 + nameSize..at + 5 + nameSize]);
    if |bytes| < at + 5 + nameSize + valueSize {
      return None, next;
    }
    Shifted(bytes, at, 5 + nameSize, 5 + nameSize + valueSize);
    next := at + 5 + nameSize + valueSize;
    var value := bytes[at + 5 + nameSize..next];
    FirstIs(rest, Property(name, value), bytes[next..]);
    return Some(Property(name, value)), next;
  }

  /** Reads `n` properties, driven by the lengths alone. */
  method ParseMetadata(bytes: Bytes, n: nat) returns (r: Option<(seq<Property>, Bytes)>)
    ensures r == Taken(bytes, n)
  {
    var properties: seq<Property> := [];
    var at := 0;
    var i := 0;
    while i < n
      invariant 0 <= i <= n && 0 <= at <= |bytes|
      invariant Taken(bytes, i) == Some((properties, bytes[at..]))
    {
      var p;
      p, at := ParseProperty(bytes, at);
      if p.None? {
        PrefixCode.TakenNoMore(First, bytes, i + 1, n);
        return None;
      }
      properties := properties + [p.value];
      i := i + 1;
    }
    return Some((properties, bytes[at..]));
  }

  // ---- The two are inverse ----

  lemma LayoutIs(p: Property, rest: Bytes)
    requires Fits(p)
    ensures First(Layout(p) + rest) == Some((p, rest))
  {
    var v := |p.value|;
    Pieces(|p.name| % 256, p.name, Network(v, 4), p.value, rest);
    LengthFits(v);
    NetworkInverse(v, 4);
    FirstIs(Layout(p) + rest, p, rest);
  }

  lemma Pieces(first: Byte, name: Bytes, size: Bytes, value: Bytes, rest: Bytes)
    requires |size| == 4
    ensures var bytes, n, v := [first] + name + size + value + rest, |name|, |value|;
            && |bytes| == 5 + n + v + |rest| && bytes[0] == first && bytes[1..1 + n] == name
            && bytes[1 + n..5 + n] == size && bytes[5 + n..5 + n + v] == value && bytes[5 + n + v..] == rest
  {
    var bytes, n, v := [first] + name + size + value + rest, |name|, |value|;
    assert bytes[..1 + n] == [first] + name && bytes[..5 + n] == [first] + name + size;
    assert bytes[..5 + n + v] == [first] + name + size + value;
  }

  lemma Reassembled(bytes: Bytes, nameEnd: nat, valueEnd: nat)
    requires 0 < nameEnd && nameEnd + 4 <= valueEnd <= |bytes|
    ensures bytes == [bytes[0]] + bytes[1..nameEnd] + bytes[nameEnd..nameEnd + 4] + bytes[nameEnd + 4..valueEnd]
                     + bytes[valueEnd..]
  {
  }

  lemma LayoutOnly(bytes: Bytes)
    requires First(bytes).Some?
    ensures var (p, rest) := First(bytes).value;
            Fits(p) && bytes == Layout(p) + rest
  {
    var (p, rest) := First(bytes).value;
    var nameEnd: nat := bytes[0] as nat + 1;
    var size := bytes[nameEnd..nameEnd + 4];
    FromNetworkInverse(size);
    PowersAre();
    Reassembled(bytes, nameEnd, nameEnd + 4 + |p.value|);
    assert |p.value| == FromNetwork(size);
  }

  lemma LayoutInverse()
    ensures PrefixCode.Inverse(Fits, Layout, First)
  {
    forall p, rest | Fits(p) ensures First(Layout(p) + rest) == Some((p, rest)) {
      LayoutIs(p, rest);
    }
    forall bytes | First(bytes).Some?
      ensures Fits(First(bytes).value.0) && bytes == Layout(First(bytes).value.0) + First(bytes).value.1
    {
      LayoutOnly(bytes);
    }
  }

  /** Reading n properties gives `properties` and leaves `rest` exactly when the
      bytes are those properties serialized, followed by `rest`. */
  lemma TakenIsSerialized(bytes: Bytes, properties: seq<Property>, rest: Bytes)
    ensures Taken(bytes, |properties|) == Some((properties, rest)) <==>
            AllFit(properties) && bytes == Serialized(properties) + rest
  {
    LayoutInverse();
    if Taken(bytes, |properties|).Some? {
      PrefixCode.TakenWasJoined(Fits, Layout, First, bytes, |properties|);
    }
    if AllFit(properties) {
      PrefixCode.JoinedIsTaken(Fits, Layout, First, properties, rest);
    }
  }

  /** Different lists of properties never have the same bytes, whatever their
      lengths. */
  lemma SerializedInjective(p: seq<Property>, q: seq<Property>)
    requires AllFit(p) && AllFit(q) && Serialized(p) == Serialized(q)
    ensures p == q
  {
    LayoutInverse();
    PrefixCode.JoinedInjective(Fits, Layout, First, p, q);
  }

  // ---- The order of a hash map does not matter ----

  function MapOf(properties: seq<Property>): map<Bytes, Bytes> {
    if properties == [] then map[]
    else MapOf(properties[..|properties| - 1])[properties[|properties| - 1].name := properties[|properties| - 1].value]
  }

  /** `properties` lists the entries of m, each once, in some order. */
  predicate Lists(properties: seq<Property>, m: map<Bytes, Bytes>) {
    && (forall i, j | 0 <= i < j < |properties| :: properties[i].name != properties[j].name)
    && (forall p | p in properties :: p.name in m && m[p.name] == p.value)
    && (forall name | name in m :: Property(name, m[name]) in properties)
  }

  lemma ListsLess(properties: seq<Property>, m: map<Bytes, Bytes>)
    requires Lists(properties, m) && properties != []
    ensures var last := properties[|properties| - 1];
            && last.name in m && m[last.name] == last.value
            && Lists(properties[..|properties| - 1], m - {last.name})
  {
    var before, last := properties[..|properties| - 1], properties[|properties| - 1];
    assert last in properties;
    var less := m - {last.name};
    forall p | p in before ensures p.name in less && less[p.name] == p.value {
      assert p in properties;
    }
    forall name | name in less ensures Property(name, less[name]) in before {
      assert Property(name, m[name]) in properties;
      assert properties == before + [last];
    }
  }

  lemma {:induction false} MapOfList(properties: seq<Property>, m: map<Bytes, Bytes>)
    requires Lists(properties, m)
    ensures MapOf(properties) == m && |properties| == |m|
  {
    if properties == [] {
      assert m.Keys == {};
      assert m == map[];
    } else {
      var before, last := properties[..|properties| - 1], properties[|properties| - 1];
      ListsLess(properties, m);
      var less := m - {last.name};
      MapOfList(before, less);
      assert m == less[last.name := last.value];
      assert less.Keys == m.Keys - {last.name};
    }
  }

  /** In whatever order the hash map hands out its entries, reading back as many
      properties as it has gives the map and uses up all bytes. */
  lemma MetadataRoundTrip(properties: seq<Property>, m: map<Bytes, Bytes>)
    requires Lists(properties, m) && AllFit(properties)
    ensures Taken(Serialized(properties), |m|) == Some((properties, [])) && MapOf(properties) == m
  {
    MapOfList(properties, m);
    TakenIsSerialized(Serialized(properties), properties, []);
    assert Serialized(properties) + [] == Serialized(properties);
  }
}

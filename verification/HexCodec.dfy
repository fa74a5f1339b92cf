/**
 * Bytes and hexadecimal text. Bytes are printed in order, high nibble first;
 * text is read from its end, so that reading back gives the bytes reversed.
 */
module HexCodec {

  datatype Entry = Entry(num: bv8, rep: char)

  /** The table of nibbles: sixteen lower-case digits, then six upper-case ones. */
  const TABLE: seq<Entry> := [
    Entry(0x0, '0'), Entry(0x1, '1'), Entry(0x2, '2'), Entry(0x3, '3'), Entry(0x4, '4'), Entry(0x5, '5'),
    Entry(0x6, '6'), Entry(0x7, '7'), Entry(0x8, '8'), Entry(0x9, '9'), Entry(0xA, 'a'), Entry(0xB, 'b'),
    Entry(0xC, 'c'), Entry(0xD, 'd'), Entry(0xE, 'e'), Entry(0xF, 'f'), Entry(0xA, 'A'), Entry(0xB, 'B'),
    Entry(0xC, 'C'), Entry(0xD, 'D'), Entry(0xE, 'E'), Entry(0xF, 'F')]

  // ---- Digits ----

  /** The digit of a nibble. */
  function Digit(n: bv8): char {
    match n
    case 0x0 => '0' case 0x1 => '1' case 0x2 => '2' case 0x3 => '3'
    case 0x4 => '4' case 0x5 => '5' case 0x6 => '6' case 0x7 => '7'
    case 0x8 => '8' case 0x9 => '9' case 0xA => 'a' case 0xB => 'b'
    case 0xC => 'c' case 0xD => 'd' case 0xE => 'e' case _ => 'f'
  }

  /** The nibble of a character; the last entry of the table is never looked
      at, so 'F' has none and counts as 0 like any other character. */
  function Nibble(c: char): (n: bv8)
    ensures n <= 0xF
  {
    match c
    case '0' => 0x0 case '1' => 0x1 case '2' => 0x2 case '3' => 0x3
    case '4' => 0x4 case '5' => 0x5 case '6' => 0x6 case '7' => 0x7
    case '8' => 0x8 case '9' => 0x9
    case 'a' => 0xA case 'b' => 0xB case 'c' => 0xC case 'd' => 0xD case 'e' => 0xE case 'f' => 0xF
    case 'A' => 0xA case 'B' => 0xB case 'C' => 0xC case 'D' => 0xD case 'E' => 0xE
    case _ => 0x0
  }

  function High(b: bv8): (n: bv8)
    ensures n <= 0xF
  {
    0x0F & (b >> 4)
  }

  function Low(b: bv8): (n: bv8)
    ensures n <= 0xF
  {
    0x0F & b
  }

  function Joined(h: bv8, l: bv8): bv8 {
    (0xF0 & (h << 4)) | (0x0F & l)
  }

  lemma NibblesJoin(b: bv8)
    ensures Joined(High(b), Low(b)) == b
  {
  }

  lemma JoinedSplits(h: bv8, l: bv8)
    requires h <= 0xF && l <= 0xF
    ensures High(Joined(h, l)) == h && Low(Joined(h, l)) == l
  {
  }

  lemma DigitInverse(n: bv8)
    requires n <= 0xF
    ensures Nibble(Digit(n)) == n
  {
  }

  // ---- Looking up the table ----

  lemma LowerCaseEntry(i: nat)
    requires i < 16
    ensures TABLE[i].num <= 0xF && TABLE[i].rep == Digit(TABLE[i].num)
  {
  }

  lemma SearchedEntry(i: nat)
    requires i < 21
    ensures Nibble(TABLE[i].rep) == TABLE[i].num
  {
    if i < 16 {
      LowerCaseEntry(i);
      DigitInverse(TABLE[i].num);
    } else {
      assert TABLE[16] == Entry(0xA, 'A') && TABLE[17] == Entry(0xB, 'B') && TABLE[18] == Entry(0xC, 'C');
      assert TABLE[19] == Entry(0xD, 'D') && TABLE[20] == Entry(0xE, 'E');
    }
  }

  lemma EveryNibbleIsListed(n: bv8)
    requires n <= 0xF
    ensures exists i :: 0 <= i < 16 && TABLE[i].num == n
  {
    assert TABLE[0].num == 0 && TABLE[1].num == 1 && TABLE[2].num == 2 && TABLE[3].num == 3;
    assert TABLE[4].num == 4 && TABLE[5].num == 5 && TABLE[6].num == 6 && TABLE[7].num == 7;
    assert TABLE[8].num == 8 && TABLE[9].num == 9 && TABLE[10].num == 10 && TABLE[11].num == 11;
    assert TABLE[12].num == 12 && TABLE[13].num == 13 && TABLE[14].num == 14 && TABLE[15].num == 15;
  }

  lemma UnlistedIsZero(c: char)
    requires forall i | 0 <= i < 21 :: TABLE[i].rep != c
    ensures Nibble(c) == 0
  {
    assert TABLE[0].rep == '0' && TABLE[1].rep == '1' && TABLE[2].rep == '2' && TABLE[3].rep == '3';
    assert TABLE[4].rep == '4' && TABLE[5].rep == '5' && TABLE[6].rep == '6' && TABLE[7].rep == '7';
    assert TABLE[8].rep == '8' && TABLE[9].rep == '9' && TABLE[10].rep == 'a' && TABLE[11].rep == 'b';
    assert TABLE[12].rep == 'c' && TABLE[13].rep == 'd' && TABLE[14].rep == 'e' && TABLE[15].rep == 'f';
    assert TABLE[16].rep == 'A' && TABLE[17].rep == 'B' && TABLE[18].rep == 'C' && TABLE[19].rep == 'D';
    assert TABLE[20].rep == 'E';
  }

  /** Writes the digit of a nibble, which it looks up among the lower-case ones. */
  method WriteDigit(out: array<char>, at: nat, n: bv8)
    requires at < out.Length && n <= 0xF
    modifies out
    ensures out[..] == old(out[..])[at := Digit(n)]
  {
    EveryNibbleIsListed(n);
    ghost var k :| 0 <= k < 16 && TABLE[k].num == n;
    for i := 0 to 16
      invariant i <= k && out[..] == old(out[..])
    {
      if n == TABLE[i].num {
        LowerCaseEntry(i);
        out[at] := TABLE[i].rep;
        break;
      }
    }
  }

  /** u8toc: writes the digit of the high nibble at `first` and that of the low
      nibble at `second`. */
  method U8toc(out: array<char>, first: nat, second: nat, b: bv8)
    requires first < out.Length && second < out.Length && first != second
    modifies out
    ensures out[..] == old(out[..])[first := Digit(High(b))][second := Digit(Low(b))]
  {
    WriteDigit(out, first, 0x0F & (b >> 4));
    WriteDigit(out, second, 0x0F & b);
  }

  /** ctou8. */
  method Ctou8(c: char) returns (n: bv8)
    ensures n == Nibble(c)
  {
    n := 0;
    for i := 0 to 21
      invariant n == 0
      invariant forall j | 0 <= j < i :: TABLE[j].rep != c
    {
      if c == TABLE[i].rep {
        SearchedEntry(i);
        n := TABLE[i].num;
        return;
      }
      n := 0;
    }
    UnlistedIsZero(c);
  }

  // ---- Printing and reading ----

  /** The text of bytes, two digits each. */
  function Text(bytes: seq<bv8>): string {
    if bytes == [] then []
    else Text(bytes[..|bytes| - 1]) + [Digit(High(bytes[|bytes| - 1])), Digit(Low(bytes[|bytes| - 1]))]
  }

  /** The first `m` bytes read from the end of the text. */
  function Read(text: string, m: nat): (bytes: seq<bv8>)
    requires 2 * m <= |text|
    ensures |bytes| == m
  {
    if m == 0 then []
    else Read(text, m - 1) + [Joined(Nibble(text[|text| - 2 * m]), Nibble(text[|text| - 2 * m + 1]))]
  }

  function Min(a: nat, b: nat): nat {
    if a < b then a else b
  }

  /** The characters written for an output said to have `outSize` of them stay
      inside it exactly when it is empty or has two for each byte: the code
      compares its size with the number of bytes to print. */
  lemma WritesInside(outSize: nat, inNum: nat)
    ensures (forall i | 0 <= i < Min(outSize, inNum) :: 2 * i + 1 < outSize) <==> outSize == 0 || 2 * inNum <= outSize
  {
    if outSize > 0 && 2 * inNum > outSize {
      var i := Min(outSize, inNum) - 1;
      assert 2 * i + 1 >= outSize;
    }
  }

  /** Two characters of room, two bytes: nothing is cut off, and the second
      byte's digits go behind the output. */
  lemma NotCutToSize()
    ensures !forall i | 0 <= i < Min(2, 2) :: 2 * i + 1 < 2
  {
    WritesInside(2, 2);
  }

  /** u8nprints. `inside` tells whether all that it writes is inside the output;
      the model stops before the first byte whose digits are not. */
  method U8nprints(out: array<char>, outSize: nat, bytes: array<bv8>, inNum: nat) returns (inside: bool)
    requires bytes as object != out as object
    requires inNum <= bytes.Length
    modifies out
    ensures inside <==> 2 * Min(outSize, inNum) <= out.Length
    ensures var n := if inside then Min(outSize, inNum) else out.Length / 2;
            n <= inNum && 2 * n <= out.Length && out[..] == Text(bytes[..n]) + old(out[2 * n..])
  {
    var brs := inNum;
    if outSize < brs {
      brs := outSize;
    }
    ghost var was, all := out[..], bytes[..brs];
    for i := 0 to brs
      invariant all == bytes[..brs] && Printed(out[..], was, all, i)
    {
      if 2 * i + 1 >= out.Length {
        assert all[..i] == bytes[..i] && was[2 * i..] == old(out[2 * i..]);
        return false;
      }
      ghost var now := out[..];
      U8toc(out, 2 * i, 2 * i + 1, bytes[i]);
      assert bytes[i] == all[i];
      PrintedNext(now, was, all, i, out[..]);
    }
    assert all[..brs] == all && was[2 * brs..] == old(out[2 * brs..]);
    return true;
  }

  /** The text of the first i bytes has been written over `was`. */
  ghost predicate Printed(now: string, was: string, bytes: seq<bv8>, i: nat) {
    i <= |bytes| && 2 * i <= |was| && now == Text(bytes[..i]) + was[2 * i..]
  }

  lemma PrintedNext(now: string, was: string, bytes: seq<bv8>, i: nat, next: string)
    requires Printed(now, was, bytes, i) && i < |bytes| && 2 * i + 2 <= |was| == |now|
    requires next == now[2 * i := Digit(High(bytes[i]))][2 * i + 1 := Digit(Low(bytes[i]))]
    ensures Printed(next, was, bytes, i + 1)
  {
    TextSize(bytes[..i]);
    Splice(Text(bytes[..i]), was, [Digit(High(bytes[i])), Digit(Low(bytes[i]))]);
    assert bytes[..i + 1][..i] == bytes[..i];
  }

  /** Writing characters after those written already. */
  lemma Splice<T>(begin: seq<T>, was: seq<T>, cs: seq<T>)
    requires |begin| + |cs| <= |was| && 1 <= |cs| <= 2
    ensures var now := (begin + was[|begin|..])[|begin| := cs[0]];
            (if |cs| == 1 then now else now[|begin| + 1 := cs[1]]) == begin + cs + was[|begin| + |cs|..]
  {
  }

  /** How many bytes snprintu8 writes. */
  function BytesRead(outSize: nat, inSize: nat): nat {
    Min(outSize, inSize / 2 + inSize % 2)
  }

  /** Reading stays inside the text exactly when its size is even or it has
      characters enough for the output. */
  lemma ReadsInside(outSize: nat, inSize: nat)
    ensures (forall i | 0 <= i < BytesRead(outSize, inSize) :: 0 <= inSize - 1 - i * 2 - 1) <==>
            inSize % 2 == 0 || outSize <= inSize / 2
  {
    var os := BytesRead(outSize, inSize);
    if inSize % 2 == 1 && outSize > inSize / 2 {
      var i := os - 1;
      assert 0 <= i < os && inSize - 1 - i * 2 - 1 == -1;
    }
  }

  /** snprintu8. */
  method Snprintu8(out: array<bv8>, outSize: nat, text: array<char>, inSize: nat)
    requires text as object != out as object
    requires outSize <= out.Length && inSize <= text.Length
    requires inSize % 2 == 0 || outSize <= inSize / 2
    modifies out
    ensures var m := BytesRead(outSize, inSize);
            2 * m <= inSize && out[..] == Read(text[..inSize], m) + old(out[m..])
  {
    var os := 0;
    var shift := inSize % 2;
    if outSize < inSize / 2 + shift {
      os := outSize;
      if 0 == os {
        return;
      }
    } else {
      os := inSize / 2 + shift;
    }
    ReadBytes(out, os, text, inSize);
    assert old(out[..])[os..] == old(out[os..]);
  }

  method ReadBytes(out: array<bv8>, os: nat, text: array<char>, inSize: nat)
    requires text as object != out as object
    requires os <= out.Length && 2 * os <= inSize <= text.Length
    modifies out
    ensures out[..] == Read(text[..inSize], os) + old(out[..])[os..]
  {
    ghost var was, all := out[..], text[..inSize];
    for i := 0 to os
      invariant all == text[..inSize] && WasRead(out[..], was, all, i)
    {
      ghost var now := out[..];
      var b := ByteAt(text, inSize - 1 - i * 2, all);
      out[i] := b;
      assert out[..] == now[i := b];
      WasReadNext(now, was, all, i, b);
    }
  }

  /** The byte whose low digit is at `index`. */
  method ByteAt(text: array<char>, index: nat, ghost all: string) returns (b: bv8)
    requires 0 < index < |all| <= text.Length && all == text[..|all|]
    ensures b == Joined(Nibble(all[index - 1]), Nibble(all[index]))
  {
    var l := Ctou8(text[index]);
    var h := Ctou8(text[index - 1]);
    b := (0xF0 & (h << 4)) | (0x0F & l);
    assert text[index] == all[index] && text[index - 1] == all[index - 1];
  }

  /** The first i bytes read have been written over `was`. */
  ghost predicate WasRead(now: seq<bv8>, was: seq<bv8>, text: string, i: nat) {
    2 * i <= |text| && i <= |was| && now == Read(text, i) + was[i..]
  }

  lemma WasReadNext(now: seq<bv8>, was: seq<bv8>, text: string, i: nat, b: bv8)
    requires WasRead(now, was, text, i) && 2 * i + 2 <= |text| && i < |was| == |now|
    requires b == Joined(Nibble(text[|text| - 1 - i * 2 - 1]), Nibble(text[|text| - 1 - i * 2]))
    ensures WasRead(now[i := b], was, text, i + 1)
  {
    assert Read(text, i + 1) == Read(text, i) + [b];
    OneMore(now, Read(text, i), was, b);
  }

  lemma OneMore(now: seq<bv8>, read: seq<bv8>, was: seq<bv8>, b: bv8)
    requires |read| < |was| == |now| && now == read + was[|read|..]
    ensures now[|read| := b] == read + [b] + was[|read| + 1..]
  {
    Splice(read, was, [b]);
  }

  // ---- The two are inverse up to the order ----

  function Reversed(bytes: seq<bv8>): (r: seq<bv8>)
    ensures |r| == |bytes|
    ensures forall i | 0 <= i < |bytes| :: r[i] == bytes[|bytes| - 1 - i]
  {
    if bytes == [] then [] else [bytes[|bytes| - 1]] + Reversed(bytes[..|bytes| - 1])
  }

  lemma {:induction false} TextSize(bytes: seq<bv8>)
    ensures |Text(bytes)| == 2 * |bytes|
  {
    if bytes != [] {
      TextSize(bytes[..|bytes| - 1]);
    }
  }

  lemma {:induction false} TextAt(bytes: seq<bv8>, k: nat)
    requires k < |bytes|
    ensures |Text(bytes)| == 2 * |bytes|
    ensures Text(bytes)[2 * k] == Digit(High(bytes[k])) && Text(bytes)[2 * k + 1] == Digit(Low(bytes[k]))
  {
    TextSize(bytes);
    TextSize(bytes[..|bytes| - 1]);
    if k < |bytes| - 1 {
      TextAt(bytes[..|bytes| - 1], k);
    }
  }

  lemma {:induction false} ReadAt(text: string, m: nat, k: nat)
    requires 2 * m <= |text| && k < m
    ensures Read(text, m)[k] == Joined(Nibble(text[|text| - 2 - 2 * k]), Nibble(text[|text| - 1 - 2 * k]))
  {
    if k < m - 1 {
      ReadAt(text, m - 1, k);
    }
  }

  /** Reading the text of bytes into room for m of them gives the last m,
      reversed; with room for all, the whole array reversed. */
  lemma ReadText(bytes: seq<bv8>, m: nat)
    requires m <= |bytes|
    ensures |Text(bytes)| == 2 * |bytes|
    ensures Read(Text(bytes), m) == Reversed(bytes[|bytes| - m..])
  {
    TextSize(bytes);
    var read, last := Read(Text(bytes), m), bytes[|bytes| - m..];
    forall k | 0 <= k < m ensures read[k] == Reversed(last)[k] {
      var b := bytes[|bytes| - 1 - k];
      ReadAt(Text(bytes), m, k);
      TextAt(bytes, |bytes| - 1 - k);
      DigitInverse(High(b));
      DigitInverse(Low(b));
      NibblesJoin(b);
    }
  }

  /** What reading and printing again makes of any text, hexadecimal or not. */
  lemma PrintRead(text: string)
    requires |text| % 2 == 0
    ensures var printed := Text(Reversed(Read(text, |text| / 2)));
            |printed| == |text| && forall k | 0 <= k < |text| :: printed[k] == Digit(Nibble(text[k]))
  {
    var bytes := Reversed(Read(text, |text| / 2));
    TextSize(bytes);
    forall k | 0 <= k < |text| ensures Text(bytes)[k] == Digit(Nibble(text[k])) {
      PrintReadAt(text, bytes, k);
    }
  }

  lemma PrintReadAt(text: string, bytes: seq<bv8>, k: nat)
    requires |text| % 2 == 0 && k < |text| && bytes == Reversed(Read(text, |text| / 2))
    ensures |Text(bytes)| == |text| && Text(bytes)[k] == Digit(Nibble(text[k]))
  {
    var j := k / 2;
    ReadReversed(text, |text| / 2, bytes, j);
    TextAt(bytes, j);
    BothDigits(bytes[j], Nibble(text[2 * j]), Nibble(text[2 * j + 1]));
    assert k == 2 * j || k == 2 * j + 1;
  }

  lemma ReadReversed(text: string, n: nat, bytes: seq<bv8>, j: nat)
    requires |text| == 2 * n && j < n && bytes == Reversed(Read(text, n))
    ensures |bytes| == n && bytes[j] == Joined(Nibble(text[2 * j]), Nibble(text[2 * j + 1]))
  {
    ReadAt(text, n, n - 1 - j);
  }

  lemma BothDigits(b: bv8, h: bv8, l: bv8)
    requires h <= 0xF && l <= 0xF && b == Joined(h, l)
    ensures Digit(High(b)) == Digit(h) && Digit(Low(b)) == Digit(l)
  {
    JoinedSplits(h, l);
  }

  // ---- The text as a numeral ----

  /** The value of a digit, by its place among the characters; 0 for others. */
  function DigitValue(c: char): nat {
    if '0' <= c <= '9' then (c - '0') as nat
    else if 'a' <= c <= 'f' then (c - 'a') as nat + 10
    else if 'A' <= c <= 'F' then (c - 'A') as nat + 10
    else 0
  }

  predicate IsLowerDigit(c: char) {
    '0' <= c <= '9' || 'a' <= c <= 'f'
  }

  lemma DigitIs(n: bv8)
    requires n <= 0xF
    ensures DigitValue(Digit(n)) == n as nat && IsLowerDigit(Digit(n))
  {
  }

  lemma NibbleIs(c: char)
    ensures Nibble(c) as nat == if c == 'F' then 0 else DigitValue(c)
  {
  }

  lemma ByteOfNibbles(b: bv8)
    ensures b as nat == 16 * High(b) as nat + Low(b) as nat
  {
  }

  /** Each printed byte is the two-digit lower-case numeral of the byte. */
  lemma PrintsNumerals(bytes: seq<bv8>, k: nat)
    requires k < |bytes|
    ensures |Text(bytes)| == 2 * |bytes|
    ensures IsLowerDigit(Text(bytes)[2 * k]) && IsLowerDigit(Text(bytes)[2 * k + 1])
    ensures bytes[k] as nat == 16 * DigitValue(Text(bytes)[2 * k]) + DigitValue(Text(bytes)[2 * k + 1])
  {
    TextAt(bytes, k);
    DigitIs(High(bytes[k]));
    DigitIs(Low(bytes[k]));
    ByteOfNibbles(bytes[k]);
  }

  /** The k-th byte read is the value of the k-th pair of characters from the end,
      where an upper-case F counts as 0. */
  lemma ReadsNumerals(text: string, m: nat, k: nat)
    requires 2 * m <= |text| && k < m
    ensures var h, l := text[|text| - 2 - 2 * k], text[|text| - 1 - 2 * k];
            Read(text, m)[k] as nat ==
            16 * (if h == 'F' then 0 else DigitValue(h)) + if l == 'F' then 0 else DigitValue(l)
  {
    var h, l := text[|text| - 2 - 2 * k], text[|text| - 1 - 2 * k];
    ReadAt(text, m, k);
    NibbleIs(h);
    NibbleIs(l);
    JoinedSplits(Nibble(h), Nibble(l));
    ByteOfNibbles(Read(text, m)[k]);
  }

  predicate IsHexadecimal(c: char) {
    '0' <= c <= '9' || 'a' <= c <= 'f' || 'A' <= c <= 'F'
  }

  function Lower(c: char): char {
    if 'A' <= c <= 'F' then c - 'A' + 'a' else c
  }

  lemma DigitOfNibble(c: char)
    requires IsHexadecimal(c)
    ensures Digit(Nibble(c)) == Lower(c) <==> c != 'F'
  {
  }

  /** Printing what was read from hexadecimal text gives the text in lower case
      exactly when no upper-case F is in it. */
  lemma PrintReadHexadecimal(text: string)
    requires |text| % 2 == 0 && forall c | c in text :: IsHexadecimal(c)
    ensures Text(Reversed(Read(text, |text| / 2))) == seq(|text|, i requires 0 <= i < |text| => Lower(text[i]))
            <==> 'F' !in text
  {
    var printed := Text(Reversed(Read(text, |text| / 2)));
    var lower := seq(|text|, i requires 0 <= i < |text| => Lower(text[i]));
    PrintRead(text);
    forall k | 0 <= k < |text| ensures printed[k] == lower[k] <==> text[k] != 'F' {
      DigitOfNibble(text[k]);
    }
    if printed == lower {
      assert forall k | 0 <= k < |text| :: printed[k] == lower[k];
    }
  }

  /** The text "FF" is read as the byte 0, where "ff" is read as 255. */
  lemma CapitalFIsLost()
    ensures Read("FF", 1) == [0] && Read("ff", 1) == [0xFF]
  {
    assert Read("FF", 0) == [] && Read("ff", 0) == [];
  }

  // ---- Comparing ----

  function CommonPrefix(p: seq<bv8>, q: seq<bv8>): nat {
    if p == [] || q == [] || p[0] != q[0] then 0 else 1 + CommonPrefix(p[1..], q[1..])
  }

  /** u8ncmp: how far the common prefix is from the wished length. */
  method U8ncmp(u1: array<bv8>, u2: array<bv8>, wished: nat) returns (cnt: int)
    ensures cnt == CommonPrefix(u1[..], u2[..]) - wished
  {
    var i := 0;
    cnt := 0 - wished;
    var thres := if u2.Length > u1.Length then u1.Length else u2.Length;
    while i < thres
      invariant 0 <= i <= thres && cnt == i - wished
      invariant CommonPrefix(u1[..], u2[..]) == i + CommonPrefix(u1[i..], u2[i..])
    {
      assert u1[i..][1..] == u1[i + 1..] && u2[i..][1..] == u2[i + 1..];
      if u2[i] != u1[i] {
        break;
      }
      i := i + 1;
      cnt := cnt + 1;
    }
  }

  /** The first n bytes agree exactly when the common prefix has n bytes at
      least; which of the two is greater cannot be told from its length. */
  lemma {:induction false} CommonPrefixIs(p: seq<bv8>, q: seq<bv8>, n: nat)
    requires n <= |p| && n <= |q|
    ensures p[..n] == q[..n] <==> n <= CommonPrefix(p, q)
    ensures CommonPrefix(p, q) == CommonPrefix(q, p)
  {
    if p != [] && q != [] && p[0] == q[0] {
      if n > 0 {
        CommonPrefixIs(p[1..], q[1..], n - 1);
        assert p[..n] == [p[0]] + p[1..][..n - 1] && q[..n] == [q[0]] + q[1..][..n - 1];
        assert p[..n] == q[..n] ==> p[1..][..n - 1] == p[..n][1..] == q[..n][1..] == q[1..][..n - 1];
      } else {
        CommonPrefixIs(p[1..], q[1..], 0);
      }
    } else if n > 0 {
      assert p[..n][0] == p[0] && q[..n][0] == q[0];
    }
  }

  /** Lexicographic order: negative, zero or positive as the first is less, equal
      or greater. */
  function Compared(p: seq<bv8>, q: seq<bv8>): int {
    if p == [] && q == [] then 0
    else if p == [] then -1
    else if q == [] then 1
    else if p[0] != q[0] then if p[0] < q[0] then -1 else 1
    else Compared(p[1..], q[1..])
  }

  function Sign(x: int): int {
    if x < 0 then -1 else if x == 0 then 0 else 1
  }

  function First(bytes: seq<bv8>, n: nat): seq<bv8> {
    bytes[..Min(n, |bytes|)]
  }

  lemma {:induction false} ComparedAtPrefix(p: seq<bv8>, q: seq<bv8>)
    ensures var c := CommonPrefix(p, q);
            && c <= |p| && c <= |q|
            && Sign(Compared(p, q)) == Compared(p, q)
            && (Compared(p, q) == 0 <==> c == |p| == |q|)
            && (Compared(p, q) < 0 <==> c < |q| && (c == |p| || p[c] < q[c]))
  {
    if p != [] && q != [] && p[0] == q[0] {
      ComparedAtPrefix(p[1..], q[1..]);
    }
  }

  lemma {:induction false} CommonPrefixOfFirst(p: seq<bv8>, q: seq<bv8>, n: nat)
    ensures CommonPrefix(First(p, n), First(q, n)) == Min(n, CommonPrefix(p, q))
  {
    if n > 0 && p != [] && q != [] && p[0] == q[0] {
      CommonPrefixOfFirst(p[1..], q[1..], n - 1);
      assert First(p, n)[1..] == First(p[1..], n - 1) && First(q, n)[1..] == First(q[1..], n - 1);
    }
  }

  /** u8ncmp has the sign of the comparison of the first n bytes exactly when the
      common prefix has n bytes, or is shorter and the first array is less. */
  lemma ComparesIff(p: seq<bv8>, q: seq<bv8>, n: nat)
    ensures var c := CommonPrefix(p, q);
            c <= |p| && c <= |q| &&
            (Sign(c - n) == Compared(First(p, n), First(q, n)) <==>
             c == n || (c < n && c < |q| && (c == |p| || p[c] < q[c])))
  {
    CommonPrefixOfFirst(p, q, n);
    ComparedAtPrefix(First(p, n), First(q, n));
    ComparedAtPrefix(p, q);
  }

  /** The result for 2 and 1 says "less", and the one for two arrays that go on
      to agree says "greater". */
  lemma ComparesWrongly()
    ensures CommonPrefix([2], [1]) - 1 == -1 && Compared(First([2], 1), First([1], 1)) == 1
    ensures CommonPrefix([1, 2], [1, 2]) - 1 == 1 && Compared(First([1, 2], 1), First([1, 2], 1)) == 0
  {
    assert First([2], 1) == [2] && First([1], 1) == [1] && First([1, 2], 1) == [1];
    assert [1, 2][1..] == [2];
    assert CommonPrefix([2], [2]) == 1;
  }
}

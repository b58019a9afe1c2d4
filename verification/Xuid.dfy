/** The codecs between the text form of a UUID, its 16 bytes, and the fields of a GUID. */
module Xuid {

  type Byte = bv8

  const LENGTH := 36

  /** The value table: other characters than hexadecimal digits have all bits set. */
  function HexVal(c: char): bv32 {
    var n := c as int % 128;
    if n == 48 then 0 else if n == 49 then 1 else if n == 50 then 2 else if n == 51 then 3
    else if n == 52 then 4 else if n == 53 then 5 else if n == 54 then 6 else if n == 55 then 7
    else if n == 56 then 8 else if n == 57 then 9
    else if n == 65 || n == 97 then 10 else if n == 66 || n == 98 then 11
    else if n == 67 || n == 99 then 12 else if n == 68 || n == 100 then 13
    else if n == 69 || n == 101 then 14 else if n == 70 || n == 102 then 15
    else 0xFFFF_FFFF
  }

  function HexChar(n: bv32): char {
    if n == 0 then '0' else if n == 1 then '1' else if n == 2 then '2' else if n == 3 then '3'
    else if n == 4 then '4' else if n == 5 then '5' else if n == 6 then '6' else if n == 7 then '7'
    else if n == 8 then '8' else if n == 9 then '9' else if n == 10 then 'a' else if n == 11 then 'b'
    else if n == 12 then 'c' else if n == 13 then 'd' else if n == 14 then 'e' else 'f'
  }

  predicate IsHex(c: char) {
    '0' <= c <= '9' || 'a' <= c <= 'f' || 'A' <= c <= 'F'
  }

  function Lower(c: char): char {
    if 'A' <= c <= 'Z' then c + 32 as char else c
  }

  predicate IsDash(i: int) {
    i == 8 || i == 13 || i == 18 || i == 23
  }

  /** The text form: hexadecimal digits in five groups. */
  predicate Canonical(s: string) {
    |s| == LENGTH && forall i :: 0 <= i < LENGTH ==> if IsDash(i) then s[i] == '-' else IsHex(s[i])
  }

  function LowerText(s: string): (r: string)
    ensures |r| == |s| && forall i :: 0 <= i < |s| ==> r[i] == Lower(s[i])
  {
    seq(|s|, i requires 0 <= i < |s| => Lower(s[i]))
  }

  lemma DigitOfValue(n: bv32)
    requires n < 16
    ensures HexVal(HexChar(n)) == n && IsHex(HexChar(n)) && Lower(HexChar(n)) == HexChar(n)
  {
  }

  lemma ValueOfDigit(c: char)
    requires IsHex(c)
    ensures HexVal(c) < 16 && HexChar(HexVal(c)) == Lower(c)
  {
  }

  // ----- bytes -----

  function High(b: Byte): bv32 { ((b >> 4) & 0xF) as bv32 }
  function Low(b: Byte): bv32 { (b & 0xF) as bv32 }

  /** The byte that two characters give; its width cuts off what does not fit. */
  function ByteOf(high: char, low: char): Byte {
    (((HexVal(high) << 4) + HexVal(low)) & 0xFF) as Byte
  }

  lemma ByteOfDigits(high: char, low: char)
    requires HexVal(high) < 16 && HexVal(low) < 16
    ensures High(ByteOf(high, low)) == HexVal(high) && Low(ByteOf(high, low)) == HexVal(low)
  {
    Nibbles(HexVal(high), HexVal(low));
  }

  lemma Nibbles(h: bv32, l: bv32)
    requires h < 16 && l < 16
    ensures High((((h << 4) + l) & 0xFF) as Byte) == h && Low((((h << 4) + l) & 0xFF) as Byte) == l
  {
  }

  lemma ByteFromNibbles(b: Byte)
    ensures (((High(b) << 4) + Low(b)) & 0xFF) as Byte == b && High(b) < 16 && Low(b) < 16
  {
  }

  /** Where the two digits of byte `k` stand in the text. */
  function Place(k: nat): nat {
    2 * k + if k < 4 then 0 else if k < 6 then 1 else if k < 8 then 2 else if k < 10 then 3 else 4
  }

  /** The 16 bytes of a text. */
  function Bytes(s: string): (data: seq<Byte>)
    requires |s| == LENGTH
    ensures |data| == 16
  {
    seq(16, k requires 0 <= k < 16 => ByteOf(s[Place(k)], s[Place(k) + 1]))
  }

  /** Half of a byte, the high one first. */
  function Nybble(data: seq<Byte>, n: nat): (r: bv32)
    requires |data| == 16 && n < 32
  {
    if n % 2 == 1 then Low(data[n / 2]) else High(data[n / 2])
  }

  /** Which digit stands at place `i` of the text. */
  function Digit(i: nat): (n: nat)
    requires i < LENGTH && !IsDash(i)
    ensures n < 32 && Place(n / 2) + n % 2 == i
  {
    i - if i < 8 then 0 else if i < 13 then 1 else if i < 18 then 2 else if i < 23 then 3 else 4
  }

  /** The text of 16 bytes. */
  function Text(data: seq<Byte>): (s: string)
    requires |data| == 16
    ensures |s| == LENGTH
  {
    seq(LENGTH, i requires 0 <= i < LENGTH => if IsDash(i) then '-' else HexChar(Nybble(data, Digit(i))))
  }

  method ParseFirst(text: string, data: array<Byte>)
    requires |text| == LENGTH && data.Length == 16
    modifies data
    ensures forall k :: 0 <= k < 4 ==> data[k] == Bytes(text)[k]
    ensures forall k :: 0 <= k < 16 && !(0 <= k < 4) ==> data[k] == old(data[k])
  {
    hide ByteOf;
    data[0] := ByteOf(text[0], text[1]);
    data[1] := ByteOf(text[2], text[3]);
    data[2] := ByteOf(text[4], text[5]);
    data[3] := ByteOf(text[6], text[7]);
  }

  method ParseSecond(text: string, data: array<Byte>)
    requires |text| == LENGTH && data.Length == 16
    modifies data
    ensures forall k :: 4 <= k < 8 ==> data[k] == Bytes(text)[k]
    ensures forall k :: 0 <= k < 16 && !(4 <= k < 8) ==> data[k] == old(data[k])
  {
    hide ByteOf;
    data[4] := ByteOf(text[9], text[10]);
    data[5] := ByteOf(text[11], text[12]);
    data[6] := ByteOf(text[14], text[15]);
    data[7] := ByteOf(text[16], text[17]);
  }

  method ParseThird(text: string, data: array<Byte>)
    requires |text| == LENGTH && data.Length == 16
    modifies data
    ensures forall k :: 8 <= k < 12 ==> data[k] == Bytes(text)[k]
    ensures forall k :: 0 <= k < 16 && !(8 <= k < 12) ==> data[k] == old(data[k])
  {
    hide ByteOf;
    data[8] := ByteOf(text[19], text[20]);
    data[9] := ByteOf(text[21], text[22]);
    data[10] := ByteOf(text[24], text[25]);
    data[11] := ByteOf(text[26], text[27]);
  }

  method ParseLast(text: string, data: array<Byte>)
    requires |text| == LENGTH && data.Length == 16
    modifies data
    ensures forall k :: 12 <= k < 16 ==> data[k] == Bytes(text)[k]
    ensures forall k :: 0 <= k < 16 && !(12 <= k < 16) ==> data[k] == old(data[k])
  {
    hide ByteOf;
    data[12] := ByteOf(text[28], text[29]);
    data[13] := ByteOf(text[30], text[31]);
    data[14] := ByteOf(text[32], text[33]);
    data[15] := ByteOf(text[34], text[35]);
  }

  /** Puts the bytes of a text into `data`. */
  method ParseUuid(text: string, data: array<Byte>)
    requires |text| == LENGTH && data.Length == 16
    modifies data
    ensures data[..] == Bytes(text)
  {
    hide ByteOf;
    ParseFirst(text, data);
    ParseSecond(text, data);
    ParseThird(text, data);
    ParseLast(text, data);
  }

  method FormatFirst(text: array<char>, data: seq<Byte>)
    requires text.Length >= LENGTH && |data| == 16
    modifies text
    ensures forall i :: 0 <= i < 8 ==> text[i] == Text(data)[i]
    ensures forall i :: 0 <= i < text.Length && !(0 <= i < 8) ==> text[i] == old(text[i])
  {
    hide HexChar, Nybble;
    text[0] := HexChar(Nybble(data, 0));
    text[1] := HexChar(Nybble(data, 1));
    text[2] := HexChar(Nybble(data, 2));
    text[3] := HexChar(Nybble(data, 3));
    text[4] := HexChar(Nybble(data, 4));
    text[5] := HexChar(Nybble(data, 5));
    text[6] := HexChar(Nybble(data, 6));
    text[7] := HexChar(Nybble(data, 7));
  }

  method FormatSecond(text: array<char>, data: seq<Byte>)
    requires text.Length >= LENGTH && |data| == 16
    modifies text
    ensures forall i :: 8 <= i < 13 ==> text[i] == Text(data)[i]
    ensures forall i :: 0 <= i < text.Length && !(8 <= i < 13) ==> text[i] == old(text[i])
  {
    hide HexChar, Nybble;
    text[8] := '-';
    text[9] := HexChar(Nybble(data, 8));
    text[10] := HexChar(Nybble(data, 9));
    text[11] := HexChar(Nybble(data, 10));
    text[12] := HexChar(Nybble(data, 11));
  }

  method FormatThird(text: array<char>, data: seq<Byte>)
    requires text.Length >= LENGTH && |data| == 16
    modifies text
    ensures forall i :: 13 <= i < 18 ==> text[i] == Text(data)[i]
    ensures forall i :: 0 <= i < text.Length && !(13 <= i < 18) ==> text[i] == old(text[i])
  {
    hide HexChar, Nybble;
    text[13] := '-';
    text[14] := HexChar(Nybble(data, 12));
    text[15] := HexChar(Nybble(data, 13));
    text[16] := HexChar(Nybble(data, 14));
    text[17] := HexChar(Nybble(data, 15));
  }

  method FormatFourth(text: array<char>, data: seq<Byte>)
    requires text.Length >= LENGTH && |data| == 16
    modifies text
    ensures forall i :: 18 <= i < 23 ==> text[i] == Text(data)[i]
    ensures forall i :: 0 <= i < text.Length && !(18 <= i < 23) ==> text[i] == old(text[i])
  {
    hide HexChar, Nybble;
    text[18] := '-';
    text[19] := HexChar(Nybble(data, 16));
    text[20] := HexChar(Nybble(data, 17));
    text[21] := HexChar(Nybble(data, 18));
    text[22] := HexChar(Nybble(data, 19));
  }

  method FormatFifth(text: array<char>, data: seq<Byte>)
    requires text.Length >= LENGTH && |data| == 16
    modifies text
    ensures forall i :: 23 <= i < 30 ==> text[i] == Text(data)[i]
    ensures forall i :: 0 <= i < text.Length && !(23 <= i < 30) ==> text[i] == old(text[i])
  {
    hide HexChar, Nybble;
    text[23] := '-';
    text[24] := HexChar(Nybble(data, 20));
    text[25] := HexChar(Nybble(data, 21));
    text[26] := HexChar(Nybble(data, 22));
    text[27] := HexChar(Nybble(data, 23));
    text[28] := HexChar(Nybble(data, 24));
    text[29] := HexChar(Nybble(data, 25));
  }

  method FormatLast(text: array<char>, data: seq<Byte>)
    requires text.Length >= LENGTH && |data| == 16
    modifies text
    ensures forall i :: 30 <= i < 36 ==> text[i] == Text(data)[i]
    ensures forall i :: 0 <= i < text.Length && !(30 <= i < 36) ==> text[i] == old(text[i])
  {
    hide HexChar, Nybble;
    text[30] := HexChar(Nybble(data, 26));
    text[31] := HexChar(Nybble(data, 27));
    text[32] := HexChar(Nybble(data, 28));
    text[33] := HexChar(Nybble(data, 29));
    text[34] := HexChar(Nybble(data, 30));
    text[35] := HexChar(Nybble(data, 31));
  }

  /** Puts the text of the bytes into `text`. */
  method FormatUuid(text: array<char>, data: array<Byte>)
    requires text.Length >= LENGTH && data.Length == 16
    modifies text
    ensures text[..LENGTH] == Text(data[..])
    ensures forall i :: LENGTH <= i < text.Length ==> text[i] == old(text[i])
  {
    hide HexChar, Nybble;
    FormatFirst(text, data[..]);
    FormatSecond(text, data[..]);
    FormatThird(text, data[..]);
    FormatFourth(text, data[..]);
    FormatFifth(text, data[..]);
    FormatLast(text, data[..]);
  }

  // ----- what the digits are -----

  const DIGITS := "0123456789abcdef"
  const CAPITALS := "0123456789ABCDEF"

  /** The value of a digit is its place among the digits, small or capital. */
  lemma ValueIsPlace(i: nat)
    requires i < 16
    ensures HexVal(DIGITS[i]) == i as bv32 && HexVal(CAPITALS[i]) == i as bv32 && HexChar(i as bv32) == DIGITS[i]
  {
    hide HexVal, HexChar;
    DigitValues();
    MoreDigitValues();
    CapitalValues();
    DigitChars();
    if i < 8 {
      if i < 4 { assert i == 0 || i == 1 || i == 2 || i == 3; }
      else { assert i == 4 || i == 5 || i == 6 || i == 7; }
    } else {
      if i < 12 { assert i == 8 || i == 9 || i == 10 || i == 11; }
      else { assert i == 12 || i == 13 || i == 14 || i == 15; }
    }
  }

  lemma DigitValues()
    ensures HexVal('0') == 0 && HexVal('1') == 1 && HexVal('2') == 2 && HexVal('3') == 3
    ensures HexVal('4') == 4 && HexVal('5') == 5 && HexVal('6') == 6 && HexVal('7') == 7
  {
  }

  lemma MoreDigitValues()
    ensures HexVal('8') == 8 && HexVal('9') == 9 && HexVal('a') == 10 && HexVal('b') == 11
    ensures HexVal('c') == 12 && HexVal('d') == 13 && HexVal('e') == 14 && HexVal('f') == 15
  {
  }

  lemma DigitChars()
    ensures HexChar(0) == '0' && HexChar(1) == '1' && HexChar(2) == '2' && HexChar(3) == '3'
    ensures HexChar(4) == '4' && HexChar(5) == '5' && HexChar(6) == '6' && HexChar(7) == '7'
    ensures HexChar(8) == '8' && HexChar(9) == '9' && HexChar(10) == 'a' && HexChar(11) == 'b'
    ensures HexChar(12) == 'c' && HexChar(13) == 'd' && HexChar(14) == 'e' && HexChar(15) == 'f'
  {
  }

  lemma CapitalValues()
    ensures HexVal('A') == 10 && HexVal('B') == 11 && HexVal('C') == 12
    ensures HexVal('D') == 13 && HexVal('E') == 14 && HexVal('F') == 15
  {
  }

  lemma Halves(h: Byte, l: Byte)
    requires h < 16 && l < 16
    ensures High(h * 16 + l) == h as bv32 && Low(h * 16 + l) == l as bv32
  {
  }

  lemma SmallNumber(i: nat)
    requires i < 16
    ensures i as Byte < 16 && (i as Byte) as bv32 == i as bv32
  {
  }

  /** A byte is written as its sixteens and its ones; dashes stand behind the fourth, sixth, eighth and tenth. */
  lemma BytesAreSpelled(data: seq<Byte>, k: nat, i: nat, j: nat)
    requires |data| == 16 && k < 16 && i < 16 && j < 16 && data[k] == i as Byte * 16 + j as Byte
    ensures var at := 2 * k + (if k < 4 then 0 else if k < 6 then 1 else if k < 8 then 2 else if k < 10 then 3 else 4);
      Text(data)[at] == DIGITS[i] && Text(data)[at + 1] == DIGITS[j]
    ensures Text(data)[8] == Text(data)[13] == Text(data)[18] == Text(data)[23] == '-'
  {
    hide HexChar, High, Low, Text;
    DashesOf(data);
    DigitsInPlace(data, k);
    SmallNumber(i);
    SmallNumber(j);
    Halves(i as Byte, j as Byte);
    ValueIsPlace(i);
    ValueIsPlace(j);
  }

  lemma DashesOf(data: seq<Byte>)
    requires |data| == 16
    ensures Text(data)[8] == Text(data)[13] == Text(data)[18] == Text(data)[23] == '-'
  {
  }

  // ----- the round trips of the UUID codec -----

  lemma ParseOfFormat(data: seq<Byte>)
    requires |data| == 16
    ensures Bytes(Text(data)) == data
  {
    hide Text, ByteOf;
    forall k | 0 <= k < 16 ensures Bytes(Text(data))[k] == data[k] {
      DigitsInPlace(data, k);
      ByteComesBack(data[k]);
    }
  }

  lemma DigitsInPlace(data: seq<Byte>, k: nat)
    requires |data| == 16 && k < 16
    ensures Text(data)[Place(k)] == HexChar(High(data[k])) && Text(data)[Place(k) + 1] == HexChar(Low(data[k]))
  {
    hide HexChar, High, Low;
    var i := Place(k);
    assert !IsDash(i) && !IsDash(i + 1) && Digit(i) == 2 * k && Digit(i + 1) == 2 * k + 1;
  }

  lemma ByteComesBack(b: Byte)
    ensures ByteOf(HexChar(High(b)), HexChar(Low(b))) == b
  {
    hide HexChar, HexVal, High, Low;
    ByteFromNibbles(b);
    DigitOfValue(High(b));
    DigitOfValue(Low(b));
  }

  lemma TextIsCanonical(data: seq<Byte>)
    requires |data| == 16
    ensures Canonical(Text(data)) && LowerText(Text(data)) == Text(data)
  {
    hide HexChar, IsHex, Lower, HexVal;
    DashIsLower();
    forall i | 0 <= i < LENGTH
      ensures if IsDash(i) then Text(data)[i] == '-' else IsHex(Text(data)[i])
      ensures Lower(Text(data)[i]) == Text(data)[i]
    {
      if !IsDash(i) {
        ByteFromNibbles(data[Digit(i) / 2]);
        DigitOfValue(Nybble(data, Digit(i)));
      }
    }
  }

  lemma DashIsLower()
    ensures Lower('-') == '-'
  {
  }

  lemma CanonicalIffLowerIs(s: string)
    requires |s| == LENGTH
    ensures Canonical(LowerText(s)) <==> Canonical(s)
  {
    forall i | 0 <= i < LENGTH
      ensures LowerText(s)[i] == '-' <==> s[i] == '-'
      ensures IsHex(LowerText(s)[i]) <==> IsHex(s[i])
    {
    }
  }

  /** Formatting what was parsed gives the text in lower case exactly when the text is
      canonical. */
  lemma FormatOfParse(s: string)
    requires |s| == LENGTH
    ensures Text(Bytes(s)) == LowerText(s) <==> Canonical(s)
  {
    hide HexChar, IsHex, Lower, HexVal, High, Low, ByteOf;
    if Canonical(s) {
      DashIsLower();
      forall i | 0 <= i < LENGTH ensures Text(Bytes(s))[i] == LowerText(s)[i] {
        if !IsDash(i) { DigitComesBack(s, i); }
      }
    }
    if Text(Bytes(s)) == LowerText(s) {
      TextIsCanonical(Bytes(s));
      CanonicalIffLowerIs(s);
    }
  }

  lemma DigitComesBack(s: string, i: nat)
    requires Canonical(s) && i < LENGTH && !IsDash(i)
    ensures HexChar(Nybble(Bytes(s), Digit(i))) == Lower(s[i])
  {
    hide HexChar, IsHex, Lower, HexVal, High, Low, ByteOf;
    var k := Digit(i) / 2;
    var high, low := s[Place(k)], s[Place(k) + 1];
    assert !IsDash(Place(k)) && !IsDash(Place(k) + 1);
    ValueOfDigit(high);
    ValueOfDigit(low);
    ByteOfDigits(high, low);
  }

  // ----- GUIDs -----

  datatype Guid = Guid(data1: bv32, data2: bv16, data3: bv16, data4: seq<Byte>)

  predicate IsGuid(g: Guid) { |g.data4| == 8 }

  function Word(a: Byte, b: Byte): bv16 { (a as bv16 << 8) | b as bv16 }

  function DoubleWord(a: Byte, b: Byte, c: Byte, d: Byte): bv32 {
    (a as bv32 << 24) | (b as bv32 << 16) | (c as bv32 << 8) | d as bv32
  }

  /** The fields are the big-endian readings of the bytes. */
  function GuidOf(data: seq<Byte>): (g: Guid)
    requires |data| == 16
    ensures IsGuid(g)
  {
    Guid(DoubleWord(data[0], data[1], data[2], data[3]), Word(data[4], data[5]), Word(data[6], data[7]), data[8..])
  }

  /** The byte of a field from bit `shift` on. */
  function Part(w: bv32, shift: bv6): Byte
    requires shift < 32
  {
    ((w >> shift) & 0xFF) as Byte
  }

  function Half(w: bv16, shift: bv5): Byte
    requires shift < 16
  {
    ((w >> shift) & 0xFF) as Byte
  }

  function BytesOf(g: Guid): (data: seq<Byte>)
    requires IsGuid(g)
    ensures |data| == 16
  {
    [Part(g.data1, 24), Part(g.data1, 16),
     Part(g.data1, 8), Part(g.data1, 0),
     Half(g.data2, 8), Half(g.data2, 0),
     Half(g.data3, 8), Half(g.data3, 0)] + g.data4
  }

  lemma WordSplits(w: bv16)
    ensures Word(Half(w, 8), Half(w, 0)) == w
  {
  }

  lemma WordJoins(a: Byte, b: Byte)
    ensures Half(Word(a, b), 8) == a && Half(Word(a, b), 0) == b
  {
  }

  lemma DoubleWordSplits(w: bv32)
    ensures DoubleWord(Part(w, 24), Part(w, 16), Part(w, 8), Part(w, 0)) == w
  {
  }

  lemma DoubleWordJoins(a: Byte, b: Byte, c: Byte, d: Byte)
    ensures var w := DoubleWord(a, b, c, d);
            Part(w, 24) == a && Part(w, 16) == b && Part(w, 8) == c && Part(w, 0) == d
  {
  }

  lemma GuidOfBytes(g: Guid)
    requires IsGuid(g)
    ensures GuidOf(BytesOf(g)) == g
  {
    hide DoubleWord, Word, Part, Half;
    DoubleWordSplits(g.data1);
    WordSplits(g.data2);
    WordSplits(g.data3);
    assert BytesOf(g)[8..] == g.data4;
  }

  lemma BytesOfGuid(data: seq<Byte>)
    requires |data| == 16
    ensures BytesOf(GuidOf(data)) == data
  {
    hide DoubleWord, Word, Part, Half;
    DoubleWordJoins(data[0], data[1], data[2], data[3]);
    WordJoins(data[4], data[5]);
    WordJoins(data[6], data[7]);
  }

  predicate HasDigits(s: string) {
    |s| == LENGTH && forall i :: 0 <= i < LENGTH && !IsDash(i) ==> HexVal(s[i]) < 16
  }

  function Put(w: bv32, v: bv32, shift: bv6): bv32
    requires shift < 32
  {
    w | (v << shift)
  }

  lemma DoubleWordOfDigits(a: bv32, b: bv32, c: bv32, d: bv32, e: bv32, f: bv32, g: bv32, h: bv32)
    requires a < 16 && b < 16 && c < 16 && d < 16 && e < 16 && f < 16 && g < 16 && h < 16
    ensures Put(Put(Put(Put(Put(Put(Put(Put(0, a, 28), b, 24), c, 20), d, 16), e, 12), f, 8), g, 4), h, 0)
            == DoubleWord((((a << 4) + b) & 0xFF) as Byte, (((c << 4) + d) & 0xFF) as Byte,
                          (((e << 4) + f) & 0xFF) as Byte, (((g << 4) + h) & 0xFF) as Byte)
  {
  }

  lemma WordOfDigits(a: bv32, b: bv32, c: bv32, d: bv32)
    requires a < 16 && b < 16 && c < 16 && d < 16
    ensures PutWord(PutWord(PutWord(PutWord(0, a, 12), b, 8), c, 4), d, 0)
            == Word((((a << 4) + b) & 0xFF) as Byte, (((c << 4) + d) & 0xFF) as Byte)
  {
  }

  method ParseDoubleWord(text: string) returns (data1: bv32)
    requires |text| == LENGTH
    ensures HasDigits(text) ==> data1 == GuidOf(Bytes(text)).data1
  {
    hide HexVal, DoubleWord, Put;
    data1 := 0;
    data1 := Put(data1, HexVal(text[0]), 28);
    data1 := Put(data1, HexVal(text[1]), 24);
    data1 := Put(data1, HexVal(text[2]), 20);
    data1 := Put(data1, HexVal(text[3]), 16);
    data1 := Put(data1, HexVal(text[4]), 12);
    data1 := Put(data1, HexVal(text[5]), 8);
    data1 := Put(data1, HexVal(text[6]), 4);
    data1 := Put(data1, HexVal(text[7]), 0);
    if HasDigits(text) {
      DoubleWordOfDigits(HexVal(text[0]), HexVal(text[1]), HexVal(text[2]), HexVal(text[3]),
                         HexVal(text[4]), HexVal(text[5]), HexVal(text[6]), HexVal(text[7]));
    }
  }

  function PutWord(w: bv16, v: bv32, shift: bv6): bv16
    requires shift < 32
  {
    w | ((v << shift) & 0xFFFF) as bv16
  }

  method ParseWord(a: char, b: char, c: char, d: char) returns (w: bv16)
    ensures HexVal(a) < 16 && HexVal(b) < 16 && HexVal(c) < 16 && HexVal(d) < 16 ==>
      w == Word(ByteOf(a, b), ByteOf(c, d))
  {
    hide HexVal, Word, PutWord;
    w := 0;
    w := PutWord(w, HexVal(a), 12);
    w := PutWord(w, HexVal(b), 8);
    w := PutWord(w, HexVal(c), 4);
    w := PutWord(w, HexVal(d), 0);
    if HexVal(a) < 16 && HexVal(b) < 16 && HexVal(c) < 16 && HexVal(d) < 16 {
      WordOfDigits(HexVal(a), HexVal(b), HexVal(c), HexVal(d));
    }
  }

  /** The fields of a text whose digits are hexadecimal. */
  method ParseGuid(text: string) returns (g: Guid)
    requires |text| == LENGTH
    ensures IsGuid(g) && (HasDigits(text) ==> g == GuidOf(Bytes(text)))
  {
    hide HexVal, ByteOf, DoubleWord, Word;
    var data1 := ParseDoubleWord(text);
    var data2 := ParseWord(text[9], text[10], text[11], text[12]);
    var data3 := ParseWord(text[14], text[15], text[16], text[17]);
    var data4 := [ByteOf(text[19], text[20]), ByteOf(text[21], text[22]), ByteOf(text[24], text[25]),
                  ByteOf(text[26], text[27]), ByteOf(text[28], text[29]), ByteOf(text[30], text[31]),
                  ByteOf(text[32], text[33]), ByteOf(text[34], text[35])];
    g := Guid(data1, data2, data3, data4);
    assert data4 == Bytes(text)[8..];
  }

  function DigitAt(w: bv32, shift: bv6): bv32
    requires shift < 32
  {
    (w >> shift) & 0xF
  }

  lemma DoubleWordDigits(w: bv32)
    ensures High(Part(w, 24)) == DigitAt(w, 28) && Low(Part(w, 24)) == DigitAt(w, 24)
    ensures High(Part(w, 16)) == DigitAt(w, 20) && Low(Part(w, 16)) == DigitAt(w, 16)
    ensures High(Part(w, 8)) == DigitAt(w, 12) && Low(Part(w, 8)) == DigitAt(w, 8)
    ensures High(Part(w, 0)) == DigitAt(w, 4) && Low(Part(w, 0)) == DigitAt(w, 0)
  {
  }

  function Quarter(w: bv16, shift: nat): bv32
    requires shift == 0 || shift == 4 || shift == 8 || shift == 12
  {
    if shift == 0 then (w & 0xF) as bv32 else if shift == 4 then ((w >> 4) & 0xF) as bv32
    else if shift == 8 then ((w >> 8) & 0xF) as bv32 else ((w >> 12) & 0xF) as bv32
  }

  lemma WordDigits(w: bv16)
    ensures High(Half(w, 8)) == Quarter(w, 12) && Low(Half(w, 8)) == Quarter(w, 8)
    ensures High(Half(w, 0)) == Quarter(w, 4) && Low(Half(w, 0)) == Quarter(w, 0)
  {
  }

  lemma BytesOfAt(g: Guid)
    requires IsGuid(g)
    ensures var data := BytesOf(g);
            && data[0] == Part(g.data1, 24) && data[1] == Part(g.data1, 16)
            && data[2] == Part(g.data1, 8) && data[3] == Part(g.data1, 0)
            && data[4] == Half(g.data2, 8) && data[5] == Half(g.data2, 0)
            && data[6] == Half(g.data3, 8) && data[7] == Half(g.data3, 0)
            && forall j :: 0 <= j < 8 ==> data[8 + j] == g.data4[j]
  {
  }

  /** The digits of a GUID's bytes, taken from its fields. */
  lemma NybblesOfGuid(g: Guid)
    requires IsGuid(g)
    ensures var data := BytesOf(g);
            && Nybble(data, 0) == DigitAt(g.data1, 28) && Nybble(data, 1) == DigitAt(g.data1, 24)
            && Nybble(data, 2) == DigitAt(g.data1, 20) && Nybble(data, 3) == DigitAt(g.data1, 16)
            && Nybble(data, 4) == DigitAt(g.data1, 12) && Nybble(data, 5) == DigitAt(g.data1, 8)
            && Nybble(data, 6) == DigitAt(g.data1, 4) && Nybble(data, 7) == DigitAt(g.data1, 0)
            && Nybble(data, 8) == Quarter(g.data2, 12) && Nybble(data, 9) == Quarter(g.data2, 8)
            && Nybble(data, 10) == Quarter(g.data2, 4) && Nybble(data, 11) == Quarter(g.data2, 0)
            && Nybble(data, 12) == Quarter(g.data3, 12) && Nybble(data, 13) == Quarter(g.data3, 8)
            && Nybble(data, 14) == Quarter(g.data3, 4) && Nybble(data, 15) == Quarter(g.data3, 0)
            && Nybble(data, 16) == High(g.data4[0]) && Nybble(data, 17) == Low(g.data4[0])
            && Nybble(data, 18) == High(g.data4[1]) && Nybble(data, 19) == Low(g.data4[1])
            && Nybble(data, 20) == High(g.data4[2]) && Nybble(data, 21) == Low(g.data4[2])
            && Nybble(data, 22) == High(g.data4[3]) && Nybble(data, 23) == Low(g.data4[3])
            && Nybble(data, 24) == High(g.data4[4]) && Nybble(data, 25) == Low(g.data4[4])
            && Nybble(data, 26) == High(g.data4[5]) && Nybble(data, 27) == Low(g.data4[5])
            && Nybble(data, 28) == High(g.data4[6]) && Nybble(data, 29) == Low(g.data4[6])
            && Nybble(data, 30) == High(g.data4[7]) && Nybble(data, 31) == Low(g.data4[7])
  {
    hide BytesOf, High, Low, DigitAt, Quarter, Part, Half;
    BytesOfAt(g);
    DoubleWordDigits(g.data1);
    WordDigits(g.data2);
    WordDigits(g.data3);
  }

  method FormatGuidFirst(text: array<char>, g: Guid)
    requires text.Length >= LENGTH && IsGuid(g)
    modifies text
    ensures forall i :: 0 <= i < 8 ==> text[i] == Text(BytesOf(g))[i]
    ensures forall i :: 0 <= i < text.Length && !(0 <= i < 8) ==> text[i] == old(text[i])
  {
    hide HexChar, High, Low, Quarter, DigitAt, Nybble, BytesOf;
    NybblesOfGuid(g);
    var data1 := g.data1;
    text[0] := HexChar(DigitAt(data1, 28));
    text[1] := HexChar(DigitAt(data1, 24));
    text[2] := HexChar(DigitAt(data1, 20));
    text[3] := HexChar(DigitAt(data1, 16));
    text[4] := HexChar(DigitAt(data1, 12));
    text[5] := HexChar(DigitAt(data1, 8));
    text[6] := HexChar(DigitAt(data1, 4));
    text[7] := HexChar(DigitAt(data1, 0));
  }

  method FormatGuidSecond(text: array<char>, g: Guid)
    requires text.Length >= LENGTH && IsGuid(g)
    modifies text
    ensures forall i :: 8 <= i < 13 ==> text[i] == Text(BytesOf(g))[i]
    ensures forall i :: 0 <= i < text.Length && !(8 <= i < 13) ==> text[i] == old(text[i])
  {
    hide HexChar, High, Low, Quarter, DigitAt, Nybble, BytesOf;
    NybblesOfGuid(g);
    text[8] := '-';
    text[9] := HexChar(Quarter(g.data2, 12));
    text[10] := HexChar(Quarter(g.data2, 8));
    text[11] := HexChar(Quarter(g.data2, 4));
    text[12] := HexChar(Quarter(g.data2, 0));
  }

  method FormatGuidThird(text: array<char>, g: Guid)
    requires text.Length >= LENGTH && IsGuid(g)
    modifies text
    ensures forall i :: 13 <= i < 18 ==> text[i] == Text(BytesOf(g))[i]
    ensures forall i :: 0 <= i < text.Length && !(13 <= i < 18) ==> text[i] == old(text[i])
  {
    hide HexChar, High, Low, Quarter, DigitAt, Nybble, BytesOf;
    NybblesOfGuid(g);
    text[13] := '-';
    text[14] := HexChar(Quarter(g.data3, 12));
    text[15] := HexChar(Quarter(g.data3, 8));
    text[16] := HexChar(Quarter(g.data3, 4));
    text[17] := HexChar(Quarter(g.data3, 0));
  }

  method FormatGuidFourth(text: array<char>, g: Guid)
    requires text.Length >= LENGTH && IsGuid(g)
    modifies text
    ensures forall i :: 18 <= i < 23 ==> text[i] == Text(BytesOf(g))[i]
    ensures forall i :: 0 <= i < text.Length && !(18 <= i < 23) ==> text[i] == old(text[i])
  {
    hide HexChar, High, Low, Quarter, DigitAt, Nybble, BytesOf;
    NybblesOfGuid(g);
    text[18] := '-';
    text[19] := HexChar(High(g.data4[0]));
    text[20] := HexChar(Low(g.data4[0]));
    text[21] := HexChar(High(g.data4[1]));
    text[22] := HexChar(Low(g.data4[1]));
  }

  method FormatGuidFifth(text: array<char>, g: Guid)
    requires text.Length >= LENGTH && IsGuid(g)
    modifies text
    ensures forall i :: 23 <= i < 30 ==> text[i] == Text(BytesOf(g))[i]
    ensures forall i :: 0 <= i < text.Length && !(23 <= i < 30) ==> text[i] == old(text[i])
  {
    hide HexChar, High, Low, Quarter, DigitAt, Nybble, BytesOf;
    NybblesOfGuid(g);
    text[23] := '-';
    text[24] := HexChar(High(g.data4[2]));
    text[25] := HexChar(Low(g.data4[2]));
    text[26] := HexChar(High(g.data4[3]));
    text[27] := HexChar(Low(g.data4[3]));
    text[28] := HexChar(High(g.data4[4]));
    text[29] := HexChar(Low(g.data4[4]));
  }

  method FormatGuidLast(text: array<char>, g: Guid)
    requires text.Length >= LENGTH && IsGuid(g)
    modifies text
    ensures forall i :: 30 <= i < 36 ==> text[i] == Text(BytesOf(g))[i]
    ensures forall i :: 0 <= i < text.Length && !(30 <= i < 36) ==> text[i] == old(text[i])
  {
    hide HexChar, High, Low, Quarter, DigitAt, Nybble, BytesOf;
    NybblesOfGuid(g);
    text[30] := HexChar(High(g.data4[5]));
    text[31] := HexChar(Low(g.data4[5]));
    text[32] := HexChar(High(g.data4[6]));
    text[33] := HexChar(Low(g.data4[6]));
    text[34] := HexChar(High(g.data4[7]));
    text[35] := HexChar(Low(g.data4[7]));
  }

  /** The text of a GUID is that of its bytes. */
  method FormatGuid(text: array<char>, g: Guid)
    requires text.Length >= LENGTH && IsGuid(g)
    modifies text
    ensures text[..LENGTH] == Text(BytesOf(g))
    ensures forall i :: LENGTH <= i < text.Length ==> text[i] == old(text[i])
  {
    hide HexChar, Nybble;
    FormatGuidFirst(text, g);
    FormatGuidSecond(text, g);
    FormatGuidThird(text, g);
    FormatGuidFourth(text, g);
    FormatGuidFifth(text, g);
    FormatGuidLast(text, g);
  }

  /** Both codecs agree: the text of the fields is the text of the bytes they were read
      from, and reading it again gives the same fields. */
  lemma CodecsAgree(data: seq<Byte>)
    requires |data| == 16
    ensures Text(BytesOf(GuidOf(data))) == Text(data) && GuidOf(Bytes(Text(data))) == GuidOf(data)
  {
    BytesOfGuid(data);
    ParseOfFormat(data);
  }

  // ----- comparing -----

  /** The difference of two 32-bit numbers, which wraps, as the signed number that is returned. */
  function Wrapped(a: bv32, b: bv32): int {
    var d := (Number(a) - Number(b)) % 0x1_0000_0000;
    if d < 0x8000_0000 then d else d - 0x1_0000_0000
  }

  function Number(a: bv32): int { a as int }

  function ShortNumber(a: bv16): int { a as int }

  function ByteNumber(a: Byte): int { a as int }

  lemma NumberIsInjective(a: bv32, b: bv32)
    ensures 0 <= Number(a) < 0x1_0000_0000 && (Number(a) == Number(b) <==> a == b)
  {
    assert (a as int) as bv32 == a && (b as int) as bv32 == b;
  }

  lemma ShortNumberIsInjective(a: bv16, b: bv16)
    ensures ShortNumber(a) == ShortNumber(b) <==> a == b
  {
    assert (a as int) as bv16 == a && (b as int) as bv16 == b;
  }

  lemma ByteNumberIsInjective(a: Byte, b: Byte)
    ensures ByteNumber(a) == ByteNumber(b) <==> a == b
  {
  }

  /** The difference of the first bytes that differ. */
  function CompareBytes(left: seq<Byte>, right: seq<Byte>): int
    requires |left| == |right|
  {
    if left == [] then 0
    else if left[0] != right[0] then ByteNumber(left[0]) - ByteNumber(right[0])
    else CompareBytes(left[1..], right[1..])
  }

  /** What comparing gives: the difference of the first fields that differ, which wraps for the first one. */
  function Compared(left: Guid, right: Guid): int
    requires IsGuid(left) && IsGuid(right)
  {
    if left.data1 != right.data1 then Wrapped(left.data1, right.data1)
    else if left.data2 != right.data2 then ShortNumber(left.data2) - ShortNumber(right.data2)
    else if left.data3 != right.data3 then ShortNumber(left.data3) - ShortNumber(right.data3)
    else CompareBytes(left.data4, right.data4)
  }

  method CompareGuid(left: Guid, right: Guid) returns (d: int)
    requires IsGuid(left) && IsGuid(right)
    ensures d == Compared(left, right) && (d == 0 <==> left == right)
  {
    hide Number, ShortNumber, ByteNumber;
    NumberIsInjective(left.data1, right.data1);
    NumberIsInjective(right.data1, left.data1);
    d := Wrapped(left.data1, right.data1);
    if d != 0 { return; }
    d := ShortNumber(left.data2) - ShortNumber(right.data2);
    ShortNumberIsInjective(left.data2, right.data2);
    if d != 0 { return; }
    d := ShortNumber(left.data3) - ShortNumber(right.data3);
    ShortNumberIsInjective(left.data3, right.data3);
    if d != 0 { return; }
    assert left.data4[0..] == left.data4 && right.data4[0..] == right.data4;
    for i := 0 to 8
      invariant forall j :: 0 <= j < i ==> left.data4[j] == right.data4[j]
      invariant CompareBytes(left.data4, right.data4) == CompareBytes(left.data4[i..], right.data4[i..])
    {
      d := ByteNumber(left.data4[i]) - ByteNumber(right.data4[i]);
      ByteNumberIsInjective(left.data4[i], right.data4[i]);
      if d != 0 { return; }
      assert left.data4[i..][1..] == left.data4[i + 1..] && right.data4[i..][1..] == right.data4[i + 1..];
    }
    return 0;
  }

  predicate BytesLess(left: seq<Byte>, right: seq<Byte>)
    requires |left| == |right|
  {
    exists k :: 0 <= k < |left| && ByteNumber(left[k]) < ByteNumber(right[k]) && left[..k] == right[..k]
  }

  /** The order of GUIDs field by field. */
  predicate Less(left: Guid, right: Guid)
    requires IsGuid(left) && IsGuid(right)
  {
    if left.data1 != right.data1 then Number(left.data1) < Number(right.data1)
    else if left.data2 != right.data2 then ShortNumber(left.data2) < ShortNumber(right.data2)
    else if left.data3 != right.data3 then ShortNumber(left.data3) < ShortNumber(right.data3)
    else BytesLess(left.data4, right.data4)
  }

  /** The first number is at most 2^31 below the second, or less than 2^31 above it. */
  predicate Near(a: bv32, b: bv32) {
    if Number(a) < Number(b) then Number(b) - Number(a) <= 0x8000_0000 else Number(a) - Number(b) < 0x8000_0000
  }

  lemma {:induction false} BytesOrder(left: seq<Byte>, right: seq<Byte>)
    requires |left| == |right|
    ensures CompareBytes(left, right) < 0 <==> BytesLess(left, right)
  {
    hide ByteNumber;
    if left != [] {
      if left[0] != right[0] {
        if ByteNumber(left[0]) < ByteNumber(right[0]) { assert left[..0] == right[..0]; }
        forall k | 0 < k < |left| ensures left[..k] != right[..k] {
          assert left[..k][0] != right[..k][0];
        }
        ByteNumberIsInjective(left[0], right[0]);
      } else {
        BytesOrder(left[1..], right[1..]);
        if k :| 0 <= k < |left[1..]| && ByteNumber(left[1..][k]) < ByteNumber(right[1..][k])
                && left[1..][..k] == right[1..][..k] {
          assert left[..k + 1] == [left[0]] + left[1..][..k] && right[..k + 1] == [right[0]] + right[1..][..k];
        }
        if k :| 0 <= k < |left| && ByteNumber(left[k]) < ByteNumber(right[k]) && left[..k] == right[..k] {
          assert left[1..][..k - 1] == left[..k][1..] && right[1..][..k - 1] == right[..k][1..];
        }
      }
    }
  }

  /** The result is negative exactly when the left GUID is the smaller one, if and only if the first fields
      are near. */
  lemma SignIsRightIff(left: Guid, right: Guid)
    requires IsGuid(left) && IsGuid(right)
    ensures (Compared(left, right) < 0 <==> Less(left, right)) <==> Near(left.data1, right.data1)
  {
    hide Number, ShortNumber, BytesLess, CompareBytes;
    NumberIsInjective(left.data1, right.data1);
    NumberIsInjective(right.data1, left.data1);
    BytesOrder(left.data4, right.data4);
  }

  /** Two GUIDs whose first fields are 2^31 apart each come before the other. */
  lemma CompareIsNoOrder(left: Guid, right: Guid)
    requires IsGuid(left) && IsGuid(right) && Number(left.data1) == Number(right.data1) + 0x8000_0000
    ensures Compared(left, right) < 0 && Compared(right, left) < 0
    ensures !Near(left.data1, right.data1)
  {
    hide Number;
    NumberIsInjective(left.data1, right.data1);
    NumberIsInjective(right.data1, left.data1);
  }

  lemma TwoApart() returns (left: Guid, right: Guid)
    ensures IsGuid(left) && IsGuid(right) && Compared(left, right) < 0 && Compared(right, left) < 0
  {
    left, right := Guid(0x8000_0000, 0, 0, seq(8, _ => 0)), Guid(0, 0, 0, seq(8, _ => 0));
    CompareIsNoOrder(left, right);
  }

  // ----- the class that keeps both forms -----

  /** A UUID as 16 bytes and as text with its terminator; setting either updates both. */
  class Uuid {
    const data: array<Byte>
    const text: array<char>

    ghost predicate Valid()
      reads text, data
    {
      data.Length == 16 && text.Length == LENGTH + 1
    }

    /** The text is that of the bytes. */
    ghost predicate InStep()
      requires Valid()
      reads text, data
    {
      text[..LENGTH] == Text(data[..]) && text[LENGTH] == '\0'
    }

    constructor ()
      ensures Valid() && InStep() && fresh(data) && fresh(text)
    {
      data := new Byte[16](_ => 0);
      text := new char[LENGTH + 1](_ => '\0');
      new;
      Format();
    }

    method Format()
      requires Valid()
      modifies text
      ensures Valid() && InStep()
    {
      FormatUuid(text, data);
      text[LENGTH] := '\0';
    }

    /** Takes a text over, whatever it holds; it comes back in lower case exactly when it
        is canonical. */
    method Set(input: string)
      requires Valid() && |input| >= LENGTH
      modifies text, data
      ensures Valid() && InStep() && data[..] == Bytes(input[..LENGTH])
      ensures text[..LENGTH] == LowerText(input[..LENGTH]) <==> Canonical(input[..LENGTH])
    {
      forall i | 0 <= i < LENGTH { text[i] := input[i]; }
      text[LENGTH] := '\0';
      assert text[..LENGTH] == input[..LENGTH];
      ParseUuid(text[..LENGTH], data);
      Format();
      FormatOfParse(input[..LENGTH]);
    }

    method SetBytes(input: array<Byte>)
      requires Valid() && input.Length == 16
      modifies text, data
      ensures Valid() && InStep() && data[..] == old(input[..])
    {
      forall k | 0 <= k < 16 { data[k] := input[k]; }
      assert data[..] == old(input[..]);
      Format();
    }
  }
}

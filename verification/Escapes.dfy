/** check_escape(): what a backslash and the bytes after it stand for, outside a class. */
module Escapes {
  import opened ByteCode

  const CHAR_BACKSLASH: byte := 92
  const CHAR_0: byte := 48
  const CHAR_LEFT_CURLY_BRACKET: byte := 123
  const CHAR_RIGHT_CURLY_BRACKET: byte := 125

  /** A data byte, one of the six types, something else that is no single byte, or an error. next is where
      the escape ends. */
  datatype Escape = Data(c: byte, next: nat) | OfType(t: byte, next: nat) | Other | BadEscape

  /** The pattern's byte at p; zero marks its end. */
  function PatternByte(pattern: seq<byte>, p: nat): byte {
    if p < |pattern| then pattern[p] else 0
  }

  predicate IsDigit(c: byte) {
    48 <= c <= 57
  }

  predicate IsOctal(c: byte) {
    48 <= c <= 55
  }

  predicate IsHex(c: byte) {
    IsDigit(c) || 65 <= c <= 70 || 97 <= c <= 102
  }

  function HexValue(c: byte): nat
    requires IsHex(c)
  {
    if IsDigit(c) then (c as int) - 48 else if c >= 97 then (c as int) - 87 else (c as int) - 55
  }

  /** An octal number of value v so far, of which up to left more digits are read from p on. */
  function ReadOctal(pattern: seq<byte>, p: nat, v: nat, left: nat): (r: Escape)
    ensures !r.OfType? && (r.Data? ==> r.next >= p)
    decreases left
  {
    if left > 0 && IsOctal(PatternByte(pattern, p)) then
      ReadOctal(pattern, p + 1, 8 * v + (PatternByte(pattern, p) as int) - 48, left - 1)
    else if v < 256 then Data(v, p)
    else BadEscape
  }

  /** Likewise a hexadecimal one. */
  function ReadHex(pattern: seq<byte>, p: nat, v: nat, left: nat): (r: Escape)
    ensures !r.OfType? && (r.Data? ==> r.next >= p)
    decreases left
  {
    if left > 0 && IsHex(PatternByte(pattern, p)) then ReadHex(pattern, p + 1, 16 * v + HexValue(PatternByte(pattern, p)), left - 1)
    else if v < 256 then Data(v, p)
    else BadEscape
  }

  /** A hexadecimal number in braces, with value v and count digits so far, not counting zeros before it. When
      the closing brace is missing it is no such number. */
  function ReadBraced(pattern: seq<byte>, p: nat, v: nat, count: nat): (r: Escape)
    ensures !r.OfType? && (r.Data? ==> r.next >= p)
    decreases |pattern| - p
  {
    if p < |pattern| && IsHex(pattern[p]) then
      if v == 0 && pattern[p] == CHAR_0 then ReadBraced(pattern, p + 1, 0, count)
      else ReadBraced(pattern, p + 1, 16 * v + HexValue(pattern[p]), count + 1)
    else if PatternByte(pattern, p) != CHAR_RIGHT_CURLY_BRACKET then Other
    else if count > 2 || v >= 256 then BadEscape
    else Data(v, p + 1)
  }

  /** The table of single letters that stand for a byte. */
  function LetterByte(e: byte): byte {
    if e == 97 then 7
    else if e == 101 then 27
    else if e == 102 then 12
    else if e == 110 then 10
    else if e == 114 then 13
    else if e == 116 then 9
    else 0
  }

  /** The types D, d, S, s, W and w. */
  function LetterType(e: byte): byte {
    if e == 68 then OP_NOT_DIGIT
    else if e == 100 then OP_DIGIT
    else if e == 83 then OP_NOT_WHITESPACE
    else if e == 115 then OP_WHITESPACE
    else if e == 87 then OP_NOT_WORDCHAR
    else if e == 119 then OP_WORDCHAR
    else 0
  }

  /** The other letters with a meaning: A B C E G H K P Q R V X Z b h k p v z, and g. */
  predicate OtherLetter(e: byte) {
    e in {65, 66, 67, 69, 71, 72, 75, 80, 81, 82, 86, 88, 90, 98, 103, 104, 107, 112, 118, 122}
  }

  /** l L N u U are refused. */
  predicate RefusedLetter(e: byte) {
    e in {76, 78, 85, 108, 117}
  }

  function DigitsEnd(pattern: seq<byte>, p: nat): (q: nat)
    ensures p <= q
    decreases |pattern| - p
  {
    if p < |pattern| && IsDigit(pattern[p]) then DigitsEnd(pattern, p + 1) else p
  }

  /** The decimal number at p, after digits of value v. */
  function Number(pattern: seq<byte>, p: nat, v: nat): (n: nat)
    ensures n >= v
    decreases |pattern| - p
  {
    if p < |pattern| && IsDigit(pattern[p]) then Number(pattern, p + 1, 10 * v + (pattern[p] as int) - 48) else v
  }

  /** A number that does not begin with zero. Below ten, or when there are that many groups before it, it is a
      reference. Otherwise it is octal, and before an 8 or 9 it is a binary zero that leaves the digit over. */
  function NumberedEscape(bracount: nat, pattern: seq<byte>, p: nat): (r: Escape)
    requires IsDigit(PatternByte(pattern, p + 1))
    ensures !r.OfType?
  {
    var n := Number(pattern, p + 1, 0);
    if n < 10 || n <= bracount then Other
    else if !IsOctal(PatternByte(pattern, p + 1)) then Data(0, p + 1)
    else ReadOctal(pattern, p + 2, (PatternByte(pattern, p + 1) as int) - 48, 2)
  }

  /** The escape whose backslash is at p, behind bracount capturing groups. */
  function EscapeAt(bracount: nat, pattern: seq<byte>, p: nat): (r: Escape)
    ensures r.OfType? ==> OP_NOT_DIGIT <= r.t <= OP_WORDCHAR
    ensures r.Data? || r.OfType? ==> r.next > p
  {
    var e := PatternByte(pattern, p + 1);
    if e == 0 then BadEscape
    else if e < 48 || e > 122 then Data(e, p + 2)
    else if LetterByte(e) != 0 then Data(LetterByte(e), p + 2)
    else if LetterType(e) != 0 then OfType(LetterType(e), p + 2)
    else if OtherLetter(e) then Other
    else if RefusedLetter(e) then BadEscape
    else if e == CHAR_0 then ReadOctal(pattern, p + 2, 0, 2)
    else if IsDigit(e) then NumberedEscape(bracount, pattern, p)
    else if e == 120 then
      var braced := if PatternByte(pattern, p + 2) == CHAR_LEFT_CURLY_BRACKET then ReadBraced(pattern, p + 3, 0, 0) else Other;
      if braced.Other? then ReadHex(pattern, p + 2, 0, 2) else braced
    else if e == 99 then Control(PatternByte(pattern, p + 2), p + 3)
    else Data(e, p + 2)
  }

  /** \c and a byte: letters count as upper case, and one bit is flipped. */
  function Control(c: byte, next: nat): Escape {
    if c == 0 then BadEscape
    else
      var d: byte := if 97 <= c <= 122 then c - 32 else c;
      Data(if (d / 64) % 2 == 1 then d - 64 else d + 64, next)
  }

  /** A backslash before anything but a letter or a digit makes it a data byte; \0 begins an octal number. */
  lemma PlainEscapes(bracount: nat, pattern: seq<byte>, p: nat)
    requires p + 1 < |pattern| && pattern[p + 1] != 0
    ensures var e := pattern[p + 1];
            && (!IsDigit(e) && !(65 <= e <= 90) && !(97 <= e <= 122) ==> EscapeAt(bracount, pattern, p) == Data(e, p + 2))
            && (e == CHAR_0 ==> EscapeAt(bracount, pattern, p) == ReadOctal(pattern, p + 2, 0, 2))
  {
  }

  // ---- What the escapes stand for ----------------------------------------------------------------------------

  /** The letters a e f n r t stand for bytes, d D s S w W for types; those that mean something else or are refused
      are no items, and any other letter but c and x stands for itself. */
  lemma LettersMean(bracount: nat, pattern: seq<byte>, p: nat)
    requires p + 1 < |pattern|
    ensures var e, r := pattern[p + 1], EscapeAt(bracount, pattern, p);
            && (e == 97 ==> r == Data(7, p + 2)) && (e == 101 ==> r == Data(27, p + 2))
            && (e == 102 ==> r == Data(12, p + 2)) && (e == 110 ==> r == Data(10, p + 2))
            && (e == 114 ==> r == Data(13, p + 2)) && (e == 116 ==> r == Data(9, p + 2))
            && (e == 68 ==> r == OfType(6, p + 2)) && (e == 100 ==> r == OfType(7, p + 2))
            && (e == 83 ==> r == OfType(8, p + 2)) && (e == 115 ==> r == OfType(9, p + 2))
            && (e == 87 ==> r == OfType(10, p + 2)) && (e == 119 ==> r == OfType(11, p + 2))
            && (e in {65, 66, 67, 69, 71, 72, 75, 80, 81, 82, 86, 88, 90, 98, 103, 104, 107, 112, 118, 122} ==> r == Other)
            && (e in {0, 76, 78, 85, 108, 117} ==> r == BadEscape)
            && (e in {70, 73, 74, 77, 79, 84, 89, 105, 106, 109, 111, 113, 121} ==> r == Data(e, p + 2))
            && (0 < e < 48 || 57 < e < 65 || 90 < e < 97 || 122 < e ==> r == Data(e, p + 2))
  {
  }

  /** The digit for v, above nine as a letter of either case. */
  function HexDigit(v: nat, upper: bool): byte
    requires v < 16
  {
    if v < 10 then 48 + v else if upper then 55 + v else 87 + v
  }

  lemma HexDigitMeans(v: nat, upper: bool)
    requires v < 16
    ensures IsHex(HexDigit(v, upper)) && HexValue(HexDigit(v, upper)) == v
  {
  }

  /** \x and the two hexadecimal digits of a byte stand for the byte. */
  lemma HexMeans(bracount: nat, pattern: seq<byte>, p: nat, b: byte, u: bool, v: bool)
    requires p + 3 < |pattern| && pattern[p + 1] == 120
    requires pattern[p + 2] == HexDigit(b / 16, u) && pattern[p + 3] == HexDigit(b % 16, v)
    ensures EscapeAt(bracount, pattern, p) == Data(b, p + 4)
  {
    HexDigitMeans(b / 16, u);
    HexDigitMeans(b % 16, v);
    assert ReadHex(pattern, p + 4, b, 0) == Data(b, p + 4);
    assert ReadHex(pattern, p + 3, b / 16, 1) == ReadHex(pattern, p + 4, 16 * (b / 16) + b % 16, 0);
    assert ReadHex(pattern, p + 2, 0, 2) == ReadHex(pattern, p + 3, b / 16, 1);
  }

  /** The same with the digits in braces. */
  lemma BracedMeans(bracount: nat, pattern: seq<byte>, p: nat, b: byte, u: bool, v: bool)
    requires p + 5 < |pattern| && pattern[p + 1] == 120 && pattern[p + 2] == 123 && pattern[p + 5] == 125
    requires pattern[p + 3] == HexDigit(b / 16, u) && pattern[p + 4] == HexDigit(b % 16, v)
    ensures EscapeAt(bracount, pattern, p) == Data(b, p + 6)
  {
    HexDigitMeans(b / 16, u);
    HexDigitMeans(b % 16, v);
    var n := if b / 16 == 0 then 0 else 1;
    var m := if b == 0 then 0 else n + 1;
    assert ReadBraced(pattern, p + 5, b, m) == Data(b, p + 6);
    assert ReadBraced(pattern, p + 4, b / 16, n) == Data(b, p + 6) by {
      assert 16 * (b / 16) + b % 16 == b;
    }
    assert ReadBraced(pattern, p + 3, 0, 0) == ReadBraced(pattern, p + 4, b / 16, n);
  }

  /** \0 and two octal digits, or three octal digits that are no number of a group, stand for their byte. */
  lemma OctalMeans(bracount: nat, pattern: seq<byte>, p: nat, x: nat, y: nat, z: nat)
    requires p + 3 < |pattern| && x < 4 && y < 8 && z < 8 && (x > 0 ==> bracount < 100)
    requires pattern[p + 1] == 48 + x && pattern[p + 2] == 48 + y && pattern[p + 3] == 48 + z
    ensures EscapeAt(bracount, pattern, p) == Data(64 * x + 8 * y + z, p + 4)
  {
    OctalRest(pattern, p, x, y, z);
    hide ReadOctal;
    if x > 0 { OctalNumber(pattern, p, x, y, z); }
  }

  lemma OctalRest(pattern: seq<byte>, p: nat, x: nat, y: nat, z: nat)
    requires p + 3 < |pattern| && x < 4 && y < 8 && z < 8
    requires pattern[p + 2] == 48 + y && pattern[p + 3] == 48 + z
    ensures ReadOctal(pattern, p + 2, x, 2) == Data(64 * x + 8 * y + z, p + 4)
  {
    var b := 64 * x + 8 * y + z;
    assert ReadOctal(pattern, p + 4, b, 0) == Data(b, p + 4);
    assert ReadOctal(pattern, p + 3, 8 * x + y, 1) == Data(b, p + 4);
  }

  lemma OctalNumber(pattern: seq<byte>, p: nat, x: nat, y: nat, z: nat)
    requires p + 3 < |pattern| && 0 < x < 4 && y < 8 && z < 8
    requires pattern[p + 1] == 48 + x && pattern[p + 2] == 48 + y && pattern[p + 3] == 48 + z
    ensures Number(pattern, p + 1, 0) >= 100
  {
    assert Number(pattern, p + 3, 10 * x + y) == Number(pattern, p + 4, 100 * x + 10 * y + z);
    assert Number(pattern, p + 1, 0) == Number(pattern, p + 2, x) == Number(pattern, p + 3, 10 * x + y);
  }

  /** \c and a letter of either case stand for the control byte, and \c and that byte for the letter. */
  lemma ControlMeans(bracount: nat, pattern: seq<byte>, p: nat)
    requires p + 2 < |pattern| && pattern[p + 1] == 99
    ensures var c, r := pattern[p + 2], EscapeAt(bracount, pattern, p);
            && (65 <= c <= 90 ==> r == Data(c - 64, p + 3))
            && (97 <= c <= 122 ==> r == Data(c - 96, p + 3))
            && (1 <= c <= 26 ==> r == Data(c + 64, p + 3))
            && (c == 0 ==> r == BadEscape)
            && (r.Data? && !(97 <= c <= 122) ==> r.c == if c / 64 % 2 == 0 then c + 64 else c - 64)
  {
  }

  /** A number below ten, or of no more than bracount, is a reference. Before an 8 or 9 that is none, a zero byte is read. */
  lemma ReferencesMean(bracount: nat, pattern: seq<byte>, p: nat)
    requires p + 1 < |pattern| && 49 <= pattern[p + 1] <= 57
    ensures var n, r := Number(pattern, p + 1, 0), EscapeAt(bracount, pattern, p);
            && (r == Other <==> n < 10 || n <= bracount)
            && (r != Other && pattern[p + 1] >= 56 ==> r == Data(0, p + 1))
  {
  }

  // ---- Decimal numbers ------------------------------------------------------------------------------------------

  /** The decimal digits of n. */
  function Digits(n: nat): (ds: seq<byte>)
    ensures ds != [] && forall i :: 0 <= i < |ds| ==> IsDigit(ds[i])
  {
    if n < 10 then [48 + n] else Digits(n / 10) + [48 + n % 10]
  }

  /** Where the digits of n stand, and no further digit, n is read. */
  lemma {:induction false} DigitsMean(pattern: seq<byte>, p: nat, n: nat)
    requires p + |Digits(n)| <= |pattern| && pattern[p..p + |Digits(n)|] == Digits(n)
    ensures DigitsEnd(pattern, p) == DigitsEnd(pattern, p + |Digits(n)|)
    ensures Number(pattern, p, 0) == Number(pattern, p + |Digits(n)|, n)
  {
    var q := p + |Digits(n)|;
    assert pattern[q - 1] == pattern[p..q][q - 1 - p] == Digits(n)[|Digits(n)| - 1];
    if n >= 10 {
      assert pattern[p..q - 1] == pattern[p..q][..q - 1 - p] == Digits(n / 10);
      DigitsMean(pattern, p, n / 10);
    }
  }

  /** The digit that follows, if any. */
  lemma DigitsStop(pattern: seq<byte>, p: nat, n: nat)
    requires p + |Digits(n)| <= |pattern| && pattern[p..p + |Digits(n)|] == Digits(n)
    requires !IsDigit(PatternByte(pattern, p + |Digits(n)|))
    ensures DigitsEnd(pattern, p) == p + |Digits(n)| && Number(pattern, p, 0) == n
  {
    DigitsMean(pattern, p, n);
  }
}

/** UTF-8: the validity check, the encoder and the decoder. Masks and shifts are written as remainders,
    quotients and products. */
module Utf8 {
  import opened ByteCode

  const TABLE1: seq<nat> := [0x7f, 0x7ff, 0xffff, 0x1fffff, 0x3ffffff, 0x7fffffff]
  const TABLE2: seq<nat> := [0, 0xc0, 0xe0, 0xf0, 0xf8, 0xfc]
  const TABLE3: seq<nat> := [0xff, 0x1f, 0x0f, 0x07, 0x03, 0x01]
  const TABLE4: seq<nat> := seq(32, _ => 1) + seq(16, _ => 2) + seq(8, _ => 3) + [4, 4, 4, 4] + [5, 5, 5, 5]

  lemma Table4(i: nat)
    requires i < 64
    ensures TABLE4[i] == if i < 32 then 1 else if i < 48 then 2 else if i < 56 then 3 else if i < 60 then 4 else 5
  {
  }

  // ---- The grammar of section 4 of RFC 3629 --------------------------------------------------------------

  predicate TailByte(x: byte) {
    0x80 <= x <= 0xBF
  }

  /** UTF8-char, as the bytes of s from p on; the result is its length, or 0 when there is none. */
  function CharAt(s: seq<byte>, p: nat): nat
    requires p < |s|
  {
    var a := s[p];
    var n := |s| - p;
    if a <= 0x7F then 1
    else if n >= 2 && 0xC2 <= a <= 0xDF && TailByte(s[p + 1]) then 2
    else if n >= 3 && TailByte(s[p + 2])
         && ((a == 0xE0 && 0xA0 <= s[p + 1] <= 0xBF) || (0xE1 <= a <= 0xEC && TailByte(s[p + 1]))
             || (a == 0xED && 0x80 <= s[p + 1] <= 0x9F) || (0xEE <= a <= 0xEF && TailByte(s[p + 1]))) then 3
    else if n >= 4 && TailByte(s[p + 2]) && TailByte(s[p + 3])
         && ((a == 0xF0 && 0x90 <= s[p + 1] <= 0xBF) || (0xF1 <= a <= 0xF3 && TailByte(s[p + 1]))
             || (a == 0xF4 && 0x80 <= s[p + 1] <= 0x8F)) then 4
    else 0
  }

  /** UTF8-octets: the bytes of s from p on are a sequence of characters. */
  predicate Octets(s: seq<byte>, p: nat)
    requires p <= |s|
    decreases |s| - p
  {
    p == |s| || (CharAt(s, p) > 0 && p + CharAt(s, p) <= |s| && Octets(s, p + CharAt(s, p)))
  }

  /** The first r bytes of s, up to some k, are characters, and no character begins at k; r lies within
      the four bytes from k on. */
  ghost predicate BadAt(s: seq<byte>, r: nat) {
    exists k: nat :: k <= r <= k + 3 && k < |s| && CharAt(s, k) == 0 && CharsUpTo(s, 0, k)
  }

  predicate CharsUpTo(s: seq<byte>, p: nat, k: nat)
    requires p <= |s| && k <= |s|
    decreases |s| - p
  {
    p == k || (p < |s| && CharAt(s, p) > 0 && p + CharAt(s, p) <= |s| && CharsUpTo(s, p + CharAt(s, p), k))
  }

  lemma {:induction false} OneMoreChar(s: seq<byte>, p: nat, k: nat)
    requires p <= k < |s| && CharAt(s, k) > 0 && k + CharAt(s, k) <= |s| && CharsUpTo(s, p, k)
    ensures CharsUpTo(s, p, k + CharAt(s, k))
    decreases |s| - p
  {
    if p != k {
      CharsForward(s, p + CharAt(s, p), k);
      OneMoreChar(s, p + CharAt(s, p), k);
    }
  }

  lemma {:induction false} CharsForward(s: seq<byte>, p: nat, k: nat)
    requires p <= |s| && k <= |s| && CharsUpTo(s, p, k)
    ensures p <= k
    decreases |s| - p
  {
    if p != k { CharsForward(s, p + CharAt(s, p), k); }
  }

  lemma {:induction false} CharsThenOctets(s: seq<byte>, p: nat, k: nat)
    requires p <= |s| && k <= |s| && CharsUpTo(s, p, k)
    ensures Octets(s, p) <==> Octets(s, k)
    decreases |s| - p
  {
    if p != k { CharsThenOctets(s, p + CharAt(s, p), k); }
  }

  lemma CharFits(s: seq<byte>, p: nat)
    requires p < |s|
    ensures p + CharAt(s, p) <= |s|
  {
  }

  // ---- The validity check ----------------------------------------------------------------------------------

  /** The length of a string that ends at the first zero. */
  function FirstZero(s: seq<byte>): (n: nat)
    ensures n <= |s|
  {
    if s == [] || s[0] == 0 then 0 else 1 + FirstZero(s[1..])
  }

  /** What the check looks at: length bytes, or, with a negative length, the bytes before the first zero. */
  function Examined(s: seq<byte>, length: int): seq<byte>
    requires length <= |s|
  {
    if length >= 0 then s[..length] else s[..FirstZero(s)]
  }

  method ZeroLength(s: seq<byte>) returns (n: nat)
    requires exists k :: 0 <= k < |s| && s[k] == 0
    ensures n == FirstZero(s)
  {
    n := 0;
    while n < |s| && s[n] != 0
      invariant n <= |s| && FirstZero(s) == n + FirstZero(s[n..])
    {
      assert s[n..][1..] == s[n + 1..];
      n := n + 1;
    }
  }

  /** The check: -1 when the string is UTF-8, else the place of a byte that spoils it. */
  method ValidUtf8(str: seq<byte>, length0: int) returns (r: int)
    requires length0 <= |str| && (length0 < 0 ==> exists k :: 0 <= k < |str| && str[k] == 0)
    ensures r == -1 <==> Octets(Examined(str, length0), 0)
    ensures r != -1 ==> 0 <= r && BadAt(Examined(str, length0), r)
  {
    var length := length0;
    if length < 0 { length := ZeroLength(str); }
    ghost var s := str[..length];
    var p: nat := 0;
    while length > 0
      invariant p + length == |s| && length >= 0
      invariant CharsUpTo(s, 0, p)
      decreases length
    {
      length := length - 1;
      ghost var k := p;
      CharFits(s, k);
      var c := str[p];
      assert c == s[k];
      if c >= 128 {
        var bad: bool;
        bad, p, length := CheckMultibyte(str, p, length, s);
        if bad {
          CharsThenOctets(s, 0, k);
          return p;
        }
      }
      OneMoreChar(s, 0, k);
      p := p + 1;
    }
    CharsThenOctets(s, 0, p);
    r := -1;
  }

  /** The character of more than one byte at k; length bytes follow the first. */
  method CheckMultibyte(str: seq<byte>, k: nat, length0: nat, ghost s: seq<byte>) returns (bad: bool, p: nat, length: nat)
    requires k + 1 + length0 == |s| <= |str| && s == str[..|s|] && s[k] >= 128
    ensures bad <==> CharAt(s, k) == 0
    ensures bad ==> k <= p <= k + 3
    ensures !bad ==> p + 1 == k + CharAt(s, k) && p + 1 + length == |s|
  {
    p, length := k, length0;
    var c := str[p];
    assert c == s[k];
    if c < 0xc0 { return true, p, length; }
    Table4(c % 64);
    var ab := TABLE4[c % 64];
    if length < ab || ab > 3 { return true, p, length; }
    length := length - ab;
    p := p + 1;
    assert str[p] == s[p];
    if str[p] / 64 != 2 { return true, p, length; }
    if ab == 1 {
      return (c % 64) / 2 == 0, p, length;
    } else if ab == 2 {
      if (c == 0xe0 && (str[p] / 32) % 2 == 0) || (c == 0xed && str[p] >= 0xa0) { return true, p, length; }
    } else {
      if (c == 0xf0 && (str[p] / 16) % 4 == 0) || c > 0xf4 || (c == 0xf4 && str[p] > 0x8f) { return true, p, length; }
    }
    ghost var n := ab;
    ab := ab - 1;
    while ab > 0
      invariant 0 <= ab < n && p == k + n - ab && p < |s|
      invariant forall i: nat :: k + 1 < i <= p ==> TailByte(s[i])
    {
      p := p + 1;
      assert str[p] == s[p];
      if str[p] / 64 != 2 { return true, p, length; }
      ab := ab - 1;
    }
    bad := false;
  }

  // ---- The encoder -----------------------------------------------------------------------------------------

  function Pow64(n: nat): nat {
    if n == 0 then 1 else 64 * Pow64(n - 1)
  }

  /** The number of bytes after the first. */
  function ExtraLen(c: nat): nat
    requires c <= 0x7fffffff
  {
    if c <= 0x7f then 0 else if c <= 0x7ff then 1 else if c <= 0xffff then 2
    else if c <= 0x1fffff then 3 else if c <= 0x3ffffff then 4 else 5
  }

  /** The last n groups of six bits of c. */
  function Tails(c: nat, n: nat): (r: seq<byte>)
    ensures |r| == n && forall k :: 0 <= k < n ==> TailByte(r[k])
    decreases n
  {
    if n == 0 then [] else Tails(c / 64, n - 1) + [0x80 + c % 64]
  }

  /** What is left of c above its last n groups of six bits. */
  function Top(c: nat, n: nat): nat
    decreases n
  {
    if n == 0 then c else Top(c / 64, n - 1)
  }

  lemma TopBound(c: nat)
    requires c <= 0x7fffffff
    ensures var i := ExtraLen(c); i < 6 && TABLE2[i] + Top(c, i) < 256 && Top(c, i) <= TABLE3[i]
    ensures ExtraLen(c) > 0 ==> TABLE2[ExtraLen(c)] + Top(c, ExtraLen(c)) >= 0xc0
  {
    var i := ExtraLen(c);
    assert Top(c, 0) == c;
    assert Top(c, 1) == c / 64;
    if i >= 2 { assert Top(c, 2) == c / 64 / 64; }
    if i >= 3 { assert Top(c, 3) == Top(c / 64, 2) == c / 64 / 64 / 64; }
    if i >= 4 { assert Top(c, 4) == Top(c / 64, 3) == Top(c / 64 / 64, 2) == c / 64 / 64 / 64 / 64; }
    if i >= 5 { assert Top(c, 5) == Top(c / 64, 4) == Top(c / 64 / 64, 3) == Top(c / 64 / 64 / 64, 2) == c / 64 / 64 / 64 / 64 / 64; }
  }

  function Encoded(c: nat): (r: seq<byte>)
    requires c <= 0x7fffffff
    ensures |r| == 1 + ExtraLen(c)
  {
    TopBound(c);
    [TABLE2[ExtraLen(c)] + Top(c, ExtraLen(c))] + Tails(c, ExtraLen(c))
  }

  lemma TailsStep(c: nat, n: nat)
    requires n > 0
    ensures Tails(c, n) == Tails(c / 64, n - 1) + [0x80 + c % 64] && Top(c, n) == Top(c / 64, n - 1)
    ensures Top(c, 0) == c && Tails(c, 0) == []
  {
  }

  lemma EncodedIs(c: nat)
    requires c <= 0x7fffffff
    ensures ExtraLen(c) < 6 && TABLE2[ExtraLen(c)] + Top(c, ExtraLen(c)) < 256
    ensures Encoded(c) == [TABLE2[ExtraLen(c)] + Top(c, ExtraLen(c))] + Tails(c, ExtraLen(c))
  {
    TopBound(c);
  }

  /** The size class of a value, by the table of the greatest values. */
  method FindExtra(cvalue: nat) returns (i: nat)
    requires cvalue <= 0x7fffffff
    ensures i == ExtraLen(cvalue)
  {
    i := 0;
    while i < 6
      invariant 0 <= i <= ExtraLen(cvalue)
    {
      if cvalue <= TABLE1[i] { break; }
      i := i + 1;
    }
  }

  /** Encodes a value, from the last byte to the first. */
  method Ord2Utf8(cvalue0: nat, buffer: array<byte>) returns (n: nat)
    requires cvalue0 <= 0x7fffffff && buffer.Length >= 6
    modifies buffer
    ensures n == |Encoded(cvalue0)| && buffer[..n] == Encoded(cvalue0)
    ensures forall k :: n <= k < buffer.Length ==> buffer[k] == old(buffer[k])
  {
    hide Top, Tails, Encoded, ExtraLen;
    TopBound(cvalue0);
    EncodedIs(cvalue0);
    var cvalue := cvalue0;
    var i := FindExtra(cvalue);
    var j := i;
    while j > 0
      invariant 0 <= j <= i
      invariant Top(cvalue, j) == Top(cvalue0, i)
      invariant Tails(cvalue0, i) == Tails(cvalue, j) + buffer[j + 1..i + 1]
      invariant forall k :: i + 1 <= k < buffer.Length ==> buffer[k] == old(buffer[k])
    {
      ghost var later := buffer[j + 1..i + 1];
      TailsStep(cvalue, j);
      buffer[j] := 0x80 + cvalue % 64;
      assert buffer[j..i + 1] == [0x80 + cvalue % 64] + later;
      cvalue := cvalue / 64;
      j := j - 1;
    }
    TailsStep(cvalue, 1);
    buffer[0] := TABLE2[i] + cvalue;
    n := i + 1;
    assert buffer[..n] == [buffer[0]] + buffer[1..n];
  }

  // ---- The decoder -----------------------------------------------------------------------------------------

  /** v with the low six bits of n bytes appended. */
  function Appended(v: nat, bytes: seq<byte>): nat {
    if bytes == [] then v else Appended(v, bytes[..|bytes| - 1]) * 64 + bytes[|bytes| - 1] % 64
  }

  function ExtraBytes(a: byte): nat {
    if a < 0xc0 then 0 else if a < 0xe0 then 1 else if a < 0xf0 then 2 else if a < 0xf8 then 3 else if a < 0xfc then 4 else 5
  }

  /** The value of the character at p, as the decoder reads it. */
  function Decoded(s: seq<byte>, p: nat): nat
    requires p < |s| && p + ExtraBytes(s[p]) < |s|
  {
    var aa := ExtraBytes(s[p]);
    if s[p] < 0xc0 then s[p] else Appended(s[p] % (TABLE3[aa] + 1), s[p + 1..p + 1 + aa])
  }

  lemma ShiftedIn(v: nat, x: nat, n: nat)
    requires n >= 1
    ensures v * Pow64(n) + x * Pow64(n - 1) == (v * 64 + x) * Pow64(n - 1)
  {
    assert Pow64(n) == 64 * Pow64(n - 1);
    assert v * (64 * Pow64(n - 1)) == (v * 64) * Pow64(n - 1);
  }

  lemma AppendSnoc(v: nat, bytes: seq<byte>, x: byte)
    ensures Appended(v, bytes + [x]) == Appended(v, bytes) * 64 + x % 64
  {
    assert (bytes + [x])[..|bytes|] == bytes;
  }

  /** GETCHARINC: decodes the character at p and moves past it. */
  method GetCharInc(s: seq<byte>, p: nat) returns (c: nat, eptr: nat)
    requires p < |s| && p + ExtraBytes(s[p]) < |s|
    ensures c == Decoded(s, p) && eptr == p + 1 + ExtraBytes(s[p])
  {
    c := s[p];
    eptr := p + 1;
    if c >= 0xc0 {
      Table4(c % 64);
      var aa := TABLE4[c % 64];
      c := ReadTails(s, eptr, c % (TABLE3[aa] + 1), aa);
      eptr := eptr + aa;
    }
  }

  /** The bytes after the first one, each shifted into its place. */
  method ReadTails(s: seq<byte>, p: nat, v: nat, aa0: nat) returns (c: nat)
    requires p + aa0 <= |s|
    ensures c == Appended(v, s[p..p + aa0])
  {
    hide Appended, Pow64;
    PowZero();
    var aa, shift, eptr := aa0, aa0, p;
    c := v * Pow64(shift);
    AppendNone(v, s[p..p]);
    while aa > 0
      invariant 0 <= aa <= aa0 && shift == aa && eptr == p + aa0 - aa
      invariant c == Appended(v, s[p..eptr]) * Pow64(shift)
    {
      aa := aa - 1;
      ShiftedIn(Appended(v, s[p..eptr]), s[eptr] % 64, shift);
      AppendSnoc(v, s[p..eptr], s[eptr]);
      assert s[p..eptr] + [s[eptr]] == s[p..eptr + 1];
      shift := shift - 1;
      c := c + (s[eptr] % 64) * Pow64(shift);
      eptr := eptr + 1;
    }
  }

  lemma PowZero()
    ensures Pow64(0) == 1
  {
  }

  lemma AppendNone(v: nat, bytes: seq<byte>)
    requires bytes == []
    ensures Appended(v, bytes) == v
  {
  }

  lemma {:induction false} AppendTails(c: nat, n: nat)
    ensures Appended(Top(c, n), Tails(c, n)) == c
    decreases n
  {
    if n > 0 {
      AppendTails(c / 64, n - 1);
      AppendSnoc(Top(c, n), Tails(c / 64, n - 1), 0x80 + c % 64);
    }
  }

  /** Decoding what was encoded gives the value back and consumes all its bytes. */
  lemma RoundTrip(c: nat, rest: seq<byte>)
    requires c <= 0x7fffffff
    ensures var s := Encoded(c) + rest;
            ExtraBytes(s[0]) == ExtraLen(c) && Decoded(s, 0) == c
  {
    var i := ExtraLen(c);
    var s := Encoded(c) + rest;
    TopBound(c);
    if i > 0 {
      LeadByte(i, Top(c, i));
      assert s[1..1 + i] == Tails(c, i);
      AppendTails(c, i);
    }
  }

  lemma LeadByte(i: nat, t: nat)
    requires 1 <= i <= 5 && t <= TABLE3[i]
    ensures var a := TABLE2[i] + t; 0xc0 <= a < 256 && ExtraBytes(a) == i && a % (TABLE3[i] + 1) == t
  {
    if i == 1 {} else if i == 2 {} else if i == 3 {} else if i == 4 {} else { assert i == 5; }
  }

  // ---- Valid strings are the encodings of sequences of scalar values -----------------------------------------

  /** A Unicode scalar value. */
  predicate Scalar(c: nat) {
    c <= 0x10ffff && !(0xd800 <= c <= 0xdfff)
  }

  lemma Split(h: nat, l: nat)
    requires l < 64
    ensures (64 * h + l) / 64 == h && (64 * h + l) % 64 == l
  {
  }

  lemma Encoded1(c: nat)
    requires c <= 0x7f
    ensures Encoded(c) == [c]
  {
  }

  lemma Encoded2(h: nat, l: nat)
    requires l < 64 && 0x80 <= 64 * h + l <= 0x7ff
    ensures Encoded(64 * h + l) == [0xc0 + h, 0x80 + l]
  {
    var c := 64 * h + l;
    Split(h, l);
    TailsStep(c, 1);
    TailsStep(h, 1);
  }

  lemma Encoded3(h: nat, l: nat, m: nat)
    requires l < 64 && m < 64 && 0x800 <= 64 * (64 * h + l) + m <= 0xffff
    ensures Encoded(64 * (64 * h + l) + m) == [0xe0 + h, 0x80 + l, 0x80 + m]
  {
    hide Top, Tails;
    var q := 64 * h + l;
    var c := 64 * q + m;
    Split(h, l);
    Split(q, m);
    TailsStep(c, 2);
    TailsStep(q, 1);
    TailsStep(h, 1);
  }

  lemma Encoded4(h: nat, k: nat, l: nat, m: nat)
    requires k < 64 && l < 64 && m < 64 && 0x10000 <= 64 * (64 * (64 * h + k) + l) + m <= 0x1fffff
    ensures Encoded(64 * (64 * (64 * h + k) + l) + m) == [0xf0 + h, 0x80 + k, 0x80 + l, 0x80 + m]
  {
    hide Top, Tails;
    var p := 64 * h + k;
    var q := 64 * p + l;
    var c := 64 * q + m;
    Split(h, k);
    Split(p, l);
    Split(q, m);
    TailsStep(c, 3);
    TailsStep(q, 2);
    TailsStep(p, 1);
    TailsStep(h, 1);
  }

  /** An encoding is a character of the grammar exactly when the value is a scalar value. */
  lemma EncodingValid(c: nat, rest: seq<byte>)
    requires c <= 0x7fffffff
    ensures CharAt(Encoded(c) + rest, 0) == if Scalar(c) then 1 + ExtraLen(c) else 0
  {
    hide Encoded;
    var i := ExtraLen(c);
    var s := Encoded(c) + rest;
    var q, m := c / 64, c % 64;
    var p, l := q / 64, q % 64;
    var h, k := p / 64, p % 64;
    if i == 0 {
      Encoded1(c);
    } else if i == 1 {
      Encoded2(q, m);
    } else if i == 2 {
      Encoded3(p, l, m);
      ThreeBytes(s, p, l, m);
    } else if i == 3 {
      Encoded4(h, k, l, m);
      FourBytes(s, h, k, l, m);
    } else {
      LongLead(c);
    }
  }

  lemma ThreeBytes(s: seq<byte>, h: nat, l: nat, m: nat)
    requires h < 16 && l < 64 && m < 64 && |s| >= 3 && s[0] == 0xe0 + h && s[1] == 0x80 + l && s[2] == 0x80 + m
    requires 64 * h + l >= 32
    ensures CharAt(s, 0) == if Scalar(64 * (64 * h + l) + m) then 3 else 0
  {
  }

  lemma FourBytes(s: seq<byte>, h: nat, k: nat, l: nat, m: nat)
    requires h < 8 && k < 64 && l < 64 && m < 64 && |s| >= 4
    requires s[0] == 0xf0 + h && s[1] == 0x80 + k && s[2] == 0x80 + l && s[3] == 0x80 + m
    requires 64 * h + k >= 16
    ensures CharAt(s, 0) == if Scalar(64 * (64 * (64 * h + k) + l) + m) then 4 else 0
  {
  }

  lemma LongLead(c: nat)
    requires 0x1fffff < c <= 0x7fffffff
    ensures Encoded(c)[0] >= 0xf8
  {
    TopBound(c);
  }

  /** A character of the grammar is the encoding of the scalar value that the decoder reads. */
  lemma DecodingScalar(s: seq<byte>, p: nat)
    requires p < |s| && CharAt(s, p) > 0
    ensures CharAt(s, p) == 1 + ExtraBytes(s[p]) && p + CharAt(s, p) <= |s|
    ensures var c := Decoded(s, p); Scalar(c) && ExtraLen(c) == ExtraBytes(s[p]) && s[p..p + CharAt(s, p)] == Encoded(c)
  {
    hide Encoded, Appended;
    var n := CharAt(s, p);
    var a: int := s[p];
    if n == 2 {
      Append1(a - 0xc0, s[p + 1]);
      assert s[p + 1..p + 2] == [s[p + 1]];
      Encoded2(a - 0xc0, s[p + 1] - 0x80);
      assert s[p..p + 2] == [s[p], s[p + 1]];
    } else if n == 3 {
      Append2(a - 0xe0, s[p + 1], s[p + 2]);
      assert s[p + 1..p + 3] == [s[p + 1], s[p + 2]];
      Encoded3(a - 0xe0, s[p + 1] - 0x80, s[p + 2] - 0x80);
      assert s[p..p + 3] == [s[p], s[p + 1], s[p + 2]];
    } else if n == 4 {
      Append3(a - 0xf0, s[p + 1], s[p + 2], s[p + 3]);
      assert s[p + 1..p + 4] == [s[p + 1], s[p + 2], s[p + 3]];
      Encoded4(a - 0xf0, s[p + 1] - 0x80, s[p + 2] - 0x80, s[p + 3] - 0x80);
      assert s[p..p + 4] == [s[p], s[p + 1], s[p + 2], s[p + 3]];
    } else {
      Encoded1(a);
      assert s[p..p + 1] == [s[p]];
    }
  }

  lemma Append1(v: nat, x: byte)
    requires TailByte(x)
    ensures Appended(v, [x]) == 64 * v + (x - 0x80)
  {
    AppendSnoc(v, [], x);
    assert [] + [x] == [x];
  }

  lemma Append2(v: nat, x: byte, y: byte)
    requires TailByte(x) && TailByte(y)
    ensures Appended(v, [x, y]) == 64 * (64 * v + (x - 0x80)) + (y - 0x80)
  {
    Append1(v, x);
    AppendSnoc(v, [x], y);
    assert [x] + [y] == [x, y];
  }

  lemma Append3(v: nat, x: byte, y: byte, z: byte)
    requires TailByte(x) && TailByte(y) && TailByte(z)
    ensures Appended(v, [x, y, z]) == 64 * (64 * (64 * v + (x - 0x80)) + (y - 0x80)) + (z - 0x80)
  {
    Append2(v, x, y);
    AppendSnoc(v, [x, y], z);
    assert [x, y] + [z] == [x, y, z];
  }

  ghost predicate Scalars(cs: seq<nat>) {
    forall k :: 0 <= k < |cs| ==> Scalar(cs[k])
  }

  function EncodedAll(cs: seq<nat>): seq<byte>
    requires Scalars(cs)
  {
    if cs == [] then [] else Encoded(cs[0]) + EncodedAll(cs[1..])
  }

  lemma {:induction false} EncodingsValid(cs: seq<nat>, s: seq<byte>, p: nat)
    requires Scalars(cs) && p <= |s| && s[p..] == EncodedAll(cs)
    ensures Octets(s, p)
    decreases |cs|
  {
    hide CharAt, Encoded;
    if cs != [] {
      var n := 1 + ExtraLen(cs[0]);
      var rest := EncodedAll(cs[1..]);
      EncodingValid(cs[0], rest);
      SameChar(s, p);
      assert s[p + n..] == s[p..][n..] == rest;
      EncodingsValid(cs[1..], s, p + n);
    }
  }

  lemma SameChar(s: seq<byte>, p: nat)
    requires p < |s|
    ensures CharAt(s, p) == CharAt(s[p..], 0)
  {
  }

  lemma {:induction false} ValidDecoded(s: seq<byte>, p: nat) returns (cs: seq<nat>)
    requires p <= |s| && Octets(s, p)
    ensures Scalars(cs) && s[p..] == EncodedAll(cs)
    decreases |s| - p
  {
    if p == |s| {
      cs := [];
    } else {
      DecodingScalar(s, p);
      var n := CharAt(s, p);
      var tl := ValidDecoded(s, p + n);
      cs := [Decoded(s, p)] + tl;
      assert s[p..] == s[p..p + n] + s[p + n..];
      assert cs[1..] == tl;
    }
  }

  /** A string is UTF-8 exactly when it is the encoding of some sequence of scalar values. */
  lemma ValidExactly(s: seq<byte>)
    ensures Octets(s, 0) <==> exists cs: seq<nat> :: Scalars(cs) && s == EncodedAll(cs)
  {
    assert s[0..] == s;
    if Octets(s, 0) {
      var cs := ValidDecoded(s, 0);
    }
    if cs: seq<nat> :| Scalars(cs) && s == EncodedAll(cs) {
      EncodingsValid(cs, s, 0);
    }
  }
}

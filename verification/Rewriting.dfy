/** The C++ wrapper's text operations: replacing all matches, expanding a rewrite string, and quoting. */
module Rewriting {
  import opened ByteCode
  import opened Escapes
  import opened Meaning
  import opened Outcomes
  import opened Captures
  import opened Backtracking
  import opened Match
  import opened MatchSteps
  import opened Exec
  import opened PcreStudy

  const K_VEC_SIZE := 51

  // ---- Expanding a rewrite string ------------------------------------------------------------------------

  /** The captured text of group n, when it is set. */
  function Captured(text: seq<byte>, vec: seq<int>, n: nat): seq<byte> {
    if 2 * n + 1 < |vec| && 0 <= vec[2 * n] <= vec[2 * n + 1] <= |text| then text[vec[2 * n]..vec[2 * n + 1]] else []
  }

  datatype Expansion = Expansion(ok: bool, text: seq<byte>)

  /** A rewrite string with \0 to \9 standing for groups and \\ for a backslash. An expansion ends early
      at a group that the match does not have, and at any other escape. */
  function Expanded(rewrite: seq<byte>, text: seq<byte>, vec: seq<int>, veclen: nat): Expansion {
    if rewrite == [] then Expansion(true, [])
    else if rewrite[0] != CHAR_BACKSLASH then Prefixed([rewrite[0]], Expanded(rewrite[1..], text, vec, veclen))
    else if |rewrite| == 1 then Expansion(false, [])
    else if IsDigit(rewrite[1]) then
      var n := rewrite[1] - 48;
      if n >= veclen then Expansion(false, []) else Prefixed(Captured(text, vec, n), Expanded(rewrite[2..], text, vec, veclen))
    else if rewrite[1] == CHAR_BACKSLASH then Prefixed([CHAR_BACKSLASH], Expanded(rewrite[2..], text, vec, veclen))
    else Expansion(false, [])
  }

  function Prefixed(piece: seq<byte>, e: Expansion): Expansion {
    Expansion(e.ok, piece + e.text)
  }

  lemma BeforeTwice(x: seq<byte>, y: seq<byte>, e: Expansion)
    ensures Prefixed(x, Prefixed(y, e)) == Prefixed(x + y, e)
  {
    assert x + (y + e.text) == (x + y) + e.text;
  }

  /** The pairs that a rewrite can name are unset or lie in the text. */
  ghost predicate PairsUsable(vec: seq<int>, text: seq<byte>, veclen: nat) {
    |vec| >= 20 && forall n: nat :: n < veclen && n <= 9 ==> vec[2 * n] < 0 || 0 <= vec[2 * n] <= vec[2 * n + 1] <= |text|
  }

  method ReadPair(text: seq<byte>, vec: array<int>, n: nat, veclen: nat) returns (piece: seq<byte>)
    requires PairsUsable(vec[..], text, veclen) && n < veclen && n <= 9
    ensures piece == Captured(text, vec[..], n)
  {
    var start := vec[2 * n];
    piece := if start >= 0 then text[start..vec[2 * n + 1]] else [];
  }

  method Rewrite(out0: seq<byte>, rewrite: seq<byte>, text: seq<byte>, vec: array<int>, veclen: nat)
    returns (ok: bool, out: seq<byte>)
    requires PairsUsable(vec[..], text, veclen)
    ensures var e := Expanded(rewrite, text, vec[..], veclen); ok == e.ok && out == out0 + e.text
  {
    out := out0;
    var s := 0;
    ghost var done: seq<byte> := [];
    BeforeNothing(Expanded(rewrite, text, vec[..], veclen));
    while s < |rewrite|
      invariant s <= |rewrite| && out == out0 + done
      invariant Expanded(rewrite, text, vec[..], veclen) == Prefixed(done, Expanded(rewrite[s..], text, vec[..], veclen))
    {
      ghost var rest := rewrite[s..];
      var c := rewrite[s];
      var piece: seq<byte>;
      if c == CHAR_BACKSLASH {
        s := s + 1;
        if s >= |rewrite| { return false, out; }
        c := rewrite[s];
        if IsDigit(c) {
          var n := c - 48;
          if n >= veclen { return false, out; }
          piece := ReadPair(text, vec, n, veclen);
        } else if c == CHAR_BACKSLASH {
          piece := [CHAR_BACKSLASH];
        } else {
          return false, out;
        }
        assert rest[2..] == rewrite[s + 1..];
      } else {
        piece := [c];
        assert rest[1..] == rewrite[s + 1..];
      }
      out := out + piece;
      s := s + 1;
      BeforeTwice(done, piece, Expanded(rewrite[s..], text, vec[..], veclen));
      done := done + piece;
    }
    ok := true;
  }

  lemma BeforeNothing(e: Expansion)
    ensures Prefixed([], e) == e
  {
  }

  // ---- What rewrite strings stand for ------------------------------------------------------------------------

  /** Without backslashes a rewrite string stands for itself. */
  lemma {:induction false} PlainExpands(rewrite: seq<byte>, text: seq<byte>, vec: seq<int>, veclen: nat)
    requires forall i :: 0 <= i < |rewrite| ==> rewrite[i] != 92
    ensures Expanded(rewrite, text, vec, veclen) == Expansion(true, rewrite)
  {
    if rewrite != [] {
      PlainExpands(rewrite[1..], text, vec, veclen);
      assert [rewrite[0]] + rewrite[1..] == rewrite;
    }
  }

  /** The string with every backslash doubled. */
  function Doubled(s: seq<byte>): seq<byte> {
    if s == [] then [] else (if s[0] == 92 then [92, 92] else [s[0]]) + Doubled(s[1..])
  }

  lemma {:induction false} DoubledExpands(s: seq<byte>, text: seq<byte>, vec: seq<int>, veclen: nat)
    ensures Expanded(Doubled(s), text, vec, veclen) == Expansion(true, s)
  {
    if s != [] {
      DoubledExpands(s[1..], text, vec, veclen);
      var head: seq<byte> := if s[0] == 92 then [92, 92] else [s[0]];
      assert (head + Doubled(s[1..]))[|head|..] == Doubled(s[1..]);
      assert [s[0]] + s[1..] == s;
    }
  }

  lemma CapturedText(d: nat, text: seq<byte>, vec: seq<int>, veclen: nat)
    requires d < veclen && d <= 9 && PairsUsable(vec, text, veclen)
    ensures vec[2 * d] >= 0 ==> vec[2 * d] <= vec[2 * d + 1] <= |text| && Captured(text, vec, d) == text[vec[2 * d]..vec[2 * d + 1]]
    ensures vec[2 * d] < 0 ==> Captured(text, vec, d) == []
  {
  }

  /** A backslash and a digit stand for the text between the offsets of the group, which is empty for an unset group;
      at a group that the match does not have the expansion fails. */
  lemma GroupExpands(d: nat, text: seq<byte>, vec: seq<int>, veclen: nat)
    requires d <= 9 && PairsUsable(vec, text, veclen)
    ensures d < veclen && vec[2 * d] >= 0 ==>
              Expanded([92, 48 + d], text, vec, veclen) == Expansion(true, text[vec[2 * d]..vec[2 * d + 1]])
    ensures d < veclen && vec[2 * d] < 0 ==> Expanded([92, 48 + d], text, vec, veclen) == Expansion(true, [])
    ensures d >= veclen ==> !Expanded([92, 48 + d], text, vec, veclen).ok
  {
    var r: seq<byte> := [92, 48 + d];
    assert r[2..] == [] && r[1] - 48 == d && IsDigit(r[1]);
    var rest := Expanded([], text, vec, veclen);
    assert rest == Expansion(true, []);
    if d < veclen {
      CapturedText(d, text, vec, veclen);
      hide Captured, PairsUsable;
      assert Expanded(r, text, vec, veclen) == Prefixed(Captured(text, vec, d), rest);
    } else {
      hide Captured, PairsUsable;
    }
  }

  /** Any other byte behind a backslash, or none, makes the expansion fail. */
  lemma EscapeFails(c: byte, text: seq<byte>, vec: seq<int>, veclen: nat)
    ensures !Expanded([92], text, vec, veclen).ok
    ensures !(48 <= c <= 57) && c != 92 ==> !Expanded([92, c], text, vec, veclen).ok
  {
  }

  /** Two rewrite strings one after the other, the first of which does not fail. */
  lemma {:induction false} ExpandsJoin(r: seq<byte>, t: seq<byte>, text: seq<byte>, vec: seq<int>, veclen: nat)
    requires Expanded(r, text, vec, veclen).ok
    ensures var e := Expanded(t, text, vec, veclen);
            Expanded(r + t, text, vec, veclen) == Expansion(e.ok, Expanded(r, text, vec, veclen).text + e.text)
  {
    hide Captured;
    var e := Expanded(t, text, vec, veclen);
    if r == [] {
      assert r + t == t;
    } else {
      var n := if r[0] != CHAR_BACKSLASH then 1 else 2;
      var piece := HeadPiece(r, text, vec);
      assert (r + t)[n..] == r[n..] + t;
      ExpandsJoin(r[n..], t, text, vec, veclen);
      assert piece + (Expanded(r[n..], text, vec, veclen).text + e.text) == (piece + Expanded(r[n..], text, vec, veclen).text) + e.text;
    }
  }

  /** What the first byte or escape of a rewrite string stands for. */
  function HeadPiece(r: seq<byte>, text: seq<byte>, vec: seq<int>): seq<byte>
    requires r != []
  {
    if r[0] != CHAR_BACKSLASH then [r[0]]
    else if |r| > 1 && IsDigit(r[1]) then Captured(text, vec, r[1] - 48)
    else [CHAR_BACKSLASH]
  }

  // ---- Quoting -----------------------------------------------------------------------------------------------

  /** Letters, digits, underscore and bytes above 127 stand for themselves. */
  predicate Plain(c: byte) {
    97 <= c <= 122 || 65 <= c <= 90 || IsDigit(c) || c == 95 || c >= 128
  }

  function QuotedByte(c: byte): seq<byte> {
    if c == 0 then [CHAR_BACKSLASH, 48] else if Plain(c) then [c] else [CHAR_BACKSLASH, c]
  }

  function Quoted(s: seq<byte>): seq<byte> {
    if s == [] then [] else QuotedByte(s[0]) + Quoted(s[1..])
  }

  lemma {:induction false} QuotedSnoc(s: seq<byte>, c: byte)
    ensures Quoted(s + [c]) == Quoted(s) + QuotedByte(c)
    decreases |s|
  {
    if s == [] {
      assert s + [c] == [c];
    } else {
      QuotedSnoc(s[1..], c);
      assert (s + [c])[1..] == s[1..] + [c];
    }
  }

  method QuoteMeta(unquoted: seq<byte>) returns (result: seq<byte>)
    ensures result == Quoted(unquoted)
  {
    result := [];
    var ii := 0;
    while ii < |unquoted|
      invariant 0 <= ii <= |unquoted| && result == Quoted(unquoted[..ii])
    {
      var c := unquoted[ii];
      if c == 0 {
        result := result + [CHAR_BACKSLASH, 48];
      } else if (c < 97 || c > 122) && (c < 65 || c > 90) && (c < 48 || c > 57) && c != 95 && (c as int) / 128 == 0 {
        result := result + [CHAR_BACKSLASH];
        result := result + [c];
      } else {
        result := result + [c];
      }
      QuotedSnoc(unquoted[..ii], c);
      assert unquoted[..ii + 1] == unquoted[..ii] + [c];
      ii := ii + 1;
    }
    assert unquoted[..ii] == unquoted;
  }

  /** The bytes that the compiler does not take for literals, when they stand unescaped outside a class. */
  predicate Special(c: byte) {
    c in {0, 36, 40, 41, 42, 43, 46, 63, 91, 92, 94, 123, 124}
  }

  datatype Reading = NoLiteral | Literal(c: byte, next: nat)

  /** One literal of a pattern, as the compiler reads it. */
  function ReadLiteral(pattern: seq<byte>, p: nat): Reading
    requires p < |pattern|
  {
    var c := pattern[p];
    if c == CHAR_BACKSLASH then
      var e := EscapeAt(0, pattern, p);
      if e.Data? then Literal(e.c, e.next) else NoLiteral
    else if Special(c) then NoLiteral
    else Literal(c, p + 1)
  }

  /** The pattern from p on is read as the literals of s, and nothing else. */
  ghost predicate ReadsAs(pattern: seq<byte>, p: nat, s: seq<byte>)
    decreases |s|
  {
    if s == [] then p == |pattern|
    else
      p < |pattern|
      && var r := ReadLiteral(pattern, p);
         r.Literal? && r.c == s[0] && ReadsAs(pattern, r.next, s[1..])
  }

  /** Whether the first byte of s is a NUL that an octal digit follows. */
  predicate NulThenDigit(s: seq<byte>) {
    |s| > 1 && s[0] == 0 && IsOctal(s[1])
  }

  /** No NUL has an octal digit after it. */
  ghost predicate Quotable(s: seq<byte>) {
    forall k: nat :: k < |s| ==> !NulThenDigit(s[k..])
  }

  lemma QuotedStep(s: seq<byte>)
    ensures Quoted(s) == if s == [] then [] else QuotedByte(s[0]) + Quoted(s[1..])
  {
  }

  lemma {:induction false} OctalStops(pattern: seq<byte>, p: nat, s: seq<byte>, v: nat, left: nat) returns (n: nat)
    requires p <= |pattern| && pattern[p..] == Quoted(s) && v < 8 && left <= 2 && (left == 1 || v == 0)
    ensures n <= left && n <= |s| && (n > 0 <==> left > 0 && s != [] && IsOctal(s[0]))
    ensures var r := ReadOctal(pattern, p, v, left);
            r.Data? && r.next <= |pattern| && pattern[r.next..] == Quoted(s[n..]) && (n == 0 ==> r == Data(v, p))
    decreases left
  {
    QuotedStep(s);
    hide Quoted;
    n := 0;
    assert s[0..] == s;
    if s == [] {
      assert |pattern| == p;
    } else {
      var q := QuotedByte(s[0]);
      assert pattern[p..] == q + Quoted(s[1..]) && pattern[p] == pattern[p..][0] == q[0];
      if left > 0 && IsOctal(s[0]) {
        assert pattern[p + 1..] == pattern[p..][1..] == Quoted(s[1..]);
        if left == 2 {
          n := OctalStops(pattern, p + 1, s[1..], 8 * v + (s[0] as int) - 48, 1);
          assert s[1..][n..] == s[n + 1..];
        } else {
          assert ReadOctal(pattern, p, v, left) == Data(8 * v + (s[0] as int) - 48, p + 1);
        }
        n := n + 1;
      }
    }
  }

  /** A literal read at the start of a quoted string is its first byte, unless this is a NUL with an octal
      digit after it: then the digit is taken for a part of the literal. */
  lemma ReadQuoted(pattern: seq<byte>, p: nat, s: seq<byte>) returns (n: nat)
    requires p <= |pattern| && pattern[p..] == Quoted(s) && s != []
    ensures p < |pattern| && 1 <= n <= |s| && (n == 1 <==> !NulThenDigit(s))
    ensures var r := ReadLiteral(pattern, p);
            r.Literal? && r.next <= |pattern| && pattern[r.next..] == Quoted(s[n..]) && (n == 1 ==> r.c == s[0])
  {
    hide EscapeAt, ReadOctal;
    var q := QuotedByte(s[0]);
    assert pattern[p..] == q + Quoted(s[1..]);
    assert pattern[p] == pattern[p..][0];
    if |q| == 2 {
      assert pattern[p + 1] == pattern[p..][1];
      PlainEscapes(0, pattern, p);
    }
    assert pattern[p + |q|..] == pattern[p..][|q|..] == Quoted(s[1..]);
    n := 1;
    if s[0] == 0 {
      var k := OctalStops(pattern, p + 2, s[1..], 0, 2);
      assert s[1..][k..] == s[k + 1..];
      n := k + 1;
    }
  }

  /** A quoted string is read as no more literals than it has bytes. */
  lemma {:induction false} ReadsNoMore(pattern: seq<byte>, p: nat, s: seq<byte>, t: seq<byte>)
    requires p <= |pattern| && pattern[p..] == Quoted(s) && ReadsAs(pattern, p, t)
    ensures |t| <= |s|
    decreases |t|
  {
    if t != [] {
      assert |pattern[p..]| == |pattern| - p > 0;
      var n := ReadQuoted(pattern, p, s);
      ReadsNoMore(pattern, ReadLiteral(pattern, p).next, s[n..], t[1..]);
    }
  }

  /** The compiler reads a quoted string as the literal bytes of the string exactly when no NUL in it has an
      octal digit after it. */
  lemma {:induction false} QuotedReads(pattern: seq<byte>, p: nat, s: seq<byte>)
    requires p <= |pattern| && pattern[p..] == Quoted(s)
    ensures ReadsAs(pattern, p, s) <==> Quotable(s)
    decreases |s|
  {
    if s == [] {
      assert |pattern[p..]| == 0;
    } else {
      var n := ReadQuoted(pattern, p, s);
      var r := ReadLiteral(pattern, p);
      assert s[0..] == s;
      if n == 1 {
        QuotedReads(pattern, r.next, s[1..]);
        QuotableTail(s);
      } else {
        assert NulThenDigit(s[0..]);
        if ReadsAs(pattern, p, s) { ReadsNoMore(pattern, r.next, s[n..], s[1..]); }
      }
    }
  }

  lemma QuotableTail(s: seq<byte>)
    requires s != [] && !NulThenDigit(s)
    ensures Quotable(s) <==> Quotable(s[1..])
  {
    forall k: nat | k < |s| - 1 ensures s[1..][k..] == s[k + 1..] {
    }
    if Quotable(s[1..]) {
      forall k: nat | k < |s| ensures !NulThenDigit(s[k..]) {
        if k > 0 { assert s[1..][k - 1..] == s[k..]; } else { assert s[0..] == s; }
      }
    }
    if Quotable(s) {
      forall k: nat | k < |s[1..]| ensures !NulThenDigit(s[1..][k..]) {
        assert s[1..][k..] == s[k + 1..];
      }
    }
  }

  /** A NUL and the digit 1 are quoted as the number \01, and so read as the single byte 1. */
  lemma DigitAfterNul()
    ensures Quoted([0, 49]) == [CHAR_BACKSLASH, 48, 49]
    ensures ReadsAs(Quoted([0, 49]), 0, [1]) && !ReadsAs(Quoted([0, 49]), 0, [0, 49])
  {
    var s: seq<byte> := [0, 49];
    assert s[1..] == [49] && s[1..][1..] == [];
    assert Quoted([49]) == [49] + Quoted([]);
    var pattern := Quoted(s);
    assert pattern == [CHAR_BACKSLASH, 48, 49];
    assert ReadOctal(pattern, 3, 1, 1) == Data(1, 3);
    assert EscapeAt(0, pattern, 0) == ReadOctal(pattern, 2, 0, 2) == Data(1, 3);
    assert ReadsAs(pattern, 3, []);
    var one: seq<byte> := [1];
    assert one[1..] == [];
  }

  // ---- Replacing all matches -----------------------------------------------------------------------------------

  /** One replacement: the match and the captures that were expanded. */
  datatype Hit = Hit(start: nat, end: nat, vec: seq<int>, matches: nat)

  /** The output for the text up to pos: what lies between the hits, and the expansions for the hits. */
  function Output(text: seq<byte>, rewrite: seq<byte>, hits: seq<Hit>, pos: nat): seq<byte>
    decreases |hits|
  {
    if hits == [] then text[..Clip(text, pos)]
    else
      var h := hits[|hits| - 1];
      Output(text, rewrite, hits[..|hits| - 1], h.start) + Expanded(rewrite, text, h.vec, h.matches).text
      + Between(text, h.end, pos)
  }

  function Clip(text: seq<byte>, pos: nat): (r: nat)
    ensures r <= |text|
  {
    if pos <= |text| then pos else |text|
  }

  function Between(text: seq<byte>, lo: nat, hi: nat): seq<byte> {
    if Clip(text, lo) <= Clip(text, hi) then text[Clip(text, lo)..Clip(text, hi)] else []
  }

  /** Where the text after the last hit begins. */
  function LastEnd(hits: seq<Hit>): nat {
    if hits == [] then 0 else hits[|hits| - 1].end
  }

  lemma OutputMore(text: seq<byte>, rewrite: seq<byte>, hits: seq<Hit>, pos: nat, next: nat)
    requires LastEnd(hits) <= pos <= next
    ensures Output(text, rewrite, hits, next) == Output(text, rewrite, hits, pos) + Between(text, pos, next)
  {
    if hits == [] {
      assert text[..Clip(text, next)] == text[..Clip(text, pos)] + Between(text, pos, next);
    } else {
      var h := hits[|hits| - 1];
      assert Between(text, h.end, next) == Between(text, h.end, pos) + Between(text, pos, next);
      var o := Output(text, rewrite, hits[..|hits| - 1], h.start) + Expanded(rewrite, text, h.vec, h.matches).text;
      assert o + (Between(text, h.end, pos) + Between(text, pos, next)) == (o + Between(text, h.end, pos)) + Between(text, pos, next);
    }
  }

  lemma OutputHit(text: seq<byte>, rewrite: seq<byte>, hits: seq<Hit>, h: Hit)
    ensures Output(text, rewrite, hits + [h], h.end)
         == Output(text, rewrite, hits, h.start) + Expanded(rewrite, text, h.vec, h.matches).text
  {
    assert (hits + [h])[..|hits|] == hits;
    assert Between(text, h.end, h.end) == [];
  }

  /** Hits in order, apart from each other, inside the text. */
  ghost predicate Ordered(text: seq<byte>, hits: seq<Hit>) {
    && (forall k: nat :: k < |hits| ==> hits[k].start <= hits[k].end <= |text|)
    && (forall k: nat, m: nat :: k < m < |hits| ==> hits[k].end <= hits[m].start && hits[k].start < hits[m].end)
  }

  /** A hit's first pair is the match. */
  ghost predicate FirstPair(h: Hit) {
    |h.vec| >= 2 && h.vec[0] == h.start && h.vec[1] == h.end && h.matches >= 1
  }

  /** Rewriting every match to \0 reproduces the text. */
  lemma {:induction false} RewriteToItself(text: seq<byte>, hits: seq<Hit>, pos: nat)
    requires Ordered(text, hits) && (forall k: nat :: k < |hits| ==> FirstPair(hits[k])) && LastEnd(hits) <= pos
    ensures Output(text, [CHAR_BACKSLASH, 48], hits, pos) == text[..Clip(text, pos)]
    decreases |hits|
  {
    hide Expanded, Captured;
    if hits != [] {
      var h := hits[|hits| - 1];
      var rest := hits[..|hits| - 1];
      assert FirstPair(h);
      ExpandWhole(text, h);
      if rest != [] { assert rest[|rest| - 1] == hits[|hits| - 2]; }
      RewriteToItself(text, rest, h.start);
      ThreeParts(text, h.start, h.end, pos);
    }
  }

  /** Over the whole text. */
  lemma RewriteAll(text: seq<byte>, hits: seq<Hit>)
    requires Ordered(text, hits) && forall k: nat :: k < |hits| ==> FirstPair(hits[k])
    ensures Output(text, [CHAR_BACKSLASH, 48], hits, |text|) == text
  {
    RewriteToItself(text, hits, |text|);
    assert text[..|text|] == text;
  }

  lemma FoundPairs(c: Context, g: Group, hits: seq<Hit>)
    requires Found(c, g, hits)
    ensures forall k: nat :: k < |hits| ==> FirstPair(hits[k])
  {
    hide DGroup, NoOccurrence, FirstPair, Caught;
  }

  lemma ThreeParts(text: seq<byte>, lo: nat, hi: nat, pos: nat)
    requires lo <= hi <= |text| && hi <= pos
    ensures text[..Clip(text, lo)] + text[lo..hi] + Between(text, hi, pos) == text[..Clip(text, pos)]
  {
  }

  lemma ExpandWhole(text: seq<byte>, h: Hit)
    requires FirstPair(h) && h.end <= |text| && h.start <= h.end
    ensures Expanded([CHAR_BACKSLASH, 48], text, h.vec, h.matches).text == text[h.start..h.end]
  {
    GroupZero(text, h.vec, h.matches);
    var t := Captured(text, h.vec, 0);
    assert t + [] == t;
  }

  lemma GroupZero(text: seq<byte>, vec: seq<int>, veclen: nat)
    requires veclen >= 1
    ensures Expanded([CHAR_BACKSLASH, 48], text, vec, veclen) == Prefixed(Captured(text, vec, 0), Expansion(true, []))
  {
    hide Captured;
    var r: seq<byte> := [CHAR_BACKSLASH, 48];
    assert r[2..] == [];
    ExpandNothing(r[2..], text, vec, veclen);
  }

  lemma ExpandNothing(r: seq<byte>, text: seq<byte>, vec: seq<int>, veclen: nat)
    requires r == []
    ensures Expanded(r, text, vec, veclen) == Expansion(true, [])
  {
  }

  /** A stretch of the text, with the word in place of each hit. */
  function Spliced(text: seq<byte>, word: seq<byte>, hits: seq<Hit>, from: nat, to: nat): seq<byte> {
    if hits == [] then Between(text, from, to)
    else Between(text, from, hits[0].start) + word + Spliced(text, word, hits[1..], hits[0].end, to)
  }

  lemma {:induction false} SplicedMore(text: seq<byte>, word: seq<byte>, hits: seq<Hit>, h: Hit, from: nat, to: nat)
    ensures Spliced(text, word, hits + [h], from, to) == Spliced(text, word, hits, from, h.start) + word + Between(text, h.end, to)
    decreases |hits|
  {
    hide Between;
    var all := hits + [h];
    if hits == [] {
      assert all[1..] == [];
    } else {
      assert all[1..] == hits[1..] + [h];
      SplicedMore(text, word, hits[1..], h, hits[0].end, to);
      var x, y := Between(text, from, hits[0].start) + word, Spliced(text, word, hits[1..], hits[0].end, h.start);
      assert x + (y + word + Between(text, h.end, to)) == (x + y) + word + Between(text, h.end, to);
    }
  }

  /** With a plain rewrite string, every hit is replaced by that string. */
  lemma {:induction false} PlainOutput(text: seq<byte>, word: seq<byte>, hits: seq<Hit>, pos: nat)
    requires forall i :: 0 <= i < |word| ==> word[i] != 92
    ensures Output(text, word, hits, pos) == Spliced(text, word, hits, 0, pos)
    decreases |hits|
  {
    if hits == [] {
      assert Between(text, 0, pos) == text[..Clip(text, pos)];
    } else {
      var n := |hits| - 1;
      var h, front := hits[n], hits[..n];
      assert front + [h] == hits;
      PlainOutput(text, word, front, h.start);
      PlainExpands(word, text, h.vec, h.matches);
      SplicedMore(text, word, front, h, 0, pos);
    }
  }

  /** The pattern has a match that starts at t. */
  ghost predicate Occurs(c: Context, g: Group, t: nat) {
    exists j: nat :: DGroup(c, g, t, j)
  }

  ghost predicate NoOccurrence(c: Context, g: Group, lo: nat, hi: nat) {
    forall t: nat :: lo <= t < hi ==> !Occurs(c, g, t)
  }

  /** Where occurrences after the first n hits have to be looked for. */
  function NextFrom(hits: seq<Hit>, n: nat): nat
    requires n <= |hits|
  {
    if n == 0 then 0 else hits[n - 1].end + 1
  }

  /** Each pair that a rewrite can name is unset or what a group of that number has matched, when no group stands inside
      one of its own number. */
  ghost predicate Caught(c: Context, g: Group, vec: seq<int>, matches: nat) {
    |vec| == K_VEC_SIZE
    && (DistinctGroup(g, {}) ==>
          forall k: nat :: 1 <= k < matches && k <= 9 ==>
            (vec[2 * k], vec[2 * k + 1]) == (-1, -1) || CapturedBy(c, InGroup(g), k, (vec[2 * k], vec[2 * k + 1])))
  }

  /** Every hit is a match, with what its groups have matched, and none is passed over: no match starts between the
      end of one hit and the start of the next. */
  ghost predicate Found(c: Context, g: Group, hits: seq<Hit>) {
    forall k: nat :: k < |hits| ==>
      && FirstPair(hits[k])
      && DGroup(c, g, hits[k].start, hits[k].end)
      && Caught(c, g, hits[k].vec, hits[k].matches)
      && NoOccurrence(c, g, NextFrom(hits, k), hits[k].start)
  }

  /** A match that TryMatch() reports. */
  ghost predicate Reported(text: seq<byte>, start: nat, anchored: bool, emptyOk: bool, vec: seq<int>, matches: nat) {
    && |vec| == K_VEC_SIZE
    && start <= vec[0] <= vec[1] <= |text|
    && (anchored ==> vec[0] == start)
    && (!emptyOk ==> vec[0] < vec[1])
    && matches >= 1
    && PairsUsable(vec, text, matches)
  }

  /** A compiled regular expression. */
  class RE {
    const code: seq<byte>
    const tb: Tables
    const caseless: bool
    const facts: Facts
    const options: Options
    const matchLimit: nat
    const matchLimitRecursion: nat
    ghost const g: Group

    constructor (code: seq<byte>, tb: Tables, caseless: bool, facts: Facts, options: Options,
                 matchLimit: nat, matchLimitRecursion: nat, ghost g: Group)
      ensures this.code == code && this.tb == tb && this.caseless == caseless && this.facts == facts
      ensures this.options == options && this.matchLimit == matchLimit && this.matchLimitRecursion == matchLimitRecursion
      ensures this.g == g
    {
      this.code, this.tb, this.caseless, this.facts := code, tb, caseless, facts;
      this.options, this.matchLimit, this.matchLimitRecursion, this.g := options, matchLimit, matchLimitRecursion, g;
    }

    ghost predicate Valid() {
      tb.Valid() && AtPattern(code, g, caseless) && CheckedGroup(g) && HoldsAlways(facts, tb, caseless, g)
    }

    ghost function C(text: seq<byte>): Context {
      Context(text, tb, caseless)
    }

    /** One attempt from startpos on, perhaps only at startpos, perhaps not for an empty match. The yield
        is 0 when there is no match or a limit was hit. */
    method TryMatch(text: seq<byte>, startpos: nat, anchored: bool, emptyOk: bool, vec: array<int>)
      returns (matches: nat, ghost limited: bool)
      requires Valid() && startpos <= |text| && vec.Length == K_VEC_SIZE
      modifies vec
      ensures matches > 0 ==>
                && Reported(text, startpos, anchored, emptyOk, vec[..], matches)
                && DGroup(C(text), g, vec[0], vec[1])
                && Caught(C(text), g, vec[..], matches)
                && (emptyOk ==> NoOccurrence(C(text), g, startpos, vec[0]))
      ensures matches == 0 && !limited && emptyOk && !anchored && !options.anchored && !options.firstline ==>
                NoOccurrence(C(text), g, startpos, |text| + 1)
    {
      hide AtPattern, CheckedGroup, HoldsAlways, FactsSound, DGroup, First, CapturesOrdered, Leftmost, Exhausted, WGroup,
        DistinctGroup, GroupHas, DAlts, Caught, CapturedBy;
      FactsFor(facts, tb, caseless, g, text);
      var md := new MatchData(text, code, tb, caseless, vec, K_VEC_SIZE, startpos, !emptyOk, false,
                              matchLimit, matchLimitRecursion, facts.topBracket);
      var o := options.(anchored := anchored || options.anchored);
      var rc, start, v, r := PcreExec(md, facts, o, K_VEC_SIZE, g);
      limited := rc != PCRE_ERROR_NOMATCH;
      ghost var a := md.AttemptAt(0);
      if rc == PCRE_ERROR_NOMATCH {
        if emptyOk && !o.anchored && !o.firstline { NothingOccurs(o, a, g); }
        return 0, limited;
      } else if rc < 0 {
        return 0, limited;
      }
      matches := if rc == 0 then K_VEC_SIZE / 2 else rc;
      MatchReported(text, o, a, g, start, v, r, facts.topBracket, vec[..], rc, matches);
      PairsCaught(a, g, start, v, r, facts.topBracket, vec[..], rc, matches);
    }

    /** Replaces every match by the expansion of the rewrite string. The hits are matches, in order and
        apart from each other, and none is passed over unless a limit was hit. Rewriting to \0 leaves the text as it is. */
    method GlobalReplace(rewrite: seq<byte>, str: seq<byte>)
      returns (count: nat, result: seq<byte>, ghost hits: seq<Hit>, ghost limited: bool)
      requires Valid()
      ensures count == |hits| && Ordered(str, hits) && Found(C(str), g, hits)
      ensures result == Output(str, rewrite, hits, |str|)
      ensures rewrite == [CHAR_BACKSLASH, CHAR_0] ==> result == str
      ensures 92 !in rewrite ==> result == Spliced(str, rewrite, hits, 0, |str|)
      ensures !limited && !options.anchored && !options.firstline ==> NoOccurrence(C(str), g, NextFrom(hits, count), |str| + 1)
    {
      hide DGroup, Found, Ordered, Output, NoOccurrence, Expanded, Valid, Occurs, Caught;
      var vec := new int[K_VEC_SIZE](_ => 0);
      count, hits, limited := 0, [], false;
      var out: seq<byte> := [];
      var start: nat := 0;
      var lastMatchWasEmptyString := false;
      NoHits(C(str), g, rewrite);
      while start <= |str|
        invariant count == |hits| && out == Output(str, rewrite, hits, start) && start <= |str| + 1
        invariant Ordered(str, hits) && Found(C(str), g, hits)
        invariant StandsAt(hits, start, lastMatchWasEmptyString)
        decreases |str| + 1 - start, if lastMatchWasEmptyString then 0 else 1
      {
        var matches: nat;
        ghost var hitLimit: bool;
        if lastMatchWasEmptyString {
          matches, hitLimit := TryMatch(str, start, true, false, vec);
          if matches == 0 {
            limited := limited || hitLimit;
            var matchend := start + 1;
            OutputMore(str, rewrite, hits, start, matchend);
            if start < |str| { out := out + str[start..matchend]; }
            assert Between(str, start, matchend) == if start < |str| then str[start..matchend] else [];
            start := matchend;
            lastMatchWasEmptyString := false;
            continue;
          }
        } else {
          matches, hitLimit := TryMatch(str, start, false, true, vec);
          if matches == 0 {
            limited := limited || hitLimit;
            break;
          }
        }
        var matchstart, matchend := vec[0], vec[1];
        OutputMore(str, rewrite, hits, start, matchstart);
        out := out + str[start..matchstart];
        ghost var h := Hit(matchstart, matchend, vec[..], matches);
        var _, out' := Rewrite(out, rewrite, str, vec, matches);
        out := out';
        OutputHit(str, rewrite, hits, h);
        AnotherHit(C(str), g, str, hits, h, start, lastMatchWasEmptyString);
        hits := hits + [h];
        start := matchend;
        count := count + 1;
        lastMatchWasEmptyString := matchstart == matchend;
      }
      NoneLeft(C(str), g, hits, start, lastMatchWasEmptyString, |str|);
      if rewrite == [CHAR_BACKSLASH, CHAR_0] { FoundPairs(C(str), g, hits); RewriteAll(str, hits); }
      if 92 !in rewrite { PlainOutput(str, rewrite, hits, |str|); }
      FinishOutput(str, rewrite, hits, start);
      if count == 0 { return 0, str, hits, limited; }
      if start < |str| { out := out + str[start..]; }
      result := out;
    }
  }

  /** Where the search stands after some hits. */
  ghost predicate StandsAt(hits: seq<Hit>, start: nat, empty: bool) {
    if hits == [] then start == 0 && !empty
    else
      var h := hits[|hits| - 1];
      if empty then h.start == h.end == start
      else start == h.end + 1 || (start == h.end && h.start < h.end)
  }

  lemma NothingOccurs(o: Options, a: Attempt, g: Group)
    requires Exhausted(o, a, g) && !a.notempty && !a.notemptyAtStart && !o.anchored && !o.firstline
    ensures NoOccurrence(a.c, g, a.startOffset, |a.c.s| + 1)
  {
    hide DGroup;
    forall t: nat, j: nat | a.startOffset <= t < |a.c.s| + 1 ensures !DGroup(a.c, g, t, j) {
      assert Eligible(o, a, t);
      assert !MatchesAt(a, g, t);
      assert a.(mstart := t).Acceptable(j);
    }
  }

  lemma MatchReported(text: seq<byte>, o: Options, a: Attempt, g: Group, start: nat, v: seq<int>, r: State, n: nat,
                      vec: seq<int>, rc: int, matches: nat)
    requires Leftmost(o, a, g, start) && Finds(a, g, start, v, r) && a.c.s == text
    requires |vec| == K_VEC_SIZE && a.offsetMax == 34
    requires vec == Whole(r.ov, K_VEC_SIZE, start, r.pos)
    requires rc >= 0 && (rc > 0 ==> rc == r.top / 2) && (rc == 0 ==> 2 * n >= 34)
    requires matches == if rc == 0 then K_VEC_SIZE / 2 else rc
    requires CapturesOrdered(a.offsetMax, n, r.ov, start, r.pos, r.top)
    ensures vec[0] == start && vec[1] >= 0 && DGroup(a.c, g, vec[0], vec[1])
    ensures Reported(text, a.startOffset, o.anchored, !a.notempty, vec, matches)
    ensures !a.notempty && !a.notemptyAtStart ==> NoOccurrence(a.c, g, a.startOffset, start)
  {
    hide DGroup, First, GroupOutcomes;
    var b := a.(mstart := start);
    PatternFirst(b, g, State(start, v, 2, [], false));
    GroupForward(a.c, g, start, r.pos);
    forall k: nat | k < matches && k <= 9 ensures vec[2 * k] < 0 || 0 <= vec[2 * k] <= vec[2 * k + 1] <= |text| {
      if k > 0 { assert Pair(r.ov, k) == (vec[2 * k], vec[2 * k + 1]); }
    }
    if !a.notempty && !a.notemptyAtStart {
      forall t: nat, j: nat | a.startOffset <= t < start ensures !DGroup(a.c, g, t, j) {
        assert !MatchesAt(a, g, t);
        assert a.(mstart := t).Acceptable(j);
      }
    }
  }

  lemma PairsCaught(a: Attempt, g: Group, start: nat, v: seq<int>, r: State, n: nat, vec: seq<int>, rc: int, matches: nat)
    requires |vec| == K_VEC_SIZE && a.offsetMax == 34 && vec == Whole(r.ov, K_VEC_SIZE, start, r.pos)
    requires rc >= 0 && (rc > 0 ==> rc == r.top / 2) && (rc == 0 ==> 2 * n >= 34) && CapturesOrdered(a.offsetMax, n, r.ov, start, r.pos, r.top)
    requires matches == if rc == 0 then K_VEC_SIZE / 2 else rc
    requires forall k: nat :: 1 <= k <= n && a.Fits(k) ==> Pair(v, k) == (-1, -1)
    requires DistinctGroup(g, {}) ==> forall k: nat :: a.Fits(k) ==> Pair(r.ov, k) == Pair(v, k) || CapturedBy(a.c, InGroup(g), k, Pair(r.ov, k))
    ensures Caught(a.c, g, vec, matches)
  {
    hide DistinctGroup, GroupHas, CapturedBy;
    if DistinctGroup(g, {}) {
      forall k: nat | 1 <= k < matches && k <= 9
        ensures (vec[2 * k], vec[2 * k + 1]) == (-1, -1) || CapturedBy(a.c, InGroup(g), k, (vec[2 * k], vec[2 * k + 1]))
      {
        assert a.Fits(k) && Pair(r.ov, k) == (vec[2 * k], vec[2 * k + 1]);
      }
    }
  }

  lemma NoHits(c: Context, g: Group, rewrite: seq<byte>)
    ensures Ordered(c.s, []) && Found(c, g, []) && Output(c.s, rewrite, [], 0) == []
  {
  }

  lemma FinishOutput(text: seq<byte>, rewrite: seq<byte>, hits: seq<Hit>, start: nat)
    requires Ordered(text, hits) && LastEnd(hits) <= start <= |text| + 1
    ensures Output(text, rewrite, hits, |text|) == Output(text, rewrite, hits, start) + (if start < |text| then text[start..] else [])
    ensures hits == [] ==> Output(text, rewrite, hits, |text|) == text
  {
    hide Expanded;
    if start <= |text| {
      OutputMore(text, rewrite, hits, start, |text|);
      assert Between(text, start, |text|) == if start < |text| then text[start..] else [];
    } else {
      OutputMore(text, rewrite, hits, |text|, start);
      assert Between(text, |text|, start) == [];
    }
  }

  lemma NoneLeft(c: Context, g: Group, hits: seq<Hit>, start: nat, empty: bool, n: nat)
    requires StandsAt(hits, start, empty) && Ordered(c.s, hits) && |c.s| == n
    ensures (start > n || (!empty && NoOccurrence(c, g, start, n + 1))) ==> NoOccurrence(c, g, NextFrom(hits, |hits|), n + 1)
    ensures LastEnd(hits) <= start
  {
    hide DGroup;
  }

  lemma AnotherHit(c: Context, g: Group, text: seq<byte>, hits: seq<Hit>, h: Hit, start: nat, empty: bool)
    requires Ordered(text, hits) && Found(c, g, hits) && StandsAt(hits, start, empty)
    requires start <= h.start <= h.end <= |text| && FirstPair(h) && DGroup(c, g, h.start, h.end) && Caught(c, g, h.vec, h.matches)
    requires empty ==> h.start == start && h.start < h.end
    requires !empty ==> NoOccurrence(c, g, start, h.start)
    ensures Ordered(text, hits + [h]) && Found(c, g, hits + [h])
    ensures StandsAt(hits + [h], h.end, h.start == h.end)
  {
    hide DGroup, NoOccurrence, Found, Ordered, StandsAt, FirstPair, Caught;
    OrderedMore(text, hits, h, start, empty);
    NoneBetween(c, g, hits, h, start, empty);
    FoundMore(c, g, hits, h);
    StandsAfter(hits, h);
  }

  lemma StandsAfter(hits: seq<Hit>, h: Hit)
    requires h.start <= h.end
    ensures StandsAt(hits + [h], h.end, h.start == h.end)
  {
  }

  lemma FoundMore(c: Context, g: Group, hits: seq<Hit>, h: Hit)
    requires Found(c, g, hits) && FirstPair(h) && DGroup(c, g, h.start, h.end) && Caught(c, g, h.vec, h.matches)
    requires NoOccurrence(c, g, NextFrom(hits, |hits|), h.start)
    ensures Found(c, g, hits + [h])
  {
    hide DGroup, NoOccurrence, FirstPair, Caught;
    var hs := hits + [h];
    forall k: nat | k < |hs|
      ensures FirstPair(hs[k]) && DGroup(c, g, hs[k].start, hs[k].end) && Caught(c, g, hs[k].vec, hs[k].matches)
      ensures NoOccurrence(c, g, NextFrom(hs, k), hs[k].start)
    {
      assert NextFrom(hs, k) == NextFrom(hits, k);
      if k < |hits| { assert hs[k] == hits[k]; }
    }
  }

  lemma NoneBetween(c: Context, g: Group, hits: seq<Hit>, h: Hit, start: nat, empty: bool)
    requires StandsAt(hits, start, empty) && (empty ==> h.start == start)
    requires !empty ==> NoOccurrence(c, g, start, h.start)
    ensures NoOccurrence(c, g, NextFrom(hits, |hits|), h.start)
  {
    hide DGroup;
  }

  lemma OrderedMore(text: seq<byte>, hits: seq<Hit>, h: Hit, start: nat, empty: bool)
    requires Ordered(text, hits) && StandsAt(hits, start, empty) && start <= h.start <= h.end <= |text|
    requires empty ==> h.start == start && h.start < h.end
    ensures Ordered(text, hits + [h])
  {
    forall k: nat | k < |hits| ensures hits[k].end <= h.start && hits[k].start < h.end {
      var last := |hits| - 1;
      if k < last { assert hits[k].end <= hits[last].start && hits[k].start < hits[last].end; }
    }
  }
}

/** check_auto_possessive(): whether to make an unlimited repeat possessive, decided by the text of the pattern
    that follows it, and exactly when that is right. */
module PossessCheck {
  import opened Common
  import opened ByteCode
  import opened Meaning
  import opened Outcomes
  import opened DfaSteps
  import opened AutoPossess
  import opened Escapes
  import opened Repetition
  import opened Syntax

  const CTYPE_META := 7
  const CHAR_NUMBER_SIGN: byte := 35
  const CHAR_ASTERISK: byte := 42
  const CHAR_PLUS: byte := 43
  const CHAR_QUESTION_MARK: byte := 63
  const CHAR_COMMA: byte := 44
  const CHAR_LEFT_PARENTHESIS: byte := 40
  const CHAR_RIGHT_PARENTHESIS: byte := 41
  const CHAR_E: byte := 69
  const CHAR_Q: byte := 81

  /** The table marks the metacharacters \ * + ? { ^ . $ | ( ) [ and the end of the pattern. */
  ghost predicate KnowsMeta(tb: Tables)
    requires tb.Valid()
  {
    forall ch: byte :: HasCtype(tb, ch, CTYPE_META) <==> ch in {0, 36, 40, 41, 42, 43, 46, 63, 91, 92, 94, 123, 124}
  }

  /** What reading a pattern depends on: the tables, the options for caseless and extended patterns and for a dot
      that matches every byte, and the number of capturing groups so far. */
  datatype Setting = Setting(tb: Tables, caseless: bool, extended: bool, dotall: bool, bracount: nat) {
    predicate Valid() {
      tb.Valid()
    }
  }

  // ---- Looking at the pattern --------------------------------------------------------------------------

  /** Where the scan stands after white space and comments, which the extended option lets it skip. */
  function Skipped(tb: Tables, pattern: seq<byte>, p: nat): (q: nat)
    requires tb.Valid()
    ensures p <= q
    decreases |pattern| - p
  {
    if p >= |pattern| then p
    else if HasCtype(tb, pattern[p], CTYPE_SPACE) then Skipped(tb, pattern, p + 1)
    else if pattern[p] == CHAR_NUMBER_SIGN then Skipped(tb, pattern, CommentEnd(pattern, p + 1))
    else p
  }

  function CommentEnd(pattern: seq<byte>, p: nat): (q: nat)
    ensures p <= q
    decreases |pattern| - p
  {
    if p >= |pattern| || pattern[p] == 0 then p else if pattern[p] == NEWLINE then p + 1 else CommentEnd(pattern, p + 1)
  }

  /** A comment ends behind the first byte 10, or where the pattern ends. */
  lemma {:induction false} CommentEndsLine(pattern: seq<byte>, p: nat)
    requires p <= |pattern|
    ensures var q := CommentEnd(pattern, p);
            && p <= q <= |pattern|
            && ((p < q && pattern[q - 1] == 10 && forall k: nat :: p <= k < q - 1 ==> pattern[k] != 10 && pattern[k] != 0)
                || ((q == |pattern| || pattern[q] == 0) && forall k: nat :: p <= k < q ==> pattern[k] != 10 && pattern[k] != 0))
    decreases |pattern| - p
  {
    if p < |pattern| && pattern[p] != 0 && pattern[p] != 10 { CommentEndsLine(pattern, p + 1); }
  }

  /** To the end of a comment that begins before p0. */
  method SkipLine(pattern: seq<byte>, p0: nat) returns (p: nat)
    ensures p == CommentEnd(pattern, p0)
  {
    p := p0;
    while PatternByte(pattern, p) != 0
      invariant p0 <= p && CommentEnd(pattern, p) == CommentEnd(pattern, p0)
      decreases |pattern| - p
    {
      if pattern[p] == NEWLINE { return p + 1; }
      p := p + 1;
    }
  }

  method SkipExtended(tb: Tables, pattern: seq<byte>, p0: nat) returns (p: nat)
    requires tb.Valid()
    ensures p == Skipped(tb, pattern, p0)
  {
    p := p0;
    while true
      invariant p0 <= p && Skipped(tb, pattern, p) == Skipped(tb, pattern, p0)
      decreases |pattern| - p
    {
      while p < |pattern| && HasCtype(tb, pattern[p], CTYPE_SPACE)
        invariant p0 <= p && Skipped(tb, pattern, p) == Skipped(tb, pattern, p0)
        decreases |pattern| - p
      {
        p := p + 1;
      }
      if PatternByte(pattern, p) != CHAR_NUMBER_SIGN { return; }
      p := SkipLine(pattern, p + 1);
    }
  }

  datatype NextItem = NoItem | Item(v: Unit, end: nat)

  /** The next item, when it is a literal or one of the six types, and where it ends. */
  function NextAt(e: Setting, pattern: seq<byte>, p: nat): (r: NextItem)
    requires e.Valid()
    ensures r.Item? ==> Comparable(e.caseless, r.v) && r.end > p
  {
    var ch := PatternByte(pattern, p);
    if ch == CHAR_BACKSLASH then
      match EscapeAt(e.bracount, pattern, p)
      case Data(c, next) => Item(LiteralUnit(e.caseless, c), next)
      case OfType(t, next) => Item(Type(t), next)
      case _ => NoItem
    else if HasCtype(e.tb, ch, CTYPE_META) then NoItem
    else Item(LiteralUnit(e.caseless, ch), p + 1)
  }

  function LiteralUnit(caseless: bool, c: byte): Unit {
    if caseless then ChrNC(c) else Chr(c)
  }

  /** A quantifier that the check takes to make the next item optional: *, ? or {0, */
  predicate OptionalAt(pattern: seq<byte>, p: nat) {
    var ch := PatternByte(pattern, p);
    || ch == CHAR_ASTERISK
    || ch == CHAR_QUESTION_MARK
    || (ch == CHAR_LEFT_CURLY_BRACKET && PatternByte(pattern, p + 1) == CHAR_0 && PatternByte(pattern, p + 2) == CHAR_COMMA)
  }

  /** Where the check looks. */
  function LooksAt(e: Setting, pattern: seq<byte>, p: nat): (q: nat)
    requires e.Valid()
    ensures p <= q
  {
    if e.extended then Skipped(e.tb, pattern, p) else p
  }

  /** The check reads an item that is not made optional, as far as it can see, behind p. */
  predicate Clear(e: Setting, pattern: seq<byte>, p: nat)
    requires e.Valid()
  {
    var next := NextAt(e, pattern, LooksAt(e, pattern, p));
    next.Item? && !OptionalAt(pattern, LooksAt(e, pattern, next.end))
  }

  /** The answer of the check for the repeat of u whose quantifier ends at ptr. */
  predicate Possessifies(e: Setting, u: Unit, pattern: seq<byte>, ptr: nat)
    requires e.Valid()
  {
    Clear(e, pattern, ptr) && Excludes(e.tb, e.caseless, u, NextAt(e, pattern, LooksAt(e, pattern, ptr)).v)
  }

  /** Decides whether to make an unlimited repeat of u possessive. When it does, the next item of the
      pattern is not optional by *, ? or {0, and has no byte in common with u. */
  method CheckAutoPossessive(e: Setting, u: Unit, pattern: seq<byte>, ptr0: nat) returns (possessify: bool)
    requires DefaultTables(e.tb) && (Comparable(e.caseless, u) || u.NotChr?)
    ensures possessify == Possessifies(e, u, pattern, ptr0)
    ensures var next := NextAt(e, pattern, LooksAt(e, pattern, ptr0));
            && (possessify ==> next.Item? && Comparable(e.caseless, next.v) && Exclusive(e.tb, e.caseless, u, next.v)
                               && !OptionalAt(pattern, LooksAt(e, pattern, next.end)))
            && (!possessify && next.Item? && !(u.NotChr? && next.v.Type?) && Exclusive(e.tb, e.caseless, u, next.v) ==>
                  OptionalAt(pattern, LooksAt(e, pattern, next.end)))
  {
    hide DefaultTables, HasCtype, Skipped, Excludes, Exclusive, EscapeAt;
    TablesUsable(e.tb);
    var ptr := ptr0;
    if e.extended { ptr := SkipExtended(e.tb, pattern, ptr); }
    var next := NextAt(e, pattern, ptr);
    if next.NoItem? { return false; }
    ptr := next.end;
    if e.extended { ptr := SkipExtended(e.tb, pattern, ptr); }
    ExcludesExactly(e.tb, e.caseless, u, next.v);
    if OptionalAt(pattern, ptr) { return false; }
    return Excludes(e.tb, e.caseless, u, next.v);
  }

  lemma TablesUsable(tb: Tables)
    requires DefaultTables(tb)
    ensures tb.Valid()
  {
  }

  // ---- The quantifier of the next item --------------------------------------------------------------------

  /** What the compiler reads after an item: no quantifier, one with its limits, or something that it refuses. */
  datatype Quantity = Once | Times(min: nat, max: int) | Refused {
    function Least(): nat {
      if this.Times? then this.min else 1
    }
  }

  /** is_counted_repeat(): {ddd} {ddd,} or {ddd,ddd}, of which p is the place after the brace. */
  predicate Counted(pattern: seq<byte>, p: nat) {
    var q := DigitsEnd(pattern, p);
    && IsDigit(PatternByte(pattern, p))
    && (PatternByte(pattern, q) == CHAR_RIGHT_CURLY_BRACKET
        || (PatternByte(pattern, q) == CHAR_COMMA
            && (PatternByte(pattern, q + 1) == CHAR_RIGHT_CURLY_BRACKET
                || (IsDigit(PatternByte(pattern, q + 1))
                    && PatternByte(pattern, DigitsEnd(pattern, q + 1)) == CHAR_RIGHT_CURLY_BRACKET))))
  }

  method IsCountedRepeat(pattern: seq<byte>, p0: nat) returns (b: bool)
    ensures b == Counted(pattern, p0)
  {
    if !IsDigit(PatternByte(pattern, p0)) { return false; }
    var p := SkipDigits(pattern, p0 + 1);
    if PatternByte(pattern, p) == CHAR_RIGHT_CURLY_BRACKET { return true; }
    if PatternByte(pattern, p) != CHAR_COMMA { return false; }
    p := p + 1;
    if PatternByte(pattern, p) == CHAR_RIGHT_CURLY_BRACKET { return true; }
    if !IsDigit(PatternByte(pattern, p)) { return false; }
    p := SkipDigits(pattern, p + 1);
    return PatternByte(pattern, p) == CHAR_RIGHT_CURLY_BRACKET;
  }

  method SkipDigits(pattern: seq<byte>, p0: nat) returns (p: nat)
    ensures p == DigitsEnd(pattern, p0)
  {
    p := p0;
    while IsDigit(PatternByte(pattern, p))
      invariant p0 <= p && DigitsEnd(pattern, p) == DigitsEnd(pattern, p0)
      decreases |pattern| - p
    {
      p := p + 1;
    }
  }

  /** The counts after a brace; a count above 65535 is refused, as is a maximum below the minimum. */
  function CountsAt(pattern: seq<byte>, p: nat): Quantity {
    var q := DigitsEnd(pattern, p);
    var min := Number(pattern, p, 0);
    var max: int :=
      if PatternByte(pattern, q) == CHAR_RIGHT_CURLY_BRACKET then min
      else if PatternByte(pattern, q + 1) == CHAR_RIGHT_CURLY_BRACKET then -1
      else Number(pattern, q + 1, 0);
    if min > 65535 || max > 65535 || (max >= 0 && max < min) then Refused else Times(min, max)
  }

  method ReadRepeatCounts(pattern: seq<byte>, p0: nat) returns (r: Quantity)
    ensures r == CountsAt(pattern, p0)
  {
    var p, min, max: int := p0, 0, -1;
    p, min := ReadNumber(pattern, p);
    if min > 65535 { return Refused; }
    if PatternByte(pattern, p) == CHAR_RIGHT_CURLY_BRACKET {
      max := min;
    } else {
      p := p + 1;
      if PatternByte(pattern, p) != CHAR_RIGHT_CURLY_BRACKET {
        var n: nat;
        p, n := ReadNumber(pattern, p);
        max := n;
        if max > 65535 { return Refused; }
        if max < min { return Refused; }
      }
    }
    return Times(min, max);
  }

  method ReadNumber(pattern: seq<byte>, p0: nat) returns (p: nat, n: nat)
    ensures p == DigitsEnd(pattern, p0) && n == Number(pattern, p0, 0)
  {
    p, n := p0, 0;
    while IsDigit(PatternByte(pattern, p))
      invariant p0 <= p && DigitsEnd(pattern, p) == DigitsEnd(pattern, p0) && Number(pattern, p, n) == Number(pattern, p0, 0)
      decreases |pattern| - p
    {
      n := n * 10 + (PatternByte(pattern, p) as int) - 48;
      p := p + 1;
    }
  }

  function QuantityAt(pattern: seq<byte>, p: nat): Quantity {
    var ch := PatternByte(pattern, p);
    if ch == CHAR_ASTERISK then Times(0, -1)
    else if ch == CHAR_PLUS then Times(1, -1)
    else if ch == CHAR_QUESTION_MARK then Times(0, 1)
    else if ch == CHAR_LEFT_CURLY_BRACKET && Counted(pattern, p + 1) then CountsAt(pattern, p + 1)
    else Once
  }

  /** The pattern has text t at p. */
  ghost predicate TextAt(pattern: seq<byte>, p: nat, t: seq<byte>) {
    p + |t| <= |pattern| && pattern[p..p + |t|] == t
  }

  lemma TextParts(pattern: seq<byte>, p: nat, t: seq<byte>, t': seq<byte>)
    requires TextAt(pattern, p, t + t')
    ensures TextAt(pattern, p, t) && TextAt(pattern, p + |t|, t')
    ensures t != [] ==> PatternByte(pattern, p) == t[0]
    ensures t' != [] ==> PatternByte(pattern, p + |t|) == t'[0]
  {
    var n := |t + t'|;
    assert pattern[p..p + |t|] == pattern[p..p + n][..|t|] == t;
    assert pattern[p + |t|..p + |t| + |t'|] == pattern[p..p + n][|t|..] == t';
    if t != [] { assert pattern[p] == pattern[p..p + |t|][0]; }
    if t' != [] { assert pattern[p + |t|] == pattern[p + |t|..p + |t| + |t'|][0]; }
  }

  /** A quantifier in braces with these limits; -1 stands for no maximum. */
  function Braces(min: nat, max: int): (t: seq<byte>)
    requires max >= -1
  {
    [123] + (Digits(min) + ([44] + if max == -1 then [125] else Digits(max) + [125]))
  }

  /** *, + and ? are {0,}, {1,} and {0,1}. */
  lemma SignsMean(pattern: seq<byte>, p: nat)
    requires p < |pattern|
    ensures pattern[p] == 42 ==> QuantityAt(pattern, p) == Times(0, -1)
    ensures pattern[p] == 43 ==> QuantityAt(pattern, p) == Times(1, -1)
    ensures pattern[p] == 63 ==> QuantityAt(pattern, p) == Times(0, 1)
    ensures pattern[p] !in {42, 43, 63, 123} ==> QuantityAt(pattern, p) == Once
  {
  }

  lemma DigitsThen(pattern: seq<byte>, p: nat, n: nat, t: seq<byte>)
    requires TextAt(pattern, p, Digits(n) + t) && t != [] && !IsDigit(t[0])
    ensures var q := p + |Digits(n)|;
            && TextAt(pattern, q, t) && PatternByte(pattern, q) == t[0]
            && DigitsEnd(pattern, p) == q && Number(pattern, p, 0) == n && IsDigit(PatternByte(pattern, p))
  {
    TextParts(pattern, p, Digits(n), t);
    DigitsStop(pattern, p, n);
  }

  /** A quantifier in braces is read as the numbers it is written with, up to 65535 and not in the wrong order. */
  lemma BracesMean(pattern: seq<byte>, p: nat, min: nat, max: int)
    requires max >= -1 && TextAt(pattern, p, Braces(min, max))
    ensures QuantityAt(pattern, p) == if min > 65535 || max > 65535 || (max >= 0 && max < min) then Refused else Times(min, max)
    ensures BracesEnd(pattern, p) == p + |Braces(min, max)|
  {
    BracesParts(pattern, p, min, max);
    hide DigitsEnd, Number, Digits, TextAt, Braces;
  }

  /** The bytes and numbers in it. */
  lemma BracesParts(pattern: seq<byte>, p: nat, min: nat, max: int)
    requires max >= -1 && TextAt(pattern, p, Braces(min, max))
    ensures var q := p + 1 + |Digits(min)|;
            && PatternByte(pattern, p) == 123 && IsDigit(PatternByte(pattern, p + 1))
            && DigitsEnd(pattern, p + 1) == q && Number(pattern, p + 1, 0) == min && PatternByte(pattern, q) == 44
            && (max == -1 ==> PatternByte(pattern, q + 1) == 125 && q + 2 == p + |Braces(min, max)|)
            && (max >= 0 ==>
                  && IsDigit(PatternByte(pattern, q + 1)) && Number(pattern, q + 1, 0) == max
                  && PatternByte(pattern, DigitsEnd(pattern, q + 1)) == 125
                  && DigitsEnd(pattern, q + 1) + 1 == p + |Braces(min, max)|)
  {
    hide DigitsEnd, Number, Digits, TextAt;
    var d := Digits(min);
    var tail: seq<byte> := if max == -1 then [125] else Digits(max) + [125];
    TextParts(pattern, p, [123], d + ([44] + tail));
    DigitsThen(pattern, p + 1, min, [44] + tail);
    var q := p + 1 + |d|;
    TextParts(pattern, q, [44], tail);
    if max >= 0 { DigitsThen(pattern, q + 1, max, [125]); }
  }

  /** Where a quantifier in braces ends. */
  function BracesEnd(pattern: seq<byte>, p: nat): (q: nat)
    ensures p < q
  {
    var d := DigitsEnd(pattern, p + 1);
    if PatternByte(pattern, d) == CHAR_RIGHT_CURLY_BRACKET then d + 1
    else if PatternByte(pattern, d + 1) == CHAR_RIGHT_CURLY_BRACKET then d + 2
    else DigitsEnd(pattern, d + 1) + 1
  }

  /** {n} is {n,n}. */
  lemma ExactMeans(pattern: seq<byte>, p: nat, n: nat)
    requires TextAt(pattern, p, [123] + (Digits(n) + [125]))
    ensures QuantityAt(pattern, p) == if n > 65535 then Refused else Times(n, n)
  {
    hide DigitsEnd, Number, Digits, TextAt;
    TextParts(pattern, p, [123], Digits(n) + [125]);
    DigitsThen(pattern, p + 1, n, [125]);
  }

  // ---- What the compiler passes over --------------------------------------------------------------------

  /** A place in the pattern, perhaps inside \Q...\E; or a comment is not finished. */
  datatype Place = Place(at: nat, quoted: bool) | Unfinished

  function KetPlace(pattern: seq<byte>, p: nat): (q: nat)
    ensures p <= q
    decreases |pattern| - p
  {
    if p >= |pattern| || pattern[p] == 0 || pattern[p] == CHAR_RIGHT_PARENTHESIS then p else KetPlace(pattern, p + 1)
  }

  predicate Slash(pattern: seq<byte>, p: nat, ch: byte) {
    PatternByte(pattern, p) == CHAR_BACKSLASH && PatternByte(pattern, p + 1) == ch
  }

  /** A comment in brackets. */
  predicate CommentAt(pattern: seq<byte>, p: nat) {
    && PatternByte(pattern, p) == CHAR_LEFT_PARENTHESIS && PatternByte(pattern, p + 1) == CHAR_QUESTION_MARK
    && PatternByte(pattern, p + 2) == CHAR_NUMBER_SIGN
  }

  /** Where the compiler reads on, still knowing the item before: \E, \Q, (?#...) and what the extended option
      lets it skip do not count as items. */
  function Passed(e: Setting, pattern: seq<byte>, p: nat, quoted: bool): (r: Place)
    requires e.Valid()
    ensures r.Place? ==> p <= r.at
    decreases |pattern| - p
  {
    if p >= |pattern| then Place(p, quoted)
    else if quoted then
      if Slash(pattern, p, CHAR_E) then Passed(e, pattern, p + 2, false) else Place(p, true)
    else if e.extended && HasCtype(e.tb, pattern[p], CTYPE_SPACE) then Passed(e, pattern, p + 1, false)
    else if e.extended && pattern[p] == CHAR_NUMBER_SIGN then Passed(e, pattern, CommentEnd(pattern, p + 1), false)
    else if Slash(pattern, p, CHAR_E) then Passed(e, pattern, p + 2, false)
    else if Slash(pattern, p, CHAR_Q) then Passed(e, pattern, p + 2, true)
    else if CommentAt(pattern, p) then
      var q := KetPlace(pattern, p + 3);
      if PatternByte(pattern, q) != CHAR_RIGHT_PARENTHESIS then Unfinished else Passed(e, pattern, q + 1, false)
    else Place(p, false)
  }

  method SkipToKet(pattern: seq<byte>, p0: nat) returns (p: nat)
    ensures p == KetPlace(pattern, p0) && (PatternByte(pattern, p) == 0 || pattern[p] == CHAR_RIGHT_PARENTHESIS)
  {
    p := p0;
    while PatternByte(pattern, p) != 0 && pattern[p] != CHAR_RIGHT_PARENTHESIS
      invariant p0 <= p && KetPlace(pattern, p) == KetPlace(pattern, p0)
      decreases |pattern| - p
    {
      p := p + 1;
    }
  }

  /** The same, step by step. */
  method PassOver(e: Setting, pattern: seq<byte>, p0: nat, quoted0: bool) returns (r: Place)
    requires e.Valid()
    ensures r == Passed(e, pattern, p0, quoted0)
  {
    hide HasCtype;
    var p, quoted := p0, quoted0;
    while p < |pattern|
      invariant Passed(e, pattern, p, quoted) == Passed(e, pattern, p0, quoted0)
      decreases |pattern| - p
    {
      if quoted {
        if !Slash(pattern, p, CHAR_E) { return Place(p, true); }
        p, quoted := p + 2, false;
      } else if e.extended && HasCtype(e.tb, pattern[p], CTYPE_SPACE) {
        p := p + 1;
      } else if e.extended && pattern[p] == CHAR_NUMBER_SIGN {
        p := SkipLine(pattern, p + 1);
      } else if Slash(pattern, p, CHAR_E) {
        p := p + 2;
      } else if Slash(pattern, p, CHAR_Q) {
        p, quoted := p + 2, true;
      } else if CommentAt(pattern, p) {
        p := SkipToKet(pattern, p + 3);
        if PatternByte(pattern, p) == 0 { return Unfinished; }
        p := p + 1;
      } else {
        return Place(p, false);
      }
    }
    return Place(p, quoted);
  }

  /** The quantifier that the compiler reads for the item that ends at p. */
  function QuantityAfter(e: Setting, pattern: seq<byte>, p: nat, quoted: bool): Quantity
    requires e.Valid()
  {
    match Passed(e, pattern, p, quoted)
    case Unfinished => Refused
    case Place(q, quoted') => if quoted' then Once else QuantityAt(pattern, q)
  }

  /** From where the check looks the compiler reads on to the same place. */
  lemma {:induction false} PassedSkipped(e: Setting, pattern: seq<byte>, p: nat)
    requires e.Valid() && e.extended
    ensures Passed(e, pattern, Skipped(e.tb, pattern, p), false) == Passed(e, pattern, p, false)
    decreases |pattern| - p
  {
    hide HasCtype;
    if p < |pattern| {
      if HasCtype(e.tb, pattern[p], CTYPE_SPACE) {
        PassedSkipped(e, pattern, p + 1);
      } else if pattern[p] == CHAR_NUMBER_SIGN {
        PassedSkipped(e, pattern, CommentEnd(pattern, p + 1));
      }
    }
  }

  /** When the check looks at something that is not passed over, the compiler reads on at that very place. */
  lemma LooksThere(e: Setting, pattern: seq<byte>, p: nat)
    requires e.Valid()
    ensures Passed(e, pattern, LooksAt(e, pattern, p), false) == Passed(e, pattern, p, false)
    ensures var q := LooksAt(e, pattern, p);
            !Slash(pattern, q, CHAR_E) && !Slash(pattern, q, CHAR_Q) && !CommentAt(pattern, q) ==>
              Passed(e, pattern, p, false) == Place(q, false)
  {
    hide HasCtype;
    if e.extended {
      PassedSkipped(e, pattern, p);
      StopsAt(e.tb, pattern, p);
    }
  }

  lemma {:induction false} StopsAt(tb: Tables, pattern: seq<byte>, p: nat)
    requires tb.Valid()
    ensures var q := Skipped(tb, pattern, p);
            q < |pattern| ==> !HasCtype(tb, pattern[q], CTYPE_SPACE) && pattern[q] != CHAR_NUMBER_SIGN
    decreases |pattern| - p
  {
    hide HasCtype;
    if p < |pattern| {
      if HasCtype(tb, pattern[p], CTYPE_SPACE) {
        StopsAt(tb, pattern, p + 1);
      } else if pattern[p] == CHAR_NUMBER_SIGN {
        StopsAt(tb, pattern, CommentEnd(pattern, p + 1));
      }
    }
  }

  /** What the check takes for optional has a minimum of zero. Of the quantifiers with minimum zero, it misses
      exactly those that stand behind something that it does not pass over but the compiler does, and those in
      braces whose first digit, a zero, is not followed by a comma: {0} and what is written with further zeros. */
  lemma OptionalExactly(e: Setting, pattern: seq<byte>, p: nat)
    requires e.Valid() && QuantityAfter(e, pattern, p, false).Times?
    ensures var qt, here, there := QuantityAfter(e, pattern, p, false), LooksAt(e, pattern, p), Passed(e, pattern, p, false).at;
            && (OptionalAt(pattern, here) ==> here == there && qt.min == 0)
            && (qt.min == 0 ==>
                  (!OptionalAt(pattern, here) <==>
                     || here != there
                     || (PatternByte(pattern, here) == CHAR_LEFT_CURLY_BRACKET && PatternByte(pattern, here + 2) != CHAR_COMMA)))
  {
    hide HasCtype;
    LooksThere(e, pattern, p);
    OptionalHere(pattern, LooksAt(e, pattern, p));
  }

  lemma OptionalHere(pattern: seq<byte>, p: nat)
    ensures OptionalAt(pattern, p) && QuantityAt(pattern, p).Times? ==> QuantityAt(pattern, p).min == 0
    ensures QuantityAt(pattern, p).Times? && QuantityAt(pattern, p).min == 0 ==>
              (!OptionalAt(pattern, p) <==>
                 PatternByte(pattern, p) == CHAR_LEFT_CURLY_BRACKET && PatternByte(pattern, p + 2) != CHAR_COMMA)
  {
    if PatternByte(pattern, p) == CHAR_LEFT_CURLY_BRACKET && Counted(pattern, p + 1) {
      assert DigitsEnd(pattern, p + 1) == DigitsEnd(pattern, p + 2);
      assert Number(pattern, p + 1, 0) == Number(pattern, p + 2, (pattern[p + 1] as int) - 48);
    }
  }

  // ---- When the answer yes is right -----------------------------------------------------------------------

  /** The items that the compiler makes of the next item v and its quantifier. */
  function NextItems(v: Unit, qt: Quantity, m: Mode): Items
    requires qt.Times? ==> LimitsOk(qt.min, qt.max)
  {
    if qt.Times? then Quantified(v, qt.min, qt.max, m) else Cons(One(v), Nil)
  }

  lemma CountsOk(pattern: seq<byte>, p: nat)
    requires QuantityAt(pattern, p).Times?
    ensures LimitsOk(QuantityAt(pattern, p).min, QuantityAt(pattern, p).max)
  {
  }

  /** The repeat of u with quantifier q, followed by tl, has the same outcomes when it is possessive, in the same
      order, for every subject and every continuation. */
  ghost predicate AlwaysSame(tb: Tables, caseless: bool, u: Unit, q: Quant, m: Mode, its: Items) {
    forall a: Attempt, rest: Items, st: State :: a.c.tb == tb && a.c.caseless == caseless ==>
      SameOutcomes(a, u, q, m, Append(its, rest), st)
  }

  ghost predicate SameOutcomes(a: Attempt, u: Unit, q: Quant, m: Mode, tl: Items, st: State) {
    ItemsOutcomes(a, Cons(Rep(u, q, m), tl), st) == ItemsOutcomes(a, Cons(Rep(u, q, Possessive), tl), st)
  }

  lemma StartsNext(v: Unit, qt: Quantity, m: Mode, rest: Items)
    requires qt.Times? ==> LimitsOk(qt.min, qt.max)
    requires qt.Least() > 0 && !v.Class?
    ensures var tl := Append(NextItems(v, qt, m), rest); tl.Cons? && StartsWith(tl.hd, v)
  {
  }

  /** When the check says yes, making the repeat possessive is right, for everything that may follow, exactly
      when the quantifier that the compiler reads for the next item has a minimum above zero. */
  lemma CheckExactly(e: Setting, u: Unit, q: Quant, m: Mode, pattern: seq<byte>, ptr: nat, m2: Mode)
    requires DefaultTables(e.tb) && e.Valid() && KnowsMeta(e.tb)
    requires (Comparable(e.caseless, u) || u.NotChr?) && (q.Star? || q.Plus?) && m != Possessive
    requires Possessifies(e, u, pattern, ptr)
    ensures var next := NextAt(e, pattern, LooksAt(e, pattern, ptr));
            var qt := QuantityAfter(e, pattern, next.end, false);
            && Passed(e, pattern, ptr, false) == Place(LooksAt(e, pattern, ptr), false)
            && (qt.Times? ==> LimitsOk(qt.min, qt.max))
            && (!qt.Refused? ==> (AlwaysSame(e.tb, e.caseless, u, q, m, NextItems(next.v, qt, m2)) <==> qt.Least() > 0))
  {
    hide DefaultTables, HasCtype, Skipped, Excludes, Exclusive, QuantityAt, Quantified, NextAt, AlwaysSame, Passed;
    TablesUsable(e.tb);
    ItemThere(e, pattern, ptr);
    var next := NextAt(e, pattern, LooksAt(e, pattern, ptr));
    ExcludesExactly(e.tb, e.caseless, u, next.v);
    var qt := QuantityAfter(e, pattern, next.end, false);
    if qt.Times? { CountsOk(pattern, Passed(e, pattern, next.end, false).at); }
    if !qt.Refused? {
      if qt.Least() > 0 {
        LeastSame(e.tb, e.caseless, u, q, m, next.v, qt, m2);
      } else {
        ZeroDiffers(e.tb, e.caseless, u, q, m, next.v, qt, m2);
      }
    }
  }

  /** An item that the check reads is the one that the compiler reads next. */
  lemma ItemThere(e: Setting, pattern: seq<byte>, p: nat)
    requires e.Valid() && KnowsMeta(e.tb)
    requires NextAt(e, pattern, LooksAt(e, pattern, p)).Item?
    ensures Passed(e, pattern, p, false) == Place(LooksAt(e, pattern, p), false)
  {
    hide HasCtype;
    LooksThere(e, pattern, p);
  }

  lemma LeastSame(tb: Tables, caseless: bool, u: Unit, q: Quant, m: Mode, v: Unit, qt: Quantity, m2: Mode)
    requires tb.Valid() && UnitOk(u) && Comparable(caseless, v) && Exclusive(tb, caseless, u, v) && (q.Star? || q.Plus?)
    requires (qt.Times? ==> LimitsOk(qt.min, qt.max)) && qt.Least() > 0
    ensures AlwaysSame(tb, caseless, u, q, m, NextItems(v, qt, m2))
  {
    hide ItemsOutcomes, Exclusive, StartsWith;
    forall a: Attempt, rest: Items, st: State | a.c.tb == tb && a.c.caseless == caseless
      ensures SameOutcomes(a, u, q, m, Append(NextItems(v, qt, m2), rest), st)
    {
      StartsNext(v, qt, m2, rest);
      var tl := Append(NextItems(v, qt, m2), rest);
      PossessiveSame(a, u, q, m, tl.hd, v, tl.tl, st);
    }
  }

  /** With a minimum of zero, u itself may follow: the possessive repeat then leaves nothing for it. */
  lemma ZeroDiffers(tb: Tables, caseless: bool, u: Unit, q: Quant, m: Mode, v: Unit, qt: Quantity, m2: Mode)
    requires DefaultTables(tb) && (Comparable(caseless, u) || u.NotChr?) && Comparable(caseless, v)
    requires Exclusive(tb, caseless, u, v) && (q.Star? || q.Plus?) && m != Possessive
    requires qt.Times? && qt.min == 0 && LimitsOk(0, qt.max)
    ensures !AlwaysSame(tb, caseless, u, q, m, NextItems(v, qt, m2))
  {
    hide DefaultTables, HasCtype, Quantified, ItemsOutcomes, DItems;
    TablesUsable(tb);
    var ch := SomeByte(tb, caseless, u);
    var c := Context([ch, ch], tb, caseless);
    var a, st := Attempt(c, 0, 0, 0, 0, false, false, 0), State(0, [], 0, [], false);
    var its, rest := NextItems(v, qt, m2), Cons(One(u), Nil);
    var tl := Append(its, rest);
    TwoBytes(c, u, q, m, v, qt, m2, ch);
    var x := ItemsComplete(a, Cons(Rep(u, q, m), tl), st, 2);
    if SameOutcomes(a, u, q, m, tl, st) { ItemsSound(a, Cons(Rep(u, q, Possessive), tl), st, x); }
    assert !SameOutcomes(a, u, q, m, Append(its, rest), st);
  }

  lemma SomeByte(tb: Tables, caseless: bool, u: Unit) returns (ch: byte)
    requires DefaultTables(tb) && (Comparable(caseless, u) || u.NotChr?)
    ensures Accepts(tb, caseless, u, ch)
  {
    hide HasCtype;
    var d: byte :| HasCtype(tb, d, CTYPE_DIGIT);
    var s: byte :| HasCtype(tb, s, CTYPE_SPACE);
    if u.NotChr? {
      ch := if (caseless && tb.lcc[d] == tb.lcc[u.c]) || d == u.c then s else d;
      assert SameClasses(tb, u.c, tb.fcc[u.c]);
    } else if u.Type? {
      ch := if TypeTest(tb, u.t, d) then d else s;
    } else {
      ch := u.c;
    }
  }

  lemma TwoBytes(c: Context, u: Unit, q: Quant, m: Mode, v: Unit, qt: Quantity, m2: Mode, ch: byte)
    requires c.Valid() && UnitOk(u) && UnitOk(v) && c.s == [ch, ch] && Accepts(c.tb, c.caseless, u, ch)
    requires !Accepts(c.tb, c.caseless, v, ch) && (q.Star? || q.Plus?) && m != Possessive
    requires qt.Times? && qt.min == 0 && LimitsOk(0, qt.max)
    ensures var tl := Append(NextItems(v, qt, m2), Cons(One(u), Nil));
            DItems(c, Cons(Rep(u, q, m), tl), 0, 2) && !DItems(c, Cons(Rep(u, q, Possessive), tl), 0, 2)
  {
    hide Accepts, Quantified, DItems, DNode;
    var its, rest := NextItems(v, qt, m2), Cons(One(u), Nil);
    var tl := Append(its, rest);
    assert Test(c, u, 0) && Test(c, u, 1) && !Test(c, v, 1);
    QuantifiedMeans(c, v, 0, qt.max, m2, 1, 1);
    OneTest(c, u, 1, 2);
    SingleMeans(c, One(u), 1, 2);
    AppendMeans(c, its, rest, 1, 2);
    RepRun(c, u, q, m, 0, 1);
    BothItems(c, Rep(u, q, m), tl, 0, 1, 2);
    if DItems(c, Cons(Rep(u, q, Possessive), tl), 0, 2) {
      var t := FirstItem(c, Rep(u, q, Possessive), tl, 0, 2);
      RepRun(c, u, q, Possessive, 0, t);
      assert t == 2;
      AppendMeans(c, its, rest, 2, 2);
      SingleMeans(c, One(u), 2, 2);
      OneTest(c, u, 2, 2);
    }
  }

  /** A minimum of zero is missed in {0}, when it is written with more digits, and behind \E, \Q\E and a comment:
      the check makes a+ possessive in each of these patterns, which then no longer match aa. */
  lemma ZeroRepeatIsMissed(tb: Tables, extended: bool, m: Mode)
    requires DefaultTables(tb) && KnowsMeta(tb) && m != Possessive
    requires forall ch: byte :: ch in {40, 42, 63, 92, 97, 98, 123} ==> !HasCtype(tb, ch, CTYPE_SPACE)
    ensures Misses(tb, extended, m, [97, 43, 98, 123, 48, 125, 97])                     // a+b{0}a
    ensures Misses(tb, extended, m, [97, 43, 98, 123, 48, 48, 125, 97])                 // a+b{00}a
    ensures Misses(tb, extended, m, [97, 43, 98, 123, 48, 48, 44, 49, 125, 97])         // a+b{00,1}a
    ensures Misses(tb, extended, m, [97, 43, 98, 92, 69, 42, 97])                       // a+b\E*a
    ensures Misses(tb, extended, m, [97, 43, 98, 92, 81, 92, 69, 63, 97])               // a+b\Q\E?a
    ensures Misses(tb, extended, m, [97, 43, 98, 40, 63, 35, 120, 41, 42, 97])          // a+b(?#x)*a
  {
    hide DefaultTables, HasCtype, Quantified, AlwaysSame, Possessifies, NextAt;
    TablesUsable(tb);
    var e := Setting(tb, false, extended, false, 0);
    Missed(e, m, [97, 43, 98, 123, 48, 125, 97]);
    Missed(e, m, [97, 43, 98, 123, 48, 48, 125, 97]);
    Missed(e, m, [97, 43, 98, 123, 48, 48, 44, 49, 125, 97]);
    MissedBehind(e, m);
  }

  lemma MissedBehind(e: Setting, m: Mode)
    requires DefaultTables(e.tb) && e.Valid() && KnowsMeta(e.tb) && !e.caseless && !e.dotall && e.bracount == 0 && m != Possessive
    requires forall ch: byte :: ch in {40, 42, 63, 92, 97, 98} ==> !HasCtype(e.tb, ch, CTYPE_SPACE)
    ensures Misses(e.tb, e.extended, m, [97, 43, 98, 92, 69, 42, 97])
    ensures Misses(e.tb, e.extended, m, [97, 43, 98, 92, 81, 92, 69, 63, 97])
    ensures Misses(e.tb, e.extended, m, [97, 43, 98, 40, 63, 35, 120, 41, 42, 97])
  {
    hide DefaultTables, HasCtype, Quantified, AlwaysSame, Possessifies, NextAt;
    var orphan: seq<byte> := [97, 43, 98, 92, 69, 42, 97];
    assert Passed(e, orphan, 5, false) == Place(5, false);
    Missed(e, m, orphan);
    var quotes: seq<byte> := [97, 43, 98, 92, 81, 92, 69, 63, 97];
    assert Passed(e, quotes, 5, true) == Passed(e, quotes, 7, false) == Place(7, false);
    Missed(e, m, quotes);
    var comment: seq<byte> := [97, 43, 98, 40, 63, 35, 120, 41, 42, 97];
    assert KetPlace(comment, 6) == KetPlace(comment, 7) == 7 && Passed(e, comment, 8, false) == Place(8, false);
    Missed(e, m, comment);
  }

  /** The check says yes for the a+ at the start of the pattern, and yet possessive is not the same. */
  ghost predicate Misses(tb: Tables, extended: bool, m: Mode, pattern: seq<byte>)
    requires tb.Valid()
  {
    var e := Setting(tb, false, extended, false, 0);
    var qt := QuantityAfter(e, pattern, 3, false);
    && Possessifies(e, Chr(97), pattern, 2)
    && NextAt(e, pattern, LooksAt(e, pattern, 2)) == Item(Chr(98), 3)
    && qt.Times? && LimitsOk(qt.min, qt.max)
    && !AlwaysSame(tb, false, Chr(97), Plus, m, NextItems(Chr(98), qt, Greedy))
  }

  lemma Missed(e: Setting, m: Mode, pattern: seq<byte>)
    requires DefaultTables(e.tb) && e.Valid() && KnowsMeta(e.tb) && !e.caseless && m != Possessive
    requires |pattern| > 3 && pattern[2] == 98
    requires !HasCtype(e.tb, 98, CTYPE_SPACE) && !HasCtype(e.tb, pattern[3], CTYPE_SPACE) && pattern[3] != CHAR_NUMBER_SIGN
    requires var qt := QuantityAfter(e, pattern, 3, false); qt.Times? && qt.min == 0
    requires !OptionalAt(pattern, 3)
    requires e.bracount == 0 && !e.dotall
    ensures Misses(e.tb, e.extended, m, pattern)
  {
    hide DefaultTables, HasCtype, AlwaysSame, QuantityAt;
    ExcludesExactly(e.tb, false, Chr(97), Chr(98));
    assert LooksAt(e, pattern, 2) == 2 && LooksAt(e, pattern, 3) == 3;
    CheckExactly(e, Chr(97), Plus, m, pattern, 2, Greedy);
  }
}

/** A branch without groups and classes, read from the text of the pattern; and that in the branch that is read
    those repeats become possessive for which check_auto_possessive() says yes. */
module BranchText {
  import opened Common
  import opened ByteCode
  import opened Meaning
  import opened AutoPossess
  import opened Escapes
  import opened PossessCheck
  import opened Possessing
  import opened Syntax

  const CHAR_DOT: byte := 46
  const CHAR_VERTICAL_LINE: byte := 124

  /** The item at p, as the compiler reads it: in quotes every byte is a literal, and a brace is one when it
      begins no quantifier. */
  function UnitAt(e: Setting, pattern: seq<byte>, p: nat, quoted: bool): (r: NextItem)
    requires e.Valid() && p < |pattern|
    ensures r.Item? ==> r.end > p
  {
    if quoted then Item(LiteralUnit(e.caseless, pattern[p]), p + 1)
    else if pattern[p] == CHAR_DOT then Item(Type(if e.dotall then OP_ALLANY else OP_ANY), p + 1)
    else if pattern[p] == CHAR_LEFT_CURLY_BRACKET && !Counted(pattern, p + 1) then Item(LiteralUnit(e.caseless, pattern[p]), p + 1)
    else NextAt(e, pattern, p)
  }

  /** The end of the pattern, | and ) end the branch. */
  predicate BranchOver(pattern: seq<byte>, p: nat, quoted: bool) {
    || PatternByte(pattern, p) == 0
    || (!quoted && (pattern[p] == CHAR_VERTICAL_LINE || pattern[p] == CHAR_RIGHT_PARENTHESIS))
  }

  /** Where the quantifier at p ends, without the + or ? behind it. */
  function QuantityEnd(pattern: seq<byte>, p: nat): (q: nat)
    ensures p < q
  {
    if PatternByte(pattern, p) != CHAR_LEFT_CURLY_BRACKET then p + 1 else BracesEnd(pattern, p)
  }

  function ModeAt(pattern: seq<byte>, p: nat): Mode {
    if PatternByte(pattern, p) == CHAR_PLUS then Possessive
    else if PatternByte(pattern, p) == CHAR_QUESTION_MARK then Lazy
    else Greedy
  }

  /** The next piece, where reading goes on behind it, and whether in quotes. */
  datatype Step = Step(p: Piece, next: nat, quoted: bool) | Over | Unread

  function NextPiece(e: Setting, pattern: seq<byte>, p: nat, quoted: bool): (r: Step)
    requires e.Valid()
    ensures r.Step? ==> p < r.next && p < |pattern| && (r.p.Single? || r.p.Repeat?)
  {
    match Passed(e, pattern, p, quoted)
    case Unfinished => Unread
    case Place(q, quoted') =>
      if BranchOver(pattern, q, quoted') then Over
      else
        match UnitAt(e, pattern, q, quoted')
        case NoItem => Unread
        case Item(u, end) =>
          var clear := !quoted && Clear(e, pattern, p);
          match QuantityAfter(e, pattern, end, quoted')
          case Refused => Unread
          case Once => Step(Single(u, clear), end, quoted')
          case Times(min, max) =>
            var last := QuantityEnd(pattern, Passed(e, pattern, end, quoted').at);
            var m := ModeAt(pattern, last);
            Step(Repeat(u, min, max, m, clear), if m == Greedy then last else last + 1, false)
  }

  /** The pieces of a branch from p on. */
  function ReadBranch(e: Setting, pattern: seq<byte>, p: nat, quoted: bool): Option<Pieces>
    requires e.Valid()
    decreases |pattern| - p
  {
    match NextPiece(e, pattern, p, quoted)
    case Over => Some(End)
    case Unread => None
    case Step(piece, next, quoted') =>
      match ReadBranch(e, pattern, next, quoted')
      case None => None
      case Some(tl) => Some(Then(piece, tl))
  }

  /** What is read behind a repeat of u decides in the same way as the check, which looks at the text. */
  lemma DecidedAsChecked(e: Setting, u: Unit, pattern: seq<byte>, p: nat)
    requires e.Valid() && KnowsMeta(e.tb) && (Comparable(e.caseless, u) || u.NotChr?)
    requires ReadBranch(e, pattern, p, false).Some?
    ensures Decided(e.tb, e.caseless, u, ReadBranch(e, pattern, p, false).value) <==> Possessifies(e, u, pattern, p)
  {
    hide Excludes, Passed, Counted, HasCtype;
    if Clear(e, pattern, p) {
      ItemThere(e, pattern, p);
      MetaBytes(e, pattern, LooksAt(e, pattern, p));
    }
  }

  /** A byte that the check reads as an item is read in the same way by the compiler. */
  lemma MetaBytes(e: Setting, pattern: seq<byte>, p: nat)
    requires e.Valid() && KnowsMeta(e.tb) && NextAt(e, pattern, p).Item?
    ensures p < |pattern| && UnitAt(e, pattern, p, false) == NextAt(e, pattern, p) && !BranchOver(pattern, p, false)
  {
    hide HasCtype;
  }

  /** In a branch that was read, a repeat without limit becomes possessive exactly when it was written so, or when
      the check says yes at the end of its quantifier. */
  lemma PossessedAsChecked(e: Setting, pattern: seq<byte>, p: nat, quoted: bool)
    requires e.Valid() && KnowsMeta(e.tb)
    requires var r := ReadBranch(e, pattern, p, quoted); r.Some? && r.value.Then? && r.value.hd.Repeat? && r.value.hd.max == -1
    ensures var ps := ReadBranch(e, pattern, p, quoted).value;
            var next := NextPiece(e, pattern, p, quoted).next;
            && ReadBranch(e, pattern, next, false) == Some(ps.tl)
            && PossessAll(e.tb, e.caseless, ps).Then? && PossessAll(e.tb, e.caseless, ps).hd.Repeat?
            && (PossessAll(e.tb, e.caseless, ps).hd.m == Possessive <==>
                  || ps.hd.m == Possessive
                  || ((Comparable(e.caseless, ps.hd.u) || ps.hd.u.NotChr?) && Possessifies(e, ps.hd.u, pattern, next)))
  {
    hide Excludes, Passed, Possessifies;
    var ps := ReadBranch(e, pattern, p, quoted).value;
    var next := NextPiece(e, pattern, p, quoted).next;
    if Comparable(e.caseless, ps.hd.u) || ps.hd.u.NotChr? { DecidedAsChecked(e, ps.hd.u, pattern, next); }
  }

  /** a+b{0}a is read as the pattern of which MissedMeans speaks. Of b behind a comment the check sees nothing. */
  lemma MissedText(e: Setting)
    requires e.Valid() && KnowsMeta(e.tb) && !e.caseless && !e.extended
    ensures ReadBranch(e, [97, 43, 98, 123, 48, 125, 97], 0, false) == Some(MISSED.b)
    ensures ReadBranch(e, [97, 43, 40, 63, 35, 41, 98], 0, false)              // a+(?#)b
         == Some(Then(Repeat(Chr(97), 1, -1, Greedy, true), Then(Single(Chr(98), false), End)))
  {
    hide HasCtype;
    var text: seq<byte> := [97, 43, 98, 123, 48, 125, 97];
    assert NextPiece(e, text, 7, false) == Over;
    assert NextPiece(e, text, 6, false) == Step(Single(Chr(97), true), 7, false);
    assert ReadBranch(e, text, 6, false) == Some(AFTER.tl);
    assert NextPiece(e, text, 2, false) == Step(AFTER.hd, 6, false);
    assert NextPiece(e, text, 0, false) == Step(MISSED.b.hd, 2, false);
  }

  // ---- Writing a branch and reading it back ------------------------------------------------------------------------

  /** The letter of a type. */
  function TypeLetter(t: byte): byte {
    if t == 6 then 68 else if t == 7 then 100 else if t == 8 then 83 else if t == 9 then 115 else if t == 10 then 87 else 119
  }

  predicate IsDot(u: Unit) {
    u.Type? && u.t > 11
  }

  /** A literal as \x and two digits, a type as its escape, and a dot. */
  function WriteUnit(u: Unit): seq<byte> {
    match u
    case Type(t) => if IsDot(u) then [46] else [92, TypeLetter(t)]
    case Class(_, _) => []
    case _ => [92, 120, HexDigit(u.c / 16, false), HexDigit(u.c % 16, false)]
  }

  function WriteMode(m: Mode): seq<byte> {
    match m
    case Greedy => []
    case Lazy => [63]
    case Possessive => [43]
  }

  /** A quantifier is written in braces. */
  function WritePiece(p: Piece): seq<byte>
    requires p.Repeat? ==> p.max >= -1
  {
    match p
    case Single(u, _) => WriteUnit(u)
    case Repeat(u, min, max, m, _) => WriteUnit(u) + (Braces(min, max) + WriteMode(m))
    case _ => []
  }

  /** Pieces that can be written: literals, types and dots of the kind that the options ask for, clear when they are no
      dots and do not have {0, behind them. */
  predicate Writable(e: Setting, ps: Pieces) {
    ps.Then? ==>
      && (ps.hd.Single? || (ps.hd.Repeat? && LimitsOk(ps.hd.min, ps.hd.max)))
      && WritableUnit(e, ps.hd.u)
      && ps.hd.clear == (!IsDot(ps.hd.u) && (ps.hd.Repeat? ==> ps.hd.min > 0))
      && Writable(e, ps.tl)
  }

  predicate WritableUnit(e: Setting, u: Unit) {
    match u
    case Chr(_) => !e.caseless
    case ChrNC(_) => e.caseless
    case Type(t) => 6 <= t <= 11 || t == if e.dotall then 13 else 12
    case _ => false
  }

  function WriteAll(ps: Pieces): seq<byte> {
    if ps.End? then []
    else (if ps.hd.Repeat? && ps.hd.max < -1 then [] else WritePiece(ps.hd)) + WriteAll(ps.tl)
  }

  lemma SlashPlace(e: Setting, pattern: seq<byte>, p: nat)
    requires e.Valid() && !e.extended && p < |pattern| && pattern[p] in {46, 92}
    requires pattern[p] == 92 ==> PatternByte(pattern, p + 1) !in {69, 81}
    ensures Passed(e, pattern, p, false) == Place(p, false) && !BranchOver(pattern, p, false)
  {
    hide HasCtype;
  }

  lemma EscapeUnit(e: Setting, pattern: seq<byte>, p: nat)
    requires e.Valid() && p < |pattern| && pattern[p] == 92
    ensures UnitAt(e, pattern, p, false) == NextAt(e, pattern, p)
    ensures NextAt(e, pattern, p) ==
              match EscapeAt(e.bracount, pattern, p)
              case Data(c, next) => Item(LiteralUnit(e.caseless, c), next)
              case OfType(t, next) => Item(Type(t), next)
              case _ => NoItem
  {
    hide EscapeAt, HasCtype;
  }

  /** A written unit is read back, and the check sees it unless it is a dot. */
  lemma UnitReads(e: Setting, pattern: seq<byte>, p: nat, u: Unit)
    requires e.Valid() && KnowsMeta(e.tb) && !e.extended && WritableUnit(e, u) && TextAt(pattern, p, WriteUnit(u))
    ensures p < |pattern| && Passed(e, pattern, p, false) == Place(p, false) && !BranchOver(pattern, p, false)
    ensures UnitAt(e, pattern, p, false) == Item(u, p + |WriteUnit(u)|)
    ensures NextAt(e, pattern, p) == if IsDot(u) then NoItem else Item(u, p + |WriteUnit(u)|)
  {
    hide HasCtype, Passed, UnitAt, NextAt, EscapeAt, BranchOver, HexDigit;
    var t := WriteUnit(u);
    assert pattern[p] == pattern[p..p + |t|][0] == t[0];
    if |t| > 1 { assert pattern[p + 1] == pattern[p..p + |t|][1] == t[1]; }
    SlashPlace(e, pattern, p);
    if !u.Type? {
      assert pattern[p + 2] == pattern[p..p + |t|][2] == t[2] && pattern[p + 3] == pattern[p..p + |t|][3] == t[3];
      HexMeans(e.bracount, pattern, p, u.c, false, false);
      EscapeUnit(e, pattern, p);
    } else if IsDot(u) {
      DotUnit(e, pattern, p);
    } else {
      LettersMean(e.bracount, pattern, p);
      EscapeUnit(e, pattern, p);
    }
  }

  lemma DotUnit(e: Setting, pattern: seq<byte>, p: nat)
    requires e.Valid() && KnowsMeta(e.tb) && p < |pattern| && pattern[p] == 46
    ensures UnitAt(e, pattern, p, false) == Item(Type(if e.dotall then 13 else 12), p + 1) && NextAt(e, pattern, p) == NoItem
  {
    hide HasCtype;
  }

  /** What follows a written piece: the next one, or the end. */
  lemma RestStarts(e: Setting, pattern: seq<byte>, p: nat, ps: Pieces)
    requires e.Valid() && KnowsMeta(e.tb) && !e.extended && Writable(e, ps) && TextAt(pattern, p, WriteAll(ps))
    requires p + |WriteAll(ps)| == |pattern|
    ensures PatternByte(pattern, p) in {0, 46, 92} && Passed(e, pattern, p, false) == Place(p, false)
  {
    if ps.Then? {
      var t := WriteUnit(ps.hd.u);
      TextParts(pattern, p, WritePiece(ps.hd), WriteAll(ps.tl));
      if ps.hd.Repeat? { TextParts(pattern, p, t, Braces(ps.hd.min, ps.hd.max) + WriteMode(ps.hd.m)); }
      UnitReads(e, pattern, p, ps.hd.u);
    }
  }

  lemma QuantifierReads(e: Setting, pattern: seq<byte>, p: nat, min: nat, max: int, m: Mode, rest: seq<byte>)
    requires e.Valid() && !e.extended && LimitsOk(min, max) && TextAt(pattern, p, (Braces(min, max) + WriteMode(m)) + rest)
    requires PatternByte(pattern, p + |Braces(min, max) + WriteMode(m)|) in {0, 46, 92}
    ensures Passed(e, pattern, p, false) == Place(p, false) && QuantityAt(pattern, p) == Times(min, max)
    ensures var q := QuantityEnd(pattern, p);
            q == p + |Braces(min, max)| && ModeAt(pattern, q) == m && (if m == Greedy then q else q + 1) == q + |WriteMode(m)|
    ensures OptionalAt(pattern, p) <==> min == 0
  {
    hide Digits, DigitsEnd, Number;
    var b := Braces(min, max);
    TextParts(pattern, p, b + WriteMode(m), rest);
    TextParts(pattern, p, b, WriteMode(m));
    BracesMean(pattern, p, min, max);
    assert PatternByte(pattern, p) == 123;
    ZeroWritten(pattern, p, min, max);
  }

  /** Only a minimum of zero is written as {0, . */
  lemma ZeroWritten(pattern: seq<byte>, p: nat, min: nat, max: int)
    requires max >= -1 && TextAt(pattern, p, Braces(min, max))
    ensures OptionalAt(pattern, p) <==> min == 0
  {
    hide Digits, DigitsEnd;
    var d := Digits(min);
    var tail: seq<byte> := if max == -1 then [125] else Digits(max) + [125];
    TextParts(pattern, p, [123], d + ([44] + tail));
    TextParts(pattern, p + 1, d, [44] + tail);
    assert PatternByte(pattern, p + 1) == d[0];
    if |d| > 1 {
      assert pattern[p + 2] == pattern[p + 1..p + 1 + |d|][1] == d[1];
      FirstDigit(min);
    } else {
      assert PatternByte(pattern, p + 2) == 44;
      OneDigit(min);
    }
  }

  lemma {:induction false} FirstDigit(n: nat)
    requires |Digits(n)| > 1
    ensures Digits(n)[0] != 48 && n > 0
  {
    if n >= 100 { FirstDigit(n / 10); }
  }

  lemma OneDigit(n: nat)
    requires |Digits(n)| == 1
    ensures n < 10 && Digits(n) == [48 + n]
  {
  }

  /** One piece, from what its unit and its quantifier are read as. */
  lemma StepReads(e: Setting, pattern: seq<byte>, p: nat, u: Unit, end: nat)
    requires e.Valid() && !e.extended && p < |pattern|
    requires Passed(e, pattern, p, false) == Place(p, false) && !BranchOver(pattern, p, false)
    requires UnitAt(e, pattern, p, false) == Item(u, end) && (NextAt(e, pattern, p).Item? ==> NextAt(e, pattern, p) == Item(u, end))
    requires Passed(e, pattern, end, false) == Place(end, false)
    ensures var clear := NextAt(e, pattern, p).Item? && !OptionalAt(pattern, end);
            NextPiece(e, pattern, p, false)
            == match QuantityAt(pattern, end)
               case Refused => Unread
               case Once => Step(Single(u, clear), end, false)
               case Times(min, max) =>
                 var last := QuantityEnd(pattern, end);
                 var m := ModeAt(pattern, last);
                 Step(Repeat(u, min, max, m, clear), if m == Greedy then last else last + 1, false)
  {
    hide UnitAt, NextAt, QuantityAt, QuantityEnd, Passed, OptionalAt, BranchOver;
  }

  lemma NextReads(e: Setting, pattern: seq<byte>, p: nat, ps: Pieces)
    requires e.Valid() && KnowsMeta(e.tb) && !e.extended && ps.Then? && Writable(e, ps) && TextAt(pattern, p, WriteAll(ps))
    requires p + |WriteAll(ps)| == |pattern|
    ensures NextPiece(e, pattern, p, false) == Step(ps.hd, p + |WritePiece(ps.hd)|, false)
  {
    hide HasCtype, UnitAt, NextAt, QuantityAt, QuantityEnd, Passed, Braces, WriteUnit, OptionalAt, WriteMode, NextPiece, BranchOver,
         KnowsMeta, TextAt;
    var piece, rest := WritePiece(ps.hd), WriteAll(ps.tl);
    var t := WriteUnit(ps.hd.u);
    var end := p + |t|;
    TextParts(pattern, p, piece, rest);
    RestStarts(e, pattern, p + |piece|, ps.tl);
    if ps.hd.Single? {
      UnitReads(e, pattern, p, ps.hd.u);
      NoQuantifier(pattern, end);
      StepReads(e, pattern, p, ps.hd.u, end);
    } else {
      var min, max, m := ps.hd.min, ps.hd.max, ps.hd.m;
      var quantifier := Braces(min, max) + WriteMode(m);
      assert piece + rest == t + (quantifier + rest);
      TextParts(pattern, p, t, quantifier + rest);
      UnitReads(e, pattern, p, ps.hd.u);
      QuantifierReads(e, pattern, end, min, max, m, rest);
      StepReads(e, pattern, p, ps.hd.u, end);
    }
  }

  lemma NoQuantifier(pattern: seq<byte>, p: nat)
    requires PatternByte(pattern, p) in {0, 46, 92}
    ensures QuantityAt(pattern, p) == Once && !OptionalAt(pattern, p)
  {
  }

  /** Reading a written branch gives its pieces back. */
  lemma {:induction false} ReadWritten(e: Setting, pattern: seq<byte>, p: nat, ps: Pieces)
    requires e.Valid() && KnowsMeta(e.tb) && !e.extended && Writable(e, ps) && TextAt(pattern, p, WriteAll(ps))
    requires p + |WriteAll(ps)| == |pattern|
    ensures ReadBranch(e, pattern, p, false) == Some(ps)
    decreases ps
  {
    hide NextPiece;
    if ps.End? {
      RestStarts(e, pattern, p, ps);
      assert NextPiece(e, pattern, p, false) == Over by { PieceOver(e, pattern, p); }
    } else {
      NextReads(e, pattern, p, ps);
      TextParts(pattern, p, WritePiece(ps.hd), WriteAll(ps.tl));
      ReadWritten(e, pattern, p + |WritePiece(ps.hd)|, ps.tl);
    }
  }

  lemma PieceOver(e: Setting, pattern: seq<byte>, p: nat)
    requires e.Valid() && p == |pattern|
    ensures NextPiece(e, pattern, p, false) == Over
  {
  }
}

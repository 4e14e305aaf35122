/** The pre-compile pass, which adds up the length of the code without producing it, and the proof that
    the code produced later is never longer. */
module Sizes {
  import opened ByteCode
  import opened Backtracking
  import opened CodeMoves
  import opened Replicate
  import opened Syntax

  // ---- The length that the pass computes ---------------------------------------------------------------------

  /** The growth for a group of length len that is repeated. */
  function RepeatedLen(len: nat, min: nat, max: int): nat
    requires max == -1 || (max >= 1 && min <= max)
  {
    if min == 0 then (if max <= 1 then len + 1 else NestTotal(len, max))
    else min * len + (if max > min then NestTotal(len, max - min) else 0)
  }

  /** k nested optional copies: 1 for each BRAZERO, and 6 for each bracket around all but the last. */
  function NestTotal(len: nat, k: nat): nat
    requires k >= 1
  {
    k * (len + 7) - 6
  }

  function PrePiece(p: Piece, caseless: bool): nat
    requires PieceOk(p, caseless)
    decreases p, 0
  {
    match p
    case Single(u, _) => UnitLen(u)
    case Repeat(u, min, max, m, _) => if max == 0 then UnitLen(u) else ItemsLen(Quantified(u, min, max, m))
    case Paren(cap, alts) => PreRegex(cap, alts, caseless)
    case RepeatParen(cap, alts, min, max, _) => RepeatedLen(PreRegex(cap, alts, caseless), min, max)
  }

  function PreRegex(cap: nat, alts: Branches, caseless: bool): nat
    requires BranchesOk(alts, caseless)
    decreases alts, 1
  {
    2 + 2 * LINK_SIZE + SkipBytes(cap) + PreBranches(alts, caseless)
  }

  function SkipBytes(cap: nat): nat {
    if cap > 0 then 2 else 0
  }

  function PreBranches(alts: Branches, caseless: bool): nat
    requires BranchesOk(alts, caseless)
    decreases alts, 0
  {
    PreAll(alts.b, caseless) + if alts.Or? then 1 + LINK_SIZE + PreBranches(alts.rest, caseless) else 0
  }

  function PreAll(ps: Pieces, caseless: bool): nat
    requires PiecesOk(ps, caseless)
    decreases ps, 0
  {
    if ps.End? then 0 else PrePiece(ps.hd, caseless) + PreAll(ps.tl, caseless)
  }

  // ---- The code is not longer ----------------------------------------------------------------------------------

  lemma {:induction false} AppendLen(xs: Items, ys: Items)
    ensures ItemsLen(Append(xs, ys)) == ItemsLen(xs) + ItemsLen(ys)
  {
    hide NodeLen;
    if xs.Cons? { AppendLen(xs.tl, ys); }
  }

  lemma {:induction false} NestedTotal(lazy: bool, g: Group, k: nat)
    requires k >= 1
    ensures NodeLen(Nested(lazy, g, k)) == NestTotal(GroupLen(g), k)
  {
    hide GroupLen, NodeLen, Nested;
    NestedLen(lazy, g, k);
    if k > 1 {
      NestedTotal(lazy, g, k - 1);
      assert k * (GroupLen(g) + 7) == (k - 1) * (GroupLen(g) + 7) + (GroupLen(g) + 7);
    }
  }

  /** The growth computed from the length of one group is the growth of the code, for equal lengths. */
  lemma RepeatedExact(lazy: bool, g: Group, min: nat, max: int)
    requires max == -1 || (max >= 1 && min <= max)
    ensures ItemsLen(Replicated(lazy, g, min, max)) == RepeatedLen(GroupLen(g), min, max)
  {
    hide GroupLen, NodeLen, Nested, ItemsLen, Looped, Copies;
    if min == 0 {
      if max <= 1 {
        ZeroLen(lazy, g, max);
        SingleLen(if max == -1 then Zero(lazy, Looped(lazy, g)) else Nested(lazy, g, max));
      } else {
        NestedTotal(lazy, g, max);
        SingleLen(Nested(lazy, g, max));
      }
    } else {
      ReplicatedLen(lazy, g, min, max);
      NoLen();
      CopiesLen(g, min, Nil);
      if max > min { NestedTotal(lazy, g, max - min); }
    }
  }

  lemma NoLen()
    ensures ItemsLen(Nil) == 0
  {
  }

  lemma RepeatedMono(len: nat, len': nat, min: nat, max: int)
    requires (max == -1 || (max >= 1 && min <= max)) && len <= len'
    ensures RepeatedLen(len, min, max) <= RepeatedLen(len', min, max)
  {
    hide NestTotal;
    MulMono(min, len, min, len');
    if min == 0 && max > 1 { NestMono(len, len', max); }
    if min > 0 && max > min { NestMono(len, len', max - min); }
  }

  lemma NestMono(len: nat, len': nat, k: nat)
    requires k >= 1 && len <= len'
    ensures NestTotal(len, k) <= NestTotal(len', k)
  {
    MulMono(k, len + 7, k, len' + 7);
  }

  /** A quantifier {0} on a single item makes the pass count an item that is left out of the code. */
  predicate Kept(ps: Pieces)
    decreases ps, 0
  {
    ps.Then? ==>
      && (match ps.hd
          case Single(_, _) => true
          case Repeat(_, _, max, _, _) => max != 0
          case Paren(_, alts) => KeptBranches(alts)
          case RepeatParen(_, alts, _, _, _) => KeptBranches(alts))
      && Kept(ps.tl)
  }

  predicate KeptBranches(alts: Branches)
    decreases alts, 0
  {
    Kept(alts.b) && (alts.Or? ==> KeptBranches(alts.rest))
  }

  /** The code of a branch is at most as long as the pass says, and exactly as long when no item is left
      out. */
  lemma {:induction false} EmitAllLen(ps: Pieces, caseless: bool)
    requires PiecesOk(ps, caseless)
    ensures ItemsLen(EmitAll(ps, caseless)) <= PreAll(ps, caseless)
    ensures Kept(ps) ==> ItemsLen(EmitAll(ps, caseless)) == PreAll(ps, caseless)
    decreases ps, 0
  {
    hide GroupLen, NodeLen, GroupOf, RepeatedLen, Replicated, Quantified, UnitLen;
    if ps.Then? {
      var p := ps.hd;
      AppendLen(Emit(p, caseless), EmitAll(ps.tl, caseless));
      EmitAllLen(ps.tl, caseless);
      match p {
        case Single(u, _) => OneLen(u);
        case Repeat(u, min, max, m, _) => NothingLen(u, min, max, m);
        case Paren(cap, alts) =>
          RegexLen(cap, alts, caseless);
          SingleLen(Grp(GroupOf(cap, alts, caseless)));
          GrpLen(GroupOf(cap, alts, caseless));
        case RepeatParen(cap, alts, min, max, lazy) =>
          var g := GroupOf(cap, alts, caseless);
          RegexLen(cap, alts, caseless);
          RepeatedExact(lazy, g, min, max);
          RepeatedMono(GroupLen(g), PreRegex(cap, alts, caseless), min, max);
      }
    }
  }

  lemma OneLen(u: Unit)
    ensures ItemsLen(Cons(One(u), Nil)) == UnitLen(u)
  {
  }

  lemma NothingLen(u: Unit, min: nat, max: int, m: Mode)
    requires max == -1 || min <= max
    ensures max == 0 ==> ItemsLen(Quantified(u, min, max, m)) == 0
  {
  }

  lemma GrpLen(g: Group)
    ensures NodeLen(Grp(g)) == GroupLen(g)
  {
  }

  lemma {:induction false} RegexLen(cap: nat, alts: Branches, caseless: bool)
    requires BranchesOk(alts, caseless)
    ensures GroupLen(GroupOf(cap, alts, caseless)) <= PreRegex(cap, alts, caseless)
    ensures KeptBranches(alts) ==> GroupLen(GroupOf(cap, alts, caseless)) == PreRegex(cap, alts, caseless)
    decreases alts, 1
  {
    var g := GroupOf(cap, alts, caseless);
    BranchesLen(HdrLen(g), alts, caseless);
  }

  lemma {:induction false} BranchesLen(h: nat, alts: Branches, caseless: bool)
    requires BranchesOk(alts, caseless)
    ensures AltsLen(h, EmitBranches(alts, caseless)) <= h + 1 + LINK_SIZE + PreBranches(alts, caseless)
    ensures KeptBranches(alts) ==> AltsLen(h, EmitBranches(alts, caseless)) == h + 1 + LINK_SIZE + PreBranches(alts, caseless)
    decreases alts, 0
  {
    hide ItemsLen, EmitAll;
    EmitAllLen(alts.b, caseless);
    if alts.Or? { BranchesLen(1 + LINK_SIZE, alts.rest, caseless); }
  }

  // ---- The pass --------------------------------------------------------------------------------------------------

  /** What happens at the head of the loop over a branch: the length of the last item is added, and the
      work space is cleared except for the item that a quantifier may follow. previous is -1 for none. */
  method NextCycle(length0: nat, code0: nat, lastCode0: nat, previous0: int)
    returns (length: nat, code: nat, lastCode: nat, previous: int)
    requires -1 <= previous0 <= code0
    ensures length == length0 + (if code0 < lastCode0 then 0 else code0 - lastCode0)
    ensures code == (if previous0 < 0 then 0 else (if code0 < lastCode0 then lastCode0 else code0) - previous0)
    ensures lastCode == code && previous == (if previous0 < 0 then -1 else 0)
  {
    length, code, previous := length0, code0, previous0;
    if code < lastCode0 { code := lastCode0; }
    length := length + (code - lastCode0);
    if previous >= 0 {
      if previous > 0 {
        code := code - previous;
        previous := 0;
      }
    } else {
      code := 0;
    }
    lastCode := code;
  }

  /** The number of bytes that a quantifier leaves for the unit of length len at the start of the work
      space. */
  method QuantifiedLength(u: Unit, min: nat, max: int, ghost m: Mode) returns (code: nat)
    requires max == -1 || min <= max
    ensures code == if max == 0 then 0 else ItemsLen(Quantified(u, min, max, m))
  {
    if max == 0 { return 0; }
    ghost var its := Quantified(u, min, max, m);
    NoLen();
    assert ItemsLen(its) == NodeLen(its.hd) + ItemsLen(its.tl);
    assert its.tl.Cons? ==> ItemsLen(its.tl) == NodeLen(its.tl.hd) + ItemsLen(its.tl.tl) && its.tl.tl.Nil?;
    if u.Class? {
      if (min == 0 && max == -1) || (min == 1 && max == -1) || (min == 0 && max == 1) { return 33 + 1; }
      return 33 + 5;
    }
    if min == 0 {
      code := if max == -1 || max == 1 then 2 else 4;
    } else if min == 1 {
      if max == -1 {
        code := 2;
      } else {
        code := UnitLen(u);
        if max != 1 { code := code + 4; }
      }
    } else {
      code := 4;
      if max < 0 {
        code := code + 2;
      } else if max != min {
        code := code + (if max - min == 1 then 2 else 4);
      }
    }
  }

  /** What a quantifier on a group of length len adds: to the length at once, and to the code in the work
      space, where the group has shrunk to an empty bracket. */
  method RepeatedGrowth(len: nat, min: nat, max: int) returns (added: nat, growth: nat)
    requires (max == -1 || (max >= 1 && min <= max)) && len >= 6
    ensures len + added + growth == RepeatedLen(len, min, max)
  {
    added, growth := 0, 0;
    var repeatMax := max;
    var bralink := false;
    if min == 0 {
      if repeatMax <= 1 {
        growth := 1;
      } else {
        growth := 2 + LINK_SIZE;
        bralink := true;
      }
      repeatMax := repeatMax - 1;
    } else {
      if min > 1 { added := (min - 1) * len; }
      assert added == min * len - len;
      if repeatMax > 0 { repeatMax := repeatMax - min; }
    }
    if repeatMax >= 0 {
      if repeatMax > 0 {
        added := added + repeatMax * (len + 1 + 2 + 2 * LINK_SIZE) - 2 - 2 * LINK_SIZE;
      }
      if bralink { growth := growth + 1 + LINK_SIZE; }
    }
    if min == 0 && max > 1 {
      assert max * (len + 7) == (max - 1) * (len + 7) + (len + 7);
    }
  }

  /** The pass over a branch. The length of the code is added to length0. */
  method MeasureBranch(ps0: Pieces, caseless: bool, length0: nat) returns (length: nat)
    requires PiecesOk(ps0, caseless)
    ensures length == length0 + PreAll(ps0, caseless)
    decreases ps0, 0
  {
    hide UnitLen, Quantified, RepeatedLen, ItemsLen, PreRegex;
    length := length0;
    var code: nat, lastCode: nat, previous: int := 0, 0, -1;
    var ps := ps0;
    length, code, lastCode, previous := NextCycle(length, code, lastCode, previous);
    while ps.Then?
      invariant PiecesOk(ps, caseless) && (ps == ps0 || ps < ps0)
      invariant length + PreAll(ps, caseless) == length0 + PreAll(ps0, caseless)
      invariant lastCode == code && -1 <= previous <= 0
      decreases ps
    {
      length, code, lastCode, previous := MeasurePiece(ps.hd, caseless, length, code, lastCode, previous);
      ps := ps.tl;
    }
  }

  /** The pass over one item and its quantifier, up to the head of the loop for the next item. */
  method MeasurePiece(p: Piece, caseless: bool, length0: nat, code0: nat, lastCode0: nat, previous0: int)
    returns (length: nat, code: nat, lastCode: nat, previous: int)
    requires PieceOk(p, caseless) && lastCode0 == code0 && -1 <= previous0 <= 0
    ensures length == length0 + PrePiece(p, caseless) && lastCode == code && -1 <= previous <= 0
    decreases p, 1
  {
    hide Quantified, RepeatedLen, ItemsLen, PreRegex;
    length, code, lastCode, previous := length0, code0, lastCode0, previous0;
    match p {
      case Single(u, _) =>
        previous := code;
        code := code + UnitLen(u);
        length, code, lastCode, previous := NextCycle(length, code, lastCode, previous);
      case Repeat(u, min, max, m, _) =>
        previous := code;
        code := code + UnitLen(u);
        length, code, lastCode, previous := NextCycle(length, code, lastCode, previous);
        QuantifiedLonger(u, min, max, m);
        var n := QuantifiedLength(u, min, max, m);
        code := previous + n;
        previous := -1;
        length, code, lastCode, previous := NextCycle(length, code, lastCode, previous);
      case Paren(cap, alts) =>
        previous := code;
        var lengthPrevgroup: nat;
        length, code, lengthPrevgroup := MeasureGroup(cap, alts, caseless, length, code);
        length, code, lastCode, previous := NextCycle(length, code, lastCode, previous);
      case RepeatParen(cap, alts, min, max, _) =>
        previous := code;
        var lengthPrevgroup: nat;
        length, code, lengthPrevgroup := MeasureGroup(cap, alts, caseless, length, code);
        length, code, lastCode, previous := NextCycle(length, code, lastCode, previous);
        var added, growth := RepeatedGrowth(lengthPrevgroup, min, max);
        length := length + added;
        code := code + growth;
        previous := -1;
        length, code, lastCode, previous := NextCycle(length, code, lastCode, previous);
    }
  }

  /** The pass over a group: its length but for the brackets is added at once, and an empty bracket
      stands for it in the work space. */
  method MeasureGroup(cap: nat, alts: Branches, caseless: bool, length0: nat, code0: nat)
    returns (length: nat, code: nat, lengthPrevgroup: nat)
    requires BranchesOk(alts, caseless)
    ensures code == code0 + 6 && length + 6 == length0 + lengthPrevgroup
    ensures lengthPrevgroup == PreRegex(cap, alts, caseless) && lengthPrevgroup >= 6
    decreases alts, 3
  {
    lengthPrevgroup := MeasureRegex(cap, alts, caseless, 0);
    length := length0 + lengthPrevgroup - 2 - 2 * LINK_SIZE;
    code := code0 + 2 + 2 * LINK_SIZE;
  }

  /** The pass over the branches of a group. */
  method MeasureRegex(cap: nat, alts0: Branches, caseless: bool, length0: nat) returns (length: nat)
    requires BranchesOk(alts0, caseless)
    ensures length == length0 + PreRegex(cap, alts0, caseless)
    decreases alts0, 2
  {
    length := 2 + 2 * LINK_SIZE + SkipBytes(cap);
    var alts := alts0;
    while true
      invariant BranchesOk(alts, caseless) && (alts == alts0 || alts < alts0)
      invariant length + PreBranches(alts, caseless) == PreRegex(cap, alts0, caseless)
      decreases alts
    {
      length := MeasureBranch(alts.b, caseless, length);
      if alts.Only? { return length0 + length; }
      length := length + 1 + LINK_SIZE;
      alts := alts.rest;
    }
  }

  lemma QuantifiedLonger(u: Unit, min: nat, max: int, m: Mode)
    requires max == -1 || min <= max
    ensures max != 0 ==> ItemsLen(Quantified(u, min, max, m)) >= UnitLen(u)
  {
  }

  /** The length of the whole pattern: one more byte is for OP_END. */
  method MeasurePattern(alts: Branches, caseless: bool) returns (length: nat)
    requires BranchesOk(alts, caseless)
    ensures length == 1 + PreRegex(0, alts, caseless)
    ensures GroupLen(GroupOf(0, alts, caseless)) + 1 <= length
    ensures KeptBranches(alts) ==> GroupLen(GroupOf(0, alts, caseless)) + 1 == length
  {
    RegexLen(0, alts, caseless);
    length := MeasureRegex(0, alts, caseless, 1);
  }
}

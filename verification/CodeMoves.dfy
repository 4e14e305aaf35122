/** Moving and copying code: links are relative, so well-formed code stays well-formed elsewhere. */
module CodeMoves {
  import opened ByteCode
  import opened Backtracking
  import opened MatchSteps

  /** The bytes of code from lo up to hi stand d further on in code'. */
  ghost predicate Shifted(code: seq<byte>, code': seq<byte>, d: int, lo: nat, hi: nat) {
    && hi <= |code|
    && 0 <= lo + d && hi + d <= |code'|
    && forall i :: lo <= i < hi ==> code'[i + d] == code[i]
  }

  predicate IsQuantifier(op: byte) {
    OP_CRSTAR <= op <= OP_CRMINRANGE
  }

  /** Items keep their meaning when moved, if the byte after them is no quantifier of a class. */
  lemma {:induction false} MoveItems(code: seq<byte>, code': seq<byte>, d: int, pc: nat, its: Items, caseless: bool)
    requires AtItems(code, pc, its, caseless) && pc + ItemsLen(its) <= |code|
    requires Shifted(code, code', d, pc, pc + ItemsLen(its))
    requires pc + ItemsLen(its) + d < |code'| && !IsQuantifier(code'[pc + ItemsLen(its) + d])
    ensures AtItems(code', pc + d, its, caseless)
    decreases its, 0
  {
    match its
    case Nil =>
    case Cons(n, tl) =>
      hide AtNode, NodeLen;
      ConsAt(code, pc, its, caseless);
      MoveItems(code, code', d, pc + NodeLen(n), tl, caseless);
      if tl.Cons? {
        DecodeNode(code, pc + NodeLen(n), tl, caseless);
        NodeLenPositive(tl.hd);
      }
      MoveNode(code, code', d, pc, n, caseless);
  }

  lemma NodeLenPositive(n: Node)
    ensures NodeLen(n) > 0
  {
    match n
    case Grp(g) => GroupLenPositive(g);
    case Zero(_, g) =>
    case _ =>
  }

  lemma GroupLenPositive(g: Group)
    ensures GroupLen(g) >= 3
  {
    AltsLenPositive(HdrLen(g), g.alts);
  }

  lemma {:induction false} AltsLenPositive(h: nat, alts: Alts)
    ensures AltsLen(h, alts) >= h + ItemsLen(alts.b) + 1 + LINK_SIZE
    decreases alts
  {
    if alts.More? { AltsLenPositive(1 + LINK_SIZE, alts.rest); }
  }

  lemma {:induction false} MoveNode(code: seq<byte>, code': seq<byte>, d: int, pc: nat, n: Node, caseless: bool)
    requires AtNode(code, pc, n, caseless) && pc + NodeLen(n) <= |code|
    requires Shifted(code, code', d, pc, pc + NodeLen(n))
    requires pc + NodeLen(n) + d < |code'| && !IsQuantifier(code'[pc + NodeLen(n) + d])
    ensures AtNode(code', pc + d, n, caseless)
    decreases n, 0
  {
    hide AtUnit, AtRep, UnitLen, RepLen, AtGroup, Shifted, GroupLen;
    match n
    case One(u) => MoveUnit(code, code', d, pc, u);
    case Rep(u, q, m) => MoveRep(code, code', d, pc, u, q, m, caseless);
    case Grp(g) => MoveGroup(code, code', d, pc, g, caseless);
    case Zero(_, g) =>
      ShiftedPart(code, code', d, pc, pc + NodeLen(n), pc + 1, pc + NodeLen(n));
      MoveGroup(code, code', d, pc + 1, g, caseless);
  }

  lemma ShiftedPart(code: seq<byte>, code': seq<byte>, d: int, lo: nat, hi: nat, lo': nat, hi': nat)
    requires Shifted(code, code', d, lo, hi) && lo <= lo' <= hi' <= hi
    ensures Shifted(code, code', d, lo', hi')
    ensures lo < hi ==> code'[lo + d] == code[lo]
    ensures hi + d <= |code'|
  {
  }

  lemma MoveUnit(code: seq<byte>, code': seq<byte>, d: int, pc: nat, u: Unit)
    requires AtUnit(code, pc, u) && Shifted(code, code', d, pc, pc + UnitLen(u))
    requires pc + UnitLen(u) + d < |code'| && !IsQuantifier(code'[pc + UnitLen(u) + d])
    ensures AtUnit(code', pc + d, u)
  {
    if u.Class? { assert code'[pc + d + 1..pc + d + 33] == code[pc + 1..pc + 33]; }
  }

  lemma MoveRep(code: seq<byte>, code': seq<byte>, d: int, pc: nat, u: Unit, q: Quant, m: Mode, caseless: bool)
    requires AtRep(code, pc, u, q, m, caseless) && Shifted(code, code', d, pc, pc + RepLen(u, q))
    ensures AtRep(code', pc + d, u, q, m, caseless)
  {
    hide RepOp, RepOk;
    var n := RepLen(u, q);
    if u.Class? {
      assert code'[pc + d + 1..pc + d + 33] == code[pc + 1..pc + 33];
      assert code'[pc + d + 33] == code[pc + 33];
      if q.Range? {
        assert code'[pc + d + 34] == code[pc + 34] && code'[pc + d + 35] == code[pc + 35];
        assert code'[pc + d + 36] == code[pc + 36] && code'[pc + d + 37] == code[pc + 37];
      }
    } else {
      assert code'[pc + d] == code[pc] && code'[pc + d + n - 1] == code[pc + n - 1];
      if q.Upto? || q.Exact? {
        assert code'[pc + d + 1] == code[pc + 1] && code'[pc + d + 2] == code[pc + 2];
      }
    }
  }

  /** A group keeps its meaning when moved. */
  lemma {:induction false} MoveGroup(code: seq<byte>, code': seq<byte>, d: int, pc: nat, g: Group, caseless: bool)
    requires AtGroup(code, pc, g, caseless) && pc + GroupLen(g) <= |code|
    requires Shifted(code, code', d, pc, pc + GroupLen(g))
    ensures AtGroup(code', pc + d, g, caseless)
    decreases g, 1
  {
    hide AtAlts;
    AltsLenPositive(HdrLen(g), g.alts);
    BranchEnd(code, pc, HdrLen(g), g.alts, pc, KetOp(g.ket), caseless);
    KetByte(code, pc, HdrLen(g), g.alts, pc, KetOp(g.ket), caseless);
    MoveAlts(code, code', d, pc, HdrLen(g), g.alts, pc, KetOp(g.ket), KetOp(g.ket), caseless);
  }

  lemma {:induction false} KetByte(code: seq<byte>, p: nat, h: nat, alts: Alts, start: nat, kop: byte, caseless: bool)
    requires AtAlts(code, p, h, alts, start, kop, caseless)
    ensures p + AltsLen(h, alts) <= |code| && AltsLen(h, alts) >= 6
    ensures var q := p + AltsLen(h, alts) - 1 - LINK_SIZE;
            code[q] == kop && Get(code, q + 1) == q - start
    decreases alts
  {
    hide AtItems, ItemsLen;
    AltsLenPositive(h, alts);
    BranchEnd(code, p, h, alts, start, kop, caseless);
    if alts.More? { KetByte(code, p + Get(code, p + 1), 1 + LINK_SIZE, alts.rest, start, kop, caseless); }
  }

  /** The branches of a group, moved; the closing ket may have become one of another kind. */
  lemma {:induction false} MoveAlts(code: seq<byte>, code': seq<byte>, d: int, p: nat, h: nat, alts: Alts, start: nat,
                                    kop: byte, kop': byte, caseless: bool)
    requires AtAlts(code, p, h, alts, start, kop, caseless)
    requires p + AltsLen(h, alts) <= |code| && AltsLen(h, alts) >= 6
    requires var q := p + AltsLen(h, alts) - 1 - LINK_SIZE;
             && Shifted(code, code', d, p + 1, q) && Shifted(code, code', d, q + 1, q + 1 + LINK_SIZE)
             && code'[q + d] == kop' && OP_KET <= kop' <= OP_KETRMIN
    requires 0 <= start + d
    ensures AtAlts(code', p + d, h, alts, start + d, kop', caseless)
    decreases alts, 0
  {
    hide AtItems, AtAlts, ItemsLen, Shifted, AltsLen;
    AltsLenPositive(h, alts);
    BranchEnd(code, p, h, alts, start, kop, caseless);
    BranchItems(code, p, h, alts, start, kop, caseless);
    var q := p + Get(code, p + 1);
    var ket := p + AltsLen(h, alts) - 1 - LINK_SIZE;
    MoveLink(code, code', d, p + 1, p + 1, ket);
    if alts.More? {
      AltsLenPositive(1 + LINK_SIZE, alts.rest);
      ShiftedPart(code, code', d, p + 1, ket, q, ket);
      ShiftedPart(code, code', d, p + 1, ket, q + 1, ket);
      MoveAlts(code, code', d, q, 1 + LINK_SIZE, alts.rest, start, kop, kop', caseless);
    } else {
      MoveLink(code, code', d, q + 1, q + 1, q + 1 + LINK_SIZE);
    }
    ShiftedPart(code, code', d, p + 1, ket, p + h, q);
    MoveItems(code, code', d, p + h, alts.b, caseless);
    AltsParts(code', p + d, h, alts, start + d, kop', caseless);
  }

  lemma MoveLink(code: seq<byte>, code': seq<byte>, d: int, i: nat, lo: nat, hi: nat)
    requires Shifted(code, code', d, lo, hi) && lo <= i && i + 1 < hi
    ensures i + 2 + d <= |code'| && Get(code', i + d) == Get(code, i)
  {
    assert code'[i + d] == code[i] && code'[i + 1 + d] == code[i + 1];
  }

  /** The branches of a group, put together. */
  lemma AltsParts(code: seq<byte>, p: nat, h: nat, alts: Alts, start: nat, kop: byte, caseless: bool)
    requires 1 + LINK_SIZE <= h && p + h <= |code| && start <= p && AtItems(code, p + h, alts.b, caseless)
    requires var q := p + h + ItemsLen(alts.b);
             && q + 1 + LINK_SIZE <= |code| && Get(code, p + 1) == q - p
             && (alts.Last? ==> code[q] == kop && Get(code, q + 1) == q - start)
             && (alts.More? ==> code[q] == OP_ALT && AtAlts(code, q, 1 + LINK_SIZE, alts.rest, start, kop, caseless))
    ensures AtAlts(code, p, h, alts, start, kop, caseless)
  {
  }

  lemma BranchItems(code: seq<byte>, p: nat, h: nat, alts: Alts, start: nat, kop: byte, caseless: bool)
    requires AtAlts(code, p, h, alts, start, kop, caseless)
    ensures AtItems(code, p + h, alts.b, caseless) && start <= p
  {
  }
}

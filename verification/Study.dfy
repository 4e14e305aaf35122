/** pcre_study(): the least length of a match, found by a scan of the byte code, with the assertions,
    conditions and atomic groups that it may contain. */
module Study {
  import opened Common
  import opened ByteCode
  import opened Meaning
  import opened Lengths
  import opened FullCode
  import opened Scan

  // ---- The least length ------------------------------------------------------------------------

  function MinParts(ps: Parts): nat
    decreases ps, 0
  {
    match ps
    case NoParts => 0
    case Parts(n, tl) => MinPart(n) + MinParts(tl)
  }

  function MinPart(n: Part): nat
    decreases n, 0
  {
    match n
    case Simple(n) => MinNode(n)
    case Inner(b) => MinBracket(b)
    case _ => 0
  }

  /** Assertions consume nothing, nor need a condition without a second branch. */
  function MinBracket(b: Bracket): nat
    decreases b, 1
  {
    if b.kind.Assert? || (b.kind.Cond? && b.branches.Final?) then 0 else MinBranches(b.branches)
  }

  function MinBranches(bs: Branches): nat
    decreases bs, 0
  {
    match bs
    case Final(b) => MinParts(b)
    case Either(b, rest) => Least(MinParts(b), MinBranches(rest))
  }

  lemma {:induction false} PartsBound(c: Context, ps: Parts, i: nat, j: nat)
    requires DParts(c, false, ps, i, j) && i <= |c.s|
    ensures j >= i + MinParts(ps)
    decreases ps, 0
  {
    match ps
    case NoParts =>
    case Parts(n, tl) =>
      var m: nat :| i <= m <= j && DPart(c, false, n, i, m) && DParts(c, false, tl, m, j);
      PartForward(c, false, n, i, m);
      PartBound(c, n, i, m);
      PartsBound(c, tl, m, j);
  }

  lemma {:induction false} PartBound(c: Context, n: Part, i: nat, j: nat)
    requires DPart(c, false, n, i, j) && i <= |c.s|
    ensures j >= i + MinPart(n)
    decreases n, 0
  {
    PartForward(c, false, n, i, j);
    match n
    case Simple(n) => MinNodeBound(c, n, i, j);
    case Inner(b) => BracketBound(c, b, i, j);
    case _ =>
  }

  /** No match of a bracket consumes less than the least length, whatever its tests turn out to be. */
  lemma {:induction false} BracketBound(c: Context, b: Bracket, i: nat, j: nat)
    requires DBracket(c, false, b, i, j) && i <= |c.s|
    ensures j >= i + MinBracket(b)
    decreases b, 2
  {
    BracketForward(c, false, b, i, j);
    if !b.kind.Assert? {
      if b.ket == Plain {
        BodyBound(c, b, i, j);
      } else {
        var n: nat :| n >= 1 && Turns(c, false, b, n, i, j);
        var m := FirstTurn(c, false, b, n, i, j);
        BodyForward(c, false, b, i, m);
        TurnsForward(c, false, b, n - 1, m, j);
        BodyBound(c, b, i, m);
      }
    }
  }

  lemma {:induction false} BodyBound(c: Context, b: Bracket, i: nat, j: nat)
    requires !b.kind.Assert? && DBody(c, false, b, i, j) && i <= |c.s|
    ensures j >= i + MinBracket(b)
    decreases b, 1
  {
    BodyForward(c, false, b, i, j);
    if b.kind.Cond? {
      if b.branches.Either? {
        if DParts(c, false, b.branches.b, i, j) {
          PartsBound(c, b.branches.b, i, j);
        } else {
          BranchesBound(c, b.branches.rest, i, j);
        }
      }
    } else {
      BranchesBound(c, b.branches, i, j);
    }
  }

  lemma {:induction false} BranchesBound(c: Context, bs: Branches, i: nat, j: nat)
    requires DBranches(c, false, bs, i, j) && i <= |c.s|
    ensures j >= i + MinBranches(bs)
    decreases bs, 0
  {
    if DParts(c, false, bs.b, i, j) {
      PartsBound(c, bs.b, i, j);
    } else {
      BranchesBound(c, bs.rest, i, j);
    }
  }

  lemma {:induction false} ItemsMin(its: Items)
    ensures MinParts(Embed(its)) == MinItems(its)
    decreases its, 0
  {
    if its.Cons? {
      if its.hd.Grp? {
        AltsMin(its.hd.g.alts);
        assert MinPart(Inner(EmbedGroup(its.hd.g))) == MinBranches(EmbedAlts(its.hd.g.alts));
      }
      ItemsMin(its.tl);
    }
  }

  /** For code without assertions and conditions this is the least length of its groups. */
  lemma {:induction false} AltsMin(alts: Alts)
    ensures MinBranches(EmbedAlts(alts)) == MinAlts(alts)
    decreases alts, 0
  {
    ItemsMin(alts.b);
    if alts.More? { AltsMin(alts.rest); }
  }

  // ---- Scanning the code -----------------------------------------------------------------------

  /** A scan of bracket b at pc stands at cc, before ps, in the branch that bs starts with. */
  ghost predicate ScanAt(code: seq<byte>, cc: nat, ps: Parts, bs: Branches, pc: nat, b: Bracket, caseless: bool) {
    && AtBracket(code, pc, b, caseless)
    && AtParts(code, cc, ps, caseless)
    && AtEnd(code, cc + PartsLen(ps), bs, pc, b, caseless)
    && (bs == b.branches || bs < b.branches)
    && (ps == bs.b || ps < bs.b)
  }

  /** At q, the branch that bs starts with is over. */
  ghost predicate AtEnd(code: seq<byte>, q: nat, bs: Branches, pc: nat, b: Bracket, caseless: bool) {
    && q + 1 + LINK_SIZE <= |code|
    && (bs.Final? ==> code[q] == KetOp(b.ket))
    && (bs.Either? ==> code[q] == OP_ALT && AtBranches(code, q, 1 + LINK_SIZE, bs.rest, pc, KetOp(b.ket), caseless))
  }

  /** Where the link of a branch leads. */
  lemma LinkEnd(code: seq<byte>, p: nat, h: nat, bs: Branches, pc: nat, b: Bracket, caseless: bool)
    requires AtBranches(code, p, h, bs, pc, KetOp(b.ket), caseless)
    ensures p + 1 + LINK_SIZE <= |code| && AtParts(code, p + h, bs.b, caseless)
    ensures var q := p + Get(code, p + 1);
            && q == p + h + PartsLen(bs.b)
            && AtEnd(code, q, bs, pc, b, caseless)
            && (bs.Final? ==> q + 1 + LINK_SIZE == p + BodyLen(h, bs))
            && (bs.Either? ==> q + BodyLen(1 + LINK_SIZE, bs.rest) == p + BodyLen(h, bs))
  {
    hide AtParts, PartsLen;
  }

  lemma StartAt(code: seq<byte>, pc: nat, b: Bracket, caseless: bool)
    requires AtBracket(code, pc, b, caseless)
    ensures pc < |code| && OpLength(code[pc]) == HeadLen(b) && code[pc] == HeadOp(b) && Shaped(b)
    ensures b.kind.Bra? && b.kind.cap > 0 ==> pc + 5 <= |code| && Get(code, pc + 3) == b.kind.cap
    ensures ScanAt(code, pc + HeadLen(b), b.branches.b, b.branches, pc, b, caseless)
    ensures AtBranches(code, pc, HeadLen(b), b.branches, pc, KetOp(b.ket), caseless)
    ensures BodyLen(HeadLen(b), b.branches) == BracketLen(b)
  {
    hide AtParts, AtBranches, PartsLen, BodyLen;
    LinkEnd(code, pc, HeadLen(b), b.branches, pc, b, caseless);
  }

  /** From the OP_ALT at p the scan can go on with the next branch. */
  lemma NextBranchAt(code: seq<byte>, p: nat, bs: Branches, pc: nat, b: Bracket, caseless: bool)
    requires bs.Either? && AtBracket(code, pc, b, caseless) && (bs == b.branches || bs < b.branches)
    requires AtBranches(code, p, 1 + LINK_SIZE, bs.rest, pc, KetOp(b.ket), caseless)
    ensures ScanAt(code, p + 1 + LINK_SIZE, bs.rest.b, bs.rest, pc, b, caseless)
  {
    hide AtParts, AtBranches, PartsLen, BodyLen;
    LinkEnd(code, p, 1 + LINK_SIZE, bs.rest, pc, b, caseless);
  }

  /** What the opcode at a scan's position tells. */
  lemma DecodeAt(code: seq<byte>, cc: nat, ps: Parts, bs: Branches, pc: nat, b: Bracket, caseless: bool)
    requires ScanAt(code, cc, ps, bs, pc, b, caseless)
    ensures cc < |code|
    ensures code[cc] == OP_ALT <==> ps.NoParts? && bs.Either?
    ensures OP_KET <= code[cc] <= OP_KETRMIN <==> ps.NoParts? && bs.Final?
    ensures OP_ASSERT <= code[cc] <= OP_SCOND && code[cc] != OP_REVERSE <==> ps.Parts? && ps.hd.Inner?
    ensures ps.Parts? && ps.hd.Inner? ==> code[cc] == HeadOp(ps.hd.b)
    ensures OP_BRAZERO <= code[cc] <= OP_BRAMINZERO <==> ps.Parts? && ps.hd.Optional?
    ensures code[cc] == OP_SKIPZERO <==> ps.Parts? && ps.hd.Skipped?
    ensures CheckOk(code[cc]) <==> ps.Parts? && ps.hd.Check?
    ensures ps.Parts? && ps.hd.Check? ==> code[cc] == ps.hd.op
    ensures code[cc] == OP_REVERSE <==> ps.Parts? && ps.hd.Back?
  {
    hide AtBracket, AtBranches, AtNode;
    if ps.Parts? {
      assert AtPart(code, cc, ps.hd, caseless);
      if ps.hd.Simple? { SimpleOp(code, cc, ps.hd.n, caseless); }
      if ps.hd.Inner? { StartAt(code, cc, ps.hd.b, caseless); }
    }
  }

  lemma SimpleOp(code: seq<byte>, pc: nat, n: Node, caseless: bool)
    requires (n.One? || n.Rep?) && AtNode(code, pc, n, caseless)
    ensures pc < |code|
    ensures OP_NOT_DIGIT <= code[pc] <= OP_ALLANY || OP_CHAR <= code[pc] < OP_CRSTAR || OP_CLASS <= code[pc] <= OP_NCLASS
  {
    match n
    case One(u) => assert AtUnit(code, pc, u);
    case Rep(u, q, m) =>
      assert AtRep(code, pc, u, q, m, caseless);
      assert QuantIndex(q, m) <= 12;
  }

  /** The first of the parts to come, and the position behind it. */
  lemma InnerPart(code: seq<byte>, cc: nat, ps: Parts, bs: Branches, pc: nat, b: Bracket, caseless: bool)
    requires ScanAt(code, cc, ps, bs, pc, b, caseless) && ps.Parts?
    ensures AtPart(code, cc, ps.hd, caseless) && ScanAt(code, cc + PartLen(ps.hd), ps.tl, bs, pc, b, caseless)
    ensures PartsLen(ps) == PartLen(ps.hd) + PartsLen(ps.tl)
    ensures ps.hd.Simple? ==> (ps.hd.n.One? || ps.hd.n.Rep?) && AtNode(code, cc, ps.hd.n, caseless)
    ensures ps.hd.Simple? ==> PartLen(ps.hd) == NodeLen(ps.hd.n)
    ensures ps.hd.Inner? ==> AtBracket(code, cc, ps.hd.b, caseless) && ps.hd.b < b
    ensures ps.hd.Inner? ==> PartLen(ps.hd) == BracketLen(ps.hd.b)
    ensures ps.hd.Optional? || ps.hd.Skipped? ==> AtBracket(code, cc + 1, ps.hd.b, caseless) && ps.hd.b < b
    ensures ps.hd.Optional? || ps.hd.Skipped? ==> PartLen(ps.hd) == 1 + BracketLen(ps.hd.b)
    ensures ps.hd.Check? ==> PartLen(ps.hd) == CheckLen(ps.hd.op)
    ensures ps.hd.Back? ==> PartLen(ps.hd) == 1 + LINK_SIZE
  {
    hide AtBracket, AtNode, BracketLen, NodeLen, AtEnd;
  }

  /** Follows the links past a bracket. */
  method SkipBracket(code: seq<byte>, pc: nat, ghost b: Bracket, ghost caseless: bool) returns (next: nat)
    requires AtBracket(code, pc, b, caseless)
    ensures next == pc + BracketLen(b)
  {
    hide AtBranches, BodyLen, ScanAt;
    StartAt(code, pc, b, caseless);
    next := pc;
    ghost var bs, h := b.branches, HeadLen(b);
    LinkEnd(code, pc, h, bs, pc, b, caseless);
    next := next + Get(code, next + 1);
    while code[next] == OP_ALT
      invariant AtEnd(code, next, bs, pc, b, caseless)
      invariant bs.Final? ==> next + 1 + LINK_SIZE == pc + BracketLen(b)
      invariant bs.Either? ==> next + BodyLen(1 + LINK_SIZE, bs.rest) == pc + BracketLen(b)
      decreases bs
    {
      bs := bs.rest;
      LinkEnd(code, next, 1 + LINK_SIZE, bs, pc, b, caseless);
      next := next + Get(code, next + 1);
    }
    next := next + 1 + LINK_SIZE;
  }

  // ---- The scan for the least length -----------------------------------------------------------

  /** What the scanned bracket's minimum is, given the branches already seen and the current one. */
  ghost function LeastSoFar(length: int, current: nat, bs: Branches): nat {
    var m := if bs.Final? then current else Least(current, MinBranches(bs.rest));
    if length < 0 then m else Least(length, m)
  }

  /** Scans a bracket for the least length of its branches. */
  method FindMinlength(code: seq<byte>, pc: nat, ghost b: Bracket, ghost caseless: bool)
    returns (length: int)
    requires AtBracket(code, pc, b, caseless)
    ensures length == MinBranches(b.branches)
    decreases b, 1
  {
    hide AtPart, AtParts, AtBranches, AtBracket, AtNode, BodyLen, NodeLen, ScanAt, PartsLen, BracketLen;
    StartAt(code, pc, b, caseless);
    length := -1;
    var branchlength: nat := 0;
    var cc: nat := pc + OpLength(code[pc]);
    ghost var ps, bs := b.branches.b, b.branches;
    while true
      invariant ScanAt(code, cc, ps, bs, pc, b, caseless)
      invariant MinBranches(b.branches) == LeastSoFar(length, branchlength + MinParts(ps), bs)
      invariant -1 <= length
      decreases bs, ps
    {
      DecodeAt(code, cc, ps, bs, pc, b, caseless);
      var op := code[cc];
      if op == OP_ALT || OP_KET <= op <= OP_KETRMIN {
        if length < 0 || branchlength < length { length := branchlength; }
        if op != OP_ALT { return; }
        BranchOver(code, cc, bs, pc, b, caseless);
        cc := cc + 1 + LINK_SIZE;
        branchlength := 0;
        bs := bs.rest;
        ps := bs.b;
      } else {
        InnerPart(code, cc, ps, bs, pc, b, caseless);
        var d, next := PartLength(code, cc, ps, bs, pc, b, caseless);
        cc := next;
        branchlength := branchlength + d;
        ps := ps.tl;
      }
    }
  }

  /** The least length of the part at cc, and where it ends. */
  method PartLength(code: seq<byte>, cc: nat, ghost ps: Parts, ghost bs: Branches, ghost pc: nat, ghost b: Bracket,
                    ghost caseless: bool) returns (d: nat, next: nat)
    requires ScanAt(code, cc, ps, bs, pc, b, caseless) && ps.Parts?
    ensures d == MinPart(ps.hd) && next == cc + PartLen(ps.hd)
    decreases b, 0
  {
    hide AtPart, AtParts, AtBranches, AtBracket, AtNode, BodyLen, NodeLen, ScanAt, PartsLen, BracketLen;
    DecodeAt(code, cc, ps, bs, pc, b, caseless);
    InnerPart(code, cc, ps, bs, pc, b, caseless);
    var op := code[cc];
    d := 0;
    if OP_ONCE <= op <= OP_SCOND {
      StartAt(code, cc, ps.hd.b, caseless);
      LinkEnd(code, cc, HeadLen(ps.hd.b), ps.hd.b.branches, cc, ps.hd.b, caseless);
      if (op == OP_COND || op == OP_SCOND) && code[cc + Get(code, cc + 1)] != OP_ALT {
        return 0, cc + Get(code, cc + 1) + 1 + LINK_SIZE;
      }
      d := FindMinlength(code, cc, ps.hd.b, caseless);
      next := SkipBracket(code, cc, ps.hd.b, caseless);
    } else if OP_ASSERT <= op <= OP_ASSERTBACK_NOT {
      next := SkipBracket(code, cc, ps.hd.b, caseless);
    } else if op == OP_REVERSE {
      next := cc + 1 + LINK_SIZE;
    } else if CheckOk(op) {
      next := cc + CheckLen(op);
    } else if op == OP_BRAZERO || op == OP_BRAMINZERO || op == OP_SKIPZERO {
      next := SkipBracket(code, cc + 1, ps.hd.b, caseless);
    } else {
      d, next := ItemLength(code, cc, ps.hd.n, caseless);
    }
  }

  lemma BranchOver(code: seq<byte>, cc: nat, bs: Branches, pc: nat, b: Bracket, caseless: bool)
    requires ScanAt(code, cc, NoParts, bs, pc, b, caseless) && bs.Either?
    ensures ScanAt(code, cc + 1 + LINK_SIZE, bs.rest.b, bs.rest, pc, b, caseless)
  {
    hide AtBracket, AtBranches;
    NextBranchAt(code, cc, bs, pc, b, caseless);
  }
}

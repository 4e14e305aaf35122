/** Scanning the code of a group branch by branch. */
module Scan {
  import opened ByteCode
  import opened Meaning
  import opened Lengths
  import opened Backtracking
  import opened MatchSteps
  import opened CodeMoves

  /** A scan of group g, whose bracket is at pc, stands at cc, before its, in the branch that alts
      starts with. */
  ghost predicate Scanning(code: seq<byte>, cc: nat, its: Items, alts: Alts, pc: nat, g: Group, caseless: bool) {
    && AtGroup(code, pc, g, caseless)
    && AtItems(code, cc, its, caseless)
    && AtTail(code, cc + ItemsLen(its), pc, g, TailOf(alts), caseless)
    && (alts == g.alts || alts < g.alts)
    && (its == alts.b || its < alts.b)
  }

  function TailOf(alts: Alts): Tail {
    if alts.Last? then NoMore else Alternatives(alts.rest)
  }

  lemma StartScan(code: seq<byte>, pc: nat, g: Group, caseless: bool)
    requires AtGroup(code, pc, g, caseless)
    ensures pc < |code| && OpLength(code[pc]) == HdrLen(g)
    ensures code[pc] == GroupOp(g) && (g.cap > 0 ==> pc + 5 <= |code| && Get(code, pc + 3) == g.cap)
    ensures Scanning(code, pc + HdrLen(g), g.alts.b, g.alts, pc, g, caseless)
    ensures AtAlts(code, pc, HdrLen(g), g.alts, pc, KetOp(g.ket), caseless)
    ensures AltsLen(HdrLen(g), g.alts) == GroupLen(g)
  {
    hide AtItems, AtAlts, ItemsLen, AltsLen;
    BranchEnd(code, pc, HdrLen(g), g.alts, pc, KetOp(g.ket), caseless);
    BranchItems(code, pc, HdrLen(g), g.alts, pc, KetOp(g.ket), caseless);
  }

  /** At the end of a branch that is not the last, the scan goes on with the next branch. */
  lemma NextBranch(code: seq<byte>, cc: nat, alts: Alts, pc: nat, g: Group, caseless: bool)
    requires Scanning(code, cc, Nil, alts, pc, g, caseless) && alts.More?
    ensures Scanning(code, cc + 1 + LINK_SIZE, alts.rest.b, alts.rest, pc, g, caseless)
  {
    hide AtItems, AtGroup, AtAlts, GroupLen, AltsLen;
    BranchEnd(code, cc, 1 + LINK_SIZE, alts.rest, pc, KetOp(g.ket), caseless);
    BranchItems(code, cc, 1 + LINK_SIZE, alts.rest, pc, KetOp(g.ket), caseless);
  }

  /** From the OP_ALT at p the scan can go on with the next branch. */
  lemma BranchScan(code: seq<byte>, p: nat, alts: Alts, pc: nat, g: Group, caseless: bool)
    requires alts.More? && AtGroup(code, pc, g, caseless) && (alts == g.alts || alts < g.alts)
    requires AtAlts(code, p, 1 + LINK_SIZE, alts.rest, pc, KetOp(g.ket), caseless)
    requires p + AltsLen(1 + LINK_SIZE, alts.rest) == pc + GroupLen(g)
    ensures Scanning(code, p + 1 + LINK_SIZE, alts.rest.b, alts.rest, pc, g, caseless)
  {
    hide AtItems, AtAlts, ItemsLen;
    BranchEnd(code, p, 1 + LINK_SIZE, alts.rest, pc, KetOp(g.ket), caseless);
    BranchItems(code, p, 1 + LINK_SIZE, alts.rest, pc, KetOp(g.ket), caseless);
  }

  /** What the opcode at a scan's position tells. */
  lemma DecodeScan(code: seq<byte>, cc: nat, its: Items, alts: Alts, pc: nat, g: Group, caseless: bool)
    requires Scanning(code, cc, its, alts, pc, g, caseless)
    ensures cc < |code|
    ensures code[cc] == OP_ALT <==> its.Nil? && alts.More?
    ensures OP_KET <= code[cc] <= OP_KETRMIN <==> its.Nil? && alts.Last?
    ensures OP_BRA <= code[cc] <= OP_SCBRA <==> its.Cons? && its.hd.Grp?
    ensures OP_BRAZERO <= code[cc] <= OP_BRAMINZERO <==> its.Cons? && its.hd.Zero?
  {
    hide AtGroup, AtAlts;
    if its.Cons? { DecodeNode(code, cc, its, caseless); }
  }

  /** A group inside the scanned one. */
  lemma InnerGroup(code: seq<byte>, cc: nat, its: Items, alts: Alts, pc: nat, g: Group, caseless: bool)
    requires Scanning(code, cc, its, alts, pc, g, caseless) && its.Cons? && its.hd.Grp?
    ensures AtGroup(code, cc, its.hd.g, caseless) && its.hd.g < g
    ensures Scanning(code, cc + AltsLen(HdrLen(its.hd.g), its.hd.g.alts), its.tl, alts, pc, g, caseless)
    ensures ItemsLen(its) == AltsLen(HdrLen(its.hd.g), its.hd.g.alts) + ItemsLen(its.tl)
  {
    hide AtItems, AtTail, AtAlts, AtGroup, ItemsLen, AltsLen;
    GroupAt(code, cc, its.hd.g, its.tl, caseless);
  }

  lemma InnerZero(code: seq<byte>, cc: nat, its: Items, alts: Alts, pc: nat, g: Group, caseless: bool)
    requires Scanning(code, cc, its, alts, pc, g, caseless) && its.Cons? && its.hd.Zero?
    ensures AtGroup(code, cc + 1, its.hd.g, caseless) && its.hd.g < g
    ensures Scanning(code, cc + 1 + AltsLen(HdrLen(its.hd.g), its.hd.g.alts), its.tl, alts, pc, g, caseless)
    ensures ItemsLen(its) == 1 + AltsLen(HdrLen(its.hd.g), its.hd.g.alts) + ItemsLen(its.tl)
  {
    hide AtItems, AtTail, AtAlts, AtGroup, ItemsLen, AltsLen;
    ConsAt(code, cc, its, caseless);
  }

  /** An item that consumes characters. */
  lemma InnerItem(code: seq<byte>, cc: nat, its: Items, alts: Alts, pc: nat, g: Group, caseless: bool)
    requires Scanning(code, cc, its, alts, pc, g, caseless) && its.Cons? && (its.hd.One? || its.hd.Rep?)
    ensures AtNode(code, cc, its.hd, caseless)
    ensures Scanning(code, cc + NodeLen(its.hd), its.tl, alts, pc, g, caseless)
    ensures ItemsLen(its) == NodeLen(its.hd) + ItemsLen(its.tl)
  {
    hide AtTail, AtGroup, AtNode, NodeLen;
    ConsAt(code, cc, its, caseless);
  }

  /** Follows the links past a group. */
  method SkipGroup(code: seq<byte>, pc: nat, ghost g: Group, ghost caseless: bool)
    returns (next: nat)
    requires AtGroup(code, pc, g, caseless)
    ensures next == pc + AltsLen(HdrLen(g), g.alts)
  {
    hide AtItems, AtAlts, Scanning, AltsLen;
    StartScan(code, pc, g, caseless);
    next := SkipToKet(code, pc, HdrLen(g), g.alts, pc, KetOp(g.ket), caseless);
    next := next + 1 + LINK_SIZE;
  }

  /** The least length of a character item, and where it ends. */
  method ItemLength(code: seq<byte>, cc: nat, ghost n: Node, ghost caseless: bool) returns (min: nat, next: nat)
    requires (n.One? || n.Rep?) && AtNode(code, cc, n, caseless)
    ensures min == MinNode(n) && next == cc + NodeLen(n)
  {
    var op := code[cc];
    assert n.One? ==> AtUnit(code, cc, n.u);
    assert n.Rep? ==> AtRep(code, cc, n.u, n.q, n.m, caseless);
    if OP_NOT_DIGIT <= op <= OP_ALLANY {
      return 1, cc + 1;
    } else if OP_CHAR <= op <= OP_NOT {
      return 1, cc + 2;
    } else if op == OP_CLASS || op == OP_NCLASS {
      next := cc + 33;
      var r := code[next];
      if r == OP_CRSTAR + 2 || r == OP_CRSTAR + 3 {
        return 1, next + 1;
      } else if OP_CRSTAR <= r < OP_CRRANGE {
        return 0, next + 1;
      } else if r == OP_CRRANGE || r == OP_CRMINRANGE {
        return Get(code, next + 1), next + 5;
      } else {
        return 1, next;
      }
    }
    // A repeat: the three families of opcodes are laid out alike.
    var i := op - (if op < OP_NOTSTAR then OP_STAR else if op < OP_TYPESTAR then OP_NOTSTAR else OP_TYPESTAR);
    assert i == QuantIndex(n.q, n.m);
    if i == 2 || i == 3 || i == 10 {
      return 1, cc + 2;
    } else if i == 8 {
      return Get(code, cc + 1), cc + 4;
    } else if i == 6 || i == 7 || i == 12 {
      return 0, cc + 4;
    } else {
      return 0, cc + 2;
    }
  }
}

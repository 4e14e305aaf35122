/** is_startline() and is_anchored(): patterns all of whose branches begin with .* need to be tried only at
    the starts of lines, or only once. */
module StartLine {
  import opened ByteCode
  import opened Meaning
  import opened Outcomes
  import opened Backtracking
  import opened MatchSteps
  import opened CodeMoves
  import opened Exec
  import opened Scan
  import opened Repetition

  /** Every branch begins with an unlimited repeat of the type t, perhaps inside unmarked groups. */
  predicate LeadsWith(alts: Alts, t: byte)
    decreases alts, 1
  {
    ItemsLead(alts.b, t) && (alts.More? ==> LeadsWith(alts.rest, t))
  }

  predicate ItemsLead(its: Items, t: byte)
    decreases its, 0
  {
    && its.Cons?
    && match its.hd
       case Rep(u, q, _) => u == Type(t) && q.Star?
       case Grp(g) => !g.s && LeadsWith(g.alts, t)
       case _ => false
  }

  // ---- A match can also start one byte earlier -------------------------------------------------------------

  lemma {:induction false} ItemsEarlier(c: Context, its: Items, t: byte, i: nat, j: nat)
    requires ItemsLead(its, t) && Test(c, Type(t), i) && DItems(c, its, i + 1, j)
    ensures DItems(c, its, i, j)
    decreases its, 0
  {
    var n, tl := its.hd, its.tl;
    var m := FirstItem(c, n, tl, i + 1, j);
    match n {
      case Rep(u, q, mode) => RepEarlier(c, u, q, mode, i, m);
      case Grp(g) => GroupEarlier(c, g, t, i, m);
    }
    BothItems(c, n, tl, i, m, j);
  }

  lemma RepEarlier(c: Context, u: Unit, q: Quant, m: Mode, i: nat, j: nat)
    requires q.Star? && Test(c, u, i) && DNode(c, Rep(u, q, m), i + 1, j)
    ensures DNode(c, Rep(u, q, m), i, j)
  {
    forall t: nat | i <= t < j ensures Test(c, u, t) {
    }
  }

  lemma {:induction false} GroupEarlier(c: Context, g: Group, t: byte, i: nat, j: nat)
    requires LeadsWith(g.alts, t) && Test(c, Type(t), i) && DGroup(c, g, i + 1, j)
    ensures DGroup(c, g, i, j)
    decreases g, 2
  {
    if g.ket == Plain {
      AltsEarlier(c, g.alts, t, i, j);
    } else {
      var n: nat :| n >= 1 && Iter(c, g.alts, n, i + 1, j);
      var m := FirstIteration(c, g.alts, n, i + 1, j);
      AltsEarlier(c, g.alts, t, i, m);
      IterFrom(c, g.alts, n, i, m, j);
    }
  }

  lemma IterFrom(c: Context, a: Alts, n: nat, i: nat, m: nat, j: nat)
    requires n >= 1 && i <= m <= j && DAlts(c, a, i, m) && Iter(c, a, n - 1, m, j)
    ensures Iter(c, a, n, i, j)
  {
  }

  lemma {:induction false} AltsEarlier(c: Context, alts: Alts, t: byte, i: nat, j: nat)
    requires LeadsWith(alts, t) && Test(c, Type(t), i) && DAlts(c, alts, i + 1, j)
    ensures DAlts(c, alts, i, j)
    decreases alts, 1
  {
    if DItems(c, alts.b, i + 1, j) {
      ItemsEarlier(c, alts.b, t, i, j);
    } else {
      AltsEarlier(c, alts.rest, t, i, j);
    }
  }

  /** With .* at the start of every branch, a match in the middle of a line could have started earlier. */
  lemma StartlineIsSound(c: Context, g: Group)
    requires c.Valid() && LeadsWith(g.alts, OP_ANY)
    ensures StartlineSound(c, g)
  {
    hide DGroup;
    forall i: nat, j: nat | i < |c.s| && !IsNewline(c.s, i) && DGroup(c, g, i + 1, j) ensures DGroup(c, g, i, j) {
      assert Test(c, Type(OP_ANY), i);
      GroupEarlier(c, g, OP_ANY, i, j);
    }
  }

  /** When . also matches a newline, a pattern that does not match at the first starting point does not
      match later on: it can be taken for anchored. */
  lemma {:induction false} AnchoredSuffices(a: Attempt, g: Group, t: nat)
    requires a.c.Valid() && LeadsWith(g.alts, OP_ALLANY) && !MatchesAt(a, g, a.startOffset)
    requires a.startOffset <= t <= |a.c.s|
    ensures !MatchesAt(a, g, t)
    decreases t
  {
    hide DGroup;
    if t > a.startOffset {
      AnchoredSuffices(a, g, t - 1);
      if MatchesAt(a, g, t) {
        var j: nat :| DGroup(a.c, g, t, j) && a.(mstart := t).Acceptable(j);
        GroupForward(a.c, g, t, j);
        assert Test(a.c, Type(OP_ALLANY), t - 1);
        GroupEarlier(a.c, g, OP_ALLANY, t - 1, j);
      }
    }
  }

  // ---- The scans ---------------------------------------------------------------------------------------------

  /** Whether all branches begin with .*, of which the type is t. */
  method AllLead(code: seq<byte>, pc: nat, t: byte, ghost g: Group, ghost caseless: bool) returns (b: bool)
    requires AtGroup(code, pc, g, caseless)
    ensures b == LeadsWith(g.alts, t)
    decreases g
  {
    hide AtItems, AtTail, AtAlts, AtGroup, AltsLen, Scanning, ItemsLen, GroupLen, ItemsLead;
    StartScan(code, pc, g, caseless);
    var p: nat := pc;
    ghost var alts, h: nat := g.alts, HdrLen(g);
    while true
      invariant AtAlts(code, p, h, alts, pc, KetOp(g.ket), caseless)
      invariant p < |code| && h == OpLength(code[p]) && Scanning(code, p + h, alts.b, alts, pc, g, caseless)
      invariant p + AltsLen(h, alts) == pc + GroupLen(g) && (alts == g.alts || alts < g.alts)
      invariant LeadsWith(g.alts, t) == LeadsWith(alts, t)
      decreases alts
    {
      var lead := BranchLeads(code, p + OpLength(code[p]), t, alts.b, alts, pc, g, caseless);
      if !lead { return false; }
      BranchEnd(code, p, h, alts, pc, KetOp(g.ket), caseless);
      p := p + Get(code, p + 1);
      if code[p] != OP_ALT { return true; }
      BranchScan(code, p, alts, pc, g, caseless);
      alts, h := alts.rest, 1 + LINK_SIZE;
    }
  }

  /** Looks at the first opcode of a branch. */
  method BranchLeads(code: seq<byte>, scode: nat, t: byte, ghost its: Items, ghost alts: Alts, ghost pc: nat, ghost g: Group,
                     ghost caseless: bool) returns (b: bool)
    requires Scanning(code, scode, its, alts, pc, g, caseless)
    ensures b == ItemsLead(its, t)
    decreases g, 0
  {
    hide AtItems, AtTail, AtAlts, AtGroup, AltsLen, Scanning, ItemsLen, GroupLen, LeadsWith, NodeLen, AtNode;
    DecodeScan(code, scode, its, alts, pc, g, caseless);
    var op := code[scode];
    if OP_BRA <= op <= OP_SCBRA {
      InnerGroup(code, scode, its, alts, pc, g, caseless);
      StartScan(code, scode, its.hd.g, caseless);
      if op != OP_BRA && op != OP_CBRA { return false; }
      b := AllLead(code, scode, t, its.hd.g, caseless);
    } else if op == OP_TYPESTAR || op == OP_TYPESTAR + 1 || op == OP_TYPESTAR + 9 {
      InnerStar(code, scode, its, alts, pc, g, caseless);
      b := code[scode + 1] == t;
    } else {
      NotStar(code, scode, its, alts, pc, g, t, caseless);
      b := false;
    }
  }

  lemma InnerStar(code: seq<byte>, cc: nat, its: Items, alts: Alts, pc: nat, g: Group, caseless: bool)
    requires Scanning(code, cc, its, alts, pc, g, caseless)
    requires cc < |code| && (code[cc] == OP_TYPESTAR || code[cc] == OP_TYPESTAR + 1 || code[cc] == OP_TYPESTAR + 9)
    ensures its.Cons? && its.hd.Rep? && its.hd.q.Star? && its.hd.u.Type? && cc + 1 < |code| && code[cc + 1] == its.hd.u.t
  {
    hide AtGroup, AtAlts;
    DecodeScan(code, cc, its, alts, pc, g, caseless);
    DecodeNode(code, cc, its, caseless);
    ConsAt(code, cc, its, caseless);
  }

  lemma NotStar(code: seq<byte>, cc: nat, its: Items, alts: Alts, pc: nat, g: Group, t: byte, caseless: bool)
    requires Scanning(code, cc, its, alts, pc, g, caseless) && cc < |code|
    requires !(OP_BRA <= code[cc] <= OP_SCBRA)
    requires !(code[cc] == OP_TYPESTAR || code[cc] == OP_TYPESTAR + 1 || code[cc] == OP_TYPESTAR + 9)
    ensures !ItemsLead(its, t)
  {
    hide AtGroup, AtAlts;
    if its.Cons? {
      DecodeNode(code, cc, its, caseless);
      ConsAt(code, cc, its, caseless);
    }
  }

  /** The flags that pcre_compile2() sets at the end. */
  method FindStartFlags(code: seq<byte>, anchored0: bool, firstSet: bool, ghost g: Group, ghost caseless: bool)
    returns (anchored: bool, startline: bool)
    requires AtGroup(code, 0, g, caseless)
    ensures anchored == (anchored0 || LeadsWith(g.alts, OP_ALLANY))
    ensures startline == (!anchored && !firstSet && LeadsWith(g.alts, OP_ANY))
  {
    hide AtGroup;
    anchored, startline := anchored0, false;
    if !anchored {
      anchored := AllLead(code, 0, OP_ALLANY, g, caseless);
      if !anchored && !firstSet { startline := AllLead(code, 0, OP_ANY, g, caseless); }
    }
  }
}

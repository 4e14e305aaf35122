/** The moves of the DFA engine reach the end of a pattern at exactly the ends of its matches. */
module DfaMeaning {
  import opened ByteCode
  import opened Meaning
  import opened Backtracking
  import opened MatchSteps
  import opened DfaSteps

  ghost predicate Consistent(m: Machine) {
    CaseConsistent(m.c.tb)
  }

  lemma HitIsTest(m: Machine, n: Node, p: nat)
    requires Consistent(m) && (n.One? || n.Rep?)
    ensures HitAt(m, n, p) <==> Test(m.c, n.u, p)
  {
    if p < |m.c.s| && UnitOk(n.u) {
      SameTest(m.c.tb, m.c.caseless, n.Rep?, n.u, m.c.s[p]);
    }
  }

  // ---- Links -------------------------------------------------------------------------------

  /** Following the links of a group from one of its branches visits the remaining branches. */
  lemma {:induction false} LinksFrom(code: seq<byte>, p: nat, h: nat, alts: Alts, start: nat, kop: byte, caseless: bool)
    requires AtAlts(code, p, h, alts, start, kop, caseless) && OP_KET <= kop <= OP_KETRMIN
    ensures KetOf(code, p) + 1 + LINK_SIZE == p + AltsLen(h, alts)
    ensures KetOf(code, p) < |code| && code[KetOf(code, p)] == kop && KetOf(code, p) >= start
    ensures KetOf(code, p) >= p + h + ItemsLen(alts.b)
    ensures p + h in BranchStarts(code, p, h)
    ensures alts.More? ==> var q := p + h + ItemsLen(alts.b);
                           BranchStarts(code, p, h) == [p + h] + BranchStarts(code, q, 1 + LINK_SIZE)
    ensures alts.More? ==> KetOf(code, p) == KetOf(code, p + h + ItemsLen(alts.b))
    ensures alts.Last? ==> BranchStarts(code, p, h) == [p + h]
    decreases alts
  {
    hide AtItems, ItemsLen;
    BranchEnd(code, p, h, alts, start, kop, caseless);
    if alts.More? {
      LinksFrom(code, p + Get(code, p + 1), 1 + LINK_SIZE, alts.rest, start, kop, caseless);
    }
  }

  /** A bracket leads to every branch. */
  lemma BracketStays(m: Machine, p: nat, x: Config, g: Group)
    requires AtGroup(m.code, x.off, g, m.c.caseless)
    ensures forall b :: b in BranchStarts(m.code, x.off, HdrLen(g)) <==> Config(b, 0) in Stays(m, p, x)
    ensures forall y :: y in Stays(m, p, x) ==> y.count == 0
    ensures Moves(m, p, x) == []
  {
    var bs := BranchStarts(m.code, x.off, HdrLen(g));
    var ss := Stays(m, p, x);
    assert |ss| == |bs| && forall i :: 0 <= i < |bs| ==> ss[i] == Config(bs[i], 0);
    forall b | b in bs ensures Config(b, 0) in ss {
      var i :| 0 <= i < |bs| && bs[i] == b;
      assert ss[i] == Config(b, 0);
    }
  }

  lemma KetStays(m: Machine, p: nat, x: Config, gp: nat, ket: Ket)
    requires x.off + 1 + LINK_SIZE <= |m.code| && gp <= x.off && x.off != m.endCode
    requires m.code[x.off] == KetOp(ket) && Get(m.code, x.off + 1) == x.off - gp
    ensures Stays(m, p, x) == [Config(x.off + 1 + LINK_SIZE, 0)] + (if ket == Plain then [] else [Config(gp, 0)])
    ensures Moves(m, p, x) == []
  {
  }

  lemma AltStays(m: Machine, p: nat, x: Config)
    requires x.off < |m.code| && m.code[x.off] == OP_ALT
    ensures Stays(m, p, x) == [Config(KetOf(m.code, x.off), 0)] && Moves(m, p, x) == []
  {
  }

  // ---- Every match is reached --------------------------------------------------------------

  /** The rest of a repeat of which count units have been matched already. */
  ghost predicate DRest(c: Context, n: Node, count: nat, i: nat, j: nat)
    requires n.Rep?
  {
    && i <= j <= |c.s|
    && (forall t: nat :: i <= t < j ==> Test(c, n.u, t))
    && n.q.Min() <= count + (j - i)
    && (n.q.Max() < 0 || count + (j - i) <= n.q.Max())
    && (n.m == Possessive ==> count + (j - i) == n.q.Max() || !Test(c, n.u, j))
  }

  /** The counts that occur in states at a repeat. */
  ghost predicate CountOk(n: Node, count: nat) {
    n.Rep? &&
    match n.q
    case Star => count == 0
    case Query => count == 0
    case Plus => true
    case Upto(k) => count < k
    case Exact(k) => count < k
    case Range(_, hi) => hi == 0 || count < hi
  }

  lemma ItemMoves(m: Machine, p: nat, x: Config, n: Node)
    requires (n.One? || n.Rep?) && AtNode(m.code, x.off, n, m.c.caseless)
    ensures Stays(m, p, x) == if MayLeave(n, x.count) && !(n.m == Possessive && HitAt(m, n, p))
                              then [Config(x.off + NodeLen(n), 0)] else []
    ensures Moves(m, p, x) == if HitAt(m, n, p) then [AfterHit(n, x)] else []
  {
    ItemAtIs(m.code, x.off, n, m.c.caseless);
    ItemOp(m.code, x.off, n, m.c.caseless);
  }

  lemma {:induction false} RepReach(m: Machine, x: Config, n: Node, i: nat, j: nat)
    requires Consistent(m) && n.Rep? && AtNode(m.code, x.off, n, m.c.caseless)
    requires CountOk(n, x.count) && DRest(m.c, n, x.count, i, j)
    ensures Reaches(m, i, x, j, Config(x.off + NodeLen(n), 0))
    decreases j - i
  {
    hide AtNode, Stays, Moves, HitAt, NodeLen;
    ItemMoves(m, i, x, n);
    RepLenPositive(n);
    HitIsTest(m, n, i);
    if i == j {
      ReachesStay(m, i, x, Config(x.off + NodeLen(n), 0));
    } else {
      assert Test(m.c, n.u, i);
      var y := AfterHit(n, x);
      ReachesMove(m, i, x, y);
      if y.off == x.off {
        RepReach(m, y, n, i + 1, j);
        ReachesTrans(m, i, x, i + 1, y, j, Config(x.off + NodeLen(n), 0));
      }
    }
  }

  lemma RepLenPositive(n: Node)
    ensures n.One? || n.Rep? ==> NodeLen(n) > 0
  {
  }

  lemma {:induction false} ItemsReach(m: Machine, pc: nat, its: Items, i: nat, j: nat)
    requires Consistent(m) && AtItems(m.code, pc, its, m.c.caseless) && pc + ItemsLen(its) <= m.endCode
    requires DItems(m.c, its, i, j) && i <= |m.c.s|
    ensures Reaches(m, i, Config(pc, 0), j, Config(pc + ItemsLen(its), 0))
    decreases its, 0
  {
    match its
    case Nil => ReachesSame(m, i, Config(pc, 0));
    case Cons(n, tl) =>
      var t: nat :| i <= t <= j && DNode(m.c, n, i, t) && DItems(m.c, tl, t, j);
      NodeForward(m.c, n, i, t);
      NodeReach(m, pc, n, i, t);
      ItemsReach(m, pc + NodeLen(n), tl, t, j);
      ReachesTrans(m, i, Config(pc, 0), t, Config(pc + NodeLen(n), 0), j, Config(pc + ItemsLen(its), 0));
  }

  lemma {:induction false} NodeReach(m: Machine, pc: nat, n: Node, i: nat, j: nat)
    requires Consistent(m) && AtNode(m.code, pc, n, m.c.caseless) && pc + NodeLen(n) <= m.endCode
    requires DNode(m.c, n, i, j) && i <= |m.c.s|
    ensures Reaches(m, i, Config(pc, 0), j, Config(pc + NodeLen(n), 0))
    decreases n, 0
  {
    hide AtGroup, Stays, Moves, AtUnit, AtRep, HitAt;
    var x := Config(pc, 0);
    match n
    case One(u) =>
      ItemMoves(m, i, x, n);
      HitIsTest(m, n, i);
      ReachesMove(m, i, x, Config(pc + NodeLen(n), 0));
    case Rep(u, q, mode) => RangeReach(m, x, n, i, j);
    case Grp(g) => GroupReach(m, pc, g, i, j);
    case Zero(_, g) =>
      ZeroStays(m, i, x, n);
      ReachesStay(m, i, x, Config(pc + 1, 0));
      ReachesStay(m, i, x, Config(pc + NodeLen(n), 0));
      if i != j {
        GroupReach(m, pc + 1, g, i, j);
        ReachesTrans(m, i, x, i, Config(pc + 1, 0), j, Config(pc + NodeLen(n), 0));
      }
  }

  lemma ZeroStays(m: Machine, p: nat, x: Config, n: Node)
    requires n.Zero? && AtNode(m.code, x.off, n, m.c.caseless)
    ensures Stays(m, p, x) == [Config(x.off + 1, 0), Config(x.off + NodeLen(n), 0)]
    ensures Moves(m, p, x) == []
  {
    KetLink(m.code, x.off + 1, n.g, m.c.caseless);
  }

  lemma RangeReach(m: Machine, x: Config, n: Node, i: nat, j: nat)
    requires Consistent(m) && n.Rep? && AtNode(m.code, x.off, n, m.c.caseless)
    requires x.count == 0 && DNode(m.c, n, i, j)
    ensures Reaches(m, i, x, j, Config(x.off + NodeLen(n), 0))
  {
    assert AtRep(m.code, x.off, n.u, n.q, n.m, m.c.caseless);
    RepReach(m, x, n, i, j);
  }

  /** From the start of one of the branches to the ket. */
  lemma {:induction false} AltsReach(m: Machine, p: nat, h: nat, alts: Alts, start: nat, kop: byte, i: nat, j: nat) returns (b: nat)
    requires Consistent(m) && AtAlts(m.code, p, h, alts, start, kop, m.c.caseless) && OP_KET <= kop <= OP_KETRMIN
    requires p + AltsLen(h, alts) <= m.endCode + 1 + LINK_SIZE
    requires DAlts(m.c, alts, i, j) && i <= |m.c.s|
    ensures b in BranchStarts(m.code, p, h) && Reaches(m, i, Config(b, 0), j, Config(KetOf(m.code, p), 0))
    decreases alts, 1
  {
    hide Stays, AtItems, KetOf, BranchStarts, AltsLen, Reaches, DItems;
    LinksFrom(m.code, p, h, alts, start, kop, m.c.caseless);
    BranchEnd(m.code, p, h, alts, start, kop, m.c.caseless);
    var q := p + h + ItemsLen(alts.b);
    if DItems(m.c, alts.b, i, j) {
      b := p + h;
      ItemsReach(m, b, alts.b, i, j);
      if alts.More? {
        AltStays(m, j, Config(q, 0));
        ReachesStay(m, j, Config(q, 0), Config(KetOf(m.code, q), 0));
        ReachesTrans(m, i, Config(b, 0), j, Config(q, 0), j, Config(KetOf(m.code, p), 0));
      }
    } else {
      b := AltsReach(m, q, 1 + LINK_SIZE, alts.rest, start, kop, i, j);
    }
  }

  lemma {:induction false} GroupReach(m: Machine, pc: nat, g: Group, i: nat, j: nat)
    requires Consistent(m) && AtGroup(m.code, pc, g, m.c.caseless) && pc + GroupLen(g) <= m.endCode
    requires DGroup(m.c, g, i, j) && i <= |m.c.s|
    ensures Reaches(m, i, Config(pc, 0), j, Config(pc + GroupLen(g), 0))
    decreases g, 3
  {
    var n: nat := 1;
    if g.ket == Plain {
      AltsForward(m.c, g.alts, i, j);
      assert Iter(m.c, g.alts, 0, j, j);
      assert Iter(m.c, g.alts, 1, i, j);
    } else {
      n :| n >= 1 && Iter(m.c, g.alts, n, i, j);
    }
    LoopReach(m, pc, g, n, i, j);
  }

  lemma {:induction false} LoopReach(m: Machine, pc: nat, g: Group, n: nat, i: nat, j: nat)
    requires Consistent(m) && AtGroup(m.code, pc, g, m.c.caseless) && pc + GroupLen(g) <= m.endCode
    requires n >= 1 && (g.ket == Plain ==> n == 1) && Iter(m.c, g.alts, n, i, j) && i <= |m.c.s|
    ensures Reaches(m, i, Config(pc, 0), j, Config(pc + GroupLen(g), 0))
    decreases g, 2, n
  {
    hide Iter, AtAlts, AtItems, AltsLen, BranchStarts, KetOf, Stays, Moves, Reaches, DAlts;
    var t := FirstIteration(m.c, g.alts, n, i, j);
    AltsForward(m.c, g.alts, i, t);
    var x := Config(pc, 0);
    var k := KetOf(m.code, pc);
    LinksFrom(m.code, pc, HdrLen(g), g.alts, pc, KetOp(g.ket), m.c.caseless);
    KetLink(m.code, pc, g, m.c.caseless);
    BracketStays(m, i, x, g);
    var b := AltsReach(m, pc, HdrLen(g), g.alts, pc, KetOp(g.ket), i, t);
    ReachesStay(m, i, x, Config(b, 0));
    ReachesTrans(m, i, x, i, Config(b, 0), t, Config(k, 0));
    KetStays(m, t, Config(k, 0), pc, g.ket);
    if n == 1 {
      IterZero(m.c, g.alts, t, j);
      ReachesStay(m, t, Config(k, 0), Config(pc + GroupLen(g), 0));
    } else {
      ReachesStay(m, t, Config(k, 0), x);
      LoopReach(m, pc, g, n - 1, t, j);
      ReachesTrans(m, t, Config(k, 0), t, x, j, Config(pc + GroupLen(g), 0));
    }
    ReachesTrans(m, i, x, t, Config(k, 0), j, Config(pc + GroupLen(g), 0));
  }

  lemma IterZero(c: Context, a: Alts, i: nat, j: nat)
    requires Iter(c, a, 0, i, j)
    ensures i == j
  {
  }

  lemma KetLink(code: seq<byte>, pc: nat, g: Group, caseless: bool)
    requires AtGroup(code, pc, g, caseless)
    ensures var k := KetOf(code, pc);
            && k + 1 + LINK_SIZE == pc + GroupLen(g) && k + 1 + LINK_SIZE <= |code| && pc <= k
            && code[k] == KetOp(g.ket) && Get(code, k + 1) == k - pc
  {
    AltsKetLink(code, pc, HdrLen(g), g.alts, pc, KetOp(g.ket), caseless);
  }

  lemma {:induction false} AltsKetLink(code: seq<byte>, p: nat, h: nat, alts: Alts, start: nat, kop: byte, caseless: bool)
    requires AtAlts(code, p, h, alts, start, kop, caseless) && OP_KET <= kop <= OP_KETRMIN
    ensures var k := KetOf(code, p);
            && k + 1 + LINK_SIZE == p + AltsLen(h, alts) && k + 1 + LINK_SIZE <= |code| && start <= k
            && code[k] == kop && Get(code, k + 1) == k - start
    decreases alts
  {
    BranchEnd(code, p, h, alts, start, kop, caseless);
    if alts.More? {
      AltsKetLink(code, p + Get(code, p + 1), 1 + LINK_SIZE, alts.rest, start, kop, caseless);
    }
  }

  // ---- Only matches are reached ------------------------------------------------------------

  /** State x stands before its and then k. */
  ghost predicate Where(m: Machine, x: Config, its: Items, k: Kont) {
    && AtItems(m.code, x.off, its, m.c.caseless)
    && AtKont(m.code, x.off + ItemsLen(its), k, m.c.caseless)
    && (if its.Cons? && its.hd.Rep? then CountOk(its.hd, x.count) else x.count == 0)
  }

  /** The end j can be reached from the end of a branch at i. */
  ghost predicate DLeave(c: Context, k: Kont, i: nat, j: nat) {
    match k
    case Done => i == j
    case Frame(_, g, _, after, _, outer) =>
      exists t: nat, u: nat :: i <= t && (t == i || (g.ket != Plain && DGroup(c, g, i, t)))
                        && DItems(c, after, t, u) && DLeave(c, outer, u, j)
  }

  ghost predicate DHead(c: Context, its: Items, count: nat, i: nat, t: nat) {
    match its
    case Nil => i == t
    case Cons(n, _) => if n.Rep? then DRest(c, n, count, i, t) else i <= t && DNode(c, n, i, t)
  }

  function Behind(its: Items): Items {
    if its.Cons? then its.tl else Nil
  }

  /** The end j can be reached from i through what remains of its and then k. */
  ghost predicate DFrom(c: Context, its: Items, count: nat, k: Kont, i: nat, j: nat) {
    exists t: nat, u: nat :: DHead(c, its, count, i, t) && DItems(c, Behind(its), t, u) && DLeave(c, k, u, j)
  }

  /** With nothing consumed yet, DFrom is a match of the items. */
  lemma FromItems(c: Context, its: Items, k: Kont, i: nat, j: nat) returns (u: nat)
    requires DFrom(c, its, 0, k, i, j) && i <= |c.s|
    ensures i <= u && DItems(c, its, i, u) && DLeave(c, k, u, j)
  {
    var t: nat, v: nat :| DHead(c, its, 0, i, t) && DItems(c, Behind(its), t, v) && DLeave(c, k, v, j);
    u := v;
    if its.Cons? {
      if its.hd.Rep? { assert DNode(c, its.hd, i, t); }
      NodeForward(c, its.hd, i, t);
      ItemsForward(c, its.tl, t, v);
    }
  }

  lemma ToFrom(c: Context, its: Items, k: Kont, i: nat, u: nat, j: nat)
    requires i <= |c.s| && DItems(c, its, i, u) && DLeave(c, k, u, j)
    ensures DFrom(c, its, 0, k, i, j)
  {
    match its
    case Nil => assert DHead(c, its, 0, i, i);
    case Cons(n, tl) =>
      var t: nat :| i <= t <= u && DNode(c, n, i, t) && DItems(c, tl, t, u);
      assert DHead(c, its, 0, i, t);
  }

  lemma BranchOf(code: seq<byte>, p: nat, h: nat, alts: Alts, start: nat, kop: byte, caseless: bool, b: nat)
    returns (p': nat, h': nat, alts': Alts)
    requires AtAlts(code, p, h, alts, start, kop, caseless) && OP_KET <= kop <= OP_KETRMIN
    requires b in BranchStarts(code, p, h)
    ensures AtAlts(code, p', h', alts', start, kop, caseless) && b == p' + h'
    ensures p' + AltsLen(h', alts') == p + AltsLen(h, alts)
    ensures forall c: Context, i: nat, j: nat :: DItems(c, alts'.b, i, j) ==> DAlts(c, alts, i, j)
    decreases alts
  {
    hide AltsLen, DItems;
    BranchEnd(code, p, h, alts, start, kop, caseless);
    LinksFrom(code, p, h, alts, start, kop, caseless);
    if b == p + h {
      p', h', alts' := p, h, alts;
    } else {
      p', h', alts' := BranchOf(code, p + Get(code, p + 1), 1 + LINK_SIZE, alts.rest, start, kop, caseless, b);
    }
  }

  lemma CountZero(code: seq<byte>, pc: nat, its: Items, caseless: bool)
    requires AtItems(code, pc, its, caseless)
    ensures its.Cons? && its.hd.Rep? ==> CountOk(its.hd, 0)
  {
    if its.Cons? && its.hd.Rep? {
      assert AtNode(code, pc, its.hd, caseless);
      assert AtRep(code, pc, its.hd.u, its.hd.q, its.hd.m, caseless);
    }
  }

  /** What follows a state added to the current list is part of what follows the state itself. */
  lemma SoundStay(m: Machine, p: nat, x: Config, its: Items, k: Kont, z: Config, j: nat) returns (its': Items, k': Kont)
    requires Consistent(m) && Where(m, x, its, k) && z in Stays(m, p, x) && p <= |m.c.s|
    requires x.off != m.endCode
    ensures Where(m, z, its', k')
    ensures DFrom(m.c, its', z.count, k', p, j) ==> DFrom(m.c, its, x.count, k, p, j)
  {
    hide Stays, DFrom, AtItems, AtKont, ItemsLen;
    Decode(m.code, x.off, its, k, m.c.caseless);
    if its.Nil? {
      if k.Done? {
        EndStays(m, p, x);
        assert false;
        its', k' := its, k;
      } else if k.rest.Alternatives? {
        its', k' := SoundAlt(m, p, x, k, z, j);
      } else {
        its', k' := SoundKet(m, p, x, k, z, j);
      }
    } else if its.hd.Grp? {
      its', k' := SoundBracket(m, p, x, its.hd.g, its.tl, k, z, j);
    } else if its.hd.Zero? {
      its', k' := SoundZero(m, p, x, its, k, z, j);
    } else {
      its', k' := SoundLeave(m, p, x, its, k, z, j);
    }
  }

  lemma EndStays(m: Machine, p: nat, x: Config)
    requires x.off < |m.code| && m.code[x.off] == OP_END
    ensures Stays(m, p, x) == [] && Moves(m, p, x) == []
  {
  }

  lemma SoundAlt(m: Machine, p: nat, x: Config, k: Kont, z: Config, j: nat) returns (its': Items, k': Kont)
    requires Where(m, x, Nil, k) && z in Stays(m, p, x) && k.Frame? && k.rest.Alternatives?
    ensures Where(m, z, its', k')
    ensures DFrom(m.c, its', z.count, k', p, j) ==> DFrom(m.c, Nil, x.count, k, p, j)
  {
    its', k' := Nil, k.(rest := NoMore);
    AltStays(m, p, x);
    AltsKetLink(m.code, x.off, 1 + LINK_SIZE, k.rest.alts, k.gp, KetOp(k.g.ket), m.c.caseless);
    assert forall u: nat :: DLeave(m.c, k', u, j) <==> DLeave(m.c, k, u, j);
  }

  lemma SoundKet(m: Machine, p: nat, x: Config, k: Kont, z: Config, j: nat) returns (its': Items, k': Kont)
    requires Where(m, x, Nil, k) && z in Stays(m, p, x) && k.Frame? && k.rest.NoMore?
    requires x.off != m.endCode && p <= |m.c.s|
    ensures Where(m, z, its', k')
    ensures DFrom(m.c, its', z.count, k', p, j) ==> DFrom(m.c, Nil, x.count, k, p, j)
  {
    hide Stays, DFrom, DGroup, AtItems, AtGroup, AtKont;
    LoopAt(m.code, x.off, k, m.c.caseless);
    KetStays(m, p, x, k.gp, k.g.ket);
    k' := k.outer;
    var on := z.off == x.off + 1 + LINK_SIZE;
    its' := if on then k.after else Cons(Grp(k.g), k.after);
    CountZero(m.code, z.off, its', m.c.caseless);
    if DFrom(m.c, its', z.count, k', p, j) {
      var u := FromItems(m.c, its', k', p, j);
      var t: nat := p;
      if !on {
        t :| p <= t <= u && DNode(m.c, Grp(k.g), p, t) && DItems(m.c, k.after, t, u);
      }
      assert DLeave(m.c, k, p, j);
      ToFrom(m.c, Nil, k, p, p, j);
    }
  }

  lemma SoundBracket(m: Machine, p: nat, x: Config, g: Group, tl: Items, k: Kont, z: Config, j: nat) returns (its': Items, k': Kont)
    requires Where(m, x, Cons(Grp(g), tl), k) && z in Stays(m, p, x) && p <= |m.c.s|
    ensures Where(m, z, its', k')
    ensures DFrom(m.c, its', z.count, k', p, j) ==> DFrom(m.c, Cons(Grp(g), tl), x.count, k, p, j)
  {
    hide Stays, DFrom, AtItems, AtKont, AtAlts, BranchStarts, DAlts, Iter;
    GroupAt(m.code, x.off, g, tl, m.c.caseless);
    BracketStays(m, p, x, g);
    assert z == Config(z.off, 0);
    var p', h', alts := BranchOf(m.code, x.off, HdrLen(g), g.alts, x.off, KetOp(g.ket), m.c.caseless, z.off);
    EnterCode(m.code, x.off, p', h', g, alts, tl, k, p, m.c.caseless);
    its' := alts.b;
    k' := Frame(x.off, g, if alts.Last? then NoMore else Alternatives(alts.rest), tl, p, k);
    CountZero(m.code, z.off, its', m.c.caseless);
    if DFrom(m.c, its', 0, k', p, j) {
      var u := FromItems(m.c, its', k', p, j);
      var t: nat, v: nat :| u <= t && (t == u || (g.ket != Plain && DGroup(m.c, g, u, t)))
                       && DItems(m.c, tl, t, v) && DLeave(m.c, k, v, j);
      assert DAlts(m.c, g.alts, p, u);
      AltsForward(m.c, g.alts, p, u);
      GroupFromBranch(m.c, g, p, u, t);
      assert DNode(m.c, Grp(g), p, t);
      GroupForward(m.c, g, p, t);
      ItemsForward(m.c, tl, t, v);
      assert DItems(m.c, Cons(Grp(g), tl), p, v);
      ToFrom(m.c, Cons(Grp(g), tl), k, p, v, j);
    }
  }

  /** One iteration, possibly followed by more. */
  lemma GroupFromBranch(c: Context, g: Group, i: nat, u: nat, t: nat)
    requires DAlts(c, g.alts, i, u) && i <= |c.s| && u <= t && (t == u || (g.ket != Plain && DGroup(c, g, u, t)))
    ensures DGroup(c, g, i, t)
  {
    AltsForward(c, g.alts, i, u);
    if g.ket != Plain {
      var n: nat := 0;
      if t == u {
        assert Iter(c, g.alts, 0, u, t);
      } else {
        n :| n >= 1 && Iter(c, g.alts, n, u, t);
      }
      assert Iter(c, g.alts, n + 1, i, t);
    }
  }

  lemma SoundZero(m: Machine, p: nat, x: Config, its: Items, k: Kont, z: Config, j: nat) returns (its': Items, k': Kont)
    requires Where(m, x, its, k) && z in Stays(m, p, x) && its.Cons? && its.hd.Zero? && p <= |m.c.s|
    ensures Where(m, z, its', k')
    ensures DFrom(m.c, its', z.count, k', p, j) ==> DFrom(m.c, its, x.count, k, p, j)
  {
    hide Stays, DFrom, AtItems, AtKont, AtAlts, AtGroup, DGroup, ItemsLen, AltsLen;
    ConsAt(m.code, x.off, its, m.c.caseless);
    ZeroAt(m.code, x.off, its, m.c.caseless);
    ZeroStays(m, p, x, its.hd);
    var g, tl := its.hd.g, its.tl;
    its', k' := if z.off == x.off + 1 then Cons(Grp(g), tl) else tl, k;
    CountZero(m.code, z.off, its', m.c.caseless);
    if DFrom(m.c, its', 0, k, p, j) {
      var u := FromItems(m.c, its', k, p, j);
      var t: nat := p;
      if z.off == x.off + 1 {
        t :| p <= t <= u && DNode(m.c, Grp(g), p, t) && DItems(m.c, tl, t, u);
      }
      assert DNode(m.c, its.hd, p, t);
      assert DItems(m.c, its, p, u);
      ToFrom(m.c, its, k, p, u, j);
    }
  }

  lemma SoundLeave(m: Machine, p: nat, x: Config, its: Items, k: Kont, z: Config, j: nat) returns (its': Items, k': Kont)
    requires Consistent(m) && Where(m, x, its, k) && z in Stays(m, p, x) && p <= |m.c.s|
    requires its.Cons? && (its.hd.One? || its.hd.Rep?)
    ensures Where(m, z, its', k')
    ensures DFrom(m.c, its', z.count, k', p, j) ==> DFrom(m.c, its, x.count, k, p, j)
  {
    hide Stays, AtItems, AtKont, AtNode, HitAt, Test, ItemsLen, NodeLen;
    ConsAt(m.code, x.off, its, m.c.caseless);
    ItemMoves(m, p, x, its.hd);
    HitIsTest(m, its.hd, p);
    its', k' := its.tl, k;
    CountZero(m.code, z.off, its', m.c.caseless);
    if DFrom(m.c, its', 0, k', p, j) {
      var u := FromItems(m.c, its', k, p, j);
      assert DRest(m.c, its.hd, x.count, p, p);
      assert DHead(m.c, its, x.count, p, p);
    }
  }

  /** What follows a state added to the list for the next character, likewise. */
  lemma SoundMove(m: Machine, p: nat, x: Config, its: Items, k: Kont, z: Config, j: nat) returns (its': Items, k': Kont)
    requires Consistent(m) && Where(m, x, its, k) && z in Moves(m, p, x) && x.off != m.endCode
    ensures p + 1 <= |m.c.s| && Where(m, z, its', k')
    ensures DFrom(m.c, its', z.count, k', p + 1, j) ==> DFrom(m.c, its, x.count, k, p, j)
  {
    hide Moves, AtItems, AtKont, AtNode, AtGroup, HitAt, ItemsLen, NodeLen, DNode;
    MoveIsHit(m, p, x, its, k, z);
    ConsAt(m.code, x.off, its, m.c.caseless);
    HitIsTest(m, its.hd, p);
    RepLenPositive(its.hd);
    k' := k;
    its' := if z.off == x.off then its else its.tl;
    CountZero(m.code, z.off, its', m.c.caseless);
    if DFrom(m.c, its', z.count, k', p + 1, j) {
      if z.off == x.off {
        StayedOn(m.c, its, k, x, p, j);
      } else {
        var u := FromItems(m.c, its', k, p + 1, j);
        OneMore(m.c, its, x.count, p);
      }
    }
  }

  /** After one more byte the same repeat goes on. */
  lemma StayedOn(c: Context, its: Items, k: Kont, x: Config, p: nat, j: nat)
    requires its.Cons? && its.hd.Rep? && CountOk(its.hd, x.count) && Test(c, its.hd.u, p)
    requires AfterHit(its.hd, x).off == x.off && NodeLen(its.hd) > 0
    requires DFrom(c, its, AfterHit(its.hd, x).count, k, p + 1, j)
    ensures DFrom(c, its, x.count, k, p, j)
  {
    hide NodeLen, DNode, DItems, DLeave;
    var z := AfterHit(its.hd, x);
    var t: nat, u: nat :| DHead(c, its, z.count, p + 1, t) && DItems(c, its.tl, t, u) && DLeave(c, k, u, j);
    assert DHead(c, its, x.count, p, t);
  }

  lemma OneMore(c: Context, its: Items, count: nat, p: nat)
    requires its.Cons? && (its.hd.One? || its.hd.Rep?) && Test(c, its.hd.u, p)
    requires its.hd.Rep? ==> CountOk(its.hd, count) && AfterHit(its.hd, Config(0, count)).off != 0
    requires its.hd.Rep? ==> its.hd.q.Max() < 0 || its.hd.q.Min() <= its.hd.q.Max()
    ensures DHead(c, its, count, p, p + 1)
  {
  }

  lemma MoveIsHit(m: Machine, p: nat, x: Config, its: Items, k: Kont, z: Config)
    requires Where(m, x, its, k) && z in Moves(m, p, x)
    ensures its.Cons? && (its.hd.One? || its.hd.Rep?)
    ensures HitAt(m, its.hd, p) && z == AfterHit(its.hd, x)
  {
    hide HitAt, NodeLen;
    Decode(m.code, x.off, its, k, m.c.caseless);
    if its.Cons? && (its.hd.One? || its.hd.Rep?) {
      ItemMoves(m, p, x, its.hd);
    } else if its.Nil? && k.Done? {
      EndStays(m, p, x);
    }
  }

  lemma {:induction false} SoundLeads(m: Machine, n: nat, p: nat, x: Config, its: Items, k: Kont, j: nat, g: Group)
    requires Consistent(m) && Where(m, x, its, k) && p <= |m.c.s|
    requires AtPattern(m.code, g, m.c.caseless) && m.endCode == GroupLen(g) - 1 - LINK_SIZE
    requires Leads(m, n, p, x, j, Config(m.endCode, 0))
    ensures DFrom(m.c, its, x.count, k, p, j)
    decreases n
  {
    hide Where, DFrom, Stays, Moves, AtPattern;
    if x.off == m.endCode {
      AtTheEnd(m, n, p, x, its, k, j, g);
    } else if z :| z in Stays(m, p, x) && Leads(m, n - 1, p, z, j, Config(m.endCode, 0)) {
      var its', k' := SoundStay(m, p, x, its, k, z, j);
      SoundLeads(m, n - 1, p, z, its', k', j, g);
    } else {
      var z :| z in Moves(m, p, x) && Leads(m, n - 1, p + 1, z, j, Config(m.endCode, 0));
      var its', k' := SoundMove(m, p, x, its, k, z, j);
      SoundLeads(m, n - 1, p + 1, z, its', k', j, g);
    }
  }

  /** The engine stops at the ket of the outer bracket, where nothing remains to be matched. */
  lemma AtTheEnd(m: Machine, n: nat, p: nat, x: Config, its: Items, k: Kont, j: nat, g: Group)
    requires Where(m, x, its, k) && x.off == m.endCode
    requires AtPattern(m.code, g, m.c.caseless) && m.endCode == GroupLen(g) - 1 - LINK_SIZE
    requires Leads(m, n, p, x, j, Config(m.endCode, 0))
    ensures DFrom(m.c, its, x.count, k, p, j)
  {
    hide Where, AtPattern, GroupLen, Leads, DFrom;
    LastKet(m, x, its, k, g);
    NoMovesAtEnd(m, n, p, x, j);
    EndFrom(m.c, k, p);
  }

  lemma LastKet(m: Machine, x: Config, its: Items, k: Kont, g: Group)
    requires Where(m, x, its, k) && x.off == m.endCode
    requires AtPattern(m.code, g, m.c.caseless) && m.endCode == GroupLen(g) - 1 - LINK_SIZE
    ensures its.Nil? && k.Frame? && k.after.Nil? && k.outer.Done?
    ensures m.endCode < |m.code| && OP_KET <= m.code[m.endCode] <= OP_KETRMIN
  {
    hide AtGroup, AtAlts, AtItems, DItems, GroupLen, KetOf;
    KetLink(m.code, 0, g, m.c.caseless);
    Decode(m.code, x.off, its, k, m.c.caseless);
    assert its.Nil? && k.Frame? && k.rest.NoMore?;
    LoopAt(m.code, x.off, k, m.c.caseless);
    Decode(m.code, GroupLen(g), k.after, k.outer, m.c.caseless);
  }

  lemma EndFrom(c: Context, k: Kont, p: nat)
    requires k.Frame? && k.after.Nil? && k.outer.Done?
    ensures DFrom(c, Nil, 0, k, p, p)
  {
    assert DItems(c, k.after, p, p) && DLeave(c, k.outer, p, p);
    assert DLeave(c, k, p, p);
    assert DHead(c, Nil, 0, p, p) && DItems(c, Behind(Nil), p, p);
  }

  lemma NoMovesAtEnd(m: Machine, n: nat, p: nat, x: Config, j: nat)
    requires x.off == m.endCode < |m.code| && OP_KET <= m.code[x.off] <= OP_KETRMIN
    requires Leads(m, n, p, x, j, Config(m.endCode, 0))
    ensures p == j && x.count == 0
  {
    assert Stays(m, p, x) == [] && Moves(m, p, x) == [];
  }

  // ---- The engine's ends are the ends of the matches ----------------------------------------

  /** From the start of some branch of the pattern, at subject offset i, the engine gets to the end
      of the pattern at offset j. */
  ghost predicate Ends(m: Machine, i: nat, j: nat) {
    exists b :: b in BranchStarts(m.code, 0, OpLength(Byte(m.code, 0))) && Reaches(m, i, Config(b, 0), j, Config(m.endCode, 0))
  }

  /** The engine, started at offset i, gets to the end of the pattern at exactly the offsets where
      the pattern has a match that starts at i. */
  lemma EndsAreMatches(m: Machine, g: Group, i: nat, j: nat)
    requires Consistent(m) && i <= |m.c.s|
    requires AtPattern(m.code, g, m.c.caseless) && m.endCode == GroupLen(g) - 1 - LINK_SIZE
    ensures Ends(m, i, j) <==> DGroup(m.c, g, i, j)
  {
    hide Stays, Moves, AtAlts, BranchStarts, DAlts;
    GroupBytes(m.code, 0, g, m.c.caseless);
    KetLink(m.code, 0, g, m.c.caseless);
    if DGroup(m.c, g, i, j) {
      var b := AltsReach(m, 0, HdrLen(g), g.alts, 0, KetOp(g.ket), i, j);
    }
    if Ends(m, i, j) {
      var b :| b in BranchStarts(m.code, 0, HdrLen(g)) && Reaches(m, i, Config(b, 0), j, Config(m.endCode, 0));
      EndIsMatch(m, g, i, b, j);
    }
  }

  lemma EndIsMatch(m: Machine, g: Group, i: nat, b: nat, j: nat)
    requires Consistent(m) && i <= |m.c.s|
    requires AtPattern(m.code, g, m.c.caseless) && m.endCode == GroupLen(g) - 1 - LINK_SIZE
    requires b in BranchStarts(m.code, 0, HdrLen(g)) && Reaches(m, i, Config(b, 0), j, Config(m.endCode, 0))
    ensures DGroup(m.c, g, i, j)
  {
    hide Stays, Moves, AtAlts, BranchStarts, DAlts, DItems, AtItems, AtGroup, DFrom, GroupLen;
    var n: nat :| Leads(m, n, i, Config(b, 0), j, Config(m.endCode, 0));
    PatternItems(m.code, g, m.c.caseless);
    var p', h', alts := BranchOf(m.code, 0, HdrLen(g), g.alts, 0, KetOp(g.ket), m.c.caseless, b);
    EnterCode(m.code, 0, p', h', g, alts, Nil, Done, i, m.c.caseless);
    var k := Frame(0, g, if alts.Last? then NoMore else Alternatives(alts.rest), Nil, i, Done);
    CountZero(m.code, b, alts.b, m.c.caseless);
    SoundLeads(m, n, i, Config(b, 0), alts.b, k, j, g);
    var u := FromItems(m.c, alts.b, k, i, j);
    LeaveTop(m.c, k, u, j);
  }

  lemma LeaveTop(c: Context, k: Kont, u: nat, j: nat)
    requires k.Frame? && k.g.ket == Plain && k.after.Nil? && k.outer.Done? && DLeave(c, k, u, j)
    ensures u == j
  {
  }

  lemma PatternItems(code: seq<byte>, g: Group, caseless: bool)
    requires AtPattern(code, g, caseless)
    ensures AtGroup(code, 0, g, caseless)
    ensures AtItems(code, 0, Cons(Grp(g), Nil), caseless)
    ensures AtKont(code, ItemsLen(Cons(Grp(g), Nil)), Done, caseless)
    ensures AtAlts(code, 0, HdrLen(g), g.alts, 0, KetOp(g.ket), caseless)
    ensures AltsLen(HdrLen(g), g.alts) == GroupLen(g)
    ensures g.ket == Plain
  {
    GroupAt(code, 0, g, Nil, caseless);
  }
}

/** Reading the byte code, and the facts about single steps of match() that its proof is built from. */
module MatchSteps {
  import opened Common
  import opened ByteCode
  import opened Meaning
  import opened Outcomes
  import opened Lengths
  import opened Captures
  import opened Backtracking

  // ---- Reading the code ------------------------------------------------------------------

  /** The opcode at pc tells what kind of item starts there, or how the branch ends. */
  lemma Decode(code: seq<byte>, pc: nat, its: Items, k: Kont, caseless: bool)
    requires AtItems(code, pc, its, caseless)
    requires AtKont(code, pc + ItemsLen(its), k, caseless)
    ensures pc < |code|
    ensures code[pc] == OP_END <==> its.Nil? && k.Done?
    ensures code[pc] == OP_ALT <==> its.Nil? && k.Frame? && k.rest.Alternatives?
    ensures OP_KET <= code[pc] <= OP_KETRMIN <==> its.Nil? && k.Frame? && k.rest.NoMore?
    ensures OP_NOT_DIGIT <= code[pc] <= OP_ALLANY || OP_CHAR <= code[pc] <= OP_NOT
        <==> its.Cons? && its.hd.One? && !its.hd.u.Class?
    ensures OP_STAR <= code[pc] < OP_CRSTAR <==> its.Cons? && its.hd.Rep? && !its.hd.u.Class?
    ensures OP_CLASS <= code[pc] <= OP_NCLASS
        <==> its.Cons? && (its.hd.One? || its.hd.Rep?) && its.hd.u.Class?
    ensures OP_BRA <= code[pc] <= OP_SCBRA <==> its.Cons? && its.hd.Grp?
    ensures OP_BRAZERO <= code[pc] <= OP_BRAMINZERO <==> its.Cons? && its.hd.Zero?
  {
    if its.Cons? { DecodeNode(code, pc, its, caseless); }
  }

  lemma DecodeNode(code: seq<byte>, pc: nat, its: Items, caseless: bool)
    requires AtItems(code, pc, its, caseless) && its.Cons?
    ensures pc < |code| && code[pc] != OP_END && code[pc] != OP_ALT && !(OP_KET <= code[pc] <= OP_KETRMIN)
    ensures OP_NOT_DIGIT <= code[pc] <= OP_ALLANY || OP_CHAR <= code[pc] <= OP_NOT <==> its.hd.One? && !its.hd.u.Class?
    ensures OP_STAR <= code[pc] < OP_CRSTAR <==> its.hd.Rep? && !its.hd.u.Class?
    ensures OP_CLASS <= code[pc] <= OP_NCLASS <==> (its.hd.One? || its.hd.Rep?) && its.hd.u.Class?
    ensures OP_BRA <= code[pc] <= OP_SCBRA <==> its.hd.Grp?
    ensures OP_BRAZERO <= code[pc] <= OP_BRAMINZERO <==> its.hd.Zero?
  {
    assert AtNode(code, pc, its.hd, caseless);
    match its.hd {
      case One(u) => assert AtUnit(code, pc, u);
      case Rep(u, q, m) =>
        assert AtRep(code, pc, u, q, m, caseless);
        assert QuantIndex(q, m) <= 12;
      case Grp(g) => assert AtGroup(code, pc, g, caseless);
      case Zero(_, g) => assert NodeLen(its.hd) > 0;
    }
  }

  /** The opcode of an item that consumes characters is none of the others. */
  lemma ItemOp(code: seq<byte>, pc: nat, n: Node, caseless: bool)
    requires (n.One? || n.Rep?) && AtNode(code, pc, n, caseless)
    ensures pc < |code|
    ensures !(OP_KET <= code[pc] <= OP_KETRMIN) && code[pc] != OP_ALT && code[pc] != OP_END
    ensures !(OP_BRA <= code[pc] <= OP_SCBRA) && !(OP_BRAZERO <= code[pc] <= OP_BRAMINZERO)
  {
    match n
    case One(u) => assert AtUnit(code, pc, u);
    case Rep(u, q, m) =>
      assert AtRep(code, pc, u, q, m, caseless);
      assert QuantIndex(q, m) <= 12;
  }

  /** The header of a group. */
  lemma GroupBytes(code: seq<byte>, p: nat, g: Group, caseless: bool)
    requires AtGroup(code, p, g, caseless)
    ensures p < |code| && OpLength(code[p]) == HdrLen(g)
    ensures AtAlts(code, p, HdrLen(g), g.alts, p, KetOp(g.ket), caseless)
  {
  }

  /** A group as the first of some items. */
  lemma GroupAt(code: seq<byte>, pc: nat, g: Group, tl: Items, caseless: bool)
    ensures AtItems(code, pc, Cons(Grp(g), tl), caseless)
       <==> AtGroup(code, pc, g, caseless) && AtItems(code, pc + GroupLen(g), tl, caseless)
    ensures ItemsLen(Cons(Grp(g), tl)) == GroupLen(g) + ItemsLen(tl)
  {
    hide AtGroup, GroupLen;
    assert AtNode(code, pc, Grp(g), caseless) <==> AtGroup(code, pc, g, caseless);
    assert NodeLen(Grp(g)) == GroupLen(g);
  }

  /** The first of some items. */
  lemma ConsAt(code: seq<byte>, pc: nat, its: Items, caseless: bool)
    requires AtItems(code, pc, its, caseless) && its.Cons?
    ensures AtNode(code, pc, its.hd, caseless) && AtItems(code, pc + NodeLen(its.hd), its.tl, caseless)
    ensures ItemsLen(its) == NodeLen(its.hd) + ItemsLen(its.tl)
    ensures its.hd.One? ==> AtUnit(code, pc, its.hd.u) && NodeLen(its.hd) == UnitLen(its.hd.u)
    ensures its.hd.Rep? ==> AtRep(code, pc, its.hd.u, its.hd.q, its.hd.m, caseless)
    ensures its.hd.One? || its.hd.Rep? ==> UnitOk(its.hd.u)
    ensures its.hd.Rep? ==> its.hd.q.Max() < 0 || its.hd.q.Min() <= its.hd.q.Max()
    ensures its.hd.Zero? ==> pc < |code| && AtGroup(code, pc + 1, its.hd.g, caseless)
    ensures its.hd.Zero? ==> code[pc] == (if its.hd.lazy then OP_BRAMINZERO else OP_BRAZERO)
    ensures its.hd.Zero? ==> NodeLen(its.hd) == 1 + GroupLen(its.hd.g)
  {
  }

  /** A group that may be left out, as the first of some items. */
  lemma ZeroAt(code: seq<byte>, pc: nat, its: Items, caseless: bool)
    requires AtItems(code, pc, its, caseless) && its.Cons? && its.hd.Zero?
    ensures var g, tl := its.hd.g, its.tl;
            && pc < |code| && code[pc] == (if its.hd.lazy then OP_BRAMINZERO else OP_BRAZERO)
            && AtAlts(code, pc + 1, HdrLen(g), g.alts, pc + 1, KetOp(g.ket), caseless)
            && AtItems(code, pc + 1, Cons(Grp(g), tl), caseless)
            && AtItems(code, pc + 1 + AltsLen(HdrLen(g), g.alts), tl, caseless)
            && pc + ItemsLen(its) == pc + 1 + ItemsLen(Cons(Grp(g), tl))
            && pc + ItemsLen(its) == pc + 1 + AltsLen(HdrLen(g), g.alts) + ItemsLen(tl)
  {
    ConsAt(code, pc, its, caseless);
    GroupAt(code, pc + 1, its.hd.g, its.tl, caseless);
  }

  /** The ket of the innermost group: where the loop goes back to, and where it goes on. */
  lemma LoopAt(code: seq<byte>, ecode: nat, k: Kont, caseless: bool)
    requires AtKont(code, ecode, k, caseless) && k.Frame? && k.rest.NoMore?
    ensures ecode + 1 + LINK_SIZE <= |code| && code[ecode] == KetOp(k.g.ket) && k.gp < |code|
    ensures Get(code, ecode + 1) == ecode - k.gp
    ensures code[k.gp] >= OP_SBRA <==> k.g.s
    ensures AtGroup(code, k.gp, k.g, caseless) && AtItems(code, k.gp, Cons(Grp(k.g), k.after), caseless)
    ensures AtKont(code, k.gp + ItemsLen(Cons(Grp(k.g), k.after)), k.outer, caseless)
    ensures AtItems(code, ecode + 1 + LINK_SIZE, k.after, caseless)
    ensures AtKont(code, ecode + 1 + LINK_SIZE + ItemsLen(k.after), k.outer, caseless)
  {
    hide AtItems, AtAlts, GroupLen, ItemsLen;
    GroupAt(code, k.gp, k.g, k.after, caseless);
  }

  /** The unit encoded by a non-repeated item. */
  function UnitAt(code: seq<byte>, pc: nat): Unit
    requires pc < |code|
    requires OP_CHAR <= code[pc] <= OP_NOT ==> pc + 1 < |code|
    requires OP_CLASS <= code[pc] <= OP_NCLASS ==> pc + 33 <= |code|
  {
    if code[pc] == OP_CHAR then Chr(code[pc + 1])
    else if code[pc] == OP_CHARNC then ChrNC(code[pc + 1])
    else if code[pc] == OP_NOT then NotChr(code[pc + 1])
    else if OP_CLASS <= code[pc] <= OP_NCLASS then Class(code[pc], code[pc + 1..pc + 33])
    else Type(code[pc])
  }

  /** rep_min and rep_max; -1 stands for no limit. */
  const REP_MIN: seq<nat> := [0, 0, 1, 1, 0, 0]
  const REP_MAX: seq<int> := [-1, -1, -1, -1, 1, 1]

  /** Reads the quantifier of a repeated character, negated character or type at ecode. */
  method ReadRepeat(code: seq<byte>, ecode: nat, caseless: bool, ghost u: Unit, ghost q: Quant, ghost m: Mode)
    returns (unit: Unit, min: nat, max: int, minimize: bool, possessive: bool, next: nat)
    requires !u.Class? && AtRep(code, ecode, u, q, m, caseless)
    ensures unit == u && min == q.Min() && max == q.Max() && next == ecode + RepLen(u, q)
    ensures min != max ==> minimize == m.Lazy? && possessive == m.Possessive?
  {
    var op := code[ecode];
    var base := if op < OP_NOTSTAR then OP_STAR else if op < OP_TYPESTAR then OP_NOTSTAR else OP_TYPESTAR;
    var i := op - base;
    assert base == RepBase(u) && i == QuantIndex(q, m);
    minimize, possessive := false, false;
    if i <= 5 {
      minimize := i % 2 != 0;
      min, max := REP_MIN[i], REP_MAX[i];
      next := ecode + 1;
    } else if i <= 8 {
      max := Get(code, ecode + 1);
      min := if i == 8 then max else 0;
      minimize := i == 7;
      next := ecode + 3;
    } else {
      possessive := true;
      if i == 12 {
        min, max, next := 0, Get(code, ecode + 1), ecode + 3;
      } else {
        min := if i == 10 then 1 else 0;
        max := if i == 11 then 1 else -1;
        next := ecode + 1;
      }
    }
    var d := code[next];
    next := next + 1;
    unit := if base == OP_NOTSTAR then NotChr(d) else if base == OP_TYPESTAR then Type(d)
            else if caseless then ChrNC(d) else Chr(d);
  }

  /** Reads a class and the quantifier that may follow it. */
  method ReadClass(code: seq<byte>, ecode: nat, caseless: bool, ghost n: Node)
    returns (unit: Unit, min: nat, max: int, minimize: bool, next: nat)
    requires (n.One? || n.Rep?) && n.u.Class? && AtNode(code, ecode, n, caseless)
    ensures unit == n.u && next == ecode + NodeLen(n)
    ensures n.One? ==> min == 1 && max == 1
    ensures n.Rep? ==> min == n.q.Min() && max == n.q.Max() && minimize == n.m.Lazy?
  {
    unit := UnitAt(code, ecode);
    next := ecode + 33;
    var op := code[next];
    min, max, minimize := 1, 1, false;
    if OP_CRSTAR <= op < OP_CRRANGE {
      var i := op - OP_CRSTAR;
      assert n.Rep? && i == QuantIndex(n.q, n.m);
      minimize := i % 2 != 0;
      min, max := REP_MIN[i], REP_MAX[i];
      next := next + 1;
    } else if op == OP_CRRANGE || op == OP_CRMINRANGE {
      minimize := op == OP_CRMINRANGE;
      min, max := Get(code, next + 1), Get(code, next + 3);
      if max == 0 { max := -1; }
      next := next + 5;
    }
  }

  /** Where the link of a branch leads. */
  lemma BranchEnd(code: seq<byte>, p: nat, h: nat, alts: Alts, start: nat, kop: byte, caseless: bool)
    requires AtAlts(code, p, h, alts, start, kop, caseless)
    ensures 1 + LINK_SIZE <= h && p + 1 + LINK_SIZE <= |code|
    ensures var q := p + Get(code, p + 1);
            && q == p + h + ItemsLen(alts.b)
            && q + 1 + LINK_SIZE <= |code|
            && (alts.Last? ==> code[q] == kop && Get(code, q + 1) == q - start && q + 1 + LINK_SIZE == p + AltsLen(h, alts))
            && (alts.More? ==> code[q] == OP_ALT && AtAlts(code, q, 1 + LINK_SIZE, alts.rest, start, kop, caseless))
            && (alts.More? ==> q + AltsLen(1 + LINK_SIZE, alts.rest) == p + AltsLen(h, alts))
  {
    hide AtItems, ItemsLen;
  }

  /** Follows the links from a bracket or OP_ALT to the ket of its group. */
  method SkipToKet(code: seq<byte>, p: nat, ghost h: nat, ghost alts: Alts, ghost start: nat, ghost kop: byte, ghost caseless: bool)
    returns (q: nat)
    requires AtAlts(code, p, h, alts, start, kop, caseless) && kop != OP_ALT
    ensures q + 1 + LINK_SIZE == p + AltsLen(h, alts) && q + 1 + LINK_SIZE <= |code|
    ensures code[q] == kop && Get(code, q + 1) == q - start
  {
    hide AtAlts, AltsLen;
    q := p;
    ghost var a, ah := alts, h;
    BranchEnd(code, p, h, alts, start, kop, caseless);
    q := q + Get(code, q + 1);
    while code[q] == OP_ALT
      invariant q + 1 + LINK_SIZE <= |code|
      invariant a.Last? ==> code[q] == kop && Get(code, q + 1) == q - start && q + 1 + LINK_SIZE == p + AltsLen(h, alts)
      invariant a.More? ==> code[q] == OP_ALT
      invariant a.More? ==> AtAlts(code, q, 1 + LINK_SIZE, a.rest, start, kop, caseless)
      invariant a.More? ==> q + AltsLen(1 + LINK_SIZE, a.rest) == p + AltsLen(h, alts)
      decreases a
    {
      BranchEnd(code, q, 1 + LINK_SIZE, a.rest, start, kop, caseless);
      a := a.rest;
      q := q + Get(code, q + 1);
    }
  }

  // ---- Facts about single steps ------------------------------------------------------------

  lemma RunLengthIs(c: Context, u: Unit, i: nat, max: int, n: nat)
    requires forall t: nat :: i <= t < i + n ==> Test(c, u, t)
    requires max >= 0 ==> n <= max
    requires n == max || !Test(c, u, i + n)
    ensures RunLength(c, u, i, max) == n
  {
    var r := RunLength(c, u, i, max);
    assert r >= n;
    assert r <= n;
  }

  /** Moving past an item that consumes at least its minimum. */
  lemma StepReady(a: Attempt, n: Node, tl: Items, k: Kont, st: State, p: nat)
    requires Ready(a, Cons(n, tl), k, st) && st.pos + MinNode(n) <= p <= |a.c.s|
    ensures Ready(a, tl, k, st.(pos := p))
    ensures Work(tl, k, |a.c.s|, p) < Work(Cons(n, tl), k, |a.c.s|, st.pos)
  {
    AdvancesMono(k, st.pos + MinItems(Cons(n, tl)), p + MinItems(tl));
    RememberedMono(k, st.chain, st.pos, p);
    assert Work(Cons(n, tl), k, |a.c.s|, st.pos) == WNode(n, |a.c.s|, st.pos) + Work(tl, k, |a.c.s|, st.pos);
    WNodePositive(n, |a.c.s|, st.pos);
    WorkMono(tl, k, |a.c.s|, st.pos, p);
  }

  lemma WNodePositive(n: Node, size: nat, p: nat)
    ensures WNode(n, size, p) >= 1
  {
    match n
    case Grp(g) => MulMono(1, 1, Left(size, p) + 1, WAlts(g.alts, size, p) + 2);
    case _ =>
  }

  /** p is at the bracket or OP_ALT of a branch of g, all earlier branches having failed. */
  ghost predicate Trying(a: Attempt, code: seq<byte>, gp: nat, p: nat, h: nat, g: Group, alts: Alts, tl: Items, k: Kont, st: State)
  {
    && p < |code|
    && AtAlts(code, p, h, alts, gp, KetOp(g.ket), a.c.caseless)
    && h == OpLength(code[p])
    && p + AltsLen(h, alts) == gp + GroupLen(g)
    && CheckedAlts(alts)
    && CapsAlts(alts, a.topBracket)
    && MinAlts(g.alts) <= MinAlts(alts)
    && WAlts(alts, |a.c.s|, st.pos) <= WAlts(g.alts, |a.c.s|, st.pos)
    && First(a, Cons(Grp(g), tl), k, st)
       == FirstOf(a, AltsOutcomes(a, alts, Enter(a, g, st)), Frame(gp, g, NoMore, tl, st.pos, k))
  }

  /** Entering a branch of a group. */
  lemma EnterReady(a: Attempt, code: seq<byte>, gp: nat, p: nat, h: nat, g: Group, alts: Alts, tl: Items, k: Kont, st: State)
    returns (f: Kont)
    requires Ready(a, Cons(Grp(g), tl), k, st)
    requires AtItems(code, gp, Cons(Grp(g), tl), a.c.caseless)
    requires AtKont(code, gp + ItemsLen(Cons(Grp(g), tl)), k, a.c.caseless)
    requires Trying(a, code, gp, p, h, g, alts, tl, k, st)
    ensures h == OpLength(code[p])
    ensures f == Frame(gp, g, if alts.Last? then NoMore else Alternatives(alts.rest), tl, st.pos, k)
    ensures Ready(a, alts.b, f, Enter(a, g, st))
    ensures AtItems(code, p + h, alts.b, a.c.caseless) && AtKont(code, p + h + ItemsLen(alts.b), f, a.c.caseless)
    ensures Work(alts.b, f, |a.c.s|, st.pos) < Work(Cons(Grp(g), tl), k, |a.c.s|, st.pos)
  {
    hide WItems, WKont, WAlts, Work, FirstOf, ItemsOutcomes, AltsOutcomes, First, AtItems, AtKont, AtAlts, Ready,
         MinAlts, CheckedAlts, CapsAlts, GroupLen, AltsLen;
    f := Frame(gp, g, if alts.Last? then NoMore else Alternatives(alts.rest), tl, st.pos, k);
    WBranch(alts, |a.c.s|, st.pos);
    EnterBranch(a, gp, g, alts, tl, k, st);
    EnterWork(gp, g, f.rest, alts.b, tl, k, |a.c.s|, st.pos);
    EnterCode(code, gp, p, h, g, alts, tl, k, st.pos, a.c.caseless);
  }

  lemma WBranch(alts: Alts, size: nat, p: nat)
    ensures WItems(alts.b, size, p) < WAlts(alts, size, p)
  {
  }

  lemma EnterCode(code: seq<byte>, gp: nat, p: nat, h: nat, g: Group, alts: Alts, tl: Items, k: Kont, start: nat, caseless: bool)
    requires AtItems(code, gp, Cons(Grp(g), tl), caseless)
    requires AtKont(code, gp + ItemsLen(Cons(Grp(g), tl)), k, caseless)
    requires AtAlts(code, p, h, alts, gp, KetOp(g.ket), caseless)
    requires p + AltsLen(h, alts) == gp + GroupLen(g)
    ensures AtItems(code, p + h, alts.b, caseless)
    ensures AtKont(code, p + h + ItemsLen(alts.b),
                   Frame(gp, g, if alts.Last? then NoMore else Alternatives(alts.rest), tl, start, k), caseless)
  {
    hide AtItems, AtGroup, GroupLen, ItemsLen, AltsLen;
    GroupAt(code, gp, g, tl, caseless);
    BranchEnd(code, p, h, alts, gp, KetOp(g.ket), caseless);
  }

  lemma EnterBranch(a: Attempt, gp: nat, g: Group, alts: Alts, tl: Items, k: Kont, st: State)
    requires Ready(a, Cons(Grp(g), tl), k, st)
    requires CheckedAlts(alts) && CapsAlts(alts, a.topBracket) && MinAlts(g.alts) <= MinAlts(alts)
    ensures Ready(a, alts.b, Frame(gp, g, if alts.Last? then NoMore else Alternatives(alts.rest), tl, st.pos, k), Enter(a, g, st))
  {
    var e := Enter(a, g, st);
    assert MinAlts(alts) <= MinItems(alts.b);
    assert MinItems(Cons(Grp(g), tl)) == MinAlts(g.alts) + MinItems(tl);
    AdvancesMono(k, st.pos + MinItems(Cons(Grp(g), tl)), st.pos + MinItems(alts.b) + MinItems(tl));
    assert g.s ==> e.chain[1..] == st.chain;
  }

  /** Every pair open in k is open in k0. */
  ghost predicate Inside(a: Attempt, k: Kont, k0: Kont) {
    forall i :: Open(a, k, i) ==> Open(a, k0, i)
  }

  lemma AgreeSame(a: Attempt, k: Kont, v: seq<int>)
    ensures Agree(a, k, v, v) && Inside(a, k, k)
  {
  }

  lemma AgreeRest(a: Attempt, f: Kont, rest: Tail, v: seq<int>, w: seq<int>)
    requires f.Frame?
    ensures Agree(a, f, v, w) <==> Agree(a, f.(rest := rest), v, w)
  {
    assert forall i :: Open(a, f, i) <==> Open(a, f.(rest := rest), i);
  }

  lemma InsideTrans(a: Attempt, k: Kont, k': Kont, k0: Kont)
    requires Inside(a, k, k') && Inside(a, k', k0)
    ensures Inside(a, k, k0)
  {
  }

  lemma AgreeTrans(a: Attempt, k0: Kont, k: Kont, u: seq<int>, v: seq<int>, w: seq<int>)
    requires Inside(a, k, k0) && Agree(a, k, u, v) && Agree(a, k0, v, w)
    ensures Agree(a, k0, u, w)
  {
  }

  lemma {:induction false} OpenBelow(a: Attempt, k: Kont, i: int)
    requires a.Valid() && Open(a, k, i)
    ensures 0 <= i < a.offsetMax
  {
    if !(a.Fits(k.g.cap) && (i == 2 * k.g.cap || i == 2 * k.g.cap + 1)) {
      OpenBelow(a, k.outer, i);
    }
  }

  /** Saving the start of a capturing group in its working slot. */
  lemma SaveSlot(a: Attempt, g: Group, k: Kont, f: Kont, ov: seq<int>, st: State)
    requires a.Valid() && a.Fits(g.cap) && |st.ov| >= a.offsetEnd
    requires f.Frame? && f.g == g && f.outer == k && Agree(a, k, ov, st.ov)
    ensures Agree(a, f, Set(ov, a.offsetEnd - g.cap, st.pos), Enter(a, g, st).ov)
  {
  }

  /** Putting back the pair and the working slot of a group that has failed. */
  lemma RestoreSlots(a: Attempt, g: Group, k: Kont, f: Kont, ov: seq<int>, left: seq<int>, restored: seq<int>, st: State)
    requires a.Valid() && a.Fits(g.cap) && |st.ov| >= a.offsetEnd && |restored| == |ov|
    requires f.Frame? && f.g == g && f.outer == k
    requires Agree(a, k, ov, st.ov) && Agree(a, f, left, Enter(a, g, st).ov)
    requires forall i :: 0 <= i < |restored| ==>
               restored[i] == if i == 2 * g.cap || i == 2 * g.cap + 1 || i == a.offsetEnd - g.cap then ov[i] else left[i]
    ensures Agree(a, k, restored, st.ov)
  {
  }

  /** Passing the ket of the innermost group. */
  lemma CloseReady(a: Attempt, k: Kont, st: State)
    requires Ready(a, Nil, k, st) && k.Frame?
    ensures Ready(a, k.after, k.outer, Close(a, k.g, st))
    ensures Work(k.after, k.outer, |a.c.s|, st.pos) < Work(Nil, k, |a.c.s|, st.pos)
    ensures k.g.s ==> st.chain != [] && k.start <= st.chain[0] <= st.pos
    ensures k.start <= st.pos
    ensures k.g.ket != Plain && !k.g.s ==> k.start < st.pos
  {
    hide Work, CheckedItems, CheckedGroup, CapsItems, CapsGroup, CapsAlts, CheckedAlts;
    var chain := if k.g.s then st.chain[1..] else st.chain;
    RememberedMono(k.outer, chain, k.start, st.pos);
    CloseWork(k, |a.c.s|, st.pos);
  }

  lemma CloseWork(k: Kont, size: nat, p: nat)
    requires k.Frame?
    ensures Work(k.after, k.outer, size, p) < Work(Nil, k, size, p)
  {
  }

  /** Forgetting the branches not yet tried. */
  lemma NoMoreReady(a: Attempt, k: Kont, st: State, v: seq<int>)
    requires Ready(a, Nil, k, st) && k.Frame? && Agree(a, k, v, st.ov)
    ensures var k' := k.(rest := NoMore);
            && Ready(a, Nil, k', st)
            && Agree(a, k', v, st.ov)
            && Agree(a, k, st.ov, st.ov)
            && Inside(a, k', k)
            && Work(Nil, k', |a.c.s|, st.pos) == Work(Nil, k, |a.c.s|, st.pos)
  {
    AgreeRest(a, k, NoMore, v, st.ov);
  }

  /** Going round a loop. */
  lemma AgainReady(a: Attempt, k: Kont, st: State)
    requires Ready(a, Nil, k, st) && k.Frame? && Loops(a, k.g, k.start, st)
    ensures Ready(a, Cons(Grp(k.g), k.after), k.outer, Again(k.g, Close(a, k.g, st)))
    ensures Work(Cons(Grp(k.g), k.after), k.outer, |a.c.s|, st.pos) < Work(Nil, k, |a.c.s|, st.pos)
  {
    CloseReady(a, k, st);
    var y := Close(a, k.g, st);
    if k.g.s {
      RememberedPush(k.outer, y.chain, st.pos, st.pos);
    }
    AdvancesMono(k.outer, st.pos + MinItems(k.after), st.pos + MinItems(Cons(Grp(k.g), k.after)));
    LoopWork(k, |a.c.s|, st.pos);
  }

  /** The first outcome over the branches of a group from one branch on. */
  lemma TryFirst(a: Attempt, alts: Alts, e: State, f: Kont, rest: Tail)
    requires f.Frame?
    ensures FirstOf(a, AltsOutcomes(a, alts, e), f)
         == OrElse(First(a, alts.b, f.(rest := rest), e),
                   if alts.Last? then None else FirstOf(a, AltsOutcomes(a, alts.rest, e), f))
  {
    RestIrrelevant(a, ItemsOutcomes(a, alts.b, e), f, rest);
    if alts.More? {
      FirstOfAppend(a, ItemsOutcomes(a, alts.b, e), AltsOutcomes(a, alts.rest, e), f);
    }
  }

  lemma ZeroFirst(a: Attempt, n: Node, tl: Items, k: Kont, st: State)
    requires n.Zero?
    ensures n.lazy ==> First(a, Cons(n, tl), k, st) == OrElse(First(a, tl, k, st), First(a, Cons(Grp(n.g), tl), k, st))
    ensures !n.lazy ==> First(a, Cons(n, tl), k, st) == OrElse(First(a, Cons(Grp(n.g), tl), k, st), First(a, tl, k, st))
  {
    var gs := GroupOutcomes(a, n.g, st);
    assert ItemsOutcomes(a, Cons(Grp(n.g), tl), st) == Then(a, gs, tl);
    assert NodeOutcomes(a, n, st) == if n.lazy then [st] + gs else gs + [st];
    ThenOne(a, st, tl);
    FirstOfThenAppend(a, [st], gs, tl, k);
    FirstOfThenAppend(a, gs, [st], tl, k);
  }

  lemma ZeroReady(a: Attempt, n: Node, tl: Items, k: Kont, st: State)
    requires n.Zero? && Ready(a, Cons(n, tl), k, st)
    ensures Ready(a, Cons(Grp(n.g), tl), k, st)
    ensures Work(Cons(Grp(n.g), tl), k, |a.c.s|, st.pos) < Work(Cons(n, tl), k, |a.c.s|, st.pos)
    ensures Ready(a, tl, k, st)
    ensures Work(tl, k, |a.c.s|, st.pos) < Work(Cons(n, tl), k, |a.c.s|, st.pos)
  {
    StepReady(a, n, tl, k, st, st.pos);
    AdvancesMono(k, st.pos + MinItems(tl), st.pos + MinItems(Cons(Grp(n.g), tl)));
    assert WNode(n, |a.c.s|, st.pos) == 1 + WNode(Grp(n.g), |a.c.s|, st.pos);
  }

  lemma OneFirst(a: Attempt, u: Unit, tl: Items, k: Kont, st: State)
    ensures First(a, Cons(One(u), tl), k, st)
         == if Test(a.c, u, st.pos) then First(a, tl, k, Advance(st, 1)) else None
  {
    ThenOne(a, Advance(st, 1), tl);
    assert NodeOutcomes(a, One(u), st) == if Test(a.c, u, st.pos) then [Advance(st, 1)] else [];
    assert Then(a, [], tl) == [];
  }

  /** Trying the longest of several runs, then the others. */
  lemma DownFirst(a: Attempt, tl: Items, k: Kont, st: State, hi: nat, lo: nat)
    requires lo <= hi
    ensures FirstOf(a, Then(a, Down(st, hi, lo), tl), k)
         == OrElse(First(a, tl, k, st.(pos := st.pos + hi)), FirstOf(a, Then(a, Down(st, hi - 1, lo), tl), k))
  {
    ThenOne(a, Advance(st, hi), tl);
    FirstOfThenAppend(a, [Advance(st, hi)], Down(st, hi - 1, lo), tl, k);
  }

  lemma NoRunsLeft(a: Attempt, tl: Items, k: Kont, st: State, hi: int, lo: nat)
    requires hi < lo
    ensures FirstOf(a, Then(a, Down(st, hi, lo), tl), k) == None
    ensures FirstOf(a, Then(a, Up(st, lo, hi), tl), k) == None
  {
    assert Then(a, [], tl) == [];
  }

  /** Trying the shortest of several runs, then the others. */
  lemma UpFirst(a: Attempt, tl: Items, k: Kont, st: State, lo: nat, hi: nat)
    requires lo <= hi
    ensures FirstOf(a, Then(a, Up(st, lo, hi), tl), k)
         == OrElse(First(a, tl, k, st.(pos := st.pos + lo)), FirstOf(a, Then(a, Up(st, lo + 1, hi), tl), k))
  {
    ThenOne(a, Advance(st, lo), tl);
    FirstOfThenAppend(a, [Advance(st, lo)], Up(st, lo + 1, hi), tl, k);
  }

  /** A lazy repeat, about to try the run of length n. */
  lemma NextRun(a: Attempt, tl: Items, k: Kont, st: State, u: Unit, max: int, n: nat)
    requires forall t: nat :: st.pos <= t < st.pos + n ==> Test(a.c, u, t)
    requires max >= 0 ==> n <= max
    ensures var r := RunLength(a.c, u, st.pos, max);
            FirstOf(a, Then(a, Up(st, n, r), tl), k)
            == OrElse(First(a, tl, k, st.(pos := st.pos + n)), FirstOf(a, Then(a, Up(st, n + 1, r), tl), k))
  {
    var r := RunLength(a.c, u, st.pos, max);
    assert n <= r;
    UpFirst(a, tl, k, st, n, r);
  }

  /** A lazy repeat that cannot be extended beyond n units. */
  lemma LastRun(a: Attempt, tl: Items, k: Kont, st: State, u: Unit, max: int, n: nat)
    requires forall t: nat :: st.pos <= t < st.pos + n ==> Test(a.c, u, t)
    requires max >= 0 ==> n <= max
    requires n == max || !Test(a.c, u, st.pos + n)
    ensures FirstOf(a, Then(a, Up(st, n + 1, RunLength(a.c, u, st.pos, max)), tl), k) == None
  {
    RunLengthIs(a.c, u, st.pos, max, n);
    NoRunsLeft(a, tl, k, st, n, n + 1);
  }

  /** A repeated unit, or a class without a quantifier, in terms of the longest run. */
  lemma RepeatFirst(a: Attempt, n: Node, tl: Items, k: Kont, st: State)
    requires n.One? || n.Rep?
    ensures n.One? ==>
              First(a, Cons(n, tl), k, st)
              == if RunLength(a.c, n.u, st.pos, 1) < 1 then None else First(a, tl, k, st.(pos := st.pos + 1))
    ensures n.Rep? && RunLength(a.c, n.u, st.pos, n.q.Max()) >= n.q.Min() ==>
              var r := RunLength(a.c, n.u, st.pos, n.q.Max());
              && (n.m.Greedy? ==> First(a, Cons(n, tl), k, st) == FirstOf(a, Then(a, Down(st, r, n.q.Min()), tl), k))
              && (n.m.Lazy? ==> First(a, Cons(n, tl), k, st) == FirstOf(a, Then(a, Up(st, n.q.Min(), r), tl), k))
    ensures n.Rep? && RunLength(a.c, n.u, st.pos, n.q.Max()) < n.q.Min() ==> First(a, Cons(n, tl), k, st) == None
    ensures n.Rep? && RunLength(a.c, n.u, st.pos, n.q.Max()) >= n.q.Min() && (n.m.Possessive? || n.q.Min() == n.q.Max()) ==>
              First(a, Cons(n, tl), k, st) == First(a, tl, k, st.(pos := st.pos + RunLength(a.c, n.u, st.pos, n.q.Max())))
  {
    hide ItemsOutcomes, FirstOf, RunLength;
    if n.One? {
      OneFirst(a, n.u, tl, k, st);
      RunLengthIs(a.c, n.u, st.pos, 1, if Test(a.c, n.u, st.pos) then 1 else 0);
    } else {
      var r := RunLength(a.c, n.u, st.pos, n.q.Max());
      RepNodeFirst(a, n, tl, k, st);
      if r < n.q.Min() {
        NoRunsLeft(a, tl, k, st, -1, 0);
      } else if n.m.Possessive? || n.q.Min() == n.q.Max() {
        RunOfOne(n.m, st, r);
        ThenOne(a, Advance(st, r), tl);
      }
    }
  }

  lemma RepNodeFirst(a: Attempt, n: Node, tl: Items, k: Kont, st: State)
    requires n.Rep?
    ensures First(a, Cons(n, tl), k, st) == FirstOf(a, Then(a, RepOutcomes(a, n.u, n.q, n.m, st), tl), k)
  {
    hide RepOutcomes, FirstOf;
    assert NodeOutcomes(a, n, st) == RepOutcomes(a, n.u, n.q, n.m, st);
  }

  lemma RunOfOne(m: Mode, st: State, r: nat)
    ensures Down(st, r, r) == [Advance(st, r)] && Up(st, r, r) == [Advance(st, r)]
  {
    assert Down(st, r - 1, r) == [] && Up(st, r + 1, r) == [];
  }

  /** What a ket does when it does not go round again. */
  lemma CloseFirst(a: Attempt, k: Kont, st: State)
    requires k.Frame? && !Loops(a, k.g, k.start, st)
    ensures First(a, Nil, k, st) == First(a, k.after, k.outer, Close(a, k.g, st))
  {
    ThenOne(a, Close(a, k.g, st), k.after);
    assert FirstOf(a, [st], k) == OrElse(Leave(a, k, st), None);
  }

  /** What a repeating ket does after an iteration that was not empty. */
  lemma LoopFirst(a: Attempt, k: Kont, st: State)
    requires k.Frame? && Loops(a, k.g, k.start, st)
    ensures var y := Close(a, k.g, st);
            var again := First(a, Cons(Grp(k.g), k.after), k.outer, Again(k.g, y));
            var onward := First(a, k.after, k.outer, y);
            First(a, Nil, k, st) == if k.g.ket == RMin then OrElse(onward, again) else OrElse(again, onward)
  {
    var y := Close(a, k.g, st);
    var gs := GroupOutcomes(a, k.g, Again(k.g, y));
    assert ItemsOutcomes(a, Cons(Grp(k.g), k.after), Again(k.g, y)) == Then(a, gs, k.after);
    ThenOne(a, y, k.after);
    FirstOfThenAppend(a, [y], gs, k.after, k.outer);
    FirstOfThenAppend(a, gs, [y], k.after, k.outer);
    assert FirstOf(a, [st], k) == Leave(a, k, st);
  }

  lemma BracketOp(a: Attempt, code: seq<byte>, gp: nat, g: Group, st: State)
    requires AtGroup(code, gp, g, a.c.caseless)
    ensures gp + HdrLen(g) <= |code| && code[gp] == GroupOp(g) && (code[gp] >= OP_SBRA <==> g.s)
    ensures g.cap > 0 ==> Get(code, gp + 1 + LINK_SIZE) == g.cap
    ensures g.cap > 0 ==> (code[gp] == OP_SCBRA <==> g.s)
    ensures var e := Enter(a, g, st);
            e.pos == st.pos && e.top == st.top && e.chain == if g.s then [st.pos] + st.chain else st.chain
  {
  }

  lemma ReadySized(a: Attempt, its: Items, k: Kont, st: State)
    requires Ready(a, its, k, st)
    ensures |st.ov| >= a.offsetEnd && st.pos <= |a.c.s|
    ensures k.Frame? ==> k.g.cap <= a.topBracket
  {
  }

  lemma TryingFirst(a: Attempt, code: seq<byte>, gp: nat, g: Group, tl: Items, k: Kont, st: State)
    requires AtGroup(code, gp, g, a.c.caseless) && Ready(a, Cons(Grp(g), tl), k, st)
    ensures Trying(a, code, gp, gp, HdrLen(g), g, g.alts, tl, k, st)
  {
    GroupFirst(a, gp, g, NoMore, tl, k, st);
    assert CheckedGroup(g) && CapsGroup(g, a.topBracket);
  }

  /** When a branch fails the next one is tried, and when the last one fails the group has failed. */
  lemma TryingNext(a: Attempt, code: seq<byte>, gp: nat, p: nat, h: nat, g: Group, alts: Alts, tl: Items, k: Kont, st: State)
    requires Trying(a, code, gp, p, h, g, alts, tl, k, st)
    ensures p + 2 < |code|
    ensures var q := p + Get(code, p + 1);
            q < |code| && (code[q] == OP_ALT <==> alts.More?)
    ensures var q := p + Get(code, p + 1);
            var f := Frame(gp, g, if alts.Last? then NoMore else Alternatives(alts.rest), tl, st.pos, k);
            var b := First(a, alts.b, f, Enter(a, g, st));
            && (alts.More? && b == None ==> Trying(a, code, gp, q, 1 + LINK_SIZE, g, alts.rest, tl, k, st))
            && (alts.Last? || b.Some? ==> First(a, Cons(Grp(g), tl), k, st) == b)
  {
    TryFirst(a, alts, Enter(a, g, st), Frame(gp, g, NoMore, tl, st.pos, k),
             if alts.Last? then NoMore else Alternatives(alts.rest));
  }

  // ---- Whole patterns ----------------------------------------------------------------------

  lemma {:induction false} FirstOfDone(a: Attempt, xs: seq<State>)
    ensures FirstOf(a, xs, Done).Some? ==> FirstOf(a, xs, Done).value in xs && a.Acceptable(FirstOf(a, xs, Done).value.pos)
    ensures FirstOf(a, xs, Done).None? ==> forall x :: x in xs ==> !a.Acceptable(x.pos)
    decreases |xs|
  {
    if xs != [] {
      FirstOfDone(a, xs[1..]);
      assert FirstOf(a, xs, Done) == OrElse(Leave(a, Done, xs[0]), FirstOf(a, xs[1..], Done));
      if FirstOf(a, xs, Done).None? {
        forall x | x in xs ensures !a.Acceptable(x.pos) {
          assert x == xs[0] || x in xs[1..];
        }
      }
    }
  }

  lemma {:induction false} ThenNil(a: Attempt, xs: seq<State>)
    ensures Then(a, xs, Nil) == xs
    decreases |xs|
  {
    if xs != [] {
      ThenNil(a, xs[1..]);
      assert ItemsOutcomes(a, Nil, xs[0]) == [xs[0]];
    }
  }

  /** The matcher's specification on a whole pattern agrees with the meaning of the pattern: there is
      a first acceptable outcome exactly when there is an acceptable match, and it is one. */
  lemma PatternFirst(a: Attempt, g: Group, st: State)
    requires st.pos <= |a.c.s|
    ensures var f := First(a, Cons(Grp(g), Nil), Done, st);
            && (f.Some? <==> exists j: nat :: DGroup(a.c, g, st.pos, j) && a.Acceptable(j))
            && (f.Some? ==> f.value in GroupOutcomes(a, g, st) && a.Acceptable(f.value.pos)
                            && DGroup(a.c, g, st.pos, f.value.pos))
  {
    var xs := GroupOutcomes(a, g, st);
    assert NodeOutcomes(a, Grp(g), st) == xs;
    assert ItemsOutcomes(a, Cons(Grp(g), Nil), st) == Then(a, xs, Nil);
    ThenNil(a, xs);
    FirstOfDone(a, xs);
    var f := First(a, Cons(Grp(g), Nil), Done, st);
    if f.Some? {
      GroupSound(a, g, st, f.value);
    } else {
      forall j: nat | DGroup(a.c, g, st.pos, j) ensures !a.Acceptable(j) {
        var x := GroupComplete(a, g, st, j);
      }
    }
  }

  /** The state in which a whole pattern is started. */
  lemma PatternReady(a: Attempt, code: seq<byte>, g: Group, st: State)
    requires a.Valid() && st.pos == a.mstart && st.chain == [] && |st.ov| >= a.offsetEnd
    requires AtPattern(code, g, a.c.caseless) && CheckedGroup(g) && CapsGroup(g, a.topBracket)
    ensures Ready(a, Cons(Grp(g), Nil), Done, st)
    ensures AtItems(code, 0, Cons(Grp(g), Nil), a.c.caseless)
    ensures AtKont(code, ItemsLen(Cons(Grp(g), Nil)), Done, a.c.caseless)
    ensures Work(Cons(Grp(g), Nil), Done, |a.c.s|, st.pos) == WGroup(g, |a.c.s|, st.pos)
    ensures Agree(a, Done, st.ov, st.ov)
  {
    GroupAt(code, 0, g, Nil, a.c.caseless);
    assert WNode(Grp(g), |a.c.s|, st.pos) == WGroup(g, |a.c.s|, st.pos);
  }
}

/** could_be_empty_branch(), and how the compiler marks unlimited repeats of groups that may match an
    empty string. */
module Emptiness {
  import opened ByteCode
  import opened Meaning
  import opened Lengths
  import opened Backtracking
  import opened MatchSteps
  import opened CodeMoves
  import opened Scan

  /** What the scan answers. In a "check empty" group, which it does not take for a group, it goes on
      with the first branch and stops at its end. */
  function CouldBeEmpty(its: Items): bool
    decreases its, 0
  {
    match its
    case Nil => true
    case Cons(n, tl) =>
      match n
      case One(_) => false
      case Rep(_, q, _) => q.Min() == 0 && CouldBeEmpty(tl)
      case Zero(_, _) => CouldBeEmpty(tl)
      case Grp(g) =>
        if g.s then CouldBeEmpty(g.alts.b) else AnyBranchEmpty(g.alts) && CouldBeEmpty(tl)
  }

  function AnyBranchEmpty(alts: Alts): bool
    decreases alts, 0
  {
    CouldBeEmpty(alts.b) || (alts.More? && AnyBranchEmpty(alts.rest))
  }

  // ---- Soundness ---------------------------------------------------------------------------------

  /** No group is marked "check empty", other than in groups that may be left out. */
  ghost predicate UnmarkedItems(its: Items) {
    its.Cons? ==> (its.hd.Grp? ==> !its.hd.g.s && UnmarkedAlts(its.hd.g.alts)) && UnmarkedItems(its.tl)
  }

  ghost predicate UnmarkedAlts(alts: Alts) {
    UnmarkedItems(alts.b) && (alts.More? ==> UnmarkedAlts(alts.rest))
  }

  /** Without marked groups the answer is exact: whether the least length is zero. */
  lemma {:induction false} EmptyItemsExact(its: Items)
    requires UnmarkedItems(its)
    ensures CouldBeEmpty(its) <==> MinItems(its) == 0
    decreases its, 0
  {
    match its
    case Nil =>
    case Cons(n, tl) =>
      EmptyItemsExact(tl);
      if n.Grp? { EmptyAltsExact(n.g.alts); }
  }

  lemma {:induction false} EmptyAltsExact(alts: Alts)
    requires UnmarkedAlts(alts)
    ensures AnyBranchEmpty(alts) <==> MinAlts(alts) == 0
    decreases alts, 0
  {
    EmptyItemsExact(alts.b);
    if alts.More? { EmptyAltsExact(alts.rest); }
  }

  /** Every marked group that the scan can meet has a first branch that could be empty. */
  ghost predicate LedItems(its: Items)
    decreases its, 0
  {
    its.Cons? ==>
      && (its.hd.Grp? ==> if its.hd.g.s then CouldBeEmpty(its.hd.g.alts.b) else LedAlts(its.hd.g.alts))
      && LedItems(its.tl)
  }

  ghost predicate LedAlts(alts: Alts)
    decreases alts, 0
  {
    LedItems(alts.b) && (alts.More? ==> LedAlts(alts.rest))
  }

  /** Then what can match nothing is not missed. */
  lemma {:induction false} EmptyItemsSeen(its: Items)
    requires LedItems(its) && MinItems(its) == 0
    ensures CouldBeEmpty(its)
    decreases its, 0
  {
    match its
    case Nil =>
    case Cons(n, tl) =>
      EmptyItemsSeen(tl);
      if n.Grp? && !n.g.s { EmptyAltsSeen(n.g.alts); }
  }

  lemma {:induction false} EmptyAltsSeen(alts: Alts)
    requires LedAlts(alts) && MinAlts(alts) == 0
    ensures AnyBranchEmpty(alts)
    decreases alts, 0
  {
    if MinItems(alts.b) == 0 { EmptyItemsSeen(alts.b); } else { EmptyAltsSeen(alts.rest); }
  }

  /** The answer no is right: no match of the branch is empty. */
  lemma NotEmpty(c: Context, its: Items, i: nat, j: nat)
    requires LedItems(its) && !CouldBeEmpty(its) && DItems(c, its, i, j) && i <= |c.s|
    ensures i < j
  {
    if MinItems(its) == 0 { EmptyItemsSeen(its); }
    MinItemsBound(c, its, i, j);
  }

  /** Marking a repeating group by the answers for its branches meets the demand that match() makes
      of the code, that unlimited repeats which can match nothing are marked, exactly when of a group that
      can match nothing some answer is yes. */
  lemma MarkingExactly(g: Group)
    requires g.ket != Plain && CheckedAlts(g.alts)
    ensures CheckedGroup(g.(s := AnyBranchEmpty(g.alts))) <==> (MinAlts(g.alts) == 0 ==> AnyBranchEmpty(g.alts))
    ensures (MinAlts(g.alts) == 0 ==> LedAlts(g.alts)) ==> CheckedGroup(g.(s := AnyBranchEmpty(g.alts)))
  {
    if MinAlts(g.alts) == 0 && LedAlts(g.alts) { EmptyAltsSeen(g.alts); }
  }

  /** A repeat of nothing but a marked group that can match nothing meets the demand exactly when the first
      branch of that group could be empty. */
  lemma MarkedInside(inner: Group, ket: Ket)
    requires inner.s && CheckedGroup(inner) && MinAlts(inner.alts) == 0 && ket != Plain
    ensures var alts := Last(Cons(Grp(inner), Nil));
            CheckedGroup(Group(AnyBranchEmpty(alts), 0, alts, ket)) <==> CouldBeEmpty(inner.alts.b)
  {
    var its := Cons(Grp(inner), Nil);
    assert CheckedItems(Nil) && CheckedItems(its);
    assert MinNode(Grp(inner)) == 0 && MinItems(Nil) == 0;
    var alts := Last(its);
    assert MinAlts(alts) == MinItems(its) == 0 && CheckedAlts(alts);
    assert AnyBranchEmpty(alts) == CouldBeEmpty(its) == CouldBeEmpty(inner.alts.b);
  }

  /** (?:(?:a|)+)+ : with a marked group inside, the demand is not met. The scan sees only the branch
      a of the inner group, and leaves the outer group unmarked, although it can match nothing. */
  lemma MarkedGroupsMislead()
    ensures var inner := Group(true, 0, More(Cons(One(Chr(97)), Nil), Last(Nil)), RMax);
            var outer := Group(false, 0, Last(Cons(Grp(inner), Nil)), RMax);
            && CheckedAlts(outer.alts) && !AnyBranchEmpty(outer.alts) && MinAlts(outer.alts) == 0
            && !CheckedGroup(outer.(s := AnyBranchEmpty(outer.alts)))
  {
    var inner := Group(true, 0, More(Cons(One(Chr(97)), Nil), Last(Nil)), RMax);
    var its := Cons(Grp(inner), Nil);
    assert CouldBeEmpty(inner.alts.b) == false;
    assert MinItems(inner.alts.b) == 1 && MinItems(Nil) == 0;
    assert MinAlts(inner.alts.rest) == 0;
    assert MinNode(Grp(inner)) == 0;
    assert CheckedItems(inner.alts.b) && CheckedAlts(inner.alts.rest) && CheckedGroup(inner);
    assert CheckedItems(its);
  }

  // ---- The scan ----------------------------------------------------------------------------------

  /** Whether a character item can match nothing, and where the next item is. */
  method ItemCouldBeEmpty(code: seq<byte>, cc: nat, ghost n: Node, ghost caseless: bool) returns (empty: bool, next: nat)
    requires (n.One? || n.Rep?) && AtNode(code, cc, n, caseless)
    ensures empty == (MinNode(n) == 0) && next == cc + NodeLen(n)
  {
    var min;
    min, next := ItemLength(code, cc, n, caseless);
    empty := min == 0;
  }

  /** Scans the branch whose bracket or OP_ALT is at p, and stops at endcode at the latest. */
  method CouldBeEmptyBranch(code: seq<byte>, p: nat, endcode: nat,
                            ghost alts0: Alts, ghost pc0: nat, ghost g0: Group, ghost caseless: bool) returns (empty: bool)
    requires p < |code| && Scanning(code, p + OpLength(code[p]), alts0.b, alts0, pc0, g0, caseless)
    requires p + OpLength(code[p]) + ItemsLen(alts0.b) <= endcode <= |code|
    ensures empty == CouldBeEmpty(alts0.b)
    decreases alts0
  {
    hide AtItems, AtTail, AtAlts, AtGroup, AtNode, AltsLen, NodeLen, Scanning, ItemsLen, GroupLen, MinNode;
    var cc: nat := p + OpLength(code[p]);
    ghost var its, alts, pc, g := alts0.b, alts0, pc0, g0;
    while cc < endcode
      invariant Scanning(code, cc, its, alts, pc, g, caseless)
      invariant cc + ItemsLen(its) <= endcode
      invariant CouldBeEmpty(alts0.b) == CouldBeEmpty(its)
      invariant its == alts0.b || its < alts0.b
      decreases its
    {
      DecodeScan(code, cc, its, alts, pc, g, caseless);
      var op := code[cc];
      if OP_BRAZERO <= op <= OP_BRAMINZERO {
        InnerZero(code, cc, its, alts, pc, g, caseless);
        cc := SkipGroup(code, cc + 1, its.hd.g, caseless);
        its := its.tl;
      } else if op == OP_BRA || op == OP_CBRA {
        InnerGroup(code, cc, its, alts, pc, g, caseless);
        StartScan(code, cc, its.hd.g, caseless);
        var next;
        empty, next := AnyBranchCouldBeEmpty(code, cc, endcode, its.hd.g, caseless);
        if !empty { return false; }
        cc := next + 1 + LINK_SIZE;
        its := its.tl;
      } else if OP_BRA <= op <= OP_SCBRA {
        InnerGroup(code, cc, its, alts, pc, g, caseless);
        StartScan(code, cc, its.hd.g, caseless);
        AltsLenPositive(HdrLen(its.hd.g), its.hd.g.alts);
        pc, g := cc, its.hd.g;
        cc := cc + OpLength(op);
        alts, its := g.alts, g.alts.b;
      } else if op == OP_ALT || OP_KET <= op <= OP_KETRMIN {
        return true;
      } else {
        InnerItem(code, cc, its, alts, pc, g, caseless);
        NodeEmpty(its);
        var next;
        empty, next := ItemCouldBeEmpty(code, cc, its.hd, caseless);
        if !empty { return false; }
        cc := next;
        its := its.tl;
      }
    }
    NothingLeft(its);
    return true;
  }

  lemma NodeEmpty(its: Items)
    requires its.Cons? && (its.hd.One? || its.hd.Rep?)
    ensures CouldBeEmpty(its) <==> MinNode(its.hd) == 0 && CouldBeEmpty(its.tl)
  {
  }

  lemma NothingLeft(its: Items)
    requires ItemsLen(its) == 0
    ensures CouldBeEmpty(its)
  {
    if its.Cons? { NodeLenPositive(its.hd); }
  }

  /** Scans the branches of a group until one could be empty. */
  method AnyBranchCouldBeEmpty(code: seq<byte>, pc: nat, endcode: nat, ghost g: Group, ghost caseless: bool)
    returns (empty: bool, p: nat)
    requires AtGroup(code, pc, g, caseless) && pc + GroupLen(g) <= endcode + 1 + LINK_SIZE && endcode <= |code|
    ensures empty == AnyBranchEmpty(g.alts)
    ensures p + 1 + LINK_SIZE == pc + GroupLen(g)
    decreases g
  {
    hide AtItems, AtTail, AtAlts, AtGroup, AtNode, AltsLen, Scanning, ItemsLen, GroupLen, MinNode, CouldBeEmpty;
    StartScan(code, pc, g, caseless);
    empty, p := false, pc;
    ghost var alts, h: nat := g.alts, HdrLen(g);
    while true
      invariant AtAlts(code, p, h, alts, pc, KetOp(g.ket), caseless)
      invariant p < |code| && h == OpLength(code[p]) && Scanning(code, p + h, alts.b, alts, pc, g, caseless)
      invariant p + AltsLen(h, alts) == pc + GroupLen(g) && (alts == g.alts || alts < g.alts)
      invariant AnyBranchEmpty(g.alts) == (empty || AnyBranchEmpty(alts))
      decreases alts
    {
      BranchEnd(code, p, h, alts, pc, KetOp(g.ket), caseless);
      if !empty {
        AltsLenPositive(h, alts);
        empty := CouldBeEmptyBranch(code, p, endcode, alts, pc, g, caseless);
      }
      p := p + Get(code, p + 1);
      if code[p] != OP_ALT { return; }
      BranchScan(code, p, alts, pc, g, caseless);
      alts, h := alts.rest, 1 + LINK_SIZE;
    }
  }
}

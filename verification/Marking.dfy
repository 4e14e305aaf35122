/** Which patterns the compiler marks as match() needs it: when could_be_empty_branch() finds out about every
    group, repeated without limit, that can match nothing. */
module Marking {
  import opened ByteCode
  import opened Lengths
  import opened Backtracking
  import opened Emptiness
  import opened Replicate
  import opened Syntax

  // ---- On the parsed pattern ----------------------------------------------------------------------------------

  /** The branch can match without consuming anything. */
  predicate Nullable(ps: Pieces)
    decreases ps, 0
  {
    ps.Then? ==>
      && (match ps.hd
          case Single(_, _) => false
          case Repeat(_, min, _, _, _) => min == 0
          case Paren(_, alts) => AnyNullable(alts)
          case RepeatParen(_, alts, min, _, _) => min == 0 || AnyNullable(alts))
      && Nullable(ps.tl)
  }

  predicate AnyNullable(alts: Branches)
    decreases alts, 0
  {
    Nullable(alts.b) || (alts.Or? && AnyNullable(alts.rest))
  }

  /** could_be_empty_branch() says of the branch that it could be empty. Of a group whose repeat is marked, it
      looks at the first branch, and at nothing after that. */
  predicate Seen(ps: Pieces)
    decreases ps, 0
  {
    ps.Then? ==>
      match ps.hd
      case Single(_, _) => false
      case Repeat(_, min, _, _, _) => min == 0 && Seen(ps.tl)
      case Paren(_, alts) => AnySeen(alts) && Seen(ps.tl)
      case RepeatParen(_, alts, min, max, _) =>
        if min == 0 then Seen(ps.tl) else AnySeen(alts) && if max == -1 then Seen(alts.b) else Seen(ps.tl)
  }

  predicate AnySeen(alts: Branches)
    decreases alts, 0
  {
    Seen(alts.b) || (alts.Or? && AnySeen(alts.rest))
  }

  /** Of every group that is repeated without limit, it is seen that it can match nothing, if it can. */
  predicate Settled(alts: Branches)
    decreases alts, 0
  {
    SettledPieces(alts.b) && (alts.Or? ==> Settled(alts.rest))
  }

  predicate SettledPieces(ps: Pieces)
    decreases ps, 0
  {
    ps.Then? ==> SettledPiece(ps.hd) && SettledPieces(ps.tl)
  }

  predicate SettledPiece(p: Piece)
    decreases p, 0
  {
    match p
    case Paren(_, alts) => Settled(alts)
    case RepeatParen(_, alts, _, max, _) => Settled(alts) && (max == -1 && AnyNullable(alts) ==> AnySeen(alts))
    case _ => true
  }

  // ---- Nullable is having least length zero ---------------------------------------------------------------------

  lemma {:induction false} MinAppend(xs: Items, ys: Items)
    ensures MinItems(Append(xs, ys)) == MinItems(xs) + MinItems(ys)
  {
    hide MinNode;
    if xs.Cons? { MinAppend(xs.tl, ys); }
  }

  lemma {:induction false} MinCopies(g: Group, n: nat, tl: Items)
    ensures MinItems(Copies(g, n, tl)) == 0 <==> (n == 0 || MinAlts(g.alts) == 0) && MinItems(tl) == 0
  {
    hide MinAlts;
    if n > 0 { MinCopies(g, n - 1, tl); }
  }

  lemma MinReplicated(lazy: bool, g: Group, min: nat, max: int)
    requires max == -1 || (max >= 1 && min <= max)
    ensures MinItems(Replicated(lazy, g, min, max)) == 0 <==> min == 0 || MinAlts(g.alts) == 0
  {
    hide MinAlts;
    assert MinItems(Nil) == 0;
    if min == 0 {
      assert Replicated(lazy, g, min, max).tl == Nil;
    } else if max == -1 {
      MinCopies(g, min - 1, Cons(Grp(Looped(lazy, g)), Nil));
    } else {
      MinCopies(g, min, if max > min then Cons(Nested(lazy, g, max - min), Nil) else Nil);
    }
  }

  lemma MinQuantified(u: Unit, min: nat, max: int, m: Mode)
    requires max == -1 || min <= max
    ensures MinItems(Quantified(u, min, max, m)) == 0 <==> min == 0
  {
    assert MinItems(Nil) == 0;
    var its := Quantified(u, min, max, m);
    if its.Cons? {
      assert MinItems(its) == MinNode(its.hd) + MinItems(its.tl);
    }
  }

  lemma {:induction false} NullableIs(ps: Pieces, caseless: bool)
    requires PiecesOk(ps, caseless)
    ensures MinItems(EmitAll(ps, caseless)) == 0 <==> Nullable(ps)
    decreases ps, 0
  {
    hide Quantified, Replicated, MinAlts, MinNode;
    if ps.Then? {
      var p := ps.hd;
      MinAppend(Emit(p, caseless), EmitAll(ps.tl, caseless));
      NullableIs(ps.tl, caseless);
      match p {
        case Single(u, _) => MinSingle(One(u));
        case Repeat(u, min, max, m, _) => MinQuantified(u, min, max, m);
        case Paren(cap, alts) =>
          AnyNullableIs(alts, caseless);
          MinSingle(Grp(GroupOf(cap, alts, caseless)));
        case RepeatParen(cap, alts, min, max, lazy) =>
          AnyNullableIs(alts, caseless);
          MinReplicated(lazy, GroupOf(cap, alts, caseless), min, max);
      }
    }
  }

  lemma MinSingle(n: Node)
    ensures MinItems(Cons(n, Nil)) == MinNode(n)
    ensures n.One? ==> MinNode(n) == 1
    ensures n.Grp? ==> MinNode(n) == MinAlts(n.g.alts)
  {
  }

  lemma {:induction false} AnyNullableIs(alts: Branches, caseless: bool)
    requires BranchesOk(alts, caseless)
    ensures MinAlts(EmitBranches(alts, caseless)) == 0 <==> AnyNullable(alts)
    decreases alts, 0
  {
    hide MinItems, EmitAll, Nullable;
    NullableIs(alts.b, caseless);
    if alts.Or? { AnyNullableIs(alts.rest, caseless); }
  }

  // ---- Seen is the answer of the scan -----------------------------------------------------------------------------

  lemma {:induction false} SeenCopies(g: Group, n: nat, tl: Items)
    requires !g.s
    ensures CouldBeEmpty(Copies(g, n, tl)) <==> (n == 0 || AnyBranchEmpty(g.alts)) && CouldBeEmpty(tl)
  {
    hide AnyBranchEmpty;
    if n > 0 { SeenCopies(g, n - 1, tl); }
  }

  lemma {:induction false} CopiesAppend(g: Group, n: nat, tl: Items, ys: Items)
    ensures Append(Copies(g, n, tl), ys) == Copies(g, n, Append(tl, ys))
  {
    if n > 0 { CopiesAppend(g, n - 1, tl, ys); }
  }

  lemma SeenReplicated(lazy: bool, g: Group, min: nat, max: int, ys: Items)
    requires (max == -1 || (max >= 1 && min <= max)) && !g.s
    ensures CouldBeEmpty(Append(Replicated(lazy, g, min, max), ys)) <==>
              if min == 0 then CouldBeEmpty(ys)
              else AnyBranchEmpty(g.alts) && if max == -1 then CouldBeEmpty(g.alts.b) else CouldBeEmpty(ys)
  {
    hide AnyBranchEmpty;
    if min == 0 {
      var its := Replicated(lazy, g, min, max);
      assert Append(its, ys) == Cons(its.hd, ys) by { assert Append(Nil, ys) == ys; }
    } else if max == -1 {
      var l := Cons(Grp(Looped(lazy, g)), Nil);
      CopiesAppend(g, min - 1, l, ys);
      SeenCopies(g, min - 1, Append(l, ys));
      assert Append(l, ys) == Cons(l.hd, ys) by { assert Append(Nil, ys) == ys; }
    } else {
      var tl := if max > min then Cons(Nested(lazy, g, max - min), Nil) else Nil;
      CopiesAppend(g, min, tl, ys);
      SeenCopies(g, min, Append(tl, ys));
      assert Append(Nil, ys) == ys;
    }
  }

  lemma SeenQuantified(u: Unit, min: nat, max: int, m: Mode, ys: Items)
    requires max == -1 || min <= max
    ensures CouldBeEmpty(Append(Quantified(u, min, max, m), ys)) <==> min == 0 && CouldBeEmpty(ys)
  {
    assert Append(Nil, ys) == ys;
  }

  lemma {:induction false} SeenIs(ps: Pieces, caseless: bool)
    requires PiecesOk(ps, caseless)
    ensures CouldBeEmpty(EmitAll(ps, caseless)) <==> Seen(ps)
    decreases ps, 0
  {
    hide Quantified, Replicated, AnyBranchEmpty;
    if ps.Then? {
      var p, ys := ps.hd, EmitAll(ps.tl, caseless);
      SeenIs(ps.tl, caseless);
      match p {
        case Single(u, _) => SeenSingle(One(u), ys);
        case Repeat(u, min, max, m, _) => SeenQuantified(u, min, max, m, ys);
        case Paren(cap, alts) =>
          AnySeenIs(alts, caseless);
          SeenSingle(Grp(GroupOf(cap, alts, caseless)), ys);
        case RepeatParen(cap, alts, min, max, lazy) =>
          AnySeenIs(alts, caseless);
          SeenIs(alts.b, caseless);
          FirstBranch(alts, caseless);
          SeenReplicated(lazy, GroupOf(cap, alts, caseless), min, max, ys);
      }
    }
  }

  lemma FirstBranch(alts: Branches, caseless: bool)
    requires BranchesOk(alts, caseless)
    ensures EmitBranches(alts, caseless).b == EmitAll(alts.b, caseless)
  {
  }

  lemma SeenSingle(n: Node, ys: Items)
    requires n.One? || n.Grp?
    ensures n.One? ==> !CouldBeEmpty(Append(Cons(n, Nil), ys))
    ensures n.Grp? && !n.g.s ==> (CouldBeEmpty(Append(Cons(n, Nil), ys)) <==> AnyBranchEmpty(n.g.alts) && CouldBeEmpty(ys))
  {
    assert Append(Nil, ys) == ys;
  }

  lemma {:induction false} AnySeenIs(alts: Branches, caseless: bool)
    requires BranchesOk(alts, caseless)
    ensures AnyBranchEmpty(EmitBranches(alts, caseless)) <==> AnySeen(alts)
    decreases alts, 0
  {
    hide CouldBeEmpty, EmitAll, Seen;
    SeenIs(alts.b, caseless);
    if alts.Or? { AnySeenIs(alts.rest, caseless); }
  }

  // ---- The compiled code is marked as match() needs it exactly when the pattern is settled ------------------------

  lemma {:induction false} CheckedAppend(xs: Items, ys: Items)
    ensures CheckedItems(Append(xs, ys)) <==> CheckedItems(xs) && CheckedItems(ys)
  {
    hide CheckedGroup;
    if xs.Cons? { CheckedAppend(xs.tl, ys); }
  }

  lemma {:induction false} CheckedCopies(g: Group, n: nat, tl: Items)
    ensures CheckedItems(Copies(g, n, tl)) <==> (n == 0 || CheckedGroup(g)) && CheckedItems(tl)
  {
    hide CheckedGroup;
    if n > 0 { CheckedCopies(g, n - 1, tl); }
  }

  lemma {:induction false} CheckedNested(lazy: bool, g: Group, k: nat)
    requires k >= 1
    ensures CheckedGroup(Nested(lazy, g, k).g) <==> CheckedGroup(g)
  {
    if k > 1 {
      CheckedNested(lazy, g, k - 1);
      CheckedPair(g, Nested(lazy, g, k - 1));
    }
  }

  lemma CheckedPair(g: Group, n: Node)
    requires n.Zero?
    ensures CheckedGroup(Coupled(g, n)) <==> CheckedGroup(g) && CheckedGroup(n.g)
  {
    var its := Cons(Grp(g), Cons(n, Nil));
    assert CheckedItems(Nil);
    assert CheckedItems(its) <==> CheckedGroup(g) && CheckedItems(Cons(n, Nil));
  }

  lemma CheckedOne(n: Node)
    ensures CheckedItems(Cons(n, Nil)) <==> (n.Grp? || n.Zero? ==> CheckedGroup(n.g))
  {
    hide CheckedGroup;
    assert CheckedItems(Nil);
  }

  lemma CheckedReplicated(lazy: bool, g: Group, min: nat, max: int)
    requires (max == -1 || (max >= 1 && min <= max)) && !g.s && g.ket == Plain
    ensures CheckedItems(Replicated(lazy, g, min, max)) <==>
              CheckedAlts(g.alts) && (max == -1 && MinAlts(g.alts) == 0 ==> AnyBranchEmpty(g.alts))
  {
    hide CheckedItems, CheckedAlts, MinAlts, AnyBranchEmpty, Nested;
    var l := Looped(lazy, g);
    NothingChecked();
    if max == -1 {
      CheckedOne(Grp(l));
      CheckedOne(Zero(lazy, l));
      if min > 0 { CheckedCopies(g, min - 1, Cons(Grp(l), Nil)); }
    } else {
      if max > min {
        CheckedNested(lazy, g, max - min);
        NestedForm(lazy, g, max - min);
        CheckedOne(Nested(lazy, g, max - min));
      }
      if min > 0 { CheckedCopies(g, min, if max > min then Cons(Nested(lazy, g, max - min), Nil) else Nil); }
    }
  }

  lemma NothingChecked()
    ensures CheckedItems(Nil)
  {
  }

  lemma {:induction false} PiecesSettled(ps: Pieces, caseless: bool)
    requires PiecesOk(ps, caseless)
    ensures CheckedItems(EmitAll(ps, caseless)) <==> SettledPieces(ps)
    decreases ps, 0
  {
    hide Quantified, Replicated, CheckedItems, CheckedAlts, MinAlts, AnyBranchEmpty, AnyNullable, AnySeen;
    NothingChecked();
    if ps.Then? {
      var p := ps.hd;
      CheckedAppend(Emit(p, caseless), EmitAll(ps.tl, caseless));
      PiecesSettled(ps.tl, caseless);
      match p {
        case Single(u, _) => CheckedOne(One(u));
        case Repeat(u, min, max, m, _) => CheckedQuantified(u, min, max, m);
        case Paren(cap, alts) =>
          BranchesSettled(alts, caseless);
          CheckedOne(Grp(GroupOf(cap, alts, caseless)));
        case RepeatParen(cap, alts, min, max, lazy) =>
          BranchesSettled(alts, caseless);
          AnyNullableIs(alts, caseless);
          AnySeenIs(alts, caseless);
          CheckedReplicated(lazy, GroupOf(cap, alts, caseless), min, max);
      }
    }
  }

  lemma CheckedQuantified(u: Unit, min: nat, max: int, m: Mode)
    requires max == -1 || min <= max
    ensures CheckedItems(Quantified(u, min, max, m))
  {
    assert CheckedItems(Nil);
    var its := Quantified(u, min, max, m);
    if its.Cons? { assert CheckedItems(its.tl); }
  }

  lemma {:induction false} BranchesSettled(alts: Branches, caseless: bool)
    requires BranchesOk(alts, caseless)
    ensures CheckedAlts(EmitBranches(alts, caseless)) <==> Settled(alts)
    decreases alts, 0
  {
    hide CheckedItems, EmitAll, SettledPieces;
    PiecesSettled(alts.b, caseless);
    if alts.Or? { BranchesSettled(alts.rest, caseless); }
  }

  /** The code of a pattern meets the demand of match(), that unlimited repeats which can match nothing are
      marked, exactly when the pattern is settled. */
  lemma PatternSettled(cap: nat, alts: Branches, caseless: bool)
    requires BranchesOk(alts, caseless)
    ensures CheckedGroup(GroupOf(cap, alts, caseless)) <==> Settled(alts)
  {
    BranchesSettled(alts, caseless);
  }

  const A := Single(Chr(97), true)

  /** (?:a|)+ */
  const LOOP := RepeatParen(0, Or(Then(A, End), Only(End)), 1, -1, false)

  /** (?:|a)+ */
  const SWAPPED := RepeatParen(0, Or(End, Only(Then(A, End))), 1, -1, false)

  /** (?:(?:a|)+b)+ is settled, since b is consumed in every round, but (?:(?:a|)+)+ is not: the scan sees only
      the branch a of the inner group. (?:(?:|a)+)+ is settled again. */
  lemma LoopsInLoops()
    ensures SettledPiece(RepeatParen(0, Only(Then(LOOP, Then(Single(Chr(98), true), End))), 1, -1, false))
    ensures !SettledPiece(RepeatParen(0, Only(Then(LOOP, End)), 1, -1, false))
    ensures SettledPiece(RepeatParen(0, Only(Then(SWAPPED, End)), 1, -1, false))
  {
    var none, one := Only(End), Then(A, End);
    assert Settled(none) && SettledPieces(one) && AnySeen(none) && !Seen(one) && AnyNullable(none);
    assert SettledPiece(LOOP) && SettledPieces(Then(LOOP, End));
    assert SettledPieces(Then(Single(Chr(98), true), End)) && !Nullable(Then(Single(Chr(98), true), End));
    assert !Nullable(Then(LOOP, Then(Single(Chr(98), true), End)));
    assert Nullable(Then(LOOP, End)) && !Seen(Then(LOOP, End));
    assert Settled(SWAPPED.alts) && AnySeen(SWAPPED.alts) && SettledPieces(Then(SWAPPED, End));
    assert Seen(Then(SWAPPED, End)) by { assert Seen(SWAPPED.alts.b); }
  }
}

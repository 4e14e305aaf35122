/** Auto-possessification over a whole pattern: every unlimited repeat becomes possessive for which
    check_auto_possessive() says yes. The pattern keeps all its outcomes, unless the check misses that the next
    item may be absent. */
module Possessing {
  import opened ByteCode
  import opened Meaning
  import opened Outcomes
  import opened Backtracking
  import opened DfaSteps
  import opened AutoPossess
  import opened PossessCheck
  import opened Emptiness
  import opened Replicate
  import opened Repetition
  import opened Marking
  import opened Syntax
  import opened Sizes

  // ---- The pattern with its possessive repeats ----------------------------------------------------------------

  /** The repeat of u is followed by a clear item that matches nothing u matches. */
  predicate Decided(tb: Tables, caseless: bool, u: Unit, tl: Pieces)
    requires tb.Valid()
  {
    && tl.Then?
    && (tl.hd.Single? || tl.hd.Repeat?)
    && tl.hd.clear
    && Comparable(caseless, tl.hd.u)
    && (Comparable(caseless, u) || u.NotChr?)
    && Excludes(tb, caseless, u, tl.hd.u)
  }

  function PossessAll(tb: Tables, caseless: bool, ps: Pieces): Pieces
    requires tb.Valid()
    decreases ps, 0
  {
    match ps
    case End => End
    case Then(p, tl) => Pieces.Then(PossessPiece(tb, caseless, p, tl), PossessAll(tb, caseless, tl))
  }

  function PossessPiece(tb: Tables, caseless: bool, p: Piece, tl: Pieces): Piece
    requires tb.Valid()
    decreases p, 1
  {
    match p
    case Single(_, _) => p
    case Repeat(u, min, max, m, _) =>
      if max == -1 && Decided(tb, caseless, u, tl) then p.(m := Possessive) else p
    case Paren(cap, alts) => Paren(cap, Possess(tb, caseless, alts))
    case RepeatParen(cap, alts, min, max, lazy) => RepeatParen(cap, Possess(tb, caseless, alts), min, max, lazy)
  }

  function Possess(tb: Tables, caseless: bool, alts: Branches): Branches
    requires tb.Valid()
    decreases alts, 1
  {
    match alts
    case Only(b) => Only(PossessAll(tb, caseless, b))
    case Or(b, rest) => Or(PossessAll(tb, caseless, b), Possess(tb, caseless, rest))
  }

  /** No repeat that becomes possessive stands before an item with a minimum of zero: the check sees of all these
      items that they are optional. */
  predicate NoZeroMissed(tb: Tables, caseless: bool, alts: Branches)
    requires tb.Valid()
    decreases alts, 1
  {
    NoZeroAlong(tb, caseless, alts.b) && (alts.Or? ==> NoZeroMissed(tb, caseless, alts.rest))
  }

  predicate NoZeroAlong(tb: Tables, caseless: bool, ps: Pieces)
    requires tb.Valid()
    decreases ps, 0
  {
    ps.Then? ==> NoZeroAfter(tb, caseless, ps.hd, ps.tl) && NoZeroAlong(tb, caseless, ps.tl)
  }

  predicate NoZeroAfter(tb: Tables, caseless: bool, p: Piece, tl: Pieces)
    requires tb.Valid()
    decreases p, 2
  {
    match p
    case Single(_, _) => true
    case Repeat(u, _, max, m, _) =>
      max == -1 && m != Possessive && Decided(tb, caseless, u, tl) && tl.hd.Repeat? ==> tl.hd.min > 0
    case Paren(_, alts) => NoZeroMissed(tb, caseless, alts)
    case RepeatParen(_, alts, _, _, _) => NoZeroMissed(tb, caseless, alts)
  }

  // ---- What stays as it was -----------------------------------------------------------------------------------

  lemma {:induction false} PiecesStay(tb: Tables, caseless: bool, ps: Pieces)
    requires tb.Valid() && PiecesOk(ps, caseless)
    ensures var ps' := PossessAll(tb, caseless, ps);
            && PiecesOk(ps', caseless)
            && (Seen(ps') <==> Seen(ps))
            && (Nullable(ps') <==> Nullable(ps))
            && (SettledPieces(ps') <==> SettledPieces(ps))
    decreases ps, 0
  {
    hide Decided, UnitFits;
    if ps.Then? {
      PiecesStay(tb, caseless, ps.tl);
      UnitsDecided(tb, caseless, ps.hd, ps.tl);
      if ps.hd.Paren? || ps.hd.RepeatParen? {
        BranchesStay(tb, caseless, ps.hd.alts);
        FirstStays(tb, caseless, ps.hd.alts);
        PiecesStay(tb, caseless, ps.hd.alts.b);
      }
    }
  }

  lemma UnitsDecided(tb: Tables, caseless: bool, p: Piece, tl: Pieces)
    requires tb.Valid()
    ensures p.Repeat? && Decided(tb, caseless, p.u, tl) ==> !p.u.Class?
  {
  }

  lemma FirstStays(tb: Tables, caseless: bool, alts: Branches)
    requires tb.Valid()
    ensures Possess(tb, caseless, alts).b == PossessAll(tb, caseless, alts.b)
  {
  }

  lemma {:induction false} BranchesStay(tb: Tables, caseless: bool, alts: Branches)
    requires tb.Valid() && BranchesOk(alts, caseless)
    ensures var alts' := Possess(tb, caseless, alts);
            && BranchesOk(alts', caseless)
            && (AnySeen(alts') <==> AnySeen(alts))
            && (AnyNullable(alts') <==> AnyNullable(alts))
            && (Settled(alts') <==> Settled(alts))
    decreases alts, 1
  {
    hide PossessAll, Seen, Nullable, SettledPieces, PiecesOk;
    PiecesStay(tb, caseless, alts.b);
    if alts.Or? { BranchesStay(tb, caseless, alts.rest); }
  }

  // ---- Items with the same outcomes ---------------------------------------------------------------------------

  ghost predicate Alike(a: Attempt, xs: Items, ys: Items) {
    forall st: State :: ItemsOutcomes(a, xs, st) == ItemsOutcomes(a, ys, st)
  }

  ghost predicate AlikeAlts(a: Attempt, x: Alts, y: Alts) {
    forall st: State :: AltsOutcomes(a, x, st) == AltsOutcomes(a, y, st)
  }

  ghost predicate AlikeGroups(a: Attempt, x: Group, y: Group) {
    forall st: State :: GroupOutcomes(a, x, st) == GroupOutcomes(a, y, st)
  }

  lemma {:induction false} ThenThen(a: Attempt, sts: seq<State>, xs: Items, ys: Items)
    ensures Outcomes.Then(a, sts, Append(xs, ys)) == Outcomes.Then(a, Outcomes.Then(a, sts, xs), ys)
    decreases xs, 1, |sts|
  {
    hide ItemsOutcomes;
    if sts != [] {
      ItemsThen(a, xs, ys, sts[0]);
      ThenThen(a, sts[1..], xs, ys);
      ThenAppend(a, ItemsOutcomes(a, xs, sts[0]), Outcomes.Then(a, sts[1..], xs), ys);
    }
  }

  lemma {:induction false} ItemsThen(a: Attempt, xs: Items, ys: Items, st: State)
    ensures ItemsOutcomes(a, Append(xs, ys), st) == Outcomes.Then(a, ItemsOutcomes(a, xs, st), ys)
    decreases xs, 0
  {
    hide NodeOutcomes;
    if xs.Cons? {
      ThenThen(a, NodeOutcomes(a, xs.hd, st), xs.tl, ys);
    } else {
      ThenOne(a, st, ys);
    }
  }

  lemma {:induction false} ThenAlike(a: Attempt, sts: seq<State>, xs: Items, ys: Items)
    requires Alike(a, xs, ys)
    ensures Outcomes.Then(a, sts, xs) == Outcomes.Then(a, sts, ys)
    decreases |sts|
  {
    hide ItemsOutcomes;
    if sts != [] {
      assert ItemsOutcomes(a, xs, sts[0]) == ItemsOutcomes(a, ys, sts[0]);
      ThenAlike(a, sts[1..], xs, ys);
    }
  }

  lemma AlikeAppend(a: Attempt, xs: Items, xs': Items, ys: Items, ys': Items)
    requires Alike(a, xs, xs') && Alike(a, ys, ys')
    ensures Alike(a, Append(xs, ys), Append(xs', ys'))
  {
    hide ItemsOutcomes;
    forall st: State ensures ItemsOutcomes(a, Append(xs, ys), st) == ItemsOutcomes(a, Append(xs', ys'), st) {
      ItemsThen(a, xs, ys, st);
      ItemsThen(a, xs', ys', st);
      assert ItemsOutcomes(a, xs, st) == ItemsOutcomes(a, xs', st);
      ThenAlike(a, ItemsOutcomes(a, xs, st), ys, ys');
    }
  }

  lemma AlikeGrp(a: Attempt, g: Group, g': Group, tl: Items, tl': Items)
    requires AlikeGroups(a, g, g') && Alike(a, tl, tl')
    ensures Alike(a, Cons(Grp(g), tl), Cons(Grp(g'), tl'))
  {
    hide GroupOutcomes;
    forall st: State ensures ItemsOutcomes(a, Cons(Grp(g), tl), st) == ItemsOutcomes(a, Cons(Grp(g'), tl'), st) {
      assert GroupOutcomes(a, g, st) == GroupOutcomes(a, g', st);
      ThenAlike(a, GroupOutcomes(a, g, st), tl, tl');
    }
  }

  lemma AlikeZero(a: Attempt, lazy: bool, g: Group, g': Group, tl: Items, tl': Items)
    requires AlikeGroups(a, g, g') && Alike(a, tl, tl')
    ensures Alike(a, Cons(Zero(lazy, g), tl), Cons(Zero(lazy, g'), tl'))
  {
    hide GroupOutcomes;
    forall st: State ensures ItemsOutcomes(a, Cons(Zero(lazy, g), tl), st) == ItemsOutcomes(a, Cons(Zero(lazy, g'), tl'), st) {
      assert GroupOutcomes(a, g, st) == GroupOutcomes(a, g', st);
      ThenAlike(a, NodeOutcomes(a, Zero(lazy, g), st), tl, tl');
    }
  }

  /** Groups of the same kind whose branches have the same outcomes. */
  lemma {:induction false} GroupSame(a: Attempt, g: Group, g': Group, st: State)
    requires AlikeAlts(a, g.alts, g'.alts) && g' == g.(alts := g'.alts)
    ensures GroupOutcomes(a, g, st) == GroupOutcomes(a, g', st)
    decreases Rest(a, st.pos), 1, 0
  {
    hide AltsOutcomes, AfterEach;
    assert AltsOutcomes(a, g.alts, Enter(a, g, st)) == AltsOutcomes(a, g'.alts, Enter(a, g', st));
    EachSame(a, g, g', st.pos, AltsOutcomes(a, g.alts, Enter(a, g, st)));
  }

  lemma {:induction false} EachSame(a: Attempt, g: Group, g': Group, start: nat, xs: seq<State>)
    requires AlikeAlts(a, g.alts, g'.alts) && g' == g.(alts := g'.alts)
    ensures AfterEach(a, g, start, xs) == AfterEach(a, g', start, xs)
    decreases Rest(a, start), 0, |xs|
  {
    hide GroupOutcomes, AltsOutcomes;
    if xs != [] {
      if Loops(a, g, start, xs[0]) { GroupSame(a, g, g', Again(g, Close(a, g, xs[0]))); }
      assert AfterKet(a, g, start, xs[0]) == AfterKet(a, g', start, xs[0]);
      EachSame(a, g, g', start, xs[1..]);
    }
  }

  lemma AlikeBodies(a: Attempt, g: Group, g': Group)
    requires AlikeAlts(a, g.alts, g'.alts) && g' == g.(alts := g'.alts)
    ensures AlikeGroups(a, g, g')
  {
    hide GroupOutcomes, AltsOutcomes;
    forall st: State ensures GroupOutcomes(a, g, st) == GroupOutcomes(a, g', st) { GroupSame(a, g, g', st); }
  }

  lemma {:induction false} AlikeCopies(a: Attempt, g: Group, g': Group, n: nat, tl: Items, tl': Items)
    requires AlikeGroups(a, g, g') && Alike(a, tl, tl')
    ensures Alike(a, Copies(g, n, tl), Copies(g', n, tl'))
  {
    hide Alike, AlikeGroups;
    if n > 0 {
      AlikeCopies(a, g, g', n - 1, tl, tl');
      AlikeGrp(a, g, g', Copies(g, n - 1, tl), Copies(g', n - 1, tl'));
    }
  }

  lemma {:induction false} AlikeNested(a: Attempt, lazy: bool, g: Group, g': Group, k: nat)
    requires k >= 1 && AlikeGroups(a, g, g')
    ensures AlikeGroups(a, Nested(lazy, g, k).g, Nested(lazy, g', k).g)
    decreases k
  {
    hide AlikeGroups, AlikeAlts, Alike;
    if k > 1 {
      var n, n' := Nested(lazy, g, k - 1), Nested(lazy, g', k - 1);
      AlikeNested(a, lazy, g, g', k - 1);
      NoneAlike(a);
      AlikeZero(a, lazy, n.g, n'.g, Nil, Nil);
      AlikeGrp(a, g, g', Cons(n, Nil), Cons(n', Nil));
      AlikeLast(a, Cons(Grp(g), Cons(n, Nil)), Cons(Grp(g'), Cons(n', Nil)));
      AlikeBodies(a, Coupled(g, n), Coupled(g', n'));
    }
  }

  lemma NoneAlike(a: Attempt)
    ensures Alike(a, Nil, Nil)
  {
  }

  lemma AlikeLast(a: Attempt, xs: Items, ys: Items)
    requires Alike(a, xs, ys)
    ensures AlikeAlts(a, Last(xs), Last(ys))
  {
    hide ItemsOutcomes;
    forall st: State ensures AltsOutcomes(a, Last(xs), st) == AltsOutcomes(a, Last(ys), st) {
      assert ItemsOutcomes(a, xs, st) == ItemsOutcomes(a, ys, st);
    }
  }

  lemma AlikeMore(a: Attempt, xs: Items, ys: Items, x: Alts, y: Alts)
    requires Alike(a, xs, ys) && AlikeAlts(a, x, y)
    ensures AlikeAlts(a, More(xs, x), More(ys, y))
  {
    hide ItemsOutcomes;
    forall st: State ensures AltsOutcomes(a, More(xs, x), st) == AltsOutcomes(a, More(ys, y), st) {
      assert ItemsOutcomes(a, xs, st) == ItemsOutcomes(a, ys, st) && AltsOutcomes(a, x, st) == AltsOutcomes(a, y, st);
    }
  }

  lemma AlikeReplicated(a: Attempt, lazy: bool, g: Group, g': Group, min: nat, max: int)
    requires max == -1 || (max >= 1 && min <= max)
    requires AlikeAlts(a, g.alts, g'.alts) && g' == g.(alts := g'.alts) && (AnyBranchEmpty(g'.alts) <==> AnyBranchEmpty(g.alts))
    ensures Alike(a, Replicated(lazy, g, min, max), Replicated(lazy, g', min, max))
  {
    hide Alike, AlikeAlts, AlikeGroups, AnyBranchEmpty, Copies, Nested;
    AlikeBodies(a, g, g');
    NoneAlike(a);
    if max == -1 {
      var l, l' := Looped(lazy, g), Looped(lazy, g');
      AlikeBodies(a, l, l');
      AlikeZero(a, lazy, l, l', Nil, Nil);
      AlikeGrp(a, l, l', Nil, Nil);
      if min > 0 { AlikeCopies(a, g, g', min - 1, Cons(Grp(l), Nil), Cons(Grp(l'), Nil)); }
    } else {
      var k := max - min;
      var tl := if k > 0 then Cons(Nested(lazy, g, k), Nil) else Nil;
      var tl' := if k > 0 then Cons(Nested(lazy, g', k), Nil) else Nil;
      if k > 0 {
        AlikeNested(a, lazy, g, g', k);
        NestedForm(lazy, g, k);
        NestedForm(lazy, g', k);
        AlikeZero(a, lazy, Nested(lazy, g, k).g, Nested(lazy, g', k).g, Nil, Nil);
      }
      if min > 0 { AlikeCopies(a, g, g', min, tl, tl'); }
    }
  }

  // ---- The outcomes of the whole pattern stay the same --------------------------------------------------------

  /** A repeat that was decided on. What follows it starts with the item that it was compared with. */
  lemma RepeatAlike(a: Attempt, u: Unit, min: nat, m: Mode, v: Unit, tl: Items)
    requires a.c.Valid() && UnitOk(u) && UnitOk(v) && Exclusive(a.c.tb, a.c.caseless, u, v)
    requires !u.Class? && tl.Cons? && StartsWith(tl.hd, v)
    ensures Alike(a, Append(Quantified(u, min, -1, m), tl), Append(Quantified(u, min, -1, Possessive), tl))
  {
    hide ItemsOutcomes, Exclusive, StartsWith;
    var q := if min == 1 then Plus else Star;
    forall st: State
      ensures ItemsOutcomes(a, Append(Cons(Rep(u, q, m), Nil), tl), st)
           == ItemsOutcomes(a, Append(Cons(Rep(u, q, Possessive), Nil), tl), st)
    {
      assert Append(Nil, tl) == tl;
      PossessiveSame(a, u, q, m, tl.hd, v, tl.tl, st);
    }
    if min >= 2 {
      var n := Cons(Rep(u, Exact(min), Greedy), Nil);
      var x, y := Append(Cons(Rep(u, Star, m), Nil), tl), Append(Cons(Rep(u, Star, Possessive), Nil), tl);
      assert Alike(a, n, n);
      AlikeAppend(a, n, n, x, y);
      assert Append(n, x) == Cons(n.hd, Append(Nil, x)) == Cons(n.hd, x);
      assert Append(n, y) == Cons(n.hd, Append(Nil, y)) == Cons(n.hd, y);
    }
  }

  lemma FirstEmitted(tb: Tables, caseless: bool, u: Unit, tl: Pieces)
    requires tb.Valid() && PiecesOk(tl, caseless) && Decided(tb, caseless, u, tl)
    requires PiecesOk(PossessAll(tb, caseless, tl), caseless) && (tl.hd.Repeat? ==> tl.hd.min > 0)
    ensures var its := EmitAll(PossessAll(tb, caseless, tl), caseless); its.Cons? && StartsWith(its.hd, tl.hd.u)
  {
  }

  lemma {:induction false} PiecesAlike(a: Attempt, ps: Pieces)
    requires a.c.Valid() && OrderlyTables(a.c.tb) && PiecesOk(ps, a.c.caseless) && NoZeroAlong(a.c.tb, a.c.caseless, ps)
    requires PiecesOk(PossessAll(a.c.tb, a.c.caseless, ps), a.c.caseless)
    ensures Alike(a, EmitAll(ps, a.c.caseless), EmitAll(PossessAll(a.c.tb, a.c.caseless, ps), a.c.caseless))
    decreases ps, 0
  {
    hide Alike, AlikeAlts, OrderlyTables, Replicated, Quantified, Excludes, Exclusive, UnitFits, StartsWith;
    NoneAlike(a);
    if ps.Then? {
      var tb, caseless, p := a.c.tb, a.c.caseless, ps.hd;
      var p' := PossessPiece(tb, caseless, p, ps.tl);
      var ys, ys' := EmitAll(ps.tl, caseless), EmitAll(PossessAll(tb, caseless, ps.tl), caseless);
      PiecesAlike(a, ps.tl);
      SelfAlike(a, Emit(p, caseless));
      AlikeAppend(a, Emit(p, caseless), Emit(p, caseless), ys, ys');
      if p' != p {
        PieceAlike(a, p, ps.tl, ys');
        AlikeTrans(a, Append(Emit(p, caseless), ys), Append(Emit(p, caseless), ys'), Append(Emit(p', caseless), ys'));
      }
    }
  }

  lemma SelfAlike(a: Attempt, xs: Items)
    ensures Alike(a, xs, xs)
  {
  }

  lemma AlikeTrans(a: Attempt, xs: Items, ys: Items, zs: Items)
    requires Alike(a, xs, ys) && Alike(a, ys, zs)
    ensures Alike(a, xs, zs)
  {
    hide ItemsOutcomes;
    forall st: State ensures ItemsOutcomes(a, xs, st) == ItemsOutcomes(a, zs, st) {
      assert ItemsOutcomes(a, xs, st) == ItemsOutcomes(a, ys, st);
    }
  }

  lemma {:induction false} PieceAlike(a: Attempt, p: Piece, tl: Pieces, ys: Items)
    requires a.c.Valid() && OrderlyTables(a.c.tb) && PieceOk(p, a.c.caseless) && PiecesOk(tl, a.c.caseless)
    requires NoZeroAfter(a.c.tb, a.c.caseless, p, tl)
    requires PiecesOk(PossessAll(a.c.tb, a.c.caseless, tl), a.c.caseless)
    requires PieceOk(PossessPiece(a.c.tb, a.c.caseless, p, tl), a.c.caseless)
    requires ys == EmitAll(PossessAll(a.c.tb, a.c.caseless, tl), a.c.caseless)
    ensures Alike(a, Append(Emit(p, a.c.caseless), ys), Append(Emit(PossessPiece(a.c.tb, a.c.caseless, p, tl), a.c.caseless), ys))
    decreases p, 1
  {
    hide Alike, AlikeAlts, OrderlyTables, Replicated, Quantified, Excludes, Exclusive, StartsWith, PossessAll, EmitAll, AnyBranchEmpty;
    var tb, caseless := a.c.tb, a.c.caseless;
    SelfAlike(a, ys);
    match p
    case Single(_, _) => SelfAlike(a, Append(Emit(p, caseless), ys));
    case Repeat(u, min, max, m, _) =>
      SelfAlike(a, Append(Emit(p, caseless), ys));
      if max == -1 && m != Possessive && Decided(tb, caseless, u, tl) {
        FirstEmitted(tb, caseless, u, tl);
        ExcludedApart(tb, caseless, u, tl.hd.u);
        RepeatAlike(a, u, min, m, tl.hd.u, ys);
      }
    case Paren(cap, alts) =>
      var g, g' := GroupOf(cap, alts, caseless), GroupOf(cap, Possess(tb, caseless, alts), caseless);
      BranchesAlike(a, alts);
      AlikeBodies(a, g, g');
      NoneAlike(a);
      AlikeGrp(a, g, g', Nil, Nil);
      AlikeAppend(a, Cons(Grp(g), Nil), Cons(Grp(g'), Nil), ys, ys);
    case RepeatParen(cap, alts, min, max, lazy) =>
      var g, g' := GroupOf(cap, alts, caseless), GroupOf(cap, Possess(tb, caseless, alts), caseless);
      BranchesAlike(a, alts);
      BranchesStay(tb, caseless, alts);
      AnySeenIs(alts, caseless);
      AnySeenIs(Possess(tb, caseless, alts), caseless);
      AlikeReplicated(a, lazy, g, g', min, max);
      AlikeAppend(a, Replicated(lazy, g, min, max), Replicated(lazy, g', min, max), ys, ys);
  }

  lemma {:induction false} BranchesAlike(a: Attempt, alts: Branches)
    requires a.c.Valid() && OrderlyTables(a.c.tb) && BranchesOk(alts, a.c.caseless) && NoZeroMissed(a.c.tb, a.c.caseless, alts)
    requires BranchesOk(Possess(a.c.tb, a.c.caseless, alts), a.c.caseless)
    ensures AlikeAlts(a, EmitBranches(alts, a.c.caseless), EmitBranches(Possess(a.c.tb, a.c.caseless, alts), a.c.caseless))
    decreases alts, 0
  {
    hide Alike, AlikeAlts, OrderlyTables, EmitAll, PossessAll, PiecesOk;
    var tb, caseless := a.c.tb, a.c.caseless;
    PiecesAlike(a, alts.b);
    var xs, ys := EmitAll(alts.b, caseless), EmitAll(PossessAll(tb, caseless, alts.b), caseless);
    if alts.Or? {
      BranchesAlike(a, alts.rest);
      AlikeMore(a, xs, ys, EmitBranches(alts.rest, caseless), EmitBranches(Possess(tb, caseless, alts.rest), caseless));
    } else {
      AlikeLast(a, xs, ys);
    }
  }

  /** The whole pattern, as a bracketed group, keeps its outcomes and their order, from every state. */
  lemma PossessedSame(a: Attempt, cap: nat, alts: Branches, st: State)
    requires a.c.Valid() && OrderlyTables(a.c.tb) && BranchesOk(alts, a.c.caseless) && NoZeroMissed(a.c.tb, a.c.caseless, alts)
    ensures var alts' := Possess(a.c.tb, a.c.caseless, alts);
            && BranchesOk(alts', a.c.caseless)
            && GroupOutcomes(a, GroupOf(cap, alts', a.c.caseless), st) == GroupOutcomes(a, GroupOf(cap, alts, a.c.caseless), st)
  {
    hide OrderlyTables, AlikeAlts, Possess, EmitBranches;
    BranchesStay(a.c.tb, a.c.caseless, alts);
    BranchesAlike(a, alts);
    GroupSame(a, GroupOf(cap, alts, a.c.caseless), GroupOf(cap, Possess(a.c.tb, a.c.caseless, alts), a.c.caseless), st);
  }

  /** And it means what it meant. */
  lemma PossessedMeans(c: Context, alts: Branches, i: nat, j: nat)
    requires c.Valid() && OrderlyTables(c.tb) && BranchesOk(alts, c.caseless) && NoZeroMissed(c.tb, c.caseless, alts)
    requires i <= |c.s|
    ensures MBranches(c, Possess(c.tb, c.caseless, alts), i, j) <==> MBranches(c, alts, i, j)
  {
    hide OrderlyTables, Possess, EmitBranches, MBranches, AltsOutcomes, DAlts;
    var a, st := Attempt(c, 0, 0, 0, 0, false, false, 0), State(i, [], 0, [], false);
    var alts' := Possess(c.tb, c.caseless, alts);
    BranchesStay(c.tb, c.caseless, alts);
    BranchesAlike(a, alts);
    BranchesMean(c, alts, i, j);
    BranchesMean(c, alts', i, j);
    var x, y := EmitBranches(alts, c.caseless), EmitBranches(alts', c.caseless);
    assert AltsOutcomes(a, x, st) == AltsOutcomes(a, y, st);
    if DAlts(c, x, i, j) {
      var z := AltsComplete(a, x, st, j);
      AltsSound(a, y, st, z);
    }
    if DAlts(c, y, i, j) {
      var z := AltsComplete(a, y, st, j);
      AltsSound(a, x, st, z);
    }
  }

  /** The length that the first pass computes does not depend on possessiveness. */
  lemma {:induction false} PossessedLen(tb: Tables, caseless: bool, ps: Pieces)
    requires tb.Valid() && PiecesOk(ps, caseless) && PiecesOk(PossessAll(tb, caseless, ps), caseless)
    ensures PreAll(PossessAll(tb, caseless, ps), caseless) == PreAll(ps, caseless)
    decreases ps, 0
  {
    hide Quantified, RepeatedLen, ItemsLen, Decided, UnitFits;
    if ps.Then? {
      PossessedLen(tb, caseless, ps.tl);
      PossessedPiece(tb, caseless, ps.hd, ps.tl);
    }
  }

  lemma {:induction false} PossessedPiece(tb: Tables, caseless: bool, p: Piece, tl: Pieces)
    requires tb.Valid() && PieceOk(p, caseless) && PieceOk(PossessPiece(tb, caseless, p, tl), caseless)
    ensures PrePiece(PossessPiece(tb, caseless, p, tl), caseless) == PrePiece(p, caseless)
    decreases p, 1
  {
    hide Quantified, RepeatedLen, ItemsLen, Decided, UnitFits;
    match p
    case Single(_, _) =>
    case Repeat(u, min, max, m, _) => ModeLen(u, min, max, m, Possessive);
    case Paren(_, alts) => PossessedBranchesLen(tb, caseless, alts);
    case RepeatParen(_, alts, _, _, _) => PossessedBranchesLen(tb, caseless, alts);
  }

  lemma ModeLen(u: Unit, min: nat, max: int, m: Mode, m': Mode)
    requires max == -1 || min <= max
    ensures ItemsLen(Quantified(u, min, max, m)) == ItemsLen(Quantified(u, min, max, m'))
  {
    hide ItemsLen;
    if max == 0 {
    } else if u.Class? {
      LastLen(u, ClassQuant(min, max), m, m');
    } else if min == 0 {
      LastLen(u, if max == -1 then Star else if max == 1 then Query else Upto(max), m, m');
    } else if min == 1 {
      LastLen(u, Plus, m, m');
      if max > 1 {
        LastLen(u, Upto(max - 1), m, m');
        FrontLen(One(u), Cons(Rep(u, Upto(max - 1), m), Nil));
        FrontLen(One(u), Cons(Rep(u, Upto(max - 1), m'), Nil));
      }
    } else {
      if max != min {
        LastLen(u, if max == -1 then Star else if max - min == 1 then Query else Upto(max - min), m, m');
      }
      FrontLen(Rep(u, Exact(min), Greedy), AfterExact(u, min, max, m));
      FrontLen(Rep(u, Exact(min), Greedy), AfterExact(u, min, max, m'));
    }
  }

  lemma LastLen(u: Unit, q: Quant, m: Mode, m': Mode)
    ensures ItemsLen(Cons(Rep(u, q, m), Nil)) == ItemsLen(Cons(Rep(u, q, m'), Nil))
  {
    FrontLen(Rep(u, q, m), Nil);
    FrontLen(Rep(u, q, m'), Nil);
  }

  lemma FrontLen(n: Node, tl: Items)
    ensures ItemsLen(Cons(n, tl)) == NodeLen(n) + ItemsLen(tl)
  {
  }

  lemma {:induction false} PossessedBranchesLen(tb: Tables, caseless: bool, alts: Branches)
    requires tb.Valid() && BranchesOk(alts, caseless) && BranchesOk(Possess(tb, caseless, alts), caseless)
    ensures PreBranches(Possess(tb, caseless, alts), caseless) == PreBranches(alts, caseless)
    decreases alts, 0
  {
    hide PossessAll, PiecesOk, PreAll;
    PossessedLen(tb, caseless, alts.b);
    if alts.Or? { PossessedBranchesLen(tb, caseless, alts.rest); }
  }

  // ---- Where a zero is missed ---------------------------------------------------------------------------------

  /** The quantifier of a piece. */
  function QuantityOf(p: Piece): Quantity
    requires p.Single? || p.Repeat?
  {
    if p.Single? then Once else Times(p.min, p.max)
  }

  /** For a single repeat before a clear item that excludes it, becoming possessive is right for everything that
      may follow exactly when the item has a minimum above zero. */
  lemma DecidedExactly(tb: Tables, caseless: bool, u: Unit, q: Quant, m: Mode, tl: Pieces)
    requires DefaultTables(tb) && tb.Valid() && PiecesOk(tl, caseless) && Decided(tb, caseless, u, tl)
    requires (q.Star? || q.Plus?) && m != Possessive
    ensures AlwaysSame(tb, caseless, u, q, m, Emit(tl.hd, caseless)) <==> (tl.hd.Repeat? ==> tl.hd.min > 0)
  {
    hide DefaultTables, Excludes, Exclusive, AlwaysSame, Quantified;
    ExcludesExactly(tb, caseless, u, tl.hd.u);
    var qt, m2 := QuantityOf(tl.hd), if tl.hd.Repeat? then tl.hd.m else Greedy;
    assert Emit(tl.hd, caseless) == NextItems(tl.hd.u, qt, m2);
    if qt.Least() > 0 {
      LeastSame(tb, caseless, u, q, m, tl.hd.u, qt, m2);
    } else {
      ZeroDiffers(tb, caseless, u, q, m, tl.hd.u, qt, m2);
    }
  }

  const CHAR_a := Chr(97)
  const CHAR_b := Chr(98)

  /** a+b{0}a, in which the check takes b{0} for an item that has to match. */
  /** b{0}a, in which the check takes b{0} for an item that has to match; and a+b{0}a. */
  const AFTER := Then(Repeat(CHAR_b, 0, 0, Greedy, true), Then(Single(CHAR_a, true), End))
  const MISSED := Only(Then(Repeat(CHAR_a, 1, -1, Greedy, true), AFTER))

  lemma MissedFits()
    ensures BranchesOk(MISSED, false)
  {
    hide UnitFits, PiecesOk, PieceOk;
    assert UnitFits(CHAR_a, false) && UnitFits(CHAR_b, false) by { MissedUnits(); }
    FrontFits(Single(CHAR_a, true), End);
    FrontFits(AFTER.hd, AFTER.tl);
    FrontFits(MISSED.b.hd, AFTER);
  }

  lemma FrontFits(p: Piece, tl: Pieces)
    requires (p.Single? || (p.Repeat? && LimitsOk(p.min, p.max) && p.m == Greedy)) && UnitFits(p.u, false)
    requires tl.End? || PiecesOk(tl, false)
    ensures PiecesOk(Then(p, tl), false)
  {
    hide UnitFits;
  }

  lemma MissedUnits()
    ensures UnitFits(CHAR_a, false) && UnitFits(CHAR_b, false)
  {
  }

  lemma MissedBecomes(tb: Tables)
    requires tb.Valid()
    ensures !NoZeroMissed(tb, false, MISSED)
    ensures Possess(tb, false, MISSED) == Only(Then(Repeat(CHAR_a, 1, -1, Possessive, true), AFTER))
  {
    hide Decided;
    var p := MISSED.b.hd;
    assert Decided(tb, false, CHAR_a, AFTER) by { MissedDecided(tb); }
    assert !NoZeroAfter(tb, false, p, AFTER);
    assert !NoZeroAlong(tb, false, MISSED.b);
    assert PossessPiece(tb, false, p, AFTER) == p.(m := Possessive);
    assert PossessAll(tb, false, End) == End;
    assert PossessAll(tb, false, AFTER.tl) == AFTER.tl;
    assert PossessAll(tb, false, AFTER) == AFTER;
    assert PossessAll(tb, false, MISSED.b) == Then(p.(m := Possessive), AFTER);
  }

  lemma MissedDecided(tb: Tables)
    requires tb.Valid()
    ensures Decided(tb, false, CHAR_a, AFTER)
  {
  }

  lemma AfterMeans(c: Context, i: nat, j: nat)
    requires c.Valid() && !c.caseless
    ensures MPieces(c, AFTER, i, j) <==> j == i + 1 && Test(c, CHAR_a, i)
  {
    assert MPieces(c, End, j, j);
    if MPieces(c, AFTER, i, j) {
      var n: nat :| i <= n <= j && MPiece(c, AFTER.hd, i, n) && MPieces(c, AFTER.tl, n, j);
      var k: nat :| n <= k <= j && MPiece(c, AFTER.tl.hd, n, k) && MPieces(c, End, k, j);
    }
    if j == i + 1 && Test(c, CHAR_a, i) {
      assert MPiece(c, AFTER.hd, i, i) && MPiece(c, AFTER.tl.hd, i, j);
      assert MPieces(c, AFTER.tl, i, j);
    }
  }

  /** The pattern matches aa, and what is made of it matches nowhere in aa. */
  lemma MissedMeans(tb: Tables, i: nat, j: nat)
    requires tb.Valid() && i <= 2
    ensures BranchesOk(MISSED, false) && !NoZeroMissed(tb, false, MISSED)
    ensures var c := Context([97, 97], tb, false);
            MBranches(c, MISSED, 0, 2) && !MBranches(c, Possess(tb, false, MISSED), i, j)
  {
    hide Possess, PiecesOk, NoZeroMissed;
    var c := Context([97, 97], tb, false);
    MissedFits();
    MissedBecomes(tb);
    AfterMeans(c, 1, 2);
    assert Test(c, CHAR_a, 0) && Test(c, CHAR_a, 1);
    assert MPiece(c, MISSED.b.hd, 0, 1);
    assert MPieces(c, MISSED.b, 0, 2);
    var p := Repeat(CHAR_a, 1, -1, Possessive, true);
    forall m: nat | i <= m <= j ensures !(MPiece(c, p, i, m) && MPieces(c, AFTER, m, j)) {
      AfterMeans(c, m, j);
    }
  }

  /** With other tables than those of the C locale the comparison can be wrong: it takes no byte above 127 for a
      word character. */
  lemma LocaleLetters(tb: Tables, c: byte)
    requires tb.Valid() && c > 127 && HasCtype(tb, c, CTYPE_WORD)
    ensures Excludes(tb, false, Chr(c), Type(OP_WORDCHAR)) && !Exclusive(tb, false, Chr(c), Type(OP_WORDCHAR))
  {
    assert Accepts(tb, false, Chr(c), c) && Accepts(tb, false, Type(OP_WORDCHAR), c);
  }
}

/** Parsed patterns, and the code items that the compiler makes of them. */
module Syntax {
  import opened ByteCode
  import opened Meaning
  import opened Replicate
  import opened Repetition

  /** An item of a pattern: something that matches one byte, or a bracketed group, either of them perhaps
      with a quantifier. A maximum of -1 stands for no limit. What is written in the pattern also decides whether
      an item is clear: whether it is read, and not seen to be optional, by check_auto_possessive(). */
  datatype Piece =
    | Single(u: Unit, clear: bool)
    | Repeat(u: Unit, min: nat, max: int, m: Mode, clear: bool)
    | Paren(cap: nat, alts: Branches)
    | RepeatParen(cap: nat, alts: Branches, min: nat, max: int, lazy: bool)

  datatype Pieces = End | Then(hd: Piece, tl: Pieces)

  datatype Branches = Only(b: Pieces) | Or(b: Pieces, rest: Branches)

  // ---- What a pattern means ------------------------------------------------------------------------------

  ghost predicate MRun(c: Context, u: Unit, min: nat, max: int, m: Mode, i: nat, j: nat) {
    && i <= j <= |c.s|
    && (forall t: nat :: i <= t < j ==> Test(c, u, t))
    && min <= j - i
    && (max < 0 || j - i <= max)
    && (m == Possessive ==> j - i == max || !Test(c, u, j))
  }

  ghost predicate MPiece(c: Context, p: Piece, i: nat, j: nat)
    decreases p, 0, 0
  {
    match p
    case Single(u, _) => j == i + 1 && Test(c, u, i)
    case Repeat(u, min, max, m, _) => MRun(c, u, min, max, m, i, j)
    case Paren(_, alts) => MBranches(c, alts, i, j)
    case RepeatParen(_, alts, min, max, _) =>
      exists n: nat :: min <= n && (max < 0 || n <= max) && MTimes(c, alts, n, i, j)
  }

  /** n consecutive matches of one of the branches. */
  ghost predicate MTimes(c: Context, alts: Branches, n: nat, i: nat, j: nat)
    decreases alts, 1, n
  {
    if n == 0 then i == j
    else exists m: nat :: i <= m <= j && MBranches(c, alts, i, m) && MTimes(c, alts, n - 1, m, j)
  }

  ghost predicate MBranches(c: Context, alts: Branches, i: nat, j: nat)
    decreases alts, 0, 0
  {
    match alts
    case Only(b) => MPieces(c, b, i, j)
    case Or(b, rest) => MPieces(c, b, i, j) || MBranches(c, rest, i, j)
  }

  ghost predicate MPieces(c: Context, ps: Pieces, i: nat, j: nat)
    decreases ps, 0, 0
  {
    match ps
    case End => i == j
    case Then(p, tl) => exists m: nat :: i <= m <= j && MPiece(c, p, i, m) && MPieces(c, tl, m, j)
  }

  // ---- Well-formed patterns --------------------------------------------------------------------------------

  /** Literals are of the kind that the caseless option asks for; quantifiers fit their fields. */
  predicate UnitFits(u: Unit, caseless: bool) {
    UnitOk(u) && (u.Chr? ==> !caseless) && (u.ChrNC? ==> caseless)
  }

  predicate LimitsOk(min: nat, max: int) {
    min < 0x10000 && (max == -1 || (min <= max < 0x10000))
  }

  predicate PieceOk(p: Piece, caseless: bool)
    decreases p, 0
  {
    match p
    case Single(u, _) => UnitFits(u, caseless)
    case Repeat(u, min, max, m, _) =>
      UnitFits(u, caseless) && LimitsOk(min, max) && (m == Possessive ==> !u.Class? && !(min == 1 && max > 1))
    case Paren(cap, alts) => cap < 0x10000 && BranchesOk(alts, caseless)
    case RepeatParen(cap, alts, min, max, _) => cap < 0x10000 && BranchesOk(alts, caseless) && LimitsOk(min, max) && max != 0
  }

  predicate PiecesOk(ps: Pieces, caseless: bool)
    decreases ps, 0
  {
    ps.Then? ==> PieceOk(ps.hd, caseless) && PiecesOk(ps.tl, caseless)
  }

  predicate BranchesOk(alts: Branches, caseless: bool)
    decreases alts, 0
  {
    PiecesOk(alts.b, caseless) && (alts.Or? ==> BranchesOk(alts.rest, caseless))
  }

  // ---- The code items of a pattern -------------------------------------------------------------------------

  function Append(xs: Items, ys: Items): Items {
    match xs
    case Nil => ys
    case Cons(n, tl) => Cons(n, Append(tl, ys))
  }

  /** A quantified class has its own quantifier opcodes; other units are repeated by up to two items. */
  function Quantified(u: Unit, min: nat, max: int, m: Mode): Items
    requires max == -1 || min <= max
  {
    if max == 0 then Nil
    else if u.Class? then Cons(Rep(u, ClassQuant(min, max), m), Nil)
    else if min == 0 then
      Cons(Rep(u, if max == -1 then Star else if max == 1 then Query else Upto(max), m), Nil)
    else if min == 1 then
      if max == -1 then Cons(Rep(u, Plus, m), Nil)
      else Cons(One(u), if max == 1 then Nil else Cons(Rep(u, Upto(max - 1), m), Nil))
    else
      Cons(Rep(u, Exact(min), Greedy), AfterExact(u, min, max, m))
  }

  /** What follows an exact repeat. */
  function AfterExact(u: Unit, min: nat, max: int, m: Mode): Items
    requires max == -1 || min <= max
  {
    if max == -1 then Cons(Rep(u, Star, m), Nil)
    else if max == min then Nil
    else Cons(Rep(u, if max - min == 1 then Query else Upto(max - min), m), Nil)
  }

  function ClassQuant(min: nat, max: int): Quant
    requires max == -1 || min <= max
  {
    if min == 0 && max == -1 then Star
    else if min == 1 && max == -1 then Plus
    else if min == 0 && max == 1 then Query
    else Range(min, if max == -1 then 0 else max)
  }

  function Emit(p: Piece, caseless: bool): Items
    requires PieceOk(p, caseless)
    decreases p, 0
  {
    match p
    case Single(u, _) => Cons(One(u), Nil)
    case Repeat(u, min, max, m, _) => Quantified(u, min, max, m)
    case Paren(cap, alts) => Cons(Grp(GroupOf(cap, alts, caseless)), Nil)
    case RepeatParen(cap, alts, min, max, lazy) => Replicated(lazy, GroupOf(cap, alts, caseless), min, max)
  }

  function GroupOf(cap: nat, alts: Branches, caseless: bool): Group
    requires BranchesOk(alts, caseless)
    decreases alts, 1
  {
    Group(false, cap, EmitBranches(alts, caseless), Plain)
  }

  function EmitBranches(alts: Branches, caseless: bool): Alts
    requires BranchesOk(alts, caseless)
    decreases alts, 0
  {
    match alts
    case Only(b) => Last(EmitAll(b, caseless))
    case Or(b, rest) => Alts.More(EmitAll(b, caseless), EmitBranches(rest, caseless))
  }

  function EmitAll(ps: Pieces, caseless: bool): Items
    requires PiecesOk(ps, caseless)
    decreases ps, 0
  {
    match ps
    case End => Nil
    case Then(p, tl) => Append(Emit(p, caseless), EmitAll(tl, caseless))
  }

  // ---- The code items mean what the pattern means ------------------------------------------------------------

  lemma {:induction false} AppendMeans(c: Context, xs: Items, ys: Items, i: nat, j: nat)
    requires i <= |c.s|
    ensures DItems(c, Append(xs, ys), i, j) <==> exists m: nat :: i <= m <= j && DItems(c, xs, i, m) && DItems(c, ys, m, j)
    decreases xs
  {
    hide DNode;
    match xs
    case Nil =>
      if DItems(c, ys, i, j) { ItemsForward(c, ys, i, j); }
      assert DItems(c, Nil, i, i);
    case Cons(n, tl) =>
      if DItems(c, Append(xs, ys), i, j) {
        var t := FirstItem(c, n, Append(tl, ys), i, j);
        NodeForward(c, n, i, t);
        AppendMeans(c, tl, ys, t, j);
        var m: nat :| t <= m <= j && DItems(c, tl, t, m) && DItems(c, ys, m, j);
        BothItems(c, n, tl, i, t, m);
      }
      if m: nat :| i <= m <= j && DItems(c, xs, i, m) && DItems(c, ys, m, j) {
        var t := FirstItem(c, n, tl, i, m);
        NodeForward(c, n, i, t);
        AppendMeans(c, tl, ys, t, j);
        assert t <= m <= j && DItems(c, tl, t, m) && DItems(c, ys, m, j);
        BothItems(c, n, Append(tl, ys), i, t, j);
      }
  }

  /** A run split after its first part. */
  lemma RunSplit(c: Context, u: Unit, min: nat, max: int, m: Mode, i: nat, j: nat, k: nat)
    requires MRun(c, u, min, max, m, i, j) && k <= min && (max < 0 || k <= max)
    ensures MRun(c, u, k, k, Greedy, i, i + k)
    ensures MRun(c, u, min - k, if max < 0 then max else max - k, m, i + k, j)
  {
  }

  lemma RunJoin(c: Context, u: Unit, min: nat, max: int, m: Mode, i: nat, j: nat, k: nat)
    requires k <= min && (max < 0 || k <= max)
    requires MRun(c, u, k, k, Greedy, i, i + k)
    requires MRun(c, u, min - k, if max < 0 then max else max - k, m, i + k, j)
    ensures MRun(c, u, min, max, m, i, j)
  {
    forall t: nat | i <= t < j ensures Test(c, u, t) {
    }
  }

  lemma OneRun(c: Context, u: Unit, i: nat, j: nat)
    ensures DNode(c, One(u), i, j) <==> MRun(c, u, 1, 1, Greedy, i, j)
  {
    if MRun(c, u, 1, 1, Greedy, i, j) { assert Test(c, u, i); }
  }

  lemma RepRun(c: Context, u: Unit, q: Quant, m: Mode, i: nat, j: nat)
    ensures DNode(c, Rep(u, q, m), i, j) <==> MRun(c, u, q.Min(), q.Max(), m, i, j)
  {
  }

  /** Two items for a repeat of k units and more. */
  lemma TwoItems(c: Context, n: Node, u: Unit, tl: Items, min: nat, max: int, m: Mode, k: nat, i: nat, j: nat)
    requires i <= |c.s| && 1 <= k <= min && (max < 0 || k <= max)
    requires forall t: nat :: DNode(c, n, i, t) <==> MRun(c, u, k, k, Greedy, i, t)
    requires forall t: nat :: t <= |c.s| ==> (DItems(c, tl, t, j) <==> MRun(c, u, min - k, if max < 0 then max else max - k, m, t, j))
    ensures DItems(c, Cons(n, tl), i, j) <==> MRun(c, u, min, max, m, i, j)
  {
    hide DNode;
    if DItems(c, Cons(n, tl), i, j) {
      var t := FirstItem(c, n, tl, i, j);
      assert t == i + k;
      RunJoin(c, u, min, max, m, i, j, k);
    }
    if MRun(c, u, min, max, m, i, j) {
      RunSplit(c, u, min, max, m, i, j, k);
      assert DNode(c, n, i, i + k) && DItems(c, tl, i + k, j);
      BothItems(c, n, tl, i, i + k, j);
    }
  }

  /** The items of a quantified unit match exactly the runs that the quantifier allows. */
  lemma QuantifiedMeans(c: Context, u: Unit, min: nat, max: int, m: Mode, i: nat, j: nat)
    requires i <= |c.s| && (max == -1 || min <= max)
    ensures DItems(c, Quantified(u, min, max, m), i, j) <==> MRun(c, u, min, max, m, i, j)
  {
    hide MRun;
    if max == 0 {
      NoRun(c, u, m, i, j);
    } else if u.Class? || min == 0 || (min == 1 && max == -1) {
      var n := Quantified(u, min, max, m).hd;
      SingleMeans(c, n, i, j);
      RepRun(c, u, n.q, m, i, j);
    } else if min == 1 {
      forall t: nat ensures DNode(c, One(u), i, t) <==> MRun(c, u, 1, 1, Greedy, i, t) { OneRun(c, u, i, t); }
      var tl := Quantified(u, min, max, m).tl;
      forall t: nat | t <= |c.s| ensures DItems(c, tl, t, j) <==> MRun(c, u, 0, max - 1, m, t, j) {
        if max == 1 { NoRun(c, u, m, t, j); } else {
          SingleMeans(c, tl.hd, t, j);
          RepRun(c, u, tl.hd.q, m, t, j);
        }
      }
      TwoItems(c, One(u), u, tl, min, max, m, 1, i, j);
    } else {
      var n := Rep(u, Exact(min), Greedy);
      forall t: nat ensures DNode(c, n, i, t) <==> MRun(c, u, min, min, Greedy, i, t) { RepRun(c, u, Exact(min), Greedy, i, t); }
      var tl := AfterExact(u, min, max, m);
      forall t: nat | t <= |c.s|
        ensures DItems(c, tl, t, j) <==> MRun(c, u, 0, if max < 0 then max else max - min, m, t, j)
      {
        if tl.Nil? { NoRun(c, u, m, t, j); } else {
          SingleMeans(c, tl.hd, t, j);
          RepRun(c, u, tl.hd.q, m, t, j);
        }
      }
      TwoItems(c, n, u, tl, min, max, m, min, i, j);
    }
  }

  lemma NoRun(c: Context, u: Unit, m: Mode, i: nat, j: nat)
    requires i <= |c.s|
    ensures DItems(c, Nil, i, j) <==> MRun(c, u, 0, 0, m, i, j)
  {
  }

  lemma {:induction false} EmitMeans(c: Context, p: Piece, i: nat, j: nat)
    requires i <= |c.s| && PieceOk(p, c.caseless)
    ensures DItems(c, Emit(p, c.caseless), i, j) <==> MPiece(c, p, i, j)
    decreases p, 0, 0
  {
    hide DItems, DNode, Replicated, Quantified, MRun;
    match p
    case Single(u, _) =>
      SingleMeans(c, One(u), i, j);
      OneTest(c, u, i, j);
    case Repeat(u, min, max, m, _) => QuantifiedMeans(c, u, min, max, m, i, j);
    case Paren(cap, alts) =>
      var g := GroupOf(cap, alts, c.caseless);
      SingleMeans(c, Grp(g), i, j);
      GroupMeans(c, g, i, j);
      BranchesMean(c, alts, i, j);
    case RepeatParen(cap, alts, min, max, lazy) =>
      var g := GroupOf(cap, alts, c.caseless);
      RepeatMeans(c, lazy, g, min, max, i, j);
      forall n: nat ensures Iter(c, g.alts, n, i, j) <==> MTimes(c, alts, n, i, j) { TimesMean(c, alts, n, i, j); }
  }

  lemma OneTest(c: Context, u: Unit, i: nat, j: nat)
    ensures DNode(c, One(u), i, j) <==> j == i + 1 && Test(c, u, i)
  {
  }

  lemma {:induction false} TimesMean(c: Context, alts: Branches, n: nat, i: nat, j: nat)
    requires i <= |c.s| && BranchesOk(alts, c.caseless)
    ensures Iter(c, EmitBranches(alts, c.caseless), n, i, j) <==> MTimes(c, alts, n, i, j)
    decreases alts, 1, n
  {
    hide DAlts, MBranches, EmitBranches;
    if n > 0 {
      var a := EmitBranches(alts, c.caseless);
      if Iter(c, a, n, i, j) {
        var m := FirstIteration(c, a, n, i, j);
        AltsForward(c, a, i, m);
        BranchesMean(c, alts, i, m);
        TimesMean(c, alts, n - 1, m, j);
      }
      if MTimes(c, alts, n, i, j) {
        var m := FirstTime(c, alts, n, i, j);
        BranchesMean(c, alts, i, m);
        AltsForward(c, a, i, m);
        TimesMean(c, alts, n - 1, m, j);
      }
    }
  }

  lemma FirstTime(c: Context, alts: Branches, n: nat, i: nat, j: nat) returns (m: nat)
    requires n > 0 && MTimes(c, alts, n, i, j)
    ensures i <= m <= j && MBranches(c, alts, i, m) && MTimes(c, alts, n - 1, m, j)
  {
    m :| i <= m <= j && MBranches(c, alts, i, m) && MTimes(c, alts, n - 1, m, j);
  }

  lemma {:induction false} BranchesMean(c: Context, alts: Branches, i: nat, j: nat)
    requires i <= |c.s| && BranchesOk(alts, c.caseless)
    ensures DAlts(c, EmitBranches(alts, c.caseless), i, j) <==> MBranches(c, alts, i, j)
    decreases alts, 0, 0
  {
    hide DItems, MPieces, EmitAll;
    EmitAllMeans(c, alts.b, i, j);
    if alts.Or? { BranchesMean(c, alts.rest, i, j); }
  }

  /** The compiled items of a branch match exactly what the branch of the pattern means. */
  lemma {:induction false} EmitAllMeans(c: Context, ps: Pieces, i: nat, j: nat)
    requires i <= |c.s| && PiecesOk(ps, c.caseless)
    ensures DItems(c, EmitAll(ps, c.caseless), i, j) <==> MPieces(c, ps, i, j)
    decreases ps, 0, 0
  {
    hide DItems, Emit, MPiece, PieceOk;
    match ps
    case End => NilMeans(c, i, j);
    case Then(p, tl) =>
      var xs, ys := Emit(p, c.caseless), EmitAll(tl, c.caseless);
      AppendMeans(c, xs, ys, i, j);
      if DItems(c, Append(xs, ys), i, j) {
        var m: nat :| i <= m <= j && DItems(c, xs, i, m) && DItems(c, ys, m, j);
        EmitMeans(c, p, i, m);
        ItemsForward(c, xs, i, m);
        EmitAllMeans(c, tl, m, j);
      }
      if m: nat :| i <= m <= j && MPiece(c, p, i, m) && MPieces(c, tl, m, j) {
        EmitMeans(c, p, i, m);
        ItemsForward(c, xs, i, m);
        EmitAllMeans(c, tl, m, j);
      }
  }

  lemma NilMeans(c: Context, i: nat, j: nat)
    ensures DItems(c, Nil, i, j) <==> i == j
  {
  }
}

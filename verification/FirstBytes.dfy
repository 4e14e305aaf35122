/** The inference, while a pattern is compiled, of a byte that every match starts with and of a byte that
    every match contains. */
module FirstBytes {
  import opened Common
  import opened ByteCode
  import opened Meaning
  import opened Backtracking
  import opened DfaSteps
  import opened Exec
  import opened Syntax

  /** REQ_UNSET, REQ_NONE, or a byte with its flags. */
  datatype Req = Unset | NoByte | IsByte(c: byte, caseless: bool, vary: bool)

  /** firstbyte and reqbyte, and the values to go back to when the last item can be left out. */
  datatype Marks = Marks(first: Req, req: Req, zeroFirst: Req, zeroReq: Req)

  function LiteralOf(u: Unit, vary: bool): Req {
    if u.Chr? then IsByte(u.c, false, vary) else if u.ChrNC? then IsByte(u.c, true, vary) else NoByte
  }

  /** A literal is the first byte when nothing was before it; else it is a required byte. */
  function AfterLiteral(k: Marks, u: Unit, vary: bool): Marks {
    if k.first.Unset? then Marks(LiteralOf(u, false), k.req, NoByte, k.req)
    else Marks(k.first, LiteralOf(u, vary), k.first, k.req)
  }

  /** Something else that matches one byte. */
  function AfterOther(k: Marks): Marks {
    var first := if k.first.Unset? then NoByte else k.first;
    Marks(first, k.req, first, k.req)
  }

  function AfterUnit(k: Marks, u: Unit, vary: bool): Marks {
    if u.Chr? || u.ChrNC? then AfterLiteral(k, u, vary) else AfterOther(k)
  }

  /** A group, of which first and req are known; vary is the flag from before the group. */
  function AfterGroup(k: Marks, subFirst: Req, subReq: Req, vary: bool): Marks {
    if k.first.Unset? then
      Marks(if subFirst.IsByte? then subFirst else NoByte, if subReq.IsByte? then subReq else k.req, NoByte, k.req)
    else
      var required := if subFirst.IsByte? && !subReq.IsByte? then subFirst.(vary := subFirst.vary || vary) else subReq;
      Marks(k.first, if required.IsByte? then required else k.req, k.first, k.req)
  }

  /** Whether the group gave the branch its first byte. */
  predicate GroupSetsFirst(k: Marks, subFirst: Req) {
    k.first.Unset? && subFirst.IsByte?
  }

  /** A quantifier with minimum zero takes back what the item did. */
  function BackOff(k: Marks, min: nat): Marks {
    if min == 0 then k.(first := k.zeroFirst, req := k.zeroReq) else k
  }

  function UnitRepeated(k: Marks, u: Unit, min: nat, vary: bool): Marks {
    var k' := BackOff(k, min);
    if min > 1 && (u.Chr? || u.ChrNC?) then k'.(req := LiteralOf(u, vary)) else k'
  }

  function GroupRepeated(k: Marks, min: nat, setFirst: bool): Marks {
    var k' := BackOff(k, min);
    if min > 1 && setFirst && !k'.req.IsByte? then k'.(req := k'.first) else k'
  }

  predicate Varies(min: nat, max: int) {
    min != max
  }

  /** Taking a further branch into account. */
  function Merge(first: Req, req: Req, branchFirst: Req, branchReq: Req): (Req, Req) {
    var req1 := if first.IsByte? && first != branchFirst && !req.IsByte? then first else req;
    var first1 := if first.IsByte? && first != branchFirst then NoByte else first;
    var branchReq1 := if !first1.IsByte? && branchFirst.IsByte? && !branchReq.IsByte? then branchFirst else branchReq;
    (first1, SameByte(req1, branchReq1))
  }

  function SameByte(x: Req, y: Req): Req {
    if x.IsByte? && y.IsByte? && x.c == y.c && x.caseless == y.caseless then x.(vary := x.vary || y.vary)
    else if x == y then x
    else NoByte
  }

  /** Marks, and the flag for a varying item before. */
  datatype Inferred = Inferred(k: Marks, vary: bool)

  const START := Marks(Unset, Unset, Unset, Unset)

  function InferPiece(p: Piece, k: Marks, vary: bool): Inferred
    decreases p, 1
  {
    match p
    case Single(u, _) => Inferred(AfterUnit(k, u, vary), vary)
    case Repeat(u, min, max, _, _) =>
      Inferred(UnitRepeated(AfterUnit(k, u, vary), u, min, vary), vary || Varies(min, max))
    case Paren(_, alts) =>
      var sub := InferBranches(alts, vary);
      Inferred(AfterGroup(k, sub.k.first, sub.k.req, vary), sub.vary)
    case RepeatParen(_, alts, min, max, _) =>
      var sub := InferBranches(alts, vary);
      Inferred(GroupRepeated(AfterGroup(k, sub.k.first, sub.k.req, vary), min, GroupSetsFirst(k, sub.k.first)),
               sub.vary || Varies(min, max))
  }

  function InferAll(ps: Pieces, k: Marks, vary: bool): Inferred
    decreases ps, 0
  {
    if ps.End? then Inferred(k, vary)
    else
      var r := InferPiece(ps.hd, k, vary);
      InferAll(ps.tl, r.k, r.vary)
  }

  /** The branches of a group, merged from the first to the last. */
  function InferBranches(alts: Branches, vary: bool): Inferred
    decreases alts, 1
  {
    var r := InferAll(alts.b, START, vary);
    if alts.Only? then r else InferMore(alts.rest, r)
  }

  function InferMore(alts: Branches, r: Inferred): Inferred
    decreases alts, 1
  {
    var b := InferAll(alts.b, START, r.vary);
    var (first, req) := Merge(r.k.first, r.k.req, b.k.first, b.k.req);
    var r' := Inferred(r.k.(first := first, req := req), b.vary);
    if alts.Only? then r' else InferMore(alts.rest, r')
  }

  // ---- What the marks say about a match ------------------------------------------------------------------------

  predicate IsAt(c: Context, r: Req, k: nat) {
    r.IsByte? && c.Valid() && k < |c.s| && (c.s[k] == r.c || (r.caseless && c.tb.lcc[c.s[k]] == c.tb.lcc[r.c]))
  }

  /** The match from i to j starts with the first byte, if there is one. */
  ghost predicate StartsRight(c: Context, first: Req, i: nat, j: nat) {
    first.IsByte? ==> i < j && IsAt(c, first, i)
  }

  /** The match from i to j contains the required byte at or after lo, if there is one. */
  ghost predicate Contains(c: Context, req: Req, lo: nat, j: nat) {
    req.IsByte? ==> exists k: nat :: lo <= k < j && IsAt(c, req, k)
  }

  function Skip(first: Req, i: nat): nat {
    if first.IsByte? then i + 1 else i
  }

  ghost predicate Fits(c: Context, first: Req, req: Req, i: nat, j: nat) {
    && i <= j <= |c.s|
    && StartsRight(c, first, i, j)
    && Contains(c, req, Skip(first, i), j)
  }

  /** As Fits, for what has been matched of a branch so far: with no first byte yet, nothing. */
  ghost predicate FitsSoFar(c: Context, first: Req, req: Req, i: nat, j: nat) {
    Fits(c, first, req, i, j) && (first.Unset? ==> i == j && !req.IsByte?)
  }

  lemma ContainsMore(c: Context, req: Req, lo: nat, m: nat, lo': nat, j: nat)
    requires Contains(c, req, lo, m) && lo' <= lo && m <= j
    ensures Contains(c, req, lo', j)
  {
    if req.IsByte? { var k: nat :| lo <= k < m && IsAt(c, req, k); }
  }

  lemma LiteralAt(c: Context, u: Unit, m: nat, vary: bool)
    requires Test(c, u, m) && (u.Chr? || u.ChrNC?)
    ensures IsAt(c, LiteralOf(u, vary), m)
  {
  }

  /** A unit matched at least once after a match that fits: from m to j, all bytes are the unit's. */
  lemma UnitFitsMarks(c: Context, k: Marks, u: Unit, vary: bool, min: nat, i: nat, m: nat, j: nat)
    requires FitsSoFar(c, k.first, k.req, i, m) && m <= j <= |c.s| && min <= j - m
    requires forall t: nat :: m <= t < j ==> Test(c, u, t)
    ensures var k' := UnitRepeated(AfterUnit(k, u, vary), u, min, vary); FitsSoFar(c, k'.first, k'.req, i, j)
  {
    hide Test;
    var k1 := AfterUnit(k, u, vary);
    ContainsMore(c, k.req, Skip(k.first, i), m, Skip(k.first, i), j);
    if min == 0 {
      UnitLeftOut(c, k, u, vary, i, m, j);
    } else {
      assert Test(c, u, m);
      if u.Chr? || u.ChrNC? {
        LiteralAt(c, u, m, vary);
        LiteralAt(c, u, m, false);
        if min > 1 {
          assert Test(c, u, m + 1);
          LiteralAt(c, u, m + 1, vary);
        }
      }
    }
  }

  lemma UnitLeftOut(c: Context, k: Marks, u: Unit, vary: bool, i: nat, m: nat, j: nat)
    requires FitsSoFar(c, k.first, k.req, i, m) && m <= j <= |c.s|
    ensures var k1 := AfterUnit(k, u, vary); FitsSoFar(c, k1.zeroFirst, k1.zeroReq, i, j)
  {
    ContainsMore(c, k.req, Skip(k.first, i), m, Skip(k.first, i), j);
  }

  // ---- Groups ------------------------------------------------------------------------------------------------

  /** The group matched once, from m to t, after a match that fits; t to j is more of the match. */
  lemma GroupFitsMarks(c: Context, k: Marks, subFirst: Req, subReq: Req, vary: bool, i: nat, m: nat, t: nat, j: nat)
    requires FitsSoFar(c, k.first, k.req, i, m) && Fits(c, subFirst, subReq, m, t) && t <= j <= |c.s|
    ensures var k' := AfterGroup(k, subFirst, subReq, vary); FitsSoFar(c, k'.first, k'.req, i, j)
  {
    ContainsMore(c, k.req, Skip(k.first, i), m, Skip(k.first, i), j);
    ContainsMore(c, subReq, Skip(subFirst, m), t, if k.first.Unset? then Skip(subFirst, m) else m, j);
    if subFirst.IsByte? { assert IsAt(c, subFirst.(vary := subFirst.vary || vary), m); }
  }

  /** A group left out, or not counted on. */
  lemma GroupLeftOut(c: Context, k: Marks, subFirst: Req, subReq: Req, vary: bool, i: nat, m: nat, j: nat)
    requires FitsSoFar(c, k.first, k.req, i, m) && m <= j <= |c.s|
    ensures var k1 := AfterGroup(k, subFirst, subReq, vary); FitsSoFar(c, k1.zeroFirst, k1.zeroReq, i, j)
  {
    ContainsMore(c, k.req, Skip(k.first, i), m, Skip(k.first, i), j);
  }

  /** The group matched twice: its first byte occurs again. */
  lemma GroupTwice(c: Context, k: Marks, subFirst: Req, subReq: Req, vary: bool, i: nat, m: nat, t: nat, u: nat, j: nat)
    requires FitsSoFar(c, k.first, k.req, i, m) && Fits(c, subFirst, subReq, m, t) && Fits(c, subFirst, subReq, t, u)
    requires u <= j <= |c.s|
    ensures var k' := GroupRepeated(AfterGroup(k, subFirst, subReq, vary), 2, GroupSetsFirst(k, subFirst));
            FitsSoFar(c, k'.first, k'.req, i, j)
  {
    GroupFitsMarks(c, k, subFirst, subReq, vary, i, m, t, j);
    if GroupSetsFirst(k, subFirst) {
      assert IsAt(c, subFirst, t);
    }
  }

  // ---- Every match of the pattern ------------------------------------------------------------------------------

  lemma {:induction false} PieceFits(c: Context, p: Piece, k: Marks, vary: bool, i: nat, m: nat, j: nat)
    requires c.Valid() && FitsSoFar(c, k.first, k.req, i, m) && MPiece(c, p, m, j) && PieceOk(p, c.caseless)
    ensures var k' := InferPiece(p, k, vary).k; FitsSoFar(c, k'.first, k'.req, i, j)
    decreases p, 1
  {
    hide FitsSoFar, Fits, MBranches, AfterGroup, GroupRepeated, UnitRepeated, AfterUnit, Test;
    FitsInside(c, k.first, k.req, i, m);
    match p
    case Single(u, _) =>
      TestInside(c, u, m);
      UnitFitsMarks(c, k, u, vary, 1, i, m, j);
      OnceRepeated(AfterUnit(k, u, vary), u, vary);
    case Repeat(u, min, max, _, _) => UnitFitsMarks(c, k, u, vary, min, i, m, j);
    case Paren(_, alts) =>
      var sub := InferBranches(alts, vary).k;
      BranchesFit(c, alts, vary, m, j);
      FitsInside(c, sub.first, sub.req, m, j);
      GroupFitsMarks(c, k, sub.first, sub.req, vary, i, m, j, j);
    case RepeatParen(_, alts, min, max, _) =>
      var n: nat :| min <= n && (max < 0 || n <= max) && MTimes(c, alts, n, m, j);
      TimesFit(c, alts, k, vary, min, n, i, m, j);
  }

  lemma TestInside(c: Context, u: Unit, m: nat)
    requires Test(c, u, m)
    ensures m < |c.s|
  {
  }

  lemma OnceRepeated(k: Marks, u: Unit, vary: bool)
    ensures UnitRepeated(k, u, 1, vary) == k
  {
  }

  lemma FitsInside(c: Context, first: Req, req: Req, i: nat, j: nat)
    requires FitsSoFar(c, first, req, i, j) || Fits(c, first, req, i, j)
    ensures i <= j <= |c.s|
  {
  }

  lemma {:induction false} TimesFit(c: Context, alts: Branches, k: Marks, vary: bool, min: nat, n: nat, i: nat, m: nat, j: nat)
    requires c.Valid() && FitsSoFar(c, k.first, k.req, i, m) && MTimes(c, alts, n, m, j) && min <= n
    requires BranchesOk(alts, c.caseless)
    ensures var sub := InferBranches(alts, vary).k;
            var k' := GroupRepeated(AfterGroup(k, sub.first, sub.req, vary), min, GroupSetsFirst(k, sub.first));
            FitsSoFar(c, k'.first, k'.req, i, j)
    decreases alts, 3
  {
    hide FitsSoFar, Fits, MBranches, AfterGroup, GroupSetsFirst;
    var sub := InferBranches(alts, vary).k;
    FitsInside(c, k.first, k.req, i, m);
    TimesForward(c, alts, n, m, j);
    if min == 0 {
      GroupLeftOut(c, k, sub.first, sub.req, vary, i, m, j);
    } else {
      var t := FirstTime(c, alts, n, m, j);
      BranchesFit(c, alts, vary, m, t);
      FitsInside(c, sub.first, sub.req, m, t);
      TimesForward(c, alts, n - 1, t, j);
      GroupFitsMarks(c, k, sub.first, sub.req, vary, i, m, t, j);
      if min > 1 {
        var u := FirstTime(c, alts, n - 1, t, j);
        BranchesFit(c, alts, vary, t, u);
        FitsInside(c, sub.first, sub.req, t, u);
        TimesForward(c, alts, n - 2, u, j);
        GroupTwice(c, k, sub.first, sub.req, vary, i, m, t, u, j);
      }
    }
  }

  lemma TimesForward(c: Context, alts: Branches, n: nat, i: nat, j: nat)
    requires MTimes(c, alts, n, i, j) && i <= |c.s| && BranchesOk(alts, c.caseless)
    ensures i <= j <= |c.s|
  {
    TimesMean(c, alts, n, i, j);
    IterForward(c, EmitBranches(alts, c.caseless), n, i, j);
  }

  lemma {:induction false} AllFit(c: Context, ps: Pieces, k: Marks, vary: bool, i: nat, m: nat, j: nat)
    requires c.Valid() && FitsSoFar(c, k.first, k.req, i, m) && MPieces(c, ps, m, j) && PiecesOk(ps, c.caseless)
    ensures var k' := InferAll(ps, k, vary).k; FitsSoFar(c, k'.first, k'.req, i, j)
    decreases ps, 0
  {
    hide FitsSoFar, MPiece, InferPiece, PieceOk;
    match ps
    case End =>
    case Then(p, tl) =>
      var t: nat :| m <= t <= j && MPiece(c, p, m, t) && MPieces(c, tl, t, j);
      PieceFits(c, p, k, vary, i, m, t);
      var r := InferPiece(p, k, vary);
      AllFit(c, tl, r.k, r.vary, i, t, j);
  }

  lemma MergeFits(c: Context, first: Req, req: Req, branchFirst: Req, branchReq: Req, i: nat, j: nat)
    requires Fits(c, first, req, i, j) || Fits(c, branchFirst, branchReq, i, j)
    ensures var r := Merge(first, req, branchFirst, branchReq); Fits(c, r.0, r.1, i, j)
  {
    var r := Merge(first, req, branchFirst, branchReq);
    if Fits(c, first, req, i, j) {
      ContainsMore(c, req, Skip(first, i), j, Skip(r.0, i), j);
      if r.1.IsByte? && req.IsByte? { SameAt(c, req, r.1, Skip(r.0, i), j); }
      if r.1.IsByte? && !req.IsByte? { assert IsAt(c, r.1, i); }
    } else {
      ContainsMore(c, branchReq, Skip(branchFirst, i), j, Skip(r.0, i), j);
      if r.1.IsByte? && branchReq.IsByte? { SameAt(c, branchReq, r.1, Skip(r.0, i), j); }
      if r.1.IsByte? && !branchReq.IsByte? { assert IsAt(c, r.1, i); }
    }
  }

  lemma SameAt(c: Context, x: Req, y: Req, lo: nat, j: nat)
    requires x.IsByte? && y.IsByte? && x.c == y.c && x.caseless == y.caseless && Contains(c, x, lo, j)
    ensures Contains(c, y, lo, j)
  {
    var k: nat :| lo <= k < j && IsAt(c, x, k);
    assert IsAt(c, y, k);
  }

  /** What is inferred for a group holds of every match of the group. */
  lemma {:induction false} BranchesFit(c: Context, alts: Branches, vary: bool, i: nat, j: nat)
    requires c.Valid() && MBranches(c, alts, i, j) && BranchesOk(alts, c.caseless) && i <= |c.s|
    ensures var k := InferBranches(alts, vary).k; Fits(c, k.first, k.req, i, j)
    decreases alts, 1
  {
    hide Fits, MPieces, InferAll, PiecesOk;
    var r := InferAll(alts.b, START, vary);
    if MPieces(c, alts.b, i, j) { BranchFits(c, alts.b, vary, i, j); }
    if alts.Or? { MoreFit(c, alts.rest, r, i, j); }
  }

  lemma {:induction false} BranchFits(c: Context, ps: Pieces, vary: bool, i: nat, j: nat)
    requires c.Valid() && MPieces(c, ps, i, j) && PiecesOk(ps, c.caseless) && i <= |c.s|
    ensures var k := InferAll(ps, START, vary).k; Fits(c, k.first, k.req, i, j)
    decreases ps, 1
  {
    AllFit(c, ps, START, vary, i, i, j);
  }

  lemma {:induction false} MoreFit(c: Context, alts: Branches, r: Inferred, i: nat, j: nat)
    requires c.Valid() && BranchesOk(alts, c.caseless) && i <= |c.s|
    requires Fits(c, r.k.first, r.k.req, i, j) || MBranches(c, alts, i, j)
    ensures var k := InferMore(alts, r).k; Fits(c, k.first, k.req, i, j)
    decreases alts, 0
  {
    hide Fits, MPieces, InferAll, Merge, PiecesOk;
    var b := InferAll(alts.b, START, r.vary);
    if MPieces(c, alts.b, i, j) { BranchFits(c, alts.b, r.vary, i, j); }
    var (first, req) := Merge(r.k.first, r.k.req, b.k.first, b.k.req);
    var r' := Inferred(r.k.(first := first, req := req), b.vary);
    if Fits(c, r.k.first, r.k.req, i, j) || MPieces(c, alts.b, i, j) {
      MergeFits(c, r.k.first, r.k.req, b.k.first, b.k.req, i, j);
    }
    if alts.Or? { MoreFit(c, alts.rest, r', i, j); }
  }

  // ---- The facts that are recorded -------------------------------------------------------------------------------

  /** The flag for caseless matching is dropped for bytes that have no other case. */
  function FactOf(r: Req, tb: Tables): Option<Letter>
    requires tb.Valid()
  {
    if r.IsByte? then Some(Letter(r.c, r.caseless && tb.fcc[r.c] != r.c)) else None
  }

  /** An anchored pattern has no use for a first byte, and for a required byte only when it comes after an
      item of varying length. */
  function FactsOf(k: Marks, tb: Tables, anchored: bool, startline: bool, topBracket: nat): Facts
    requires tb.Valid()
  {
    Facts(if anchored then None else FactOf(k.first, tb),
          if k.req.IsByte? && (!anchored || k.req.vary) then FactOf(k.req, tb) else None,
          None, None, startline, topBracket)
  }

  /** The recorded first byte begins every match, and the recorded required byte is in every match, after
      the first byte if there is one. */
  lemma MarksAreSound(c: Context, cap: nat, alts: Branches, anchored: bool)
    requires CaseConsistent(c.tb) && BranchesOk(alts, c.caseless)
    ensures var g := GroupOf(cap, alts, c.caseless);
            var f := FactsOf(InferBranches(alts, false).k, c.tb, anchored, false, 0);
            && (f.firstByte.Some? ==> FirstSound(c, g, f.firstByte.value))
            && (f.reqByte.Some? ==> RequiredSound(c, g, f.reqByte.value, if f.firstByte.Some? then 1 else 0))
  {
    hide MBranches, InferBranches, DAlts, EmitBranches;
    var g := GroupOf(cap, alts, c.caseless);
    var k := InferBranches(alts, false).k;
    var f := FactsOf(k, c.tb, anchored, false, 0);
    forall i: nat, j: nat | i <= |c.s| && DGroup(c, g, i, j)
      ensures f.firstByte.Some? ==> i < |c.s| && IsFirst(c.tb, f.firstByte.value, c.s[i])
      ensures f.reqByte.Some? ==>
                exists t: nat :: i + (if f.firstByte.Some? then 1 else 0) <= t < j && RequiredAt(c, f.reqByte.value, t)
    {
      BranchesMean(c, alts, i, j);
      BranchesFit(c, alts, false, i, j);
      if f.reqByte.Some? {
        var t: nat :| Skip(k.first, i) <= t < j && IsAt(c, k.req, t);
        assert RequiredAt(c, f.reqByte.value, t);
      }
    }
  }

  // ---- Words --------------------------------------------------------------------------------------------------

  /** A string of literals. */
  function Word(s: seq<byte>, caseless: bool): Pieces {
    if s == [] then End else Then(Single(if caseless then ChrNC(s[0]) else Chr(s[0]), true), Word(s[1..], caseless))
  }

  /** The first byte found for a word is its first, and the required byte its last one if it is another. */
  lemma WordMarks(s: seq<byte>, caseless: bool)
    requires s != []
    ensures var k := InferAll(Word(s, caseless), START, false).k;
            && k.first == IsByte(s[0], caseless, false)
            && k.req == if |s| == 1 then Unset else IsByte(s[|s| - 1], caseless, false)
  {
    WordGoesOn(s[1..], caseless, AfterLiteral(START, if caseless then ChrNC(s[0]) else Chr(s[0]), false));
  }

  lemma {:induction false} WordGoesOn(s: seq<byte>, caseless: bool, k: Marks)
    requires k.first.IsByte?
    ensures var k' := InferAll(Word(s, caseless), k, false).k;
            k'.first == k.first && k'.req == if s == [] then k.req else IsByte(s[|s| - 1], caseless, false)
  {
    if s != [] { WordGoesOn(s[1..], caseless, AfterLiteral(k, if caseless then ChrNC(s[0]) else Chr(s[0]), false)); }
  }

  lemma WordUnfolds(s: seq<byte>)
    requires s != [] && PiecesOk(Word(s, false), false)
    ensures PiecesOk(Word(s[1..], false), false)
    ensures EmitAll(Word(s, false), false) == Cons(One(Chr(s[0])), EmitAll(Word(s[1..], false), false))
  {
    var p := Single(Chr(s[0]), true);
    assert Word(s, false) == Then(p, Word(s[1..], false));
    assert Emit(p, false) == Cons(One(Chr(s[0])), Nil);
    var rest := EmitAll(Word(s[1..], false), false);
    assert Append(Nil, rest) == rest;
  }

  lemma {:induction false} WordItems(code: seq<byte>, p: nat, s: seq<byte>)
    requires PiecesOk(Word(s, false), false) && AtItems(code, p, EmitAll(Word(s, false), false), false)
    ensures ItemsLen(EmitAll(Word(s, false), false)) == 2 * |s|
    ensures p + 2 * |s| <= |code| && forall k: nat :: k < |s| ==> code[p + 2 * k] == 28 && code[p + 2 * k + 1] == s[k]
    decreases |s|
  {
    if s != [] {
      var its := EmitAll(Word(s, false), false);
      WordUnfolds(s);
      assert AtUnit(code, p, Chr(s[0]));
      WordItems(code, p + 2, s[1..]);
      forall k: nat | k < |s| ensures code[p + 2 * k] == 28 && code[p + 2 * k + 1] == s[k] {
        if k > 0 { assert s[k] == s[1..][k - 1] && code[p + 2 + 2 * (k - 1)] == 28; }
      }
    }
  }

  lemma WordFits(s: seq<byte>)
    ensures PiecesOk(Word(s, false), false)
  {
    if s != [] { WordFits(s[1..]); }
  }

  /** The code of a word, byte by byte: a bracket with the distance to its ket, each byte behind an opcode, the ket with
      the distance back, and the end. */
  lemma WordBytes(code: seq<byte>, s: seq<byte>)
    requires BranchesOk(Only(Word(s, false)), false) && AtPattern(code, GroupOf(0, Only(Word(s, false)), false), false)
    ensures var n := 3 + 2 * |s|;
            && |code| >= n + 4
            && code[0] == 94 && 256 * (code[1] as int) + code[2] as int == n
            && (forall k: nat :: k < |s| ==> code[3 + 2 * k] == 28 && code[4 + 2 * k] == s[k])
            && code[n] == 85 && 256 * (code[n + 1] as int) + code[n + 2] as int == n
            && code[n + 3] == 0
  {
    hide AtItems, ItemsLen;
    var its := EmitAll(Word(s, false), false);
    WordFits(s);
    assert AtAlts(code, 0, 3, Last(its), 0, OP_KET, false);
    WordItems(code, 3, s);
    assert GroupLen(GroupOf(0, Only(Word(s, false)), false)) == 3 + ItemsLen(its) + 3;
    assert forall k: nat :: k < |s| ==> code[3 + 2 * k + 1] == s[k];
  }
}

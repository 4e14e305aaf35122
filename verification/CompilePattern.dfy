/** pcre_compile2(): the two passes over a parsed pattern, and the facts that are recorded about it. */
module CompilePattern {
  import opened Common
  import opened ByteCode
  import opened Meaning
  import opened Outcomes
  import opened Backtracking
  import opened DfaSteps
  import opened CodeMoves
  import opened Emptiness
  import opened Marking
  import opened Replicate
  import opened Repetition
  import opened StartBits
  import opened Exec
  import opened PcreStudy
  import opened Syntax
  import opened Sizes
  import opened FirstBytes
  import opened StartLine
  import opened Compile

  const MAX_PATTERN_SIZE := 0x10000

  /** The highest number of a capturing group. */
  function TopBracket(alts: Branches): nat
    decreases alts, 0
  {
    var n := TopOfPieces(alts.b);
    if alts.Or? then Greatest(n, TopBracket(alts.rest)) else n
  }

  function TopOfPieces(ps: Pieces): nat
    decreases ps, 0
  {
    if ps.End? then 0
    else
      var n := if ps.hd.Paren? || ps.hd.RepeatParen? then Greatest(ps.hd.cap, TopBracket(ps.hd.alts)) else 0;
      Greatest(n, TopOfPieces(ps.tl))
  }

  // ---- The code of a pattern meets the demands of its users ------------------------------------------------

  /** The number of every capturing group that gets marked is one at which set_start_bits() gives up. */
  predicate Studiable(alts: Branches)
    decreases alts, 0
  {
    StudiablePieces(alts.b) && (alts.Or? ==> Studiable(alts.rest))
  }

  predicate StudiablePieces(ps: Pieces)
    decreases ps, 0
  {
    ps.Then? ==> StudiablePiece(ps.hd) && StudiablePieces(ps.tl)
  }

  predicate StudiablePiece(p: Piece)
    decreases p, 0
  {
    match p
    case Paren(_, alts) => Studiable(alts)
    case RepeatParen(cap, alts, _, max, _) => Studiable(alts) && (max == -1 && AnySeen(alts) ==> NumberOk(cap))
    case _ => true
  }

  /** All groups have numbers up to n; if ok holds, the code meets the demands of set_start_bits(). */
  ghost predicate Usable(its: Items, n: nat, ok: bool, caseless: bool) {
    CapsItems(its, n) && (ok ==> ScannableItems(its, caseless))
  }

  ghost predicate UsableGroup(g: Group, n: nat, ok: bool, caseless: bool) {
    CapsGroup(g, n) && (ok ==> ScannableGroup(g, caseless))
  }

  ghost predicate UsableAlts(alts: Alts, n: nat, ok: bool, caseless: bool) {
    CapsAlts(alts, n) && (ok ==> ScannableAlts(alts, caseless))
  }

  lemma {:induction false} UsableAppend(xs: Items, ys: Items, n: nat, ok: bool, caseless: bool)
    requires Usable(xs, n, ok, caseless) && Usable(ys, n, ok, caseless)
    ensures Usable(Append(xs, ys), n, ok, caseless)
  {
    hide CapsGroup, ScannableGroup;
    if xs.Cons? { UsableAppend(xs.tl, ys, n, ok, caseless); }
  }

  lemma UsableOne(m: Node, n: nat, ok: bool, caseless: bool)
    requires if m.Grp? || m.Zero? then UsableGroup(m.g, n, ok, caseless)
             else m.One? ==> (m.u.Chr? ==> !caseless) && (m.u.ChrNC? ==> caseless)
    ensures Usable(Cons(m, Nil), n, ok, caseless)
  {
    hide CapsGroup, ScannableGroup;
    assert CapsItems(Nil, n) && ScannableItems(Nil, caseless);
  }

  lemma {:induction false} UsableCopies(g: Group, k: nat, tl: Items, n: nat, ok: bool, caseless: bool)
    requires UsableGroup(g, n, ok, caseless) && Usable(tl, n, ok, caseless)
    ensures Usable(Copies(g, k, tl), n, ok, caseless)
  {
    hide CapsGroup, ScannableGroup;
    if k > 0 { UsableCopies(g, k - 1, tl, n, ok, caseless); }
  }

  lemma {:induction false} UsableNested(lazy: bool, g: Group, k: nat, n: nat, ok: bool, caseless: bool)
    requires k >= 1 && UsableGroup(g, n, ok, caseless)
    ensures UsableGroup(Nested(lazy, g, k).g, n, ok, caseless)
  {
    if k > 1 {
      var inner := Nested(lazy, g, k - 1);
      UsableNested(lazy, g, k - 1, n, ok, caseless);
      UsableOne(inner, n, ok, caseless);
      UsablePair(g, inner, n, ok, caseless);
    }
  }

  lemma UsablePair(g: Group, m: Node, n: nat, ok: bool, caseless: bool)
    requires UsableGroup(g, n, ok, caseless) && Usable(Cons(m, Nil), n, ok, caseless)
    ensures UsableGroup(Coupled(g, m), n, ok, caseless)
  {
    hide CapsGroup, ScannableGroup;
    var its := Cons(Grp(g), Cons(m, Nil));
    assert Usable(its, n, ok, caseless);
    UsableLast(its, n, ok, caseless);
    UsableBracket(Coupled(g, m), n, ok, caseless);
  }

  lemma UsableLast(its: Items, n: nat, ok: bool, caseless: bool)
    requires Usable(its, n, ok, caseless)
    ensures UsableAlts(Last(its), n, ok, caseless)
  {
    hide CapsItems, ScannableItems;
  }

  lemma UsableBracket(g: Group, n: nat, ok: bool, caseless: bool)
    requires UsableAlts(g.alts, n, ok, caseless) && g.cap <= n && (ok && g.s ==> NumberOk(g.cap))
    ensures UsableGroup(g, n, ok, caseless)
  {
    hide CapsAlts, ScannableAlts;
  }

  lemma UsableLooped(lazy: bool, g: Group, n: nat, ok: bool, caseless: bool)
    requires UsableAlts(g.alts, n, ok, caseless) && g.cap <= n && (ok && AnyBranchEmpty(g.alts) ==> NumberOk(g.cap))
    ensures UsableGroup(Looped(lazy, g), n, ok, caseless)
  {
    hide CapsAlts, ScannableAlts;
    UsableBracket(Looped(lazy, g), n, ok, caseless);
  }

  lemma {:induction false} PieceUsable(p: Piece, n: nat, ok: bool, caseless: bool)
    requires PieceOk(p, caseless) && TopOfPieces(Then(p, End)) <= n && (ok ==> StudiablePiece(p))
    ensures Usable(Emit(p, caseless), n, ok, caseless)
    decreases p, 0
  {
    hide Usable, UsableGroup, UsableAlts, Quantified, Replicated, AnyBranchEmpty, AnySeen;
    match p
    case Single(u, _) => UsableOne(One(u), n, ok, caseless);
    case Repeat(u, min, max, m, _) => QuantifiedUsable(u, min, max, m, n, ok, caseless);
    case Paren(cap, alts) =>
      var g := GroupOf(cap, alts, caseless);
      BranchesUsable(alts, n, ok, caseless);
      UsableBracket(g, n, ok, caseless);
      UsableOne(Grp(g), n, ok, caseless);
    case RepeatParen(cap, alts, min, max, lazy) =>
      BranchesUsable(alts, n, ok, caseless);
      AnySeenIs(alts, caseless);
      ReplicatedUsable(lazy, GroupOf(cap, alts, caseless), min, max, n, ok, caseless);
  }

  lemma QuantifiedUsable(u: Unit, min: nat, max: int, m: Mode, n: nat, ok: bool, caseless: bool)
    requires UnitFits(u, caseless) && LimitsOk(min, max)
    ensures Usable(Quantified(u, min, max, m), n, ok, caseless)
  {
    var its := Quantified(u, min, max, m);
    assert Usable(Nil, n, ok, caseless);
    if its.Cons? {
      assert its.tl.Cons? ==> its.tl.tl.Nil? && Usable(its.tl, n, ok, caseless);
    }
  }

  lemma ReplicatedUsable(lazy: bool, g: Group, min: nat, max: int, n: nat, ok: bool, caseless: bool)
    requires max == -1 || (max >= 1 && min <= max)
    requires UsableAlts(g.alts, n, ok, caseless) && g.cap <= n && !g.s && g.ket == Plain
    requires ok && max == -1 && AnyBranchEmpty(g.alts) ==> NumberOk(g.cap)
    ensures Usable(Replicated(lazy, g, min, max), n, ok, caseless)
  {
    hide Usable, UsableGroup, UsableAlts, Copies, Nested, Looped;
    UsableBracket(g, n, ok, caseless);
    NothingUsable(n, ok, caseless);
    if max == -1 {
      UsableLooped(lazy, g, n, ok, caseless);
      if min == 0 {
        UsableOne(Zero(lazy, Looped(lazy, g)), n, ok, caseless);
      } else {
        UsableOne(Grp(Looped(lazy, g)), n, ok, caseless);
        UsableCopies(g, min - 1, Cons(Grp(Looped(lazy, g)), Nil), n, ok, caseless);
      }
    } else if min == max {
      UsableCopies(g, min, Nil, n, ok, caseless);
    } else {
      UsableNested(lazy, g, max - min, n, ok, caseless);
      NestedForm(lazy, g, max - min);
      UsableOne(Nested(lazy, g, max - min), n, ok, caseless);
      UsableCopies(g, min, Cons(Nested(lazy, g, max - min), Nil), n, ok, caseless);
    }
  }

  lemma NothingUsable(n: nat, ok: bool, caseless: bool)
    ensures Usable(Nil, n, ok, caseless)
  {
  }

  lemma {:induction false} PiecesUsable(ps: Pieces, n: nat, ok: bool, caseless: bool)
    requires PiecesOk(ps, caseless) && TopOfPieces(ps) <= n && (ok ==> StudiablePieces(ps))
    ensures Usable(EmitAll(ps, caseless), n, ok, caseless)
    decreases ps, 0
  {
    hide Usable, Emit, TopBracket;
    if ps.End? {
      NothingUsable(n, ok, caseless);
    } else {
      OnlyPiece(ps, caseless);
      PieceUsable(ps.hd, n, ok, caseless);
      PiecesUsable(ps.tl, n, ok, caseless);
      UsableAppend(Emit(ps.hd, caseless), EmitAll(ps.tl, caseless), n, ok, caseless);
    }
  }

  lemma OnlyPiece(ps: Pieces, caseless: bool)
    requires ps.Then? && PiecesOk(ps, caseless)
    ensures PiecesOk(Then(ps.hd, End), caseless)
    ensures TopOfPieces(Then(ps.hd, End)) <= TopOfPieces(ps)
  {
    hide TopBracket;
    assert PiecesOk(End, caseless) && TopOfPieces(End) == 0;
  }

  lemma {:induction false} BranchesUsable(alts: Branches, n: nat, ok: bool, caseless: bool)
    requires BranchesOk(alts, caseless) && TopBracket(alts) <= n && (ok ==> Studiable(alts))
    ensures UsableAlts(EmitBranches(alts, caseless), n, ok, caseless)
    decreases alts, 0
  {
    hide EmitAll, CapsItems, ScannableItems;
    PiecesUsable(alts.b, n, ok, caseless);
    if alts.Or? { BranchesUsable(alts.rest, n, ok, caseless); }
  }

  lemma PatternUsable(alts: Branches, caseless: bool)
    requires BranchesOk(alts, caseless)
    ensures UsableGroup(GroupOf(0, alts, caseless), TopBracket(alts), Studiable(alts), caseless)
  {
    BranchesUsable(alts, TopBracket(alts), Studiable(alts), caseless);
    UsableBracket(GroupOf(0, alts, caseless), TopBracket(alts), Studiable(alts), caseless);
  }

  // ---- Compiling a pattern -----------------------------------------------------------------------------------

  datatype Compiled = TooLong | Compiled(code: seq<byte>, facts: Facts, anchored: bool)

  /** PCRE_STARTLINE is set for a pattern with no first byte whose branches all begin with .* */
  predicate TiedToLines(alts: Branches, caseless: bool, anchored: bool)
    requires BranchesOk(alts, caseless)
  {
    !anchored && !InferBranches(alts, false).k.first.IsByte? && LeadsWith(EmitBranches(alts, caseless), OP_ANY)
  }

  /** What was inferred holds for every subject. */
  lemma CompiledFacts(alts: Branches, caseless: bool, tb: Tables, anchored: bool, startline: bool)
    requires BranchesOk(alts, caseless) && CaseConsistent(tb)
    requires startline ==> LeadsWith(EmitBranches(alts, caseless), OP_ANY)
    requires CapsGroup(GroupOf(0, alts, caseless), TopBracket(alts))
    ensures HoldsAlways(FactsOf(InferBranches(alts, false).k, tb, anchored, startline, TopBracket(alts)), tb, caseless,
                        GroupOf(0, alts, caseless))
  {
    hide LeadsWith, CapsGroup, InferBranches, FirstSound, RequiredSound, StartlineSound, EmitBranches;
    var g := GroupOf(0, alts, caseless);
    forall s: seq<byte>
      ensures FactsSound(FactsOf(InferBranches(alts, false).k, tb, anchored, startline, TopBracket(alts)), Context(s, tb, caseless), g)
    {
      var c := Context(s, tb, caseless);
      MarksAreSound(c, 0, alts, anchored);
      if startline { StartlineIsSound(c, g); }
    }
  }

  /** The code of the group stays as it is when OP_END is written after it. */
  lemma Terminated(v: seq<byte>, w: seq<byte>, g: Group, caseless: bool)
    requires AtGroup(v, 0, g, caseless) && g.ket == Plain && GroupLen(g) < |v| == |w|
    requires w == v[GroupLen(g) := OP_END]
    ensures AtPattern(w, g, caseless)
  {
    hide AtGroup, GroupLen;
    MoveGroup(v, w, 0, 0, g, caseless);
  }

  /** The length is found first; then the code is written into a buffer of that length, which it does not
      exceed. The code is well-formed and stands for the pattern, and the recorded facts hold. */
  method PcreCompile(alts: Branches, caseless: bool, tb: Tables, anchored0: bool) returns (r: Compiled)
    requires BranchesOk(alts, caseless) && CaseConsistent(tb)
    ensures r.TooLong? <==> PreRegex(0, alts, caseless) + 1 > 65536
    ensures r.Compiled? ==>
              var g := GroupOf(0, alts, caseless);
              && AtPattern(r.code, g, caseless)
              && HoldsAlways(r.facts, tb, caseless, g)
              && r.facts.startBits.None? && r.facts.minLength.None?
              && r.anchored == (anchored0 || LeadsWith(g.alts, OP_ALLANY))
              && r.facts == FactsOf(InferBranches(alts, false).k, tb, r.anchored, TiedToLines(alts, caseless, r.anchored), TopBracket(alts))
  {
    hide AtGroup, GroupLen, LeadsWith, InferBranches, PreBranches, HoldsAlways, CapsGroup;
    var length := MeasurePattern(alts, caseless);
    if length > MAX_PATTERN_SIZE { return TooLong; }
    ghost var g := GroupOf(0, alts, caseless);
    var buf := new byte[length](_ => 0);
    buf[0] := OP_BRA;
    var code, marks := CompileRegex(buf, 0, 0, 0, alts, caseless, false);
    ghost var v := buf[..];
    buf[code] := OP_END;
    code := code + 1;
    Terminated(v, buf[..], g, caseless);
    var anchored, startline := FindStartFlags(buf[..], anchored0, marks.k.first.IsByte?, g, caseless);
    PatternUsable(alts, caseless);
    CompiledFacts(alts, caseless, tb, anchored, startline);
    r := Compiled.Compiled(buf[..], FactsOf(marks.k, tb, anchored, startline, TopBracket(alts)), anchored);
  }
}

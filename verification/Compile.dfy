/** compile_branch() and compile_regex() in the real compile phase: the code of a parsed pattern is written
    into the buffer, and the first and required bytes are inferred on the way. */
module Compile {
  import opened ByteCode
  import opened Backtracking
  import opened MatchSteps
  import opened CodeMoves
  import opened Replicate
  import opened Syntax
  import opened Sizes
  import opened Links
  import opened FirstBytes
  import opened CompileUnits

  lemma {:induction false} AppendAssoc(xs: Items, ys: Items, zs: Items)
    ensures Append(Append(xs, ys), zs) == Append(xs, Append(ys, zs))
  {
    if xs.Cons? { AppendAssoc(xs.tl, ys, zs); }
  }

  lemma {:induction false} AppendNil(xs: Items)
    ensures Append(xs, Nil) == xs
  {
    if xs.Cons? { AppendNil(xs.tl); }
  }

  /** Well-formed items in the buffer, with anything after them that is no quantifier. */
  lemma ItemsWritten(v: seq<byte>, pc: nat, end: nat, its: Items, caseless: bool)
    requires AtItems(v, pc, its, caseless) && pc + ItemsLen(its) == end <= |v|
    ensures Written(v, pc, end, its, caseless)
  {
    hide AtItems, ItemsLen;
    MoveItems(v, Ended(v, end), 0, pc, its, caseless);
  }

  /** The branches bs before the branches a. */
  function Prepend(bs: seq<Items>, a: Alts): Alts {
    if bs == [] then a else Alts.More(bs[0], Prepend(bs[1..], a))
  }

  lemma {:induction false} PrependMore(bs: seq<Items>, a: Alts)
    ensures a.More? ==> Prepend(bs, a) == Prepend(bs + [a.b], a.rest)
    ensures a.Last? ==> Prepend(bs, a) == AltsOf(bs + [a.b])
  {
    if bs == [] {
      assert (bs + [a.b])[1..] == [];
    } else {
      PrependMore(bs[1..], a);
      assert (bs + [a.b])[1..] == bs[1..] + [a.b];
    }
  }

  /** A group whose branches bs are finished: code is where the next branch goes, lastBranch is the header
      of that branch and prev the header of the one before it. */
  ghost predicate OpenGroup(v: seq<byte>, start: nat, h: nat, lastBranch: nat, prev: nat, bs: seq<Items>, code: nat, caseless: bool) {
    && 3 <= h && start + 3 <= |v| && code <= |v|
    && if bs == [] then lastBranch == start && code == start + h && Get(v, start + 1) == 0
       else
         && code == lastBranch + 3
         && prev <= lastBranch
         && v[lastBranch] == OP_ALT
         && Get(v, lastBranch + 1) == lastBranch - prev
         && BackChain(v, start, h, prev, bs, lastBranch, caseless)
  }

  /** The branch after the ones that are finished, written. */
  lemma OpenClosed(v: seq<byte>, w: seq<byte>, start: nat, h: nat, lastBranch: nat, prev: nat, bs: seq<Items>, code: nat,
                   its: Items, end: nat, caseless: bool)
    requires OpenGroup(v, start, h, lastBranch, prev, bs, code, caseless) && Same(v, w, start, code)
    requires Written(w, code, end, its, caseless)
    ensures BackChain(w, start, h, lastBranch, bs + [its], end, caseless)
    ensures start + h <= code && start <= lastBranch && lastBranch + 3 <= code <= end
  {
    hide Written, BackChain;
    WrittenLen(w, code, end, its, caseless);
    if bs == [] {
      MoveLink(v, w, 0, start + 1, start, code);
      ChainFirst(w, start, h, its, end, caseless);
      assert bs + [its] == [its];
    } else {
      ChainInside(v, start, h, prev, bs, lastBranch, caseless);
      BackChainFrame(v, w, start, h, prev, bs, lastBranch, caseless);
      MoveLink(v, w, 0, lastBranch + 1, start, code);
      ChainMore(w, start, h, prev, bs, lastBranch, its, end, caseless);
      ChainStart(v, start, h, prev, bs, lastBranch, caseless);
    }
  }

  lemma {:induction false} ChainStart(v: seq<byte>, start: nat, h: nat, p: nat, bs: seq<Items>, end: nat, caseless: bool)
    requires BackChain(v, start, h, p, bs, end, caseless)
    ensures p == start || start + h <= p
    ensures start + h <= end
    decreases |bs|
  {
    if |bs| > 1 { ChainStart(v, start, h, p - Get(v, p + 1), bs[..|bs| - 1], p, caseless); }
  }

  /** The bytes of the header that follow its link are not on the chain. */
  lemma {:induction false} OffChain(v: seq<byte>, start: nat, h: nat, p: nat, bs: seq<Items>, end: nat, i: int, caseless: bool)
    requires BackChain(v, start, h, p, bs, end, caseless) && OnChain(v, start, p, i)
    ensures start < i && (i < start + h ==> i <= start + 2)
    decreases |bs|
  {
    ChainStart(v, start, h, p, bs, end, caseless);
    if |bs| > 1 && i != p + 1 && i != p + 2 { OffChain(v, start, h, p - Get(v, p + 1), bs[..|bs| - 1], p, i, caseless); }
  }

  /** The group, closed by its ket. */
  lemma GroupClosed(v: seq<byte>, w: seq<byte>, start: nat, end: nat, g: Group, caseless: bool)
    requires start <= end && end + 3 <= |v| == |w| && end - start < 0x10000 && !g.s && g.ket == Plain
    requires AtAlts(WithKet(v, start, end), start, HdrLen(g), g.alts, start, OP_KET, caseless)
    requires start + AltsLen(HdrLen(g), g.alts) == end + 3
    requires Same(v, w, start, end) && w[end] == OP_KET && Get(w, end + 1) == end - start
    requires start + HdrLen(g) <= |w| && w[start] == GroupOp(g) && (g.cap > 0 ==> Get(w, start + 3) == g.cap)
    ensures AtGroup(w, start, g, caseless) && GroupLen(g) == end + 3 - start
  {
    hide AtAlts, AltsLen;
    var k := WithKet(v, start, end);
    AltsLenPositive(HdrLen(g), g.alts);
    assert Get(k, end + 1) == end - start;
    assert k[end + 1] == w[end + 1] && k[end + 2] == w[end + 2];
    MoveAlts(k, w, 0, start, HdrLen(g), g.alts, start, OP_KET, OP_KET, caseless);
  }

  // ---- The real pass -----------------------------------------------------------------------------------------

  /** compile_branch(): writes a branch at code0 and infers its first and required bytes. */
  method CompileBranch(buf: array<byte>, code0: nat, ps0: Pieces, caseless: bool, vary: bool) returns (code: nat, r: Inferred)
    requires PiecesOk(ps0, caseless) && code0 + PreAll(ps0, caseless) <= buf.Length && PreAll(ps0, caseless) < 0x10000
    modifies buf
    ensures Written(buf[..], code0, code, EmitAll(ps0, caseless), caseless)
    ensures code0 <= code <= code0 + PreAll(ps0, caseless)
    ensures r == InferAll(ps0, START, vary)
    ensures forall i :: 0 <= i < code0 ==> buf[i] == old(buf[i])
    decreases ps0, 0
  {
    hide Written, InferPiece, PrePiece, Emit, PieceOk;
    code := code0;
    r := Inferred(START, vary);
    var ps := ps0;
    ghost var its := Nil;
    WrittenNone(buf[..], code0, caseless);
    while ps.Then?
      invariant PiecesOk(ps, caseless) && (ps == ps0 || ps < ps0)
      invariant code0 <= code && code + PreAll(ps, caseless) <= code0 + PreAll(ps0, caseless)
      invariant Written(buf[..], code0, code, its, caseless)
      invariant Append(its, EmitAll(ps, caseless)) == EmitAll(ps0, caseless)
      invariant InferAll(ps, r.k, r.vary) == InferAll(ps0, START, vary)
      invariant forall i :: 0 <= i < code0 ==> buf[i] == old(buf[i])
      decreases ps
    {
      ghost var v, mid := buf[..], code;
      code, r := CompilePiece(buf, code, ps.hd, caseless, r.k, r.vary);
      WrittenMore(v, buf[..], code0, mid, code, its, Emit(ps.hd, caseless), caseless);
      AppendAssoc(its, Emit(ps.hd, caseless), EmitAll(ps.tl, caseless));
      its := Append(its, Emit(ps.hd, caseless));
      ps := ps.tl;
    }
    AppendNil(its);
  }

  /** One item of a branch, with its quantifier. */
  method CompilePiece(buf: array<byte>, code0: nat, p: Piece, caseless: bool, k: Marks, vary: bool) returns (code: nat, r: Inferred)
    requires PieceOk(p, caseless) && code0 + PrePiece(p, caseless) <= buf.Length && PrePiece(p, caseless) < 0x10000
    modifies buf
    ensures Written(buf[..], code0, code, Emit(p, caseless), caseless)
    ensures code0 <= code <= code0 + PrePiece(p, caseless)
    ensures r == InferPiece(p, k, vary)
    ensures forall i :: 0 <= i < code0 ==> buf[i] == old(buf[i])
    decreases p, 1
  {
    hide Written, Quantified, RepeatedLen, Replicated, AtGroup, AfterUnit, AfterGroup, UnitRepeated, GroupRepeated, PreRegex, ItemsLen;
    match p {
      case Single(u, _) =>
        code := PutUnit(buf, code0, u, caseless);
        r := Inferred(AfterUnit(k, u, vary), vary);
      case Repeat(u, min, max, m, _) =>
        QuantifiedLonger(u, min, max, m);
        NothingLen(u, min, max, m);
        code := PutUnit(buf, code0, u, caseless);
        code := QuantifyUnit(buf, code0, code, u, min, max, m, caseless);
        r := Inferred(UnitRepeated(AfterUnit(k, u, vary), u, min, vary), vary || Varies(min, max));
      case Paren(cap, alts) =>
        code, r := CompileGroup(buf, code0, cap, alts, caseless, vary);
        GroupWritten(buf[..], code0, code, GroupOf(cap, alts, caseless), caseless);
        r := Inferred(AfterGroup(k, r.k.first, r.k.req, vary), r.vary);
      case RepeatParen(cap, alts, min, max, lazy) =>
        ghost var g := GroupOf(cap, alts, caseless);
        RegexLen(cap, alts, caseless);
        RepeatedExact(lazy, g, min, max);
        RepeatedMono(GroupLen(g), PreRegex(cap, alts, caseless), min, max);
        LongerRepeated(PreRegex(cap, alts, caseless), min, max);
        code, r := CompileGroup(buf, code0, cap, alts, caseless, vary);
        code := RepeatGroup(buf, code0, code, min, max, lazy, g, caseless);
        ItemsWritten(buf[..], code0, code, Replicated(lazy, g, min, max), caseless);
        r := Inferred(GroupRepeated(AfterGroup(k, r.k.first, r.k.req, vary), min, GroupSetsFirst(k, r.k.first)),
                      r.vary || Varies(min, max));
    }
  }

  lemma LongerRepeated(len: nat, min: nat, max: int)
    requires max == -1 || (max >= 1 && min <= max)
    ensures len <= RepeatedLen(len, min, max)
  {
    if min == 0 {
      if max > 1 { MulMono(1, len + 7, max, len + 7); }
    } else {
      MulMono(1, len, min, len);
      if max > min { MulMono(1, len + 7, max - min, len + 7); }
    }
  }

  lemma GroupWritten(v: seq<byte>, pc: nat, end: nat, g: Group, caseless: bool)
    requires AtGroup(v, pc, g, caseless) && end == pc + GroupLen(g) <= |v|
    ensures Written(v, pc, end, Cons(Grp(g), Nil), caseless)
  {
    hide AtGroup;
    OneItem(v, pc, Grp(g), caseless);
    ItemsWritten(v, pc, end, Cons(Grp(g), Nil), caseless);
  }

  /** A bracket: its opcode and number, then the branches. */
  method CompileGroup(buf: array<byte>, code0: nat, cap: nat, alts: Branches, caseless: bool, vary: bool) returns (code: nat, r: Inferred)
    requires BranchesOk(alts, caseless) && cap < 0x10000
    requires code0 + PreRegex(cap, alts, caseless) <= buf.Length && PreRegex(cap, alts, caseless) < 0x10000
    modifies buf
    ensures AtGroup(buf[..], code0, GroupOf(cap, alts, caseless), caseless)
    ensures code == code0 + GroupLen(GroupOf(cap, alts, caseless)) <= code0 + PreRegex(cap, alts, caseless)
    ensures r == InferBranches(alts, vary)
    ensures forall i :: 0 <= i < code0 ==> buf[i] == old(buf[i])
    decreases alts, 3
  {
    hide AtGroup, InferBranches, GroupLen;
    buf[code0] := OP_BRA;
    var skipbytes := 0;
    if cap > 0 {
      buf[code0] := OP_CBRA;
      Put(buf, code0 + 1 + LINK_SIZE, cap);
      skipbytes := 2;
    }
    code, r := CompileRegex(buf, code0, skipbytes, cap, alts, caseless, vary);
  }

  /** compile_regex(): writes the branches of the group whose opcode stands at start, and closes it. */
  method CompileRegex(buf: array<byte>, start: nat, skipbytes: nat, ghost cap: nat, alts0: Branches, caseless: bool, vary: bool)
    returns (code: nat, r: Inferred)
    requires BranchesOk(alts0, caseless) && skipbytes == SkipBytes(cap)
    requires start + PreRegex(cap, alts0, caseless) <= buf.Length && PreRegex(cap, alts0, caseless) < 0x10000
    requires buf[start] == (if cap > 0 then OP_CBRA else OP_BRA) && (cap > 0 ==> Get(buf[..], start + 3) == cap)
    modifies buf
    ensures AtGroup(buf[..], start, GroupOf(cap, alts0, caseless), caseless)
    ensures code == start + GroupLen(GroupOf(cap, alts0, caseless)) <= start + PreRegex(cap, alts0, caseless)
    ensures r == InferBranches(alts0, vary)
    ensures forall i :: 0 <= i < start ==> buf[i] == old(buf[i])
    decreases alts0, 2
  {
    hide AtGroup, Written, GroupLen, BackChain, InferAll, InferMore, InferBranches, PreAll,
      EmitAll, Merge, AltsOf, Prepend, PiecesOk, OpenGroup;
    var lastBranch := start;
    code := start;
    Put(buf, code + 1, 0);
    code := code + 1 + LINK_SIZE + skipbytes;
    r := Inferred(START, vary);
    var alts := alts0;
    ghost var g, h := GroupOf(cap, alts0, caseless), code - start;
    ghost var bs: seq<Items>, prev := [], start;
    PrependNone(g.alts);
    OpenFirst(buf[..], start, h, code, caseless);
    while true
      invariant BranchesOk(alts, caseless) && (alts == alts0 || alts < alts0) && (bs == [] ==> alts == alts0)
      invariant start + h <= code && code + PreBranches(alts, caseless) + 3 <= start + PreRegex(cap, alts0, caseless)
      invariant OpenGroup(buf[..], start, h, lastBranch, prev, bs, code, caseless)
      invariant Prepend(bs, EmitBranches(alts, caseless)) == g.alts
      invariant if bs == [] then r == Inferred(START, vary) else InferMore(alts, r) == InferBranches(alts0, vary)
      invariant forall i :: 0 <= i <= start || start + 3 <= i < start + h ==> buf[i] == old(buf[i])
      decreases alts
    {
      ghost var v, its, mid := buf[..], EmitAll(alts.b, caseless), code;
      ghost var a, r0 := EmitBranches(alts, caseless), r;
      OpenHeader(v, start, h, lastBranch, prev, bs, code, caseless);
      var branch: Inferred;
      code, branch := CompileBranch(buf, code, alts.b, caseless, r.vary);
      OpenClosed(v, buf[..], start, h, lastBranch, prev, bs, mid, its, code, caseless);
      if buf[lastBranch] != OP_ALT {
        r := branch;
      } else {
        var (first, req) := Merge(r.k.first, r.k.req, branch.k.first, branch.k.req);
        r := Inferred(r.k.(first := first, req := req), branch.vary);
      }
      InferStep(alts, r0, bs == [], branch);
      PrependMore(bs, a);
      bs := bs + [its];
      if alts.Only? { break; }
      prev := lastBranch;
      code, lastBranch := OpenBranch(buf, start, code, lastBranch, h, bs, caseless);
      alts := alts.rest;
    }
    code := CloseRegex(buf, start, code, lastBranch, bs, g, caseless);
  }

  /** Another branch follows: an OP_ALT is inserted whose link points back. */
  method OpenBranch(buf: array<byte>, start: nat, code0: nat, lastBranch0: nat, ghost h: nat, ghost bs: seq<Items>, ghost caseless: bool)
    returns (code: nat, lastBranch: nat)
    requires start <= lastBranch0 <= code0 && code0 + 3 <= buf.Length && code0 - lastBranch0 < 0x10000 && 3 <= h
    requires BackChain(buf[..], start, h, lastBranch0, bs, code0, caseless)
    modifies buf
    ensures code == code0 + 3 && OpenGroup(buf[..], start, h, lastBranch, lastBranch0, bs, code, caseless)
    ensures forall i :: 0 <= i < code0 ==> buf[i] == old(buf[i])
  {
    hide BackChain;
    ghost var w := buf[..];
    ChainInside(w, start, h, lastBranch0, bs, code0, caseless);
    code := code0;
    buf[code] := OP_ALT;
    Put(buf, code + 1, code - lastBranch0);
    BackChainFrame(w, buf[..], start, h, lastBranch0, bs, code, caseless);
    lastBranch := code;
    code := code + 1 + LINK_SIZE;
  }

  lemma OpenFirst(v: seq<byte>, start: nat, h: nat, code: nat, caseless: bool)
    requires code == start + h <= |v| && 3 <= h && Get(v, start + 1) == 0
    ensures OpenGroup(v, start, h, start, start, [], code, caseless)
  {
  }

  lemma OpenHeader(v: seq<byte>, start: nat, h: nat, lastBranch: nat, prev: nat, bs: seq<Items>, code: nat, caseless: bool)
    requires OpenGroup(v, start, h, lastBranch, prev, bs, code, caseless) && start < |v| && v[start] != OP_ALT
    ensures lastBranch < |v| && (v[lastBranch] == OP_ALT <==> bs != [])
  {
    hide BackChain;
  }

  /** The first branch after those in r; further ones may follow. */
  lemma InferStep(alts: Branches, r: Inferred, first: bool, b: Inferred)
    requires b == InferAll(alts.b, START, r.vary)
    ensures var (f, q) := Merge(r.k.first, r.k.req, b.k.first, b.k.req);
            var r' := if first then b else Inferred(r.k.(first := f, req := q), b.vary);
            (if first then InferBranches(alts, r.vary) else InferMore(alts, r)) == if alts.Only? then r' else InferMore(alts.rest, r')
  {
    hide Merge, InferAll;
  }

  lemma PrependNone(a: Alts)
    ensures Prepend([], a) == a
  {
  }

  /** The end of a group: the links are reversed and the ket is filled in. */
  method CloseRegex(buf: array<byte>, start: nat, code0: nat, lastBranch: nat, ghost bs: seq<Items>, ghost g: Group, ghost caseless: bool)
    returns (code: nat)
    requires start <= code0 && code0 + 3 <= buf.Length && code0 - start < 0x10000 && !g.s && g.ket == Plain
    requires BackChain(buf[..], start, HdrLen(g), lastBranch, bs, code0, caseless) && AltsOf(bs) == g.alts
    requires buf[start] == GroupOp(g) && start + HdrLen(g) <= buf.Length && (g.cap > 0 ==> Get(buf[..], start + 3) == g.cap)
    modifies buf
    ensures code == start + GroupLen(g) == code0 + 3 && AtGroup(buf[..], start, g, caseless)
    ensures forall i :: 0 <= i < start ==> buf[i] == old(buf[i])
  {
    hide AtGroup, GroupLen, BackChain, AltsOf, AtAlts, AltsLen;
    ghost var v := buf[..];
    ReverseLinks(buf, start, code0, lastBranch, HdrLen(g), bs, caseless);
    forall i | OnChain(v, start, lastBranch, i) ensures start < i && (i < start + HdrLen(g) ==> i <= start + 2) {
      OffChain(v, start, HdrLen(g), lastBranch, bs, code0, i, caseless);
    }
    ChainStart(v, start, HdrLen(g), lastBranch, bs, code0, caseless);
    ghost var w := buf[..];
    code := code0;
    buf[code] := OP_KET;
    Put(buf, code + 1, code - start);
    code := code + 1 + LINK_SIZE;
    GroupClosed(w, buf[..], start, code0, g, caseless);
  }
}

/** The byte code with assertions, conditions and atomic groups: a tree for it, and what it matches.
    The two scans of pcre_study() read this code. */
module FullCode {
  import opened ByteCode
  import opened Meaning

  const OP_SOD: byte := 1
  const OP_SOM: byte := 2
  const OP_NOT_WORD_BOUNDARY: byte := 4
  const OP_WORD_BOUNDARY: byte := 5
  const OP_EODN: byte := 23
  const OP_EOD: byte := 24
  const OP_CIRC: byte := 26
  const OP_DOLL: byte := 27
  const OP_CALLOUT: byte := 83
  const OP_ASSERT: byte := 88
  const OP_ASSERT_NOT: byte := 89
  const OP_ASSERTBACK: byte := 90
  const OP_ASSERTBACK_NOT: byte := 91
  const OP_REVERSE: byte := 92
  const OP_ONCE: byte := 93
  const OP_COND: byte := 96
  const OP_SCOND: byte := 99
  const OP_CREF: byte := 100
  const OP_NCREF: byte := 101
  const OP_RREF: byte := 102
  const OP_DEF: byte := 104
  const OP_SKIPZERO: byte := 114

  datatype Kind = Bra(s: bool, cap: nat) | Once | Cond(s: bool) | Assert(behind: bool, negated: bool)

  datatype Bracket = Bracket(kind: Kind, branches: Branches, ket: Ket)

  /** A single-byte item, a bracket, a bracket that may be left out or is always left out, a test that
      consumes nothing, or the step back at the start of a branch of a lookbehind. */
  datatype Part =
    | Simple(n: Node)
    | Inner(b: Bracket)
    | Optional(lazy: bool, b: Bracket)
    | Skipped(b: Bracket)
    | Check(op: byte)
    | Back(steps: nat)

  datatype Parts = NoParts | Parts(hd: Part, tl: Parts)

  datatype Branches = Final(b: Parts) | Either(b: Parts, rest: Branches)

  // ---- The byte code stands for a tree ---------------------------------------------------------

  function HeadOp(b: Bracket): byte {
    match b.kind
    case Bra(s, cap) => if cap == 0 then (if s then OP_SBRA else OP_BRA) else if s then OP_SCBRA else OP_CBRA
    case Once => OP_ONCE
    case Cond(s) => if s then OP_SCOND else OP_COND
    case Assert(behind, negated) =>
      if behind then (if negated then OP_ASSERTBACK_NOT else OP_ASSERTBACK)
      else if negated then OP_ASSERT_NOT else OP_ASSERT
  }

  /** Tests of the position or of captures and recursion, and callouts. */
  predicate CheckOk(op: byte) {
    || OP_SOD <= op <= OP_SOM || OP_NOT_WORD_BOUNDARY <= op <= OP_WORD_BOUNDARY || OP_EODN <= op <= OP_EOD
    || OP_CIRC <= op <= OP_DOLL || op == OP_CALLOUT || OP_CREF <= op <= OP_DEF
  }

  function CheckLen(op: byte): nat {
    if op == OP_CALLOUT then 2 + 2 * LINK_SIZE else if OP_CREF <= op < OP_DEF then 3 else 1
  }

  function HeadLen(b: Bracket): nat {
    if b.kind.Bra? && b.kind.cap > 0 then 3 + LINK_SIZE else 1 + LINK_SIZE
  }

  function PartLen(n: Part): nat {
    match n
    case Simple(n) => NodeLen(n)
    case Inner(b) => BracketLen(b)
    case Optional(_, b) => 1 + BracketLen(b)
    case Skipped(b) => 1 + BracketLen(b)
    case Check(op) => CheckLen(op)
    case Back(_) => 1 + LINK_SIZE
  }

  function BracketLen(b: Bracket): nat {
    BodyLen(HeadLen(b), b.branches)
  }

  function BodyLen(h: nat, bs: Branches): nat
    decreases bs
  {
    match bs
    case Final(b) => h + PartsLen(b) + 1 + LINK_SIZE
    case Either(b, rest) => h + PartsLen(b) + BodyLen(1 + LINK_SIZE, rest)
  }

  function PartsLen(ps: Parts): nat {
    match ps
    case NoParts => 0
    case Parts(n, tl) => PartLen(n) + PartsLen(tl)
  }

  /** A condition starts with what it tests and has one or two branches; assertions are not repeated. */
  predicate Shaped(b: Bracket) {
    && (b.kind.Assert? ==> b.ket == Plain)
    && (b.kind.Cond? ==>
          && b.branches.b.Parts?
          && (b.branches.b.hd.Check? || (b.branches.b.hd.Inner? && b.branches.b.hd.b.kind.Assert?))
          && (b.branches.Either? ==> b.branches.rest.Final?))
  }

  ghost predicate AtPart(code: seq<byte>, pc: nat, n: Part, caseless: bool)
    decreases n, 0
  {
    match n
    case Simple(n) => (n.One? || n.Rep?) && AtNode(code, pc, n, caseless)
    case Inner(b) => AtBracket(code, pc, b, caseless)
    case Optional(lazy, b) =>
      && pc < |code|
      && code[pc] == (if lazy then OP_BRAMINZERO else OP_BRAZERO)
      && AtBracket(code, pc + 1, b, caseless)
    case Skipped(b) => pc < |code| && code[pc] == OP_SKIPZERO && AtBracket(code, pc + 1, b, caseless)
    case Check(op) => CheckOk(op) && pc + CheckLen(op) <= |code| && code[pc] == op
    case Back(steps) => pc + 1 + LINK_SIZE <= |code| && code[pc] == OP_REVERSE && Get(code, pc + 1) == steps
  }

  ghost predicate AtBracket(code: seq<byte>, pc: nat, b: Bracket, caseless: bool)
    decreases b, 1
  {
    && Shaped(b)
    && pc + HeadLen(b) <= |code|
    && code[pc] == HeadOp(b)
    && (b.kind.Bra? && b.kind.cap > 0 ==> Get(code, pc + 1 + LINK_SIZE) == b.kind.cap)
    && AtBranches(code, pc, HeadLen(b), b.branches, pc, KetOp(b.ket), caseless)
  }

  ghost predicate AtBranches(code: seq<byte>, p: nat, h: nat, bs: Branches, start: nat, kop: byte, caseless: bool)
    decreases bs, 1
  {
    && h >= 1 + LINK_SIZE
    && p + h <= |code|
    && start <= p
    && AtParts(code, p + h, bs.b, caseless)
    && var q := p + h + PartsLen(bs.b);
       && q + 1 + LINK_SIZE <= |code|
       && Get(code, p + 1) == q - p
       && match bs
          case Final(_) => code[q] == kop && Get(code, q + 1) == q - start
          case Either(_, rest) => code[q] == OP_ALT && AtBranches(code, q, 1 + LINK_SIZE, rest, start, kop, caseless)
  }

  ghost predicate AtParts(code: seq<byte>, pc: nat, ps: Parts, caseless: bool)
    decreases ps, 0
  {
    match ps
    case NoParts => pc <= |code|
    case Parts(n, tl) => AtPart(code, pc, n, caseless) && AtParts(code, pc + PartLen(n), tl, caseless)
  }

  // ---- What it matches -------------------------------------------------------------------------

  /** What is matched, estimated from below when sure holds and from above otherwise. The estimates
      differ only where a test depends on more than the subject, and at atomic groups. */
  ghost predicate DPart(c: Context, sure: bool, n: Part, i: nat, j: nat)
    decreases n, 0
  {
    match n
    case Simple(n) => DNode(c, n, i, j)
    case Inner(b) => DBracket(c, sure, b, i, j)
    case Optional(_, b) => i == j || DBracket(c, sure, b, i, j)
    case Skipped(_) => i == j
    case Check(op) => i == j && Passes(sure, op)
    case Back(_) => false
  }

  /** Without recursion, a test for one fails; so does the test of a definition. */
  predicate Passes(sure: bool, op: byte) {
    !sure && !(OP_RREF <= op <= OP_DEF)
  }

  ghost predicate DBracket(c: Context, sure: bool, b: Bracket, i: nat, j: nat)
    decreases b, 2, 0
  {
    if b.kind.Assert? then i == j && (if b.kind.negated then !Holds(c, !sure, b, i) else Holds(c, sure, b, i))
    else if b.ket == Plain then DBody(c, sure, b, i, j)
    else exists n: nat :: n >= 1 && Turns(c, sure, b, n, i, j)
  }

  /** n consecutive matches of a bracket's body. */
  ghost predicate Turns(c: Context, sure: bool, b: Bracket, n: nat, i: nat, j: nat)
    decreases b, 1, n
  {
    if n == 0 then i == j
    else exists m: nat :: i <= m <= j && DBody(c, sure, b, i, m) && Turns(c, sure, b, n - 1, m, j)
  }

  ghost predicate DBody(c: Context, sure: bool, b: Bracket, i: nat, j: nat)
    decreases b, 0, 0
  {
    match b.kind
    case Once => !sure && DBranches(c, sure, b.branches, i, j)
    case Cond(_) => DChoice(c, sure, b.branches, i, j)
    case _ => DBranches(c, sure, b.branches, i, j)
  }

  /** Whether the body of an assertion matches at i. */
  ghost predicate Holds(c: Context, sure: bool, b: Bracket, i: nat)
    requires b.kind.Assert?
    decreases b, 1, 0
  {
    if b.kind.behind then DBehind(c, sure, b.branches, i) else exists e: nat :: DBranches(c, sure, b.branches, i, e)
  }

  /** Each branch of a lookbehind starts with a step back, which fails before the subject's start. */
  ghost predicate DBehind(c: Context, sure: bool, bs: Branches, i: nat)
    decreases bs, 0
  {
    || (bs.b.Parts? && bs.b.hd.Back? && bs.b.hd.steps <= i && From(c, sure, bs.b.tl, i - bs.b.hd.steps))
    || (bs.Either? && DBehind(c, sure, bs.rest, i))
  }

  ghost predicate From(c: Context, sure: bool, ps: Parts, i: nat)
    decreases ps, 1
  {
    exists e: nat :: DParts(c, sure, ps, i, e)
  }

  /** The first branch of a condition starts with the test. If that fails, the second one is taken, or
      nothing is matched when there is no second one. */
  ghost predicate DChoice(c: Context, sure: bool, bs: Branches, i: nat, j: nat)
    decreases bs, 1
  {
    || DParts(c, sure, bs.b, i, j)
    || (&& bs.b.Parts? && !DPart(c, !sure, bs.b.hd, i, i)
        && if bs.Final? then i == j else DBranches(c, sure, bs.rest, i, j))
  }

  ghost predicate DBranches(c: Context, sure: bool, bs: Branches, i: nat, j: nat)
    decreases bs, 0
  {
    match bs
    case Final(b) => DParts(c, sure, b, i, j)
    case Either(b, rest) => DParts(c, sure, b, i, j) || DBranches(c, sure, rest, i, j)
  }

  ghost predicate DParts(c: Context, sure: bool, ps: Parts, i: nat, j: nat)
    decreases ps, 0
  {
    match ps
    case NoParts => i == j
    case Parts(n, tl) => exists m: nat :: i <= m <= j && DPart(c, sure, n, i, m) && DParts(c, sure, tl, m, j)
  }

  // ---- Every match moves forward and stays inside the subject ------------------------------------

  lemma {:induction false} PartsForward(c: Context, sure: bool, ps: Parts, i: nat, j: nat)
    requires DParts(c, sure, ps, i, j) && i <= |c.s|
    ensures i <= j <= |c.s|
    decreases ps, 0
  {
    match ps
    case NoParts =>
    case Parts(n, tl) =>
      var m: nat :| i <= m <= j && DPart(c, sure, n, i, m) && DParts(c, sure, tl, m, j);
      PartForward(c, sure, n, i, m);
      PartsForward(c, sure, tl, m, j);
  }

  lemma {:induction false} PartForward(c: Context, sure: bool, n: Part, i: nat, j: nat)
    requires DPart(c, sure, n, i, j) && i <= |c.s|
    ensures i <= j <= |c.s|
    decreases n, 0
  {
    match n
    case Simple(n) => NodeForward(c, n, i, j);
    case Inner(b) => BracketForward(c, sure, b, i, j);
    case Optional(_, b) => if i != j { BracketForward(c, sure, b, i, j); }
    case Skipped(_) =>
    case Check(_) =>
    case Back(_) =>
  }

  lemma {:induction false} BracketForward(c: Context, sure: bool, b: Bracket, i: nat, j: nat)
    requires DBracket(c, sure, b, i, j) && i <= |c.s|
    ensures i <= j <= |c.s|
    decreases b, 2, 0
  {
    if b.kind.Assert? {
    } else if b.ket == Plain {
      BodyForward(c, sure, b, i, j);
    } else {
      var n: nat :| n >= 1 && Turns(c, sure, b, n, i, j);
      TurnsForward(c, sure, b, n, i, j);
    }
  }

  lemma {:induction false} TurnsForward(c: Context, sure: bool, b: Bracket, n: nat, i: nat, j: nat)
    requires Turns(c, sure, b, n, i, j) && i <= |c.s|
    ensures i <= j <= |c.s|
    decreases b, 1, n
  {
    if n > 0 {
      var m: nat :| i <= m <= j && DBody(c, sure, b, i, m) && Turns(c, sure, b, n - 1, m, j);
      BodyForward(c, sure, b, i, m);
      TurnsForward(c, sure, b, n - 1, m, j);
    }
  }

  lemma {:induction false} BodyForward(c: Context, sure: bool, b: Bracket, i: nat, j: nat)
    requires DBody(c, sure, b, i, j) && i <= |c.s|
    ensures i <= j <= |c.s|
    decreases b, 0, 0
  {
    if b.kind.Cond? && DParts(c, sure, b.branches.b, i, j) {
      PartsForward(c, sure, b.branches.b, i, j);
    } else if b.kind.Cond? {
      if b.branches.Either? { BranchesForward(c, sure, b.branches.rest, i, j); }
    } else {
      BranchesForward(c, sure, b.branches, i, j);
    }
  }

  lemma {:induction false} BranchesForward(c: Context, sure: bool, bs: Branches, i: nat, j: nat)
    requires DBranches(c, sure, bs, i, j) && i <= |c.s|
    ensures i <= j <= |c.s|
    decreases bs, 0
  {
    if DParts(c, sure, bs.b, i, j) {
      PartsForward(c, sure, bs.b, i, j);
    } else {
      BranchesForward(c, sure, bs.rest, i, j);
    }
  }

  lemma FirstTurn(c: Context, sure: bool, b: Bracket, n: nat, i: nat, j: nat) returns (m: nat)
    requires n >= 1 && Turns(c, sure, b, n, i, j)
    ensures i <= m <= j && DBody(c, sure, b, i, m) && Turns(c, sure, b, n - 1, m, j)
  {
    m :| i <= m <= j && DBody(c, sure, b, i, m) && Turns(c, sure, b, n - 1, m, j);
  }

  // ---- The two estimates -------------------------------------------------------------------------

  /** No test depends on more than the subject, and there is no atomic group. */
  predicate DecidedPart(n: Part) {
    match n
    case Inner(b) => DecidedBracket(b)
    case Optional(_, b) => DecidedBracket(b)
    case Check(op) => OP_RREF <= op <= OP_DEF
    case _ => true
  }

  predicate DecidedBracket(b: Bracket) {
    !b.kind.Once? && DecidedBranches(b.branches)
  }

  predicate DecidedBranches(bs: Branches) {
    DecidedParts(bs.b) && (bs.Either? ==> DecidedBranches(bs.rest))
  }

  predicate DecidedParts(ps: Parts) {
    ps.Parts? ==> DecidedPart(ps.hd) && DecidedParts(ps.tl)
  }

  /** What surely matches may match; where everything is decided, the two estimates agree. */
  lemma {:induction false} PartsEstimates(c: Context, sure: bool, ps: Parts, i: nat, j: nat)
    requires DParts(c, sure, ps, i, j) && (sure || DecidedParts(ps))
    ensures DParts(c, !sure, ps, i, j)
    decreases ps, 0
  {
    match ps
    case NoParts =>
    case Parts(n, tl) =>
      var m: nat :| i <= m <= j && DPart(c, sure, n, i, m) && DParts(c, sure, tl, m, j);
      PartEstimates(c, sure, n, i, m);
      PartsEstimates(c, sure, tl, m, j);
  }

  lemma {:induction false} PartEstimates(c: Context, sure: bool, n: Part, i: nat, j: nat)
    requires DPart(c, sure, n, i, j) && (sure || DecidedPart(n))
    ensures DPart(c, !sure, n, i, j)
    decreases n, 0
  {
    match n
    case Inner(b) => BracketEstimates(c, sure, b, i, j);
    case Optional(_, b) => if i != j { BracketEstimates(c, sure, b, i, j); }
    case _ =>
  }

  lemma {:induction false} BracketEstimates(c: Context, sure: bool, b: Bracket, i: nat, j: nat)
    requires DBracket(c, sure, b, i, j) && (sure || DecidedBracket(b))
    ensures DBracket(c, !sure, b, i, j)
    decreases b, 2, 0
  {
    if b.kind.Assert? {
      if Holds(c, sure, b, i) { HoldsEstimates(c, sure, b, i); }
    } else if b.ket == Plain {
      BodyEstimates(c, sure, b, i, j);
    } else {
      var n: nat :| n >= 1 && Turns(c, sure, b, n, i, j);
      TurnsEstimates(c, sure, b, n, i, j);
    }
  }

  lemma {:induction false} TurnsEstimates(c: Context, sure: bool, b: Bracket, n: nat, i: nat, j: nat)
    requires Turns(c, sure, b, n, i, j) && (sure || DecidedBracket(b))
    ensures Turns(c, !sure, b, n, i, j)
    decreases b, 1, n
  {
    if n > 0 {
      var m := FirstTurn(c, sure, b, n, i, j);
      BodyEstimates(c, sure, b, i, m);
      TurnsEstimates(c, sure, b, n - 1, m, j);
    }
  }

  lemma {:induction false} BodyEstimates(c: Context, sure: bool, b: Bracket, i: nat, j: nat)
    requires DBody(c, sure, b, i, j) && (sure || DecidedBracket(b))
    ensures DBody(c, !sure, b, i, j)
    decreases b, 0, 0
  {
    var bs := b.branches;
    if b.kind.Cond? && DParts(c, sure, bs.b, i, j) {
      PartsEstimates(c, sure, bs.b, i, j);
    } else if b.kind.Cond? {
      assert sure || DecidedParts(bs.b);
      if DPart(c, sure, bs.b.hd, i, i) { PartEstimates(c, sure, bs.b.hd, i, i); }
      if bs.Either? { BranchesEstimates(c, sure, bs.rest, i, j); }
    } else {
      BranchesEstimates(c, sure, bs, i, j);
    }
  }

  lemma {:induction false} HoldsEstimates(c: Context, sure: bool, b: Bracket, i: nat)
    requires b.kind.Assert? && Holds(c, sure, b, i) && (sure || DecidedBracket(b))
    ensures Holds(c, !sure, b, i)
    decreases b, 1, 0
  {
    if b.kind.behind {
      BehindEstimates(c, sure, b.branches, i);
    } else {
      var e: nat :| DBranches(c, sure, b.branches, i, e);
      BranchesEstimates(c, sure, b.branches, i, e);
    }
  }

  lemma {:induction false} BehindEstimates(c: Context, sure: bool, bs: Branches, i: nat)
    requires DBehind(c, sure, bs, i) && (sure || DecidedBranches(bs))
    ensures DBehind(c, !sure, bs, i)
    decreases bs, 0
  {
    if bs.Either? && DBehind(c, sure, bs.rest, i) {
      BehindEstimates(c, sure, bs.rest, i);
    } else {
      var k := i - bs.b.hd.steps;
      assert From(c, sure, bs.b.tl, k);
      var e: nat :| DParts(c, sure, bs.b.tl, k, e);
      PartsEstimates(c, sure, bs.b.tl, k, e);
    }
  }

  lemma {:induction false} BranchesEstimates(c: Context, sure: bool, bs: Branches, i: nat, j: nat)
    requires DBranches(c, sure, bs, i, j) && (sure || DecidedBranches(bs))
    ensures DBranches(c, !sure, bs, i, j)
    decreases bs, 0
  {
    if DParts(c, sure, bs.b, i, j) {
      PartsEstimates(c, sure, bs.b, i, j);
    } else {
      BranchesEstimates(c, sure, bs.rest, i, j);
    }
  }

  // ---- The code without assertions and conditions --------------------------------------------------

  function Embed(its: Items): (ps: Parts) {
    match its
    case Nil => NoParts
    case Cons(n, tl) => Parts(EmbedNode(n), Embed(tl))
  }

  function EmbedNode(n: Node): (p: Part) {
    match n
    case Grp(g) => Inner(EmbedGroup(g))
    case Zero(lazy, g) => Optional(lazy, EmbedGroup(g))
    case _ => Simple(n)
  }

  function EmbedGroup(g: Group): (b: Bracket) {
    Bracket(Bra(g.s, g.cap), EmbedAlts(g.alts), g.ket)
  }

  function EmbedAlts(alts: Alts): (bs: Branches) {
    match alts
    case Last(b) => Final(Embed(b))
    case More(b, rest) => Either(Embed(b), EmbedAlts(rest))
  }

  lemma {:induction false} ItemsEmbed(code: seq<byte>, pc: nat, its: Items, caseless: bool)
    ensures PartsLen(Embed(its)) == ItemsLen(its)
    ensures AtItems(code, pc, its, caseless) ==> AtParts(code, pc, Embed(its), caseless)
    decreases its, 0
  {
    if its.Cons? {
      NodeEmbeds(code, pc, its.hd, caseless);
      ItemsEmbed(code, pc + NodeLen(its.hd), its.tl, caseless);
    }
  }

  lemma {:induction false} NodeEmbeds(code: seq<byte>, pc: nat, n: Node, caseless: bool)
    ensures PartLen(EmbedNode(n)) == NodeLen(n)
    ensures AtNode(code, pc, n, caseless) ==> AtPart(code, pc, EmbedNode(n), caseless)
    decreases n, 0
  {
    match n
    case One(_) =>
    case Rep(_, _, _) =>
    case Grp(g) => GroupEmbeds(code, pc, g, caseless);
    case Zero(_, g) => GroupEmbeds(code, pc + 1, g, caseless);
  }

  /** The same code stands for a group and for its embedding. */
  lemma {:induction false} GroupEmbeds(code: seq<byte>, pc: nat, g: Group, caseless: bool)
    ensures BracketLen(EmbedGroup(g)) == GroupLen(g)
    ensures AtGroup(code, pc, g, caseless) ==> AtBracket(code, pc, EmbedGroup(g), caseless)
    decreases g, 1
  {
    AltsEmbed(code, pc, HdrLen(g), g.alts, pc, KetOp(g.ket), caseless);
  }

  lemma {:induction false} AltsEmbed(code: seq<byte>, p: nat, h: nat, alts: Alts, start: nat, kop: byte, caseless: bool)
    ensures BodyLen(h, EmbedAlts(alts)) == AltsLen(h, alts)
    ensures AtAlts(code, p, h, alts, start, kop, caseless) ==> AtBranches(code, p, h, EmbedAlts(alts), start, kop, caseless)
    decreases alts, 1
  {
    ItemsEmbed(code, p + h, alts.b, caseless);
    if alts.More? { AltsEmbed(code, p + h + ItemsLen(alts.b), 1 + LINK_SIZE, alts.rest, start, kop, caseless); }
  }

  lemma {:induction false} ItemsMean(c: Context, sure: bool, its: Items, i: nat, j: nat)
    ensures DParts(c, sure, Embed(its), i, j) <==> DItems(c, its, i, j)
    decreases its, 0
  {
    if its.Cons? {
      forall m: nat | i <= m <= j
        ensures DPart(c, sure, EmbedNode(its.hd), i, m) <==> DNode(c, its.hd, i, m)
        ensures DParts(c, sure, Embed(its.tl), m, j) <==> DItems(c, its.tl, m, j)
      {
        if its.hd.Grp? || its.hd.Zero? { EmbeddedMeans(c, sure, its.hd.g, i, m); }
        ItemsMean(c, sure, its.tl, m, j);
      }
    }
  }

  /** Both estimates of an embedded group are exactly what the group matches. */
  lemma {:induction false} EmbeddedMeans(c: Context, sure: bool, g: Group, i: nat, j: nat)
    ensures DBracket(c, sure, EmbedGroup(g), i, j) <==> DGroup(c, g, i, j)
    decreases g, 2, 0
  {
    if g.ket == Plain {
      AltsMean(c, sure, g.alts, i, j);
    } else {
      forall n: nat ensures Turns(c, sure, EmbedGroup(g), n, i, j) <==> Iter(c, g.alts, n, i, j) {
        TurnsMean(c, sure, g, n, i, j);
      }
    }
  }

  lemma {:induction false} TurnsMean(c: Context, sure: bool, g: Group, n: nat, i: nat, j: nat)
    ensures Turns(c, sure, EmbedGroup(g), n, i, j) <==> Iter(c, g.alts, n, i, j)
    decreases g, 1, n
  {
    if n > 0 {
      forall m: nat | i <= m <= j
        ensures DBody(c, sure, EmbedGroup(g), i, m) <==> DAlts(c, g.alts, i, m)
        ensures Turns(c, sure, EmbedGroup(g), n - 1, m, j) <==> Iter(c, g.alts, n - 1, m, j)
      {
        AltsMean(c, sure, g.alts, i, m);
        TurnsMean(c, sure, g, n - 1, m, j);
      }
    }
  }

  lemma {:induction false} AltsMean(c: Context, sure: bool, alts: Alts, i: nat, j: nat)
    ensures DBranches(c, sure, EmbedAlts(alts), i, j) <==> DAlts(c, alts, i, j)
    decreases alts, 0
  {
    ItemsMean(c, sure, alts.b, i, j);
    if alts.More? { AltsMean(c, sure, alts.rest, i, j); }
  }
}

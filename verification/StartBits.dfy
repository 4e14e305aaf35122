/** set_start_bits(): a bit map of the bytes that can begin a match, gathered by a scan of the code. */
module StartBits {
  import opened ByteCode
  import opened Meaning
  import opened Backtracking
  import opened MatchSteps
  import opened CodeMoves
  import opened DfaSteps
  import opened DfaMeaning
  import opened FullCode
  import opened Scan
  import opened Study

  const CTYPE_LETTER := 1
  const CBIT_SPACE := 0
  const CBIT_DIGIT := 64
  const CBIT_WORD := 160
  const VERTICAL_TAB: byte := 11
  const OP_OPT: byte := 25

  // ---- Bit maps --------------------------------------------------------------------------------

  predicate BitSet(x: bv8, k: nat)
    requires k < 8
  {
    (x >> k) & 1 == 1
  }

  predicate Has(bits: seq<bv8>, ch: byte)
    requires |bits| == 32
  {
    BitSet(bits[ch / 8], ch % 8)
  }

  lemma OrBit(x: bv8, y: bv8, k: nat)
    requires k < 8
    ensures BitSet(x | y, k) <==> BitSet(x, k) || BitSet(y, k)
    ensures BitSet(!x, k) <==> !BitSet(x, k)
    ensures BitSet(x & !0x08, k) <==> BitSet(x, k) && k != 3
    ensures !BitSet(0, k)
  {
    if k == 0 {} else if k == 1 {} else if k == 2 {} else if k == 3 {}
    else if k == 4 {} else if k == 5 {} else if k == 6 {} else { assert k == 7; }
  }

  lemma ShiftBit(a: nat, b: nat)
    requires a < 8 && b < 8
    ensures BitSet(1 << a, b) <==> a == b
  {
    if a == 0 { BitsOf(1, b); } else if a == 1 { BitsOf(2, b); } else if a == 2 { BitsOf(4, b); }
    else if a == 3 { BitsOf(8, b); } else if a == 4 { BitsOf(16, b); } else if a == 5 { BitsOf(32, b); }
    else if a == 6 { BitsOf(64, b); } else { assert a == 7; BitsOf(128, b); }
  }

  lemma BitsOf(y: bv8, b: nat)
    requires b < 8
    ensures BitSet(y, b) <==> y & [1, 2, 4, 8, 16, 32, 64, 128][b] != 0
  {
    if b == 0 {} else if b == 1 {} else if b == 2 {} else if b == 3 {}
    else if b == 4 {} else if b == 5 {} else if b == 6 {} else { assert b == 7; }
  }

  // ---- The bytes that can begin a match ----------------------------------------------------------

  /** Either a scan gives up, or it finds bytes, one of which must begin a match unless the match may
      be empty. */
  datatype Starts = Unknown | Found(must: bool, bytes: iset<byte>)

  ghost function Accepted(tb: Tables, caseless: bool, u: Unit): iset<byte>
    requires tb.Valid() && UnitOk(u)
  {
    iset ch: byte | Accepts(tb, caseless, u, ch)
  }

  /** Negated characters and the types that accept nearly everything are not looked into. */
  predicate PassedOver(u: Unit) {
    u.NotChr? || (u.Type? && u.t >= OP_ANY)
  }

  ghost function NodeStarts(tb: Tables, caseless: bool, n: Node): Starts
    requires tb.Valid()
  {
    match n
    case One(u) => if PassedOver(u) || !UnitOk(u) then Unknown else Found(true, Accepted(tb, caseless, u))
    case Rep(u, q, m) =>
      if PassedOver(u) || !UnitOk(u) || (u.Type? && q.Plus? && m.Possessive?) then Unknown
      else Found(q.Min() > 0, Accepted(tb, caseless, u))
    case _ => Unknown
  }

  ghost function PartStarts(tb: Tables, caseless: bool, n: Part): Starts
    requires tb.Valid()
    decreases n, 0
  {
    match n
    case Simple(n) => NodeStarts(tb, caseless, n)
    case Inner(b) => BracketStarts(tb, caseless, b)
    case Optional(_, b) => Optionally(BodyStarts(tb, caseless, b))
    case Skipped(_) => Found(false, iset{})
    case Check(op) => if op == OP_CALLOUT then Found(false, iset{}) else Unknown
    case Back(_) => Unknown
  }

  /** A positive lookahead is looked into, other assertions are passed over, and conditions are given up
      on unless they may be left out. */
  ghost function BracketStarts(tb: Tables, caseless: bool, b: Bracket): Starts
    requires tb.Valid()
    decreases b, 2
  {
    if b.kind.Cond? then Unknown
    else if b.kind.Assert? && (b.kind.behind || b.kind.negated) then Found(false, iset{})
    else BodyStarts(tb, caseless, b)
  }

  /** The scan does not recognise the header of a "check empty" capturing bracket, and takes the group number for
      the code of the first branch. Most numbers make it give up. */
  ghost function BodyStarts(tb: Tables, caseless: bool, b: Bracket): Starts
    requires tb.Valid()
    decreases b, 1
  {
    if Misread(b) then
      var x := MisreadStarts(tb, caseless, b);
      if b.branches.Final? then x else OneOf(x, BranchesStarts(tb, caseless, b.branches.rest))
    else if MarkedCapture(b) then Unknown
    else BranchesStarts(tb, caseless, b.branches)
  }

  /** What the number stands for when it is read as code. */
  ghost function MisreadStarts(tb: Tables, caseless: bool, b: Bracket): Starts
    requires tb.Valid() && Misread(b)
  {
    Found(true, Accepted(tb, caseless, Type(b.kind.cap / 256)))
  }

  predicate MarkedCapture(b: Bracket) {
    b.kind.Bra? && b.kind.s && b.kind.cap > 0
  }

  /** The first byte of the group number is the opcode of one of the types \D to \w. */
  predicate Misread(b: Bracket) {
    MarkedCapture(b) && 256 * OP_NOT_DIGIT <= b.kind.cap < 256 * OP_ANY
  }

  ghost function BranchesStarts(tb: Tables, caseless: bool, bs: Branches): Starts
    requires tb.Valid()
    decreases bs, 0
  {
    match bs
    case Final(b) => PartsStarts(tb, caseless, b)
    case Either(b, rest) => OneOf(PartsStarts(tb, caseless, b), BranchesStarts(tb, caseless, rest))
  }

  ghost function PartsStarts(tb: Tables, caseless: bool, ps: Parts): Starts
    requires tb.Valid()
    decreases ps, 0
  {
    match ps
    case NoParts => Found(false, iset{})
    case Parts(n, tl) => Before(PartStarts(tb, caseless, n), PartsStarts(tb, caseless, tl))
  }

  /** The starts of a group without assertions and conditions inside. */
  ghost function GroupStarts(tb: Tables, caseless: bool, g: Group): Starts
    requires tb.Valid()
  {
    BracketStarts(tb, caseless, EmbedGroup(g))
  }

  lemma BodyOfGroup(tb: Tables, caseless: bool, g: Group)
    requires tb.Valid()
    ensures GroupStarts(tb, caseless, g) == BodyStarts(tb, caseless, EmbedGroup(g))
  {
  }

  ghost function Optionally(x: Starts): Starts {
    if x.Unknown? then Unknown else Found(false, x.bytes)
  }

  ghost function OneOf(x: Starts, y: Starts): Starts {
    if x.Unknown? || y.Unknown? then Unknown else Found(x.must && y.must, x.bytes + y.bytes)
  }

  /** Something whose starts are x, followed by something whose starts are y. */
  ghost function Before(x: Starts, y: Starts): Starts {
    if x.Unknown? || x.must then x
    else if y.Unknown? then Unknown
    else Found(y.must, x.bytes + y.bytes)
  }

  /** No group number is misread. */
  predicate Recognised(ps: Parts) {
    ps.Parts? ==>
      && (ps.hd.Inner? || ps.hd.Optional? ==> RecognisedBracket(ps.hd.b))
      && Recognised(ps.tl)
  }

  predicate RecognisedBracket(b: Bracket) {
    !Misread(b) && RecognisedBranches(b.branches)
  }

  predicate RecognisedBranches(bs: Branches) {
    Recognised(bs.b) && (bs.Either? ==> RecognisedBranches(bs.rest))
  }

  // ---- Every match begins with one of them -------------------------------------------------------

  /** A match from i to j that agrees with x. An assertion may demand a byte without consuming it. */
  ghost predicate Begins(c: Context, x: Starts, i: nat, j: nat) {
    x.Found? ==> (x.must || i < j ==> i < |c.s| && c.s[i] in x.bytes)
  }

  lemma {:induction false} PartsBegin(c: Context, ps: Parts, i: nat, j: nat)
    requires c.Valid() && DParts(c, false, ps, i, j) && i <= |c.s|
    requires Recognised(ps)
    ensures Begins(c, PartsStarts(c.tb, c.caseless, ps), i, j)
    decreases ps, 0
  {
    match ps
    case NoParts =>
    case Parts(n, tl) =>
      var m: nat :| i <= m <= j && DPart(c, false, n, i, m) && DParts(c, false, tl, m, j);
      PartForward(c, false, n, i, m);
      PartBegins(c, n, i, m);
      PartsBegin(c, tl, m, j);
  }

  lemma {:induction false} PartBegins(c: Context, n: Part, i: nat, j: nat)
    requires c.Valid() && DPart(c, false, n, i, j) && i <= |c.s|
    requires n.Inner? || n.Optional? ==> RecognisedBracket(n.b)
    ensures Begins(c, PartStarts(c.tb, c.caseless, n), i, j)
    decreases n, 0
  {
    match n
    case Simple(n) => NodeBegins(c, n, i, j);
    case Inner(b) => BracketBegins(c, b, i, j);
    case Optional(_, b) => if i != j && !b.kind.Assert? { BodyBegins(c, b, i, j); }
    case _ =>
  }

  lemma NodeBegins(c: Context, n: Node, i: nat, j: nat)
    requires c.Valid() && DNode(c, n, i, j) && i <= |c.s|
    ensures Begins(c, NodeStarts(c.tb, c.caseless, n), i, j)
  {
    if n.Rep? && i < j { assert Test(c, n.u, i); }
  }

  /** Every match of a bracket that was not given up on begins as the scan found, whatever its tests
      turn out to be, if no group number is misread. */
  lemma {:induction false} BracketBegins(c: Context, b: Bracket, i: nat, j: nat)
    requires c.Valid() && DBracket(c, false, b, i, j) && i <= |c.s|
    requires RecognisedBracket(b)
    ensures Begins(c, BracketStarts(c.tb, c.caseless, b), i, j)
    decreases b, 3, 0
  {
    if !b.kind.Assert? {
      BodyBegins(c, b, i, j);
    } else if !b.kind.behind && !b.kind.negated {
      assert i == j && Holds(c, false, b, i);
      var e: nat :| DBranches(c, false, b.branches, i, e);
      BranchesBegin(c, b.branches, i, e);
      assert BodyStarts(c.tb, c.caseless, b) == BranchesStarts(c.tb, c.caseless, b.branches);
    }
  }

  /** What the body of a bracket tells; a condition may match nothing even so. */
  ghost function Entered(tb: Tables, caseless: bool, b: Bracket): Starts
    requires tb.Valid()
  {
    if b.kind.Cond? then Optionally(BodyStarts(tb, caseless, b)) else BodyStarts(tb, caseless, b)
  }

  lemma {:induction false} BodyBegins(c: Context, b: Bracket, i: nat, j: nat)
    requires c.Valid() && DBracket(c, false, b, i, j) && i <= |c.s| && !b.kind.Assert?
    requires RecognisedBracket(b)
    ensures Begins(c, Entered(c.tb, c.caseless, b), i, j)
    decreases b, 2, 0
  {
    if b.ket == Plain {
      OnceBegins(c, b, i, j);
    } else {
      var n: nat :| n >= 1 && Turns(c, false, b, n, i, j);
      TurnsBegin(c, b, n, i, j);
    }
  }

  lemma {:induction false} TurnsBegin(c: Context, b: Bracket, n: nat, i: nat, j: nat)
    requires c.Valid() && n >= 1 && Turns(c, false, b, n, i, j) && i <= |c.s| && !b.kind.Assert?
    requires RecognisedBracket(b)
    ensures Begins(c, Entered(c.tb, c.caseless, b), i, j)
    decreases b, 1, n
  {
    var m := FirstTurn(c, false, b, n, i, j);
    BodyForward(c, false, b, i, m);
    OnceBegins(c, b, i, m);
    if n > 1 {
      TurnsForward(c, false, b, n - 1, m, j);
      TurnsBegin(c, b, n - 1, m, j);
    }
  }

  lemma {:induction false} OnceBegins(c: Context, b: Bracket, i: nat, j: nat)
    requires c.Valid() && DBody(c, false, b, i, j) && i <= |c.s| && !b.kind.Assert?
    requires RecognisedBracket(b)
    ensures Begins(c, Entered(c.tb, c.caseless, b), i, j)
    decreases b, 0, 0
  {
    BodyForward(c, false, b, i, j);
    var bs := b.branches;
    var x := PartsStarts(c.tb, c.caseless, bs.b);
    assert BranchesStarts(c.tb, c.caseless, bs)
        == if bs.Final? then x else OneOf(x, BranchesStarts(c.tb, c.caseless, bs.rest));
    if !b.kind.Cond? {
      BranchesBegin(c, bs, i, j);
    } else if DParts(c, false, bs.b, i, j) {
      PartsBegin(c, bs.b, i, j);
    } else if bs.Either? {
      BranchesBegin(c, bs.rest, i, j);
    }
  }

  lemma {:induction false} BranchesBegin(c: Context, bs: Branches, i: nat, j: nat)
    requires c.Valid() && DBranches(c, false, bs, i, j) && i <= |c.s|
    requires RecognisedBranches(bs)
    ensures Begins(c, BranchesStarts(c.tb, c.caseless, bs), i, j)
    decreases bs, 0
  {
    if DParts(c, false, bs.b, i, j) {
      PartsBegin(c, bs.b, i, j);
    } else {
      BranchesBegin(c, bs.rest, i, j);
    }
  }

  /** (1?)+ as group number 1536, whose first byte reads as \D. */
  const MARKED := Bracket(Bra(true, 256 * OP_NOT_DIGIT), Final(Parts(Simple(Rep(Chr(49), Query, Greedy)), NoParts)), RMax)

  /** There the scan is done with the bytes that are no digits, and yet the group matches 1. */
  lemma MarkedNumbersMislead(tb: Tables)
    requires tb.Valid() && HasCtype(tb, 49, CTYPE_DIGIT)
    ensures var c, x := Context([49], tb, false), BracketStarts(tb, false, MARKED);
            x.Found? && x.must && DBracket(c, false, MARKED, 0, 1) && !Begins(c, x, 0, 1)
  {
    var c := Context([49], tb, false);
    var ps := MARKED.branches.b;
    assert Test(c, Chr(49), 0) && DNode(c, ps.hd.n, 0, 1);
    assert DParts(c, false, NoParts, 1, 1);
    assert DParts(c, false, ps, 0, 1);
    assert DBody(c, false, MARKED, 0, 1);
    assert Turns(c, false, MARKED, 0, 1, 1);
    assert Turns(c, false, MARKED, 1, 0, 1);
    assert BracketStarts(tb, false, MARKED) == Found(true, Accepted(tb, false, Type(OP_NOT_DIGIT)));
  }

  /** A branch that begins with a literal, a class or one of the types \D to \w gives just the bytes that this accepts. */
  lemma UnitStarts(tb: Tables, caseless: bool, u: Unit, tl: Items)
    requires tb.Valid() && UnitOk(u) && !u.NotChr? && (u.Type? ==> u.t <= 11)
    ensures GroupStarts(tb, caseless, Group(false, 0, Last(Cons(One(u), tl)), Plain)) == Found(true, Accepted(tb, caseless, u))
  {
    hide Accepted;
    var ps := Parts(Simple(One(u)), Embed(tl));
    var b := Bracket(Bra(false, 0), Final(ps), Plain);
    assert Embed(Cons(One(u), tl)) == ps && EmbedAlts(Last(Cons(One(u), tl))) == Final(ps);
    assert EmbedGroup(Group(false, 0, Last(Cons(One(u), tl)), Plain)) == b && !Misread(b);
    assert PartStarts(tb, caseless, ps.hd) == Found(true, Accepted(tb, caseless, u));
    assert PartsStarts(tb, caseless, ps) == Found(true, Accepted(tb, caseless, u));
    assert BranchesStarts(tb, caseless, Final(ps)) == PartsStarts(tb, caseless, ps);
    assert BodyStarts(tb, caseless, b) == BranchesStarts(tb, caseless, Final(ps));
    assert BracketStarts(tb, caseless, b) == BodyStarts(tb, caseless, b);
  }

  // ---- The scan -----------------------------------------------------------------------------------

  datatype StartResult = SSB_FAIL | SSB_DONE | SSB_CONTINUE

  function InClass(cbits: seq<bv8>, base: nat, ch: byte, dropTab: bool): bool
    requires base + 32 <= |cbits|
  {
    Has(cbits[base..base + 32], ch) && !(dropTab && ch == VERTICAL_TAB)
  }

  /** The tables agree with each other: the class bit maps with the ctypes, except that the map for
      spaces has the vertical tab as well; and only letters have another case. */
  ghost predicate TablesAgree(tb: Tables, cbits: seq<bv8>) {
    && CaseConsistent(tb)
    && |cbits| == 320
    && (forall ch: byte :: InClass(cbits, CBIT_DIGIT, ch, false) <==> HasCtype(tb, ch, CTYPE_DIGIT))
    && (forall ch: byte :: InClass(cbits, CBIT_SPACE, ch, true) <==> HasCtype(tb, ch, CTYPE_SPACE))
    && (forall ch: byte :: InClass(cbits, CBIT_WORD, ch, false) <==> HasCtype(tb, ch, CTYPE_WORD))
    && (forall ch: byte :: !HasCtype(tb, ch, CTYPE_LETTER) ==> tb.fcc[ch] == ch)
  }

  /** Single literals are caseless when the option is on, and the numbers of "check empty" capturing groups do not
      begin with OP_OPT or a later opcode, which would lead the scan astray. */
  ghost predicate Scannable(ps: Parts, caseless: bool) {
    ps.Parts? ==>
      && (ps.hd.Simple? ==> LiteralOk(ps.hd.n, caseless))
      && (ps.hd.Inner? || ps.hd.Optional? ==> ScannableBracket(ps.hd.b, caseless))
      && Scannable(ps.tl, caseless)
  }

  ghost predicate ScannableBracket(b: Bracket, caseless: bool) {
    (b.kind.Bra? && b.kind.s ==> b.kind.cap < 256 * OP_OPT) && ScannableBranches(b.branches, caseless)
  }

  ghost predicate ScannableBranches(bs: Branches, caseless: bool) {
    Scannable(bs.b, caseless) && (bs.Either? ==> ScannableBranches(bs.rest, caseless))
  }

  ghost predicate LiteralOk(n: Node, caseless: bool) {
    && (n.One? && n.u.Chr? ==> !caseless)
    && (n.One? && n.u.ChrNC? ==> caseless)
  }

  /** A number that the scan gives up on. */
  predicate NumberOk(cap: nat) {
    cap < 256 * OP_NOT_DIGIT || 256 * OP_ANY <= cap < 256 * OP_OPT
  }

  /** The same of code without assertions and conditions, and that no number is misread. */
  ghost predicate ScannableItems(its: Items, caseless: bool) {
    its.Cons? ==>
      && LiteralOk(its.hd, caseless)
      && (its.hd.Grp? || its.hd.Zero? ==> ScannableGroup(its.hd.g, caseless))
      && ScannableItems(its.tl, caseless)
  }

  ghost predicate ScannableGroup(g: Group, caseless: bool) {
    (g.s ==> NumberOk(g.cap)) && ScannableAlts(g.alts, caseless)
  }

  ghost predicate ScannableAlts(alts: Alts, caseless: bool) {
    ScannableItems(alts.b, caseless) && (alts.More? ==> ScannableAlts(alts.rest, caseless))
  }

  lemma {:induction false} ItemsScannable(its: Items, caseless: bool)
    ensures ScannableItems(its, caseless) <==> Scannable(Embed(its), caseless) && Recognised(Embed(its))
    decreases its, 0
  {
    if its.Cons? {
      if its.hd.Grp? || its.hd.Zero? { GroupScannable(its.hd.g, caseless); }
      ItemsScannable(its.tl, caseless);
    }
  }

  lemma {:induction false} GroupScannable(g: Group, caseless: bool)
    ensures ScannableGroup(g, caseless) <==> ScannableBracket(EmbedGroup(g), caseless) && RecognisedBracket(EmbedGroup(g))
    decreases g, 1
  {
    AltsScannable(g.alts, caseless);
  }

  lemma {:induction false} AltsScannable(alts: Alts, caseless: bool)
    ensures ScannableAlts(alts, caseless) <==> ScannableBranches(EmbedAlts(alts), caseless) && RecognisedBranches(EmbedAlts(alts))
    decreases alts, 0
  {
    ItemsScannable(alts.b, caseless);
    if alts.More? { AltsScannable(alts.rest, caseless); }
  }

  /** after is before with the bits of some bytes added. */
  ghost predicate Added(before: seq<bv8>, after: seq<bv8>, bytes: iset<byte>) {
    |before| == |after| == 32 && forall ch: byte :: Has(after, ch) <==> Has(before, ch) || ch in bytes
  }

  /** set_table_bit() */
  method SetTableBit(startBits: array<bv8>, c: byte, caseless: bool, tb: Tables)
    requires startBits.Length == 32 && tb.Valid()
    modifies startBits
    ensures Added(old(startBits[..]), startBits[..],
              iset{c} + (if caseless && HasCtype(tb, c, CTYPE_LETTER) then iset{tb.fcc[c]} else iset{}))
  {
    SetBit(startBits, c);
    if caseless && HasCtype(tb, c, CTYPE_LETTER) {
      SetBit(startBits, tb.fcc[c]);
    }
  }

  method SetBit(startBits: array<bv8>, c: byte)
    requires startBits.Length == 32
    modifies startBits
    ensures Added(old(startBits[..]), startBits[..], iset{c})
  {
    hide BitSet;
    ghost var v := startBits[..];
    startBits[c / 8] := startBits[c / 8] | ((1 as bv8) << (c % 8));
    forall ch: byte ensures Has(startBits[..], ch) <==> Has(v, ch) || ch == c {
      if ch / 8 == c / 8 { OneBit(v[c / 8], c, ch); }
    }
  }

  lemma OneBit(x: bv8, c: byte, ch: byte)
    requires ch / 8 == c / 8
    ensures BitSet(x | ((1 as bv8) << (c % 8)), ch % 8) <==> BitSet(x, ch % 8) || ch == c
  {
    hide BitSet;
    OrBit(x, (1 as bv8) << (c % 8), ch % 8);
    ShiftBit(c % 8, ch % 8);
  }

  /** Adds the 32 bytes of the class at base of the class bit maps, or their complement. */
  method OrClass(startBits: array<bv8>, cbits: seq<bv8>, base: nat, negated: bool, dropTab: bool)
    requires startBits.Length == 32 && base + 32 <= |cbits|
    modifies startBits
    ensures Added(old(startBits[..]), startBits[..], iset ch: byte | InClass(cbits, base, ch, dropTab) != negated)
  {
    hide BitSet, ClassByte, InClass;
    ghost var v := startBits[..];
    var c := 0;
    while c < 32
      invariant 0 <= c <= 32
      invariant forall x :: c <= x < 32 ==> startBits[x] == v[x]
      invariant forall x :: 0 <= x < c ==> startBits[x] == v[x] | ClassByte(cbits, base, x, negated, dropTab)
    {
      startBits[c] := startBits[c] | ClassByte(cbits, base, c, negated, dropTab);
      c := c + 1;
    }
    forall ch: byte ensures Has(startBits[..], ch) <==> Has(v, ch) || (InClass(cbits, base, ch, dropTab) != negated) {
      OrBit(v[ch / 8], ClassByte(cbits, base, ch / 8, negated, dropTab), ch % 8);
      ClassBit(cbits, base, ch, negated, dropTab);
    }
  }

  lemma ClassBit(cbits: seq<bv8>, base: nat, ch: byte, negated: bool, dropTab: bool)
    requires base + 32 <= |cbits|
    ensures BitSet(ClassByte(cbits, base, ch / 8, negated, dropTab), ch % 8) <==> InClass(cbits, base, ch, dropTab) != negated
  {
    hide BitSet;
    var d := cbits[ch / 8 + base];
    assert cbits[base..base + 32][ch / 8] == d;
    OrBit(d, d, ch % 8);
    OrBit(d & !0x08, d, ch % 8);
  }

  /** One byte of a class bit map; bit 3 of byte 1 is the vertical tab. */
  function ClassByte(cbits: seq<bv8>, base: nat, c: nat, negated: bool, dropTab: bool): bv8
    requires c < 32 && base + 32 <= |cbits|
  {
    var d := if dropTab && c == 1 then cbits[c + base] & !0x08 else cbits[c + base];
    if negated then !d else d
  }

  /** Adds the bytes of a type \D, \d, \S, \s, \W or \w. */
  method OrType(startBits: array<bv8>, t: byte, tb: Tables, cbits: seq<bv8>, ghost caseless: bool)
    requires startBits.Length == 32 && tb.Valid() && TablesAgree(tb, cbits) && OP_NOT_DIGIT <= t <= OP_WORDCHAR
    modifies startBits
    ensures Added(old(startBits[..]), startBits[..], Accepted(tb, caseless, Type(t)))
  {
    if t == OP_NOT_DIGIT { OrClass(startBits, cbits, CBIT_DIGIT, true, false); }
    else if t == OP_DIGIT { OrClass(startBits, cbits, CBIT_DIGIT, false, false); }
    else if t == OP_NOT_WHITESPACE { OrClass(startBits, cbits, CBIT_SPACE, true, true); }
    else if t == OP_WHITESPACE { OrClass(startBits, cbits, CBIT_SPACE, false, true); }
    else if t == OP_NOT_WORDCHAR { OrClass(startBits, cbits, CBIT_WORD, true, false); }
    else { OrClass(startBits, cbits, CBIT_WORD, false, false); }
  }

  /** Adds the bit map of a class, which stands at tcode. */
  method OrMap(startBits: array<bv8>, code: seq<byte>, tcode: nat, ghost tb: Tables, ghost caseless: bool, ghost op: byte)
    requires startBits.Length == 32 && tcode + 32 <= |code| && tb.Valid() && (op == OP_CLASS || op == OP_NCLASS)
    modifies startBits
    ensures Added(old(startBits[..]), startBits[..], Accepted(tb, caseless, Class(op, code[tcode..tcode + 32])))
  {
    hide BitSet, MapByte, Bit;
    ghost var v := startBits[..];
    var c := 0;
    while c < 32
      invariant 0 <= c <= 32
      invariant forall x :: c <= x < 32 ==> startBits[x] == v[x]
      invariant forall x :: 0 <= x < c ==> startBits[x] == v[x] | MapByte(code, tcode + x)
    {
      startBits[c] := startBits[c] | MapByte(code, tcode + c);
      c := c + 1;
    }
    forall ch: byte
      ensures Has(startBits[..], ch) <==> Has(v, ch) || Bit(code[tcode..tcode + 32][ch / 8], ch % 8)
    {
      OrBit(v[ch / 8], MapByte(code, tcode + ch / 8), ch % 8);
      SameBit(code, tcode + ch / 8, ch % 8);
    }
  }

  function MapByte(code: seq<byte>, i: nat): bv8
    requires i < |code|
  {
    code[i] as bv8
  }

  lemma SameBit(code: seq<byte>, i: nat, k: nat)
    requires k < 8 && i < |code|
    ensures BitSet(MapByte(code, i), k) <==> Bit(code[i], k)
  {
  }

  /** The result of a scan is what x says, and after has the bits of x besides those of before. */
  ghost predicate Reports(x: Starts, rc: StartResult, before: seq<bv8>, after: seq<bv8>) {
    && (rc == SSB_FAIL <==> x.Unknown?)
    && (rc == SSB_DONE ==> x.Found? && x.must)
    && (rc == SSB_CONTINUE ==> x.Found? && !x.must)
    && (rc != SSB_FAIL ==> Added(before, after, x.bytes))
  }

  lemma LetterBytes(tb: Tables, cbits: seq<bv8>, caseless: bool, c: byte)
    requires TablesAgree(tb, cbits)
    ensures iset{c} + (if caseless && HasCtype(tb, c, CTYPE_LETTER) then iset{tb.fcc[c]} else iset{})
         == Accepted(tb, caseless, if caseless then ChrNC(c) else Chr(c))
  {
  }

  /** A literal, whether repeated or not. */
  method OrLiteral(startBits: array<bv8>, c: byte, caseless: bool, tb: Tables, cbits: seq<bv8>)
    requires startBits.Length == 32 && tb.Valid() && TablesAgree(tb, cbits)
    modifies startBits
    ensures Added(old(startBits[..]), startBits[..], Accepted(tb, caseless, if caseless then ChrNC(c) else Chr(c)))
  {
    LetterBytes(tb, cbits, caseless, c);
    SetTableBit(startBits, c, caseless, tb);
  }

  /** A type, whether repeated or not; . and the type that accepts everything make the scan fail. */
  method TypeBits(code: seq<byte>, tcode: nat, must: bool, startBits: array<bv8>, tb: Tables, cbits: seq<bv8>,
                  ghost caseless: bool) returns (rc: StartResult)
    requires tcode < |code| && OP_NOT_DIGIT <= code[tcode] <= OP_ALLANY
    requires startBits.Length == 32 && tb.Valid() && TablesAgree(tb, cbits)
    modifies startBits
    ensures Reports(if code[tcode] >= OP_ANY then Unknown else Found(must, Accepted(tb, caseless, Type(code[tcode]))),
                    rc, old(startBits[..]), startBits[..])
  {
    if code[tcode] >= OP_ANY { return SSB_FAIL; }
    OrType(startBits, code[tcode], tb, cbits, caseless);
    rc := if must then SSB_DONE else SSB_CONTINUE;
  }

  /** A class and the quantifier that may follow it. */
  method ClassBits(code: seq<byte>, tcode0: nat, startBits: array<bv8>, tb: Tables, ghost caseless: bool, ghost n: Node)
    returns (rc: StartResult, tcode: nat)
    requires (n.One? || n.Rep?) && n.u.Class? && AtNode(code, tcode0, n, caseless)
    requires startBits.Length == 32 && tb.Valid()
    modifies startBits
    ensures Reports(NodeStarts(tb, caseless, n), rc, old(startBits[..]), startBits[..])
    ensures rc == SSB_CONTINUE ==> tcode == tcode0 + NodeLen(n)
  {
    hide Added, Accepted, Bit;
    assert n.One? ==> AtUnit(code, tcode0, n.u);
    assert n.Rep? ==> AtRep(code, tcode0, n.u, n.q, n.m, caseless);
    tcode := tcode0 + 1;
    OrMap(startBits, code, tcode, tb, caseless, n.u.op);
    tcode := tcode + 32;
    rc := SSB_DONE;
    var op := code[tcode];
    if op == OP_CRSTAR || op == OP_CRSTAR + 1 || op == OP_CRSTAR + 4 || op == OP_CRSTAR + 5 {
      tcode := tcode + 1;
      rc := SSB_CONTINUE;
    } else if op == OP_CRRANGE || op == OP_CRMINRANGE {
      if Get(code, tcode + 1) == 0 {
        tcode := tcode + 5;
        rc := SSB_CONTINUE;
      }
    }
  }

  /** A repeat of a literal, a negated literal or a type. */
  method RepeatBits(code: seq<byte>, tcode: nat, startBits: array<bv8>, tb: Tables, cbits: seq<bv8>, caseless: bool, ghost n: Node)
    returns (rc: StartResult, next: nat)
    requires n.Rep? && !n.u.Class? && AtRep(code, tcode, n.u, n.q, n.m, caseless)
    requires startBits.Length == 32 && tb.Valid() && TablesAgree(tb, cbits)
    modifies startBits
    ensures Reports(NodeStarts(tb, caseless, n), rc, old(startBits[..]), startBits[..])
    ensures rc == SSB_CONTINUE ==> next == tcode + NodeLen(n)
  {
    hide Added, Accepted, TablesAgree;
    var op := code[tcode];
    next := tcode;
    if OP_NOTSTAR <= op < OP_TYPESTAR { return SSB_FAIL, next; }
    var i := op - (if op < OP_NOTSTAR then OP_STAR else OP_TYPESTAR);
    assert i == QuantIndex(n.q, n.m);
    var upto := i == 6 || i == 7 || i == 8 || i == 12;
    next := if upto then tcode + 3 else tcode + 1;
    if op < OP_NOTSTAR {
      OrLiteral(startBits, code[next], caseless, tb, cbits);
      rc := if i == 2 || i == 3 || i == 10 || i == 8 then SSB_DONE else SSB_CONTINUE;
    } else if i == 10 {
      rc := SSB_FAIL;
    } else {
      rc := TypeBits(code, next, i == 2 || i == 3 || i == 8, startBits, tb, cbits, caseless);
    }
    next := next + 1;
  }

  /** One item that consumes characters. */
  method ItemBits(code: seq<byte>, tcode: nat, startBits: array<bv8>, tb: Tables, cbits: seq<bv8>, caseless: bool, ghost n: Node)
    returns (rc: StartResult, next: nat)
    requires (n.One? || n.Rep?) && AtNode(code, tcode, n, caseless) && LiteralOk(n, caseless)
    requires startBits.Length == 32 && tb.Valid() && TablesAgree(tb, cbits)
    modifies startBits
    ensures Reports(NodeStarts(tb, caseless, n), rc, old(startBits[..]), startBits[..])
    ensures rc == SSB_CONTINUE ==> next == tcode + NodeLen(n)
  {
    hide Added, Accepted, TablesAgree;
    ItemOp(code, tcode, n, caseless);
    var op := code[tcode];
    next := tcode;
    if OP_NOT_DIGIT <= op <= OP_ALLANY {
      rc := TypeBits(code, tcode, true, startBits, tb, cbits, caseless);
    } else if op == OP_CHAR || op == OP_CHARNC {
      OrLiteral(startBits, code[tcode + 1], caseless, tb, cbits);
      rc := SSB_DONE;
    } else if op == OP_CLASS || op == OP_NCLASS {
      rc, next := ClassBits(code, tcode, startBits, tb, caseless, n);
    } else if OP_STAR <= op < OP_CRSTAR {
      rc, next := RepeatBits(code, tcode, startBits, tb, cbits, caseless, n);
    } else {
      rc := SSB_FAIL;
    }
  }

  ghost function After(seen: iset<byte>, x: Starts): Starts {
    Before(Found(false, seen), x)
  }

  lemma AddedTrans(u: seq<bv8>, v: seq<bv8>, w: seq<bv8>, x: iset<byte>, y: iset<byte>)
    requires Added(u, v, x) && Added(v, w, y)
    ensures Added(u, w, x + y)
  {
  }

  /** The parts of one branch. */
  method ScanBranch(code: seq<byte>, tcode0: nat, startBits: array<bv8>, tb: Tables, cbits: seq<bv8>, caseless: bool,
                    ghost ps0: Parts, ghost bs: Branches, ghost pc: nat, ghost b: Bracket)
    returns (rc: StartResult)
    requires ScanAt(code, tcode0, ps0, bs, pc, b, caseless) && Scannable(ps0, caseless)
    requires startBits.Length == 32 && tb.Valid() && TablesAgree(tb, cbits)
    modifies startBits
    ensures Reports(PartsStarts(tb, caseless, ps0), rc, old(startBits[..]), startBits[..])
    decreases b, 1
  {
    hide Added, Accepted, TablesAgree, AtPart, AtParts, AtBracket, AtBranches, PartLen, PartsLen, BracketLen, ScanAt, ScannableBracket,
      LiteralOk, Scannable, ScannableBranches, BranchesStarts, BracketStarts, PartStarts, PartsStarts, Reports, Before, After, CheckOk;
    ghost var v := startBits[..];
    var tcode: nat := tcode0;
    ghost var ps, seen: iset<byte> := ps0, iset{};
    AddedNone(v);
    AfterNothing(PartsStarts(tb, caseless, ps0));
    while true
      invariant ScanAt(code, tcode, ps, bs, pc, b, caseless) && Scannable(ps, caseless)
      invariant PartsStarts(tb, caseless, ps0) == After(seen, PartsStarts(tb, caseless, ps))
      invariant Added(v, startBits[..], seen)
      decreases ps
    {
      DecodeAt(code, tcode, ps, bs, pc, b, caseless);
      ghost var w := startBits[..];
      var op := code[tcode];
      if op == OP_ALT || OP_KET <= op <= OP_KETRMIN {
        ScanEnds(tb, caseless, ps0, seen, v, w);
        return SSB_CONTINUE;
      }
      InnerPart(code, tcode, ps, bs, pc, b, caseless);
      rc, tcode := PartBits(code, tcode, startBits, tb, cbits, caseless, ps, bs, pc, b);
      seen := ScanStep(tb, caseless, ps0, ps, seen, rc, v, w, startBits[..]);
      if rc != SSB_CONTINUE { return; }
      ScannableTail(ps, caseless);
      ps := ps.tl;
    }
  }

  lemma ScannableTail(ps: Parts, caseless: bool)
    requires ps.Parts? && Scannable(ps, caseless)
    ensures Scannable(ps.tl, caseless)
  {
  }

  /** One part of a branch. */
  method PartBits(code: seq<byte>, tcode: nat, startBits: array<bv8>, tb: Tables, cbits: seq<bv8>, caseless: bool,
                  ghost ps: Parts, ghost bs: Branches, ghost pc: nat, ghost b: Bracket)
    returns (rc: StartResult, next: nat)
    requires ScanAt(code, tcode, ps, bs, pc, b, caseless) && ps.Parts? && Scannable(ps, caseless)
    requires startBits.Length == 32 && tb.Valid() && TablesAgree(tb, cbits)
    modifies startBits
    ensures Reports(PartStarts(tb, caseless, ps.hd), rc, old(startBits[..]), startBits[..])
    ensures rc == SSB_CONTINUE ==> next == tcode + PartLen(ps.hd)
    decreases b, 0
  {
    hide Added, TablesAgree, AtPart, AtParts, AtBracket, AtNode, AtBranches, NodeLen, PartLen, PartsLen,
      ScanAt, NodeStarts, BranchesStarts, ScannableBranches, Accepted;
    DecodeAt(code, tcode, ps, bs, pc, b, caseless);
    InnerPart(code, tcode, ps, bs, pc, b, caseless);
    ghost var v := startBits[..];
    AddedNone(v);
    var op := code[tcode];
    next := tcode;
    if op == OP_ASSERT || OP_ONCE <= op <= OP_CBRA || OP_SBRA <= op <= OP_SCBRA {
      rc := SetStartBits(code, tcode, startBits, tb, cbits, caseless, ps.hd.b);
      next := SkipBracket(code, tcode, ps.hd.b, caseless);
    } else if OP_ASSERT_NOT <= op <= OP_ASSERTBACK_NOT {
      next := SkipBracket(code, tcode, ps.hd.b, caseless);
      rc := SSB_CONTINUE;
    } else if op == OP_CALLOUT {
      return SSB_CONTINUE, tcode + 2 + 2 * LINK_SIZE;
    } else if op == OP_SKIPZERO {
      next := SkipBracket(code, tcode + 1, ps.hd.b, caseless);
      rc := SSB_CONTINUE;
    } else if op == OP_BRAZERO || op == OP_BRAMINZERO {
      rc := SetStartBits(code, tcode + 1, startBits, tb, cbits, caseless, ps.hd.b);
      OptionalReports(BodyStarts(tb, caseless, ps.hd.b), rc, v, startBits[..]);
      if rc == SSB_DONE { rc := SSB_CONTINUE; }
      next := SkipBracket(code, tcode + 1, ps.hd.b, caseless);
    } else if op == OP_COND || op == OP_SCOND || op == OP_REVERSE || CheckOk(op) {
      return SSB_FAIL, tcode;
    } else {
      rc, next := ItemBits(code, tcode, startBits, tb, cbits, caseless, ps.hd.n);
    }
  }

  lemma OptionalReports(x: Starts, rc: StartResult, v: seq<bv8>, w: seq<bv8>)
    requires Reports(x, rc, v, w)
    ensures Reports(Optionally(x), if rc == SSB_DONE then SSB_CONTINUE else rc, v, w)
  {
    hide Added;
  }

  /** One more part has been scanned. */
  lemma ScanStep(tb: Tables, caseless: bool, ps0: Parts, ps: Parts, seen: iset<byte>, rc: StartResult,
                 u: seq<bv8>, v: seq<bv8>, w: seq<bv8>) returns (seen': iset<byte>)
    requires tb.Valid() && ps.Parts? && Reports(PartStarts(tb, caseless, ps.hd), rc, v, w) && Added(u, v, seen)
    requires PartsStarts(tb, caseless, ps0) == After(seen, PartsStarts(tb, caseless, ps))
    ensures rc != SSB_CONTINUE ==> Reports(PartsStarts(tb, caseless, ps0), rc, u, w)
    ensures rc == SSB_CONTINUE ==>
              Added(u, w, seen') && PartsStarts(tb, caseless, ps0) == After(seen', PartsStarts(tb, caseless, ps.tl))
  {
    hide Added, PartStarts;
    seen' := seen;
    if rc != SSB_FAIL {
      AddedTrans(u, v, w, seen, PartStarts(tb, caseless, ps.hd).bytes);
      seen' := seen + PartStarts(tb, caseless, ps.hd).bytes;
    }
  }

  /** At the end of the parts. */
  lemma ScanEnds(tb: Tables, caseless: bool, ps0: Parts, seen: iset<byte>, u: seq<bv8>, v: seq<bv8>)
    requires tb.Valid() && PartsStarts(tb, caseless, ps0) == After(seen, PartsStarts(tb, caseless, NoParts)) && Added(u, v, seen)
    ensures Reports(PartsStarts(tb, caseless, ps0), SSB_CONTINUE, u, v)
  {
    assert seen + iset{} == seen;
  }

  lemma AfterNothing(x: Starts)
    ensures After(iset{}, x) == x
  {
    if x.Found? { assert iset{} + x.bytes == x.bytes; }
  }

  lemma AddedNone(v: seq<bv8>)
    requires |v| == 32
    ensures Added(v, v, iset{})
  {
  }

  /** What the branches from bs on start with, of which the first one may be hidden behind a group number. */
  ghost function BranchesFrom(tb: Tables, caseless: bool, b: Bracket, bs: Branches, first: bool): Starts
    requires tb.Valid() && (first ==> Misread(b))
  {
    var x := if first then MisreadStarts(tb, caseless, b) else PartsStarts(tb, caseless, bs.b);
    if bs.Final? then x else OneOf(x, BranchesStarts(tb, caseless, bs.rest))
  }

  lemma BranchesFromAll(tb: Tables, caseless: bool, b: Bracket)
    requires tb.Valid() && (MarkedCapture(b) ==> Misread(b))
    ensures BodyStarts(tb, caseless, b) == OneOf(Found(true, iset{}), BranchesFrom(tb, caseless, b, b.branches, Misread(b)))
  {
    var x, bs := BodyStarts(tb, caseless, b), b.branches;
    assert BranchesStarts(tb, caseless, bs)
        == if bs.Final? then PartsStarts(tb, caseless, bs.b) else OneOf(PartsStarts(tb, caseless, bs.b), BranchesStarts(tb, caseless, bs.rest));
    assert x == BranchesFrom(tb, caseless, b, b.branches, Misread(b));
    if x.Found? { assert iset{} + x.bytes == x.bytes; }
  }

  /** One more branch has been scanned. */
  lemma BranchesFromStep(tb: Tables, caseless: bool, b: Bracket, bs: Branches, first: bool, must: bool, seen: iset<byte>)
    requires tb.Valid() && (first ==> Misread(b))
    ensures var x := if first then MisreadStarts(tb, caseless, b) else PartsStarts(tb, caseless, bs.b);
            var y := OneOf(Found(must, seen), BranchesFrom(tb, caseless, b, bs, first));
            && (x.Unknown? ==> y == Unknown)
            && (x.Found? && bs.Final? ==> y == Found(must && x.must, seen + x.bytes))
            && (x.Found? && bs.Either? ==> y == OneOf(Found(must && x.must, seen + x.bytes), BranchesFrom(tb, caseless, b, bs.rest, false)))
  {
    hide PartsStarts, MisreadStarts;
    if bs.Either? {
      var z := BranchesStarts(tb, caseless, bs.rest);
      assert z == BranchesFrom(tb, caseless, b, bs.rest, false);
      var x := if first then MisreadStarts(tb, caseless, b) else PartsStarts(tb, caseless, bs.b);
      if x.Found? && z.Found? { assert seen + (x.bytes + z.bytes) == (seen + x.bytes) + z.bytes; }
    }
  }

  /** The branches of a bracket. */
  method SetStartBits(code: seq<byte>, pc: nat, startBits: array<bv8>, tb: Tables, cbits: seq<bv8>, caseless: bool,
                      ghost b: Bracket) returns (result: StartResult)
    requires AtBracket(code, pc, b, caseless) && ScannableBracket(b, caseless)
    requires startBits.Length == 32 && tb.Valid() && TablesAgree(tb, cbits)
    modifies startBits
    ensures Reports(BodyStarts(tb, caseless, b), result, old(startBits[..]), startBits[..])
    decreases b, 2
  {
    hide Added, Accepted, TablesAgree, AtParts, AtBranches, ScanAt, BodyLen, PartsStarts, PartsLen, Scannable, BracketLen, BranchesFrom,
      BodyStarts, MisreadStarts;
    StartAt(code, pc, b, caseless);
    var p: nat := pc;
    var tcode: nat := p + (if code[p] == OP_CBRA then 3 else 1) + LINK_SIZE;
    // Of a marked capturing bracket the scan sees the group number first.
    var first := code[p] == OP_SCBRA;
    if first && !(OP_NOT_DIGIT <= code[tcode] <= OP_WORDCHAR) {
      GivenUp(tb, caseless, b);
      return SSB_FAIL;
    }
    ghost var start: nat := pc + HeadLen(b);
    ghost var v, bs, seen: iset<byte> := startBits[..], b.branches, iset{};
    AddedNone(v);
    BranchesFromAll(tb, caseless, b);
    result := SSB_DONE;
    while true
      invariant ScanAt(code, start, bs.b, bs, pc, b, caseless) && ScannableBranches(bs, caseless)
      invariant p < start && AtBranches(code, p, start - p, bs, pc, KetOp(b.ket), caseless)
      invariant first ==> tcode < |code|
      invariant if first then Misread(b) && code[tcode] == b.kind.cap / 256 && OP_NOT_DIGIT <= code[tcode] <= OP_WORDCHAR
                else tcode == start
      invariant bs == b.branches || bs < b.branches
      invariant Added(v, startBits[..], seen) && result != SSB_FAIL
      invariant BodyStarts(tb, caseless, b) == OneOf(Found(result == SSB_DONE, seen), BranchesFrom(tb, caseless, b, bs, first))
      decreases bs
    {
      ghost var w := startBits[..];
      BranchesFromStep(tb, caseless, b, bs, first, result == SSB_DONE, seen);
      ghost var x := if first then MisreadStarts(tb, caseless, b) else PartsStarts(tb, caseless, bs.b);
      var rc := SSB_DONE;
      if first {
        OrType(startBits, code[tcode], tb, cbits, caseless);
        MisreadReports(tb, caseless, b, w, startBits[..]);
      } else {
        rc := ScanBranch(code, tcode, startBits, tb, cbits, caseless, bs.b, bs, pc, b);
      }
      if rc == SSB_FAIL { return SSB_FAIL; }
      if rc == SSB_CONTINUE { result := SSB_CONTINUE; }
      AddedTrans(v, w, startBits[..], seen, x.bytes);
      seen := seen + x.bytes;
      LinkEnd(code, p, start - p, bs, pc, b, caseless);
      p := p + Get(code, p + 1);
      if code[p] != OP_ALT { return; }
      NextBranchAt(code, p, bs, pc, b, caseless);
      bs := bs.rest;
      tcode := p + 1 + LINK_SIZE;
      start := tcode;
      first := false;
    }
  }

  lemma GivenUp(tb: Tables, caseless: bool, b: Bracket)
    requires tb.Valid() && MarkedCapture(b) && !Misread(b)
    ensures BodyStarts(tb, caseless, b) == Unknown
  {
  }

  lemma MisreadReports(tb: Tables, caseless: bool, b: Bracket, v: seq<bv8>, w: seq<bv8>)
    requires tb.Valid() && Misread(b) && Added(v, w, Accepted(tb, caseless, Type(b.kind.cap / 256)))
    ensures Reports(MisreadStarts(tb, caseless, b), SSB_DONE, v, w)
  {
    hide Added;
  }
}

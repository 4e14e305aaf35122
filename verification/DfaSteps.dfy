/** The states of the DFA engine and the moves between them, read off the byte code. A state is an
    offset into the code with a count of the repeats already made of the item there. */
module DfaSteps {
  import opened ByteCode
  import opened Meaning

  datatype Config = Config(off: nat, count: nat)

  function Byte(code: seq<byte>, i: nat): byte {
    if i < |code| then code[i] else OP_END
  }

  function Field(code: seq<byte>, i: nat): nat {
    if i + 1 < |code| then Get(code, i) else 0
  }

  // ---- The engine's own character tests ----------------------------------------------------

  const TOPTABLE1: seq<bv8> := [0, 0, 0, 0, 0, 0, 0x04, 0x04, 0x01, 0x01, 0x10, 0x10, 0, 0]
  const TOPTABLE2: seq<bv8> := [0, 0, 0, 0, 0, 0, 0x04, 0, 0x01, 0, 0x10, 0, 1, 1]

  /** The test that the engine makes of the current character for a unit. */
  predicate DfaAccepts(tb: Tables, caseless: bool, repeated: bool, u: Unit, ch: byte)
    requires tb.Valid() && UnitOk(u)
  {
    match u
    case Chr(d) => ch == d
    case ChrNC(d) => if repeated then ch == d || ch == tb.fcc[d] else tb.lcc[ch] == tb.lcc[d]
    case NotChr(d) =>
      var otherd := if caseless then tb.fcc[d] else d;
      ch != d && ch != otherd
    case Type(t) =>
      && (t != OP_ANY || ch != NEWLINE)
      && ((tb.ctypes[ch] as bv8) & TOPTABLE1[t]) ^ TOPTABLE2[t] != 0
    case Class(_, bits) => ((bits[ch / 8] as bv8) & ((1 as bv8) << (ch % 8))) != 0
  }

  /** Lower-casing and case-flipping agree on which bytes are the same letter. */
  ghost predicate CaseConsistent(tb: Tables) {
    tb.Valid() && forall x: byte, y: byte :: tb.lcc[x] == tb.lcc[y] <==> x == y || x == tb.fcc[y]
  }

  lemma BitTest(x: bv8, k: nat)
    requires k < 8
    ensures (x & ((1 as bv8) << k)) != 0 <==> (x >> k) & 1 == 1
  {
    if k == 0 {} else if k == 1 {} else if k == 2 {} else if k == 3 {}
    else if k == 4 {} else if k == 5 {} else if k == 6 {} else { assert k == 7; }
  }

  lemma BitMeans(x: byte, k: nat)
    requires k < 8
    ensures Bit(x, k) <==> (x / [1, 2, 4, 8, 16, 32, 64, 128][k]) % 2 == 1
  {
    if k == 0 {} else if k == 1 {} else if k == 2 {} else if k == 3 {}
    else if k == 4 {} else if k == 5 {} else if k == 6 {} else { assert k == 7; }
  }

  /** What . and the types match: . every byte but 10, and \d, \s and \w the bytes with the bits 4, 1 and 16 in the
      ctypes table. */
  lemma TypesMean(tb: Tables, caseless: bool, ch: byte)
    requires tb.Valid()
    ensures Accepts(tb, caseless, Type(12), ch) <==> ch != 10
    ensures Accepts(tb, caseless, Type(13), ch)
    ensures Accepts(tb, caseless, Type(7), ch) <==> (tb.ctypes[ch] / 4) % 2 == 1
    ensures Accepts(tb, caseless, Type(9), ch) <==> tb.ctypes[ch] % 2 == 1
    ensures Accepts(tb, caseless, Type(11), ch) <==> (tb.ctypes[ch] / 16) % 2 == 1
    ensures Accepts(tb, caseless, Type(6), ch) != Accepts(tb, caseless, Type(7), ch)
    ensures Accepts(tb, caseless, Type(8), ch) != Accepts(tb, caseless, Type(9), ch)
    ensures Accepts(tb, caseless, Type(10), ch) != Accepts(tb, caseless, Type(11), ch)
  {
    hide Bit;
    BitMeans(tb.ctypes[ch], 0);
    BitMeans(tb.ctypes[ch], 2);
    BitMeans(tb.ctypes[ch], 4);
  }

  /** The DFA engine's test of a type is the same, with any tables. */
  lemma DfaTypesMean(tb: Tables, caseless: bool, repeated: bool, t: byte, ch: byte)
    requires tb.Valid() && 6 <= t <= 13
    ensures DfaAccepts(tb, caseless, repeated, Type(t), ch) <==> Accepts(tb, caseless, Type(t), ch)
    ensures DfaAccepts(tb, caseless, repeated, Type(12), ch) <==> ch != 10
  {
    var x := tb.ctypes[ch] as bv8;
    BitTest(x, CTYPE_SPACE);
    BitTest(x, CTYPE_DIGIT);
    BitTest(x, CTYPE_WORD);
  }

  /** What literals and classes match: a caseless literal both cases, a class the bytes whose bits are set. */
  lemma CharsMean(tb: Tables, caseless: bool, c: byte, op: byte, bits: seq<byte>, ch: byte)
    requires CaseConsistent(tb) && (op == 78 || op == 79) && |bits| == 32
    ensures Accepts(tb, caseless, Chr(c), ch) <==> ch == c
    ensures Accepts(tb, caseless, ChrNC(c), ch) <==> ch == c || ch == tb.fcc[c]
    ensures Accepts(tb, caseless, NotChr(c), ch) <==> ch != c && (caseless ==> ch != tb.fcc[c])
    ensures Accepts(tb, caseless, Class(op, bits), ch) <==> (bits[ch / 8] / [1, 2, 4, 8, 16, 32, 64, 128][ch % 8]) % 2 == 1
  {
    hide Bit;
    BitMeans(bits[ch / 8], ch % 8);
    assert tb.lcc[ch] == tb.lcc[c] <==> ch == c || ch == tb.fcc[c];
  }

  /** With consistent tables the engine's tests are those of the backtracking matcher. */
  lemma SameTest(tb: Tables, caseless: bool, repeated: bool, u: Unit, ch: byte)
    requires CaseConsistent(tb) && UnitOk(u)
    ensures DfaAccepts(tb, caseless, repeated, u, ch) <==> Accepts(tb, caseless, u, ch)
  {
    match u
    case Type(t) =>
      var x := tb.ctypes[ch] as bv8;
      BitTest(x, CTYPE_SPACE);
      BitTest(x, CTYPE_DIGIT);
      BitTest(x, CTYPE_WORD);
    case Class(_, bits) => BitTest(bits[ch / 8] as bv8, (ch % 8) as int);
    case _ =>
  }

  // ---- Reading an item ---------------------------------------------------------------------

  /** The quantifier of a repeat opcode whose index in its family is i. */
  function QuantOf(i: nat, n: nat): Quant {
    if i == 0 || i == 1 || i == 9 then Star
    else if i == 2 || i == 3 || i == 10 then Plus
    else if i == 4 || i == 5 || i == 11 then Query
    else if i == 8 then Exact(n)
    else Upto(n)
  }

  function ModeOf(i: nat): Mode {
    if i >= 9 then Possessive else if i == 8 || i % 2 == 0 then Greedy else Lazy
  }

  /** The item at off, when it consumes characters. */
  function ItemAt(code: seq<byte>, off: nat, caseless: bool): Node {
    var op := Byte(code, off);
    if op == OP_CHAR then One(Chr(Byte(code, off + 1)))
    else if op == OP_CHARNC then One(ChrNC(Byte(code, off + 1)))
    else if op == OP_NOT then One(NotChr(Byte(code, off + 1)))
    else if OP_STAR <= op < OP_CRSTAR then
      var base := if op < OP_NOTSTAR then OP_STAR else if op < OP_TYPESTAR then OP_NOTSTAR else OP_TYPESTAR;
      var i := (op - base) as nat;
      var q := QuantOf(i, Field(code, off + 1));
      var d := Byte(code, if q.Upto? || q.Exact? then off + 3 else off + 1);
      var u := if base == OP_NOTSTAR then NotChr(d) else if base == OP_TYPESTAR then Type(d)
               else if caseless then ChrNC(d) else Chr(d);
      Rep(u, q, ModeOf(i))
    else if op == OP_CLASS || op == OP_NCLASS then
      var u := Class(op, if off + 33 <= |code| then code[off + 1..off + 33] else []);
      var r := Byte(code, off + 33);
      if OP_CRSTAR <= r < OP_CRRANGE then Rep(u, QuantOf(r - OP_CRSTAR, 0), ModeOf(r - OP_CRSTAR))
      else if r == OP_CRRANGE || r == OP_CRMINRANGE then
        Rep(u, Range(Field(code, off + 34), Field(code, off + 36)), if r == OP_CRRANGE then Greedy else Lazy)
      else One(u)
    else One(Type(op))
  }

  lemma ItemAtIs(code: seq<byte>, off: nat, n: Node, caseless: bool)
    requires (n.One? || n.Rep?) && AtNode(code, off, n, caseless)
    ensures ItemAt(code, off, caseless) == n
  {
    match n
    case One(u) => assert AtUnit(code, off, u);
    case Rep(u, q, m) =>
      assert AtRep(code, off, u, q, m, caseless);
      match q {
        case Star => case Plus => case Query => case Upto(_) => case Exact(_) => case Range(_, _) =>
      }
  }

  // ---- Following links ---------------------------------------------------------------------

  /** The offsets of the first items of the branches from the bracket or OP_ALT at p on. */
  function BranchStarts(code: seq<byte>, p: nat, h: nat): seq<nat>
    decreases |code| - p
  {
    var q := p + Field(code, p + 1);
    if p < q < |code| && code[q] == OP_ALT then [p + h] + BranchStarts(code, q, 1 + LINK_SIZE) else [p + h]
  }

  /** The offset of the ket of the group whose bracket or OP_ALT is at p. */
  function KetOf(code: seq<byte>, p: nat): nat
    decreases |code| - p
  {
    var q := p + Field(code, p + 1);
    if p < q < |code| && code[q] == OP_ALT then KetOf(code, q) else q
  }

  // ---- Moves -------------------------------------------------------------------------------

  /** A subject, a compiled pattern and the offset at which the engine stops. */
  datatype Machine = Machine(code: seq<byte>, c: Context, endCode: nat)

  predicate HitAt(m: Machine, n: Node, p: nat)
    requires n.One? || n.Rep?
  {
    && p < |m.c.s|
    && m.c.Valid()
    && UnitOk(n.u)
    && DfaAccepts(m.c.tb, m.c.caseless, n.Rep?, n.u, m.c.s[p])
  }

  /** Whether an item may be left after count repeats of it. */
  predicate MayLeave(n: Node, count: nat) {
    n.Rep? &&
    match n.q
    case Plus => count > 0
    case Exact(_) => false
    case Range(lo, _) => count >= lo
    case _ => true
  }

  /** The states added to the current list by state x at subject offset p. */
  function Stays(m: Machine, p: nat, x: Config): seq<Config> {
    var op := Byte(m.code, x.off);
    if OP_KET <= op <= OP_KETRMIN then
      if x.off == m.endCode then []
      else
        [Config(x.off + 1 + LINK_SIZE, 0)]
        + (if op == OP_KET || Field(m.code, x.off + 1) > x.off then []
           else [Config(x.off - Field(m.code, x.off + 1), 0)])
    else if op == OP_ALT then [Config(KetOf(m.code, x.off), 0)]
    else if OP_BRA <= op <= OP_SCBRA then
      var bs := BranchStarts(m.code, x.off, OpLength(op));
      seq(|bs|, i requires 0 <= i < |bs| => Config(bs[i], 0))
    else if OP_BRAZERO <= op <= OP_BRAMINZERO then
      [Config(x.off + 1, 0), Config(KetOf(m.code, x.off + 1) + 1 + LINK_SIZE, 0)]
    else
      var n := ItemAt(m.code, x.off, m.c.caseless);
      if MayLeave(n, x.count) && !(n.m == Possessive && HitAt(m, n, p))
      then [Config(x.off + NodeLen(n), 0)] else []
  }

  /** The states added to the list for the next character by state x at subject offset p. */
  function Moves(m: Machine, p: nat, x: Config): seq<Config> {
    var op := Byte(m.code, x.off);
    if OP_KET <= op <= OP_KETRMIN || op == OP_ALT || OP_BRA <= op <= OP_SCBRA || OP_BRAZERO <= op <= OP_BRAMINZERO then []
    else
      var n := ItemAt(m.code, x.off, m.c.caseless);
      if HitAt(m, n, p) then [AfterHit(n, x)] else []
  }

  function AfterHit(n: Node, x: Config): Config {
    var next := Config(x.off + NodeLen(n), 0);
    if !n.Rep? then next
    else match n.q
         case Star => Config(x.off, 0)
         case Plus => Config(x.off, x.count + 1)
         case Query => next
         case Upto(k) => if x.count + 1 >= k then next else Config(x.off, x.count + 1)
         case Exact(k) => if x.count + 1 >= k then next else Config(x.off, x.count + 1)
         case Range(_, hi) => if x.count + 1 >= hi && hi != 0 then next else Config(x.off, x.count + 1)
  }

  /** n moves lead from state x at p to state y at r. */
  ghost predicate Leads(m: Machine, n: nat, p: nat, x: Config, r: nat, y: Config) {
    if n == 0 then p == r && x == y
    else
      || (exists z :: z in Stays(m, p, x) && Leads(m, n - 1, p, z, r, y))
      || (exists z :: z in Moves(m, p, x) && Leads(m, n - 1, p + 1, z, r, y))
  }

  ghost predicate Reaches(m: Machine, p: nat, x: Config, r: nat, y: Config) {
    exists n: nat :: Leads(m, n, p, x, r, y)
  }

  lemma {:induction false} LeadsTrans(m: Machine, n: nat, p: nat, x: Config, r: nat, y: Config, k: nat, t: nat, z: Config)
    requires Leads(m, n, p, x, r, y) && Leads(m, k, r, y, t, z)
    ensures Leads(m, n + k, p, x, t, z)
  {
    hide Stays, Moves;
    if n > 0 {
      if w :| w in Stays(m, p, x) && Leads(m, n - 1, p, w, r, y) {
        LeadsTrans(m, n - 1, p, w, r, y, k, t, z);
      } else {
        var w :| w in Moves(m, p, x) && Leads(m, n - 1, p + 1, w, r, y);
        LeadsTrans(m, n - 1, p + 1, w, r, y, k, t, z);
      }
    }
  }

  lemma ReachesTrans(m: Machine, p: nat, x: Config, r: nat, y: Config, t: nat, z: Config)
    requires Reaches(m, p, x, r, y) && Reaches(m, r, y, t, z)
    ensures Reaches(m, p, x, t, z)
  {
    var n: nat :| Leads(m, n, p, x, r, y);
    var k: nat :| Leads(m, k, r, y, t, z);
    LeadsTrans(m, n, p, x, r, y, k, t, z);
  }

  lemma ReachesSame(m: Machine, p: nat, x: Config)
    ensures Reaches(m, p, x, p, x)
  {
    assert Leads(m, 0, p, x, p, x);
  }

  lemma ReachesStay(m: Machine, p: nat, x: Config, y: Config)
    requires y in Stays(m, p, x)
    ensures Reaches(m, p, x, p, y)
  {
    assert Leads(m, 0, p, y, p, y);
    assert Leads(m, 1, p, x, p, y);
  }

  lemma ReachesMove(m: Machine, p: nat, x: Config, y: Config)
    requires y in Moves(m, p, x)
    ensures Reaches(m, p, x, p + 1, y)
  {
    assert Leads(m, 0, p + 1, y, p + 1, y);
    assert Leads(m, 1, p, x, p + 1, y);
  }
}

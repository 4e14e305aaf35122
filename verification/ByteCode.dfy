/** The byte code of a compiled pattern: opcodes, two-byte links, and the tree of items that a
    well-formed stretch of code stands for. */
module ByteCode {

  type byte = x: int | 0 <= x < 256

  // Opcode numbers, in the order the matchers rely on.
  const OP_END: byte := 0
  const OP_NOT_DIGIT: byte := 6
  const OP_DIGIT: byte := 7
  const OP_NOT_WHITESPACE: byte := 8
  const OP_WHITESPACE: byte := 9
  const OP_NOT_WORDCHAR: byte := 10
  const OP_WORDCHAR: byte := 11
  const OP_ANY: byte := 12
  const OP_ALLANY: byte := 13
  const OP_CHAR: byte := 28
  const OP_CHARNC: byte := 29
  const OP_NOT: byte := 30
  const OP_STAR: byte := 31
  const OP_NOTSTAR: byte := 44
  const OP_TYPESTAR: byte := 57
  const OP_CRSTAR: byte := 70
  const OP_CRRANGE: byte := 76
  const OP_CRMINRANGE: byte := 77
  const OP_CLASS: byte := 78
  const OP_NCLASS: byte := 79
  const OP_ALT: byte := 84
  const OP_KET: byte := 85
  const OP_KETRMAX: byte := 86
  const OP_KETRMIN: byte := 87
  const OP_BRA: byte := 94
  const OP_CBRA: byte := 95
  const OP_SBRA: byte := 97
  const OP_SCBRA: byte := 98
  const OP_BRAZERO: byte := 105
  const OP_BRAMINZERO: byte := 106

  const LINK_SIZE := 2

  /** The big-endian two-byte field at n (GET and GET2 coincide when LINK_SIZE is 2). */
  function Get(code: seq<byte>, n: int): (d: int)
    requires 0 <= n && n + 1 < |code|
    ensures 0 <= d < 0x10000
  {
    (code[n] as int) * 256 + (code[n + 1] as int)
  }

  /** Something that consumes exactly one byte of the subject. */
  datatype Unit =
    | Chr(c: byte)
    | ChrNC(c: byte)
    | NotChr(c: byte)
    | Type(t: byte)
    | Class(op: byte, bits: seq<byte>)

  datatype Mode = Greedy | Lazy | Possessive

  datatype Quant = Star | Plus | Query | Upto(n: nat) | Exact(n: nat) | Range(lo: nat, hi: nat) {

    function Min(): nat {
      match this
      case Star => 0
      case Plus => 1
      case Query => 0
      case Upto(_) => 0
      case Exact(n) => n
      case Range(lo, _) => lo
    }

    /** The upper limit, or -1 for an unlimited repeat. */
    function Max(): int {
      match this
      case Star => -1
      case Plus => -1
      case Query => 1
      case Upto(n) => n
      case Exact(n) => n
      case Range(_, hi) => if hi == 0 then -1 else hi
    }
  }

  datatype Ket = Plain | RMax | RMin

  /** A bracketed group. cap is 0 for a non-capturing bracket; s marks the "check empty" opcodes. */
  datatype Group = Group(s: bool, cap: nat, alts: Alts, ket: Ket)

  datatype Node =
    | One(u: Unit)
    | Rep(u: Unit, q: Quant, m: Mode)
    | Grp(g: Group)
    | Zero(lazy: bool, g: Group)

  datatype Items = Nil | Cons(hd: Node, tl: Items)

  datatype Alts = Last(b: Items) | More(b: Items, rest: Alts)

  // ---- Opcodes and lengths of the items -------------------------------------------------

  function UnitLen(u: Unit): nat {
    match u
    case Type(_) => 1
    case Class(_, _) => 33
    case _ => 2
  }

  function QuantIndex(q: Quant, m: Mode): nat {
    match q
    case Star => if m == Greedy then 0 else if m == Lazy then 1 else 9
    case Plus => if m == Greedy then 2 else if m == Lazy then 3 else 10
    case Query => if m == Greedy then 4 else if m == Lazy then 5 else 11
    case Upto(_) => if m == Greedy then 6 else if m == Lazy then 7 else 12
    case Exact(_) => 8
    case Range(_, _) => if m == Greedy then 6 else 7
  }

  function RepBase(u: Unit): byte {
    match u
    case NotChr(_) => OP_NOTSTAR
    case Type(_) => OP_TYPESTAR
    case Class(_, _) => OP_CRSTAR
    case _ => OP_STAR
  }

  /** The opcode of a repeat of a character, negated character or character type, or the opcode
      that follows the bit map of a repeated class. */
  function RepOp(u: Unit, q: Quant, m: Mode): byte {
    RepBase(u) + QuantIndex(q, m)
  }

  /** The opcodes of repeats, counted from 31 for characters, 44 for negated ones, 57 for types and 70 for classes. */
  lemma RepeatOpcodes(c: byte, n: nat)
    ensures RepOp(Chr(c), Star, Greedy) == 31 && RepOp(Chr(c), Star, Lazy) == 32 && RepOp(Chr(c), Star, Possessive) == 40
    ensures RepOp(Chr(c), Plus, Greedy) == 33 && RepOp(Chr(c), Plus, Lazy) == 34 && RepOp(Chr(c), Plus, Possessive) == 41
    ensures RepOp(Chr(c), Query, Greedy) == 35 && RepOp(Chr(c), Query, Lazy) == 36 && RepOp(Chr(c), Query, Possessive) == 42
    ensures RepOp(Chr(c), Upto(n), Greedy) == 37 && RepOp(Chr(c), Upto(n), Lazy) == 38 && RepOp(Chr(c), Upto(n), Possessive) == 43
    ensures RepOp(ChrNC(c), Exact(n), Greedy) == 39
    ensures forall q: Quant, m: Mode :: RepOp(NotChr(c), q, m) == RepOp(Chr(c), q, m) + 13
    ensures forall q: Quant, m: Mode, t: byte :: RepOp(Type(t), q, m) == RepOp(Chr(c), q, m) + 26
    ensures forall q: Quant, m: Mode, op: byte :: RepOp(Class(op, []), q, m) == RepOp(Chr(c), q, m) + 39
    ensures [OP_ALT, OP_KET, OP_KETRMAX, OP_KETRMIN, OP_BRA, OP_CBRA, OP_SBRA, OP_SCBRA, OP_BRAZERO, OP_BRAMINZERO]
         == [84, 85, 86, 87, 94, 95, 97, 98, 105, 106]
    ensures [OP_CHAR, OP_CHARNC, OP_NOT, OP_CRRANGE, OP_CRMINRANGE, OP_CLASS, OP_NCLASS] == [28, 29, 30, 76, 77, 78, 79]
  {
  }

  function RepLen(u: Unit, q: Quant): nat {
    if u.Class? then 33 + (if q.Range? then 5 else 1)
    else if q.Upto? || q.Exact? then 4 else 2
  }

  function GroupOp(g: Group): byte {
    if g.cap == 0 then (if g.s then OP_SBRA else OP_BRA) else (if g.s then OP_SCBRA else OP_CBRA)
  }

  /** The length of a bracket or OP_ALT before the first item of its branch. */
  function OpLength(op: byte): nat {
    if op == OP_CBRA || op == OP_SCBRA then 3 + LINK_SIZE else 1 + LINK_SIZE
  }

  function KetOp(k: Ket): byte {
    match k
    case Plain => OP_KET
    case RMax => OP_KETRMAX
    case RMin => OP_KETRMIN
  }

  function HdrLen(g: Group): nat {
    if g.cap == 0 then 1 + LINK_SIZE else 3 + LINK_SIZE
  }

  function NodeLen(n: Node): nat {
    match n
    case One(u) => UnitLen(u)
    case Rep(u, q, _) => RepLen(u, q)
    case Grp(g) => GroupLen(g)
    case Zero(_, g) => 1 + GroupLen(g)
  }

  function GroupLen(g: Group): nat {
    AltsLen(HdrLen(g), g.alts)
  }

  function AltsLen(h: nat, a: Alts): nat
    decreases a
  {
    match a
    case Last(b) => h + ItemsLen(b) + 1 + LINK_SIZE
    case More(b, rest) => h + ItemsLen(b) + AltsLen(1 + LINK_SIZE, rest)
  }

  function ItemsLen(its: Items): nat {
    match its
    case Nil => 0
    case Cons(n, tl) => NodeLen(n) + ItemsLen(tl)
  }

  // ---- The byte code stands for a tree ---------------------------------------------------

  predicate UnitOk(u: Unit) {
    match u
    case Type(t) => OP_NOT_DIGIT <= t <= OP_ALLANY
    case Class(op, bits) => (op == OP_CLASS || op == OP_NCLASS) && |bits| == 32
    case _ => true
  }

  /** A class and a character use different quantifier opcodes. A repeated literal is caseless
      exactly when the caseless option is on. */
  predicate RepOk(u: Unit, q: Quant, m: Mode, caseless: bool) {
    && UnitOk(u)
    && (u.Chr? ==> !caseless)
    && (u.ChrNC? ==> caseless)
    && (u.Class? ==> m != Possessive && !q.Upto? && !q.Exact?)
    && (!u.Class? ==> !q.Range?)
    && (q.Upto? || q.Exact? ==> 1 <= q.n < 0x10000)
    && (q.Exact? ==> m == Greedy)
    && (q.Range? ==> q.lo < 0x10000 && q.hi < 0x10000 && (q.hi == 0 || q.lo <= q.hi))
  }

  ghost predicate AtUnit(code: seq<byte>, pc: nat, u: Unit) {
    && UnitOk(u)
    && pc + UnitLen(u) <= |code|
    && match u
       case Chr(c) => code[pc] == OP_CHAR && code[pc + 1] == c
       case ChrNC(c) => code[pc] == OP_CHARNC && code[pc + 1] == c
       case NotChr(c) => code[pc] == OP_NOT && code[pc + 1] == c
       case Type(t) => code[pc] == t
       case Class(op, bits) =>
         && code[pc] == op
         && code[pc + 1..pc + 33] == bits
         && pc + 33 < |code|
         && !(OP_CRSTAR <= code[pc + 33] <= OP_CRMINRANGE)
  }

  ghost predicate AtRep(code: seq<byte>, pc: nat, u: Unit, q: Quant, m: Mode, caseless: bool) {
    && RepOk(u, q, m, caseless)
    && pc + RepLen(u, q) <= |code|
    && match u
       case Class(op, bits) =>
         && code[pc] == op
         && code[pc + 1..pc + 33] == bits
         && code[pc + 33] == RepOp(u, q, m)
         && (q.Range? ==> Get(code, pc + 34) == q.lo && Get(code, pc + 36) == q.hi)
       case _ =>
         && code[pc] == RepOp(u, q, m)
         && (q.Upto? || q.Exact? ==> Get(code, pc + 1) == q.n)
         && code[pc + RepLen(u, q) - 1] == (if u.Type? then u.t else u.c)
  }

  ghost predicate AtNode(code: seq<byte>, pc: nat, n: Node, caseless: bool)
    decreases n, 0
  {
    match n
    case One(u) => AtUnit(code, pc, u)
    case Rep(u, q, m) => AtRep(code, pc, u, q, m, caseless)
    case Grp(g) => AtGroup(code, pc, g, caseless)
    case Zero(lazy, g) =>
      && pc < |code|
      && code[pc] == (if lazy then OP_BRAMINZERO else OP_BRAZERO)
      && AtGroup(code, pc + 1, g, caseless)
  }

  ghost predicate AtGroup(code: seq<byte>, pc: nat, g: Group, caseless: bool)
    decreases g, 1
  {
    && pc + HdrLen(g) <= |code|
    && code[pc] == GroupOp(g)
    && (g.cap > 0 ==> Get(code, pc + 1 + LINK_SIZE) == g.cap)
    && AtAlts(code, pc, HdrLen(g), g.alts, pc, KetOp(g.ket), caseless)
  }

  /** From the bracket or OP_ALT at p, whose branch starts h bytes further on, the chain of links
      visits the branches in order and ends on a ket whose link leads back to start. */
  ghost predicate AtAlts(code: seq<byte>, p: nat, h: nat, a: Alts, start: nat, kop: byte, caseless: bool)
    decreases a, 1
  {
    && h >= 1 + LINK_SIZE
    && p + h <= |code|
    && start <= p
    && AtItems(code, p + h, a.b, caseless)
    && var q := p + h + ItemsLen(a.b);
       && q + 1 + LINK_SIZE <= |code|
       && Get(code, p + 1) == q - p
       && match a
          case Last(_) => code[q] == kop && Get(code, q + 1) == q - start
          case More(_, rest) => code[q] == OP_ALT && AtAlts(code, q, 1 + LINK_SIZE, rest, start, kop, caseless)
  }

  ghost predicate AtItems(code: seq<byte>, pc: nat, its: Items, caseless: bool)
    decreases its, 0
  {
    match its
    case Nil => pc <= |code|
    case Cons(n, tl) => AtNode(code, pc, n, caseless) && AtItems(code, pc + NodeLen(n), tl, caseless)
  }

  /** A whole compiled pattern: a plain outer bracket, then OP_END. */
  ghost predicate AtPattern(code: seq<byte>, g: Group, caseless: bool) {
    && AtGroup(code, 0, g, caseless)
    && g.ket == Plain
    && GroupLen(g) < |code|
    && code[GroupLen(g)] == OP_END
  }
}

/** What the items of a pattern match, as a relation between a start and an end offset of the
    subject. Priorities and captures play no part here. */
module Meaning {
  import opened ByteCode

  const CTYPE_SPACE := 0
  const CTYPE_DIGIT := 2
  const CTYPE_WORD := 4
  const NEWLINE: byte := 10

  /** The character tables: lower-casing, case-flipping and the bits of the ctypes table. */
  datatype Tables = Tables(lcc: seq<byte>, fcc: seq<byte>, ctypes: seq<byte>) {
    predicate Valid() {
      |lcc| == |fcc| == |ctypes| == 256
    }
  }

  /** A subject, the tables, and the caseless option. */
  datatype Context = Context(s: seq<byte>, tb: Tables, caseless: bool) {
    predicate Valid() {
      tb.Valid()
    }
  }

  predicate Bit(x: byte, k: nat)
    requires k < 8
  {
    ((x as bv8) >> k) & 1 == 1
  }

  predicate HasCtype(tb: Tables, ch: byte, k: nat)
    requires tb.Valid() && k < 8
  {
    Bit(tb.ctypes[ch], k)
  }

  predicate TypeTest(tb: Tables, t: byte, ch: byte)
    requires tb.Valid()
  {
    if t == OP_NOT_DIGIT then !HasCtype(tb, ch, CTYPE_DIGIT)
    else if t == OP_DIGIT then HasCtype(tb, ch, CTYPE_DIGIT)
    else if t == OP_NOT_WHITESPACE then !HasCtype(tb, ch, CTYPE_SPACE)
    else if t == OP_WHITESPACE then HasCtype(tb, ch, CTYPE_SPACE)
    else if t == OP_NOT_WORDCHAR then !HasCtype(tb, ch, CTYPE_WORD)
    else if t == OP_WORDCHAR then HasCtype(tb, ch, CTYPE_WORD)
    else if t == OP_ANY then ch != NEWLINE
    else true
  }

  /** Whether a unit accepts a byte. */
  predicate Accepts(tb: Tables, caseless: bool, u: Unit, ch: byte)
    requires tb.Valid() && UnitOk(u)
  {
    match u
    case Chr(c) => ch == c
    case ChrNC(c) => tb.lcc[ch] == tb.lcc[c]
    case NotChr(c) => if caseless then tb.lcc[ch] != tb.lcc[c] else ch != c
    case Type(t) => TypeTest(tb, t, ch)
    case Class(_, bits) => Bit(bits[ch / 8], ch % 8)
  }

  /** Whether a unit matches at offset i of the subject. */
  predicate Test(c: Context, u: Unit, i: nat) {
    && i < |c.s|
    && c.Valid()
    && UnitOk(u)
    && Accepts(c.tb, c.caseless, u, c.s[i])
  }

  ghost predicate DRep(c: Context, u: Unit, q: Quant, m: Mode, i: nat, j: nat) {
    && i <= j <= |c.s|
    && (forall t: nat :: i <= t < j ==> Test(c, u, t))
    && q.Min() <= j - i
    && (q.Max() < 0 || j - i <= q.Max())
    && (m == Possessive ==> j - i == q.Max() || !Test(c, u, j))
  }

  ghost predicate DNode(c: Context, n: Node, i: nat, j: nat)
    decreases n, 0
  {
    match n
    case One(u) => j == i + 1 && Test(c, u, i)
    case Rep(u, q, m) => DRep(c, u, q, m, i, j)
    case Grp(g) => DGroup(c, g, i, j)
    case Zero(_, g) => i == j || DGroup(c, g, i, j)
  }

  /** A plain group matches one of its branches; a repeating one does so one or more times. */
  ghost predicate DGroup(c: Context, g: Group, i: nat, j: nat)
    decreases g, 1
  {
    if g.ket == Plain then DAlts(c, g.alts, i, j)
    else exists n: nat :: n >= 1 && Iter(c, g.alts, n, i, j)
  }

  /** n consecutive matches of one of the branches. */
  ghost predicate Iter(c: Context, a: Alts, n: nat, i: nat, j: nat)
    decreases a, 1, n
  {
    if n == 0 then i == j
    else exists m: nat :: i <= m <= j && DAlts(c, a, i, m) && Iter(c, a, n - 1, m, j)
  }

  ghost predicate DAlts(c: Context, a: Alts, i: nat, j: nat)
    decreases a, 0
  {
    match a
    case Last(b) => DItems(c, b, i, j)
    case More(b, rest) => DItems(c, b, i, j) || DAlts(c, rest, i, j)
  }

  ghost predicate DItems(c: Context, its: Items, i: nat, j: nat)
    decreases its, 0
  {
    match its
    case Nil => i == j
    case Cons(n, tl) => exists m: nat :: i <= m <= j && DNode(c, n, i, m) && DItems(c, tl, m, j)
  }

  // ---- Every match moves forward and stays inside the subject -----------------------------

  lemma {:induction false} ItemsForward(c: Context, its: Items, i: nat, j: nat)
    requires DItems(c, its, i, j) && i <= |c.s|
    ensures i <= j <= |c.s|
    decreases its, 0
  {
    match its
    case Nil =>
    case Cons(n, tl) =>
      var m: nat :| i <= m <= j && DNode(c, n, i, m) && DItems(c, tl, m, j);
      NodeForward(c, n, i, m);
      ItemsForward(c, tl, m, j);
  }

  lemma {:induction false} NodeForward(c: Context, n: Node, i: nat, j: nat)
    requires DNode(c, n, i, j) && i <= |c.s|
    ensures i <= j <= |c.s|
    decreases n, 0
  {
    match n
    case One(_) =>
    case Rep(_, _, _) =>
    case Grp(g) => GroupForward(c, g, i, j);
    case Zero(_, g) => if i != j { GroupForward(c, g, i, j); }
  }

  lemma {:induction false} GroupForward(c: Context, g: Group, i: nat, j: nat)
    requires DGroup(c, g, i, j) && i <= |c.s|
    ensures i <= j <= |c.s|
    decreases g, 1
  {
    if g.ket == Plain {
      AltsForward(c, g.alts, i, j);
    } else {
      var n: nat :| n >= 1 && Iter(c, g.alts, n, i, j);
      IterForward(c, g.alts, n, i, j);
    }
  }

  lemma {:induction false} IterForward(c: Context, a: Alts, n: nat, i: nat, j: nat)
    requires Iter(c, a, n, i, j) && i <= |c.s|
    ensures i <= j <= |c.s|
    decreases a, 1, n
  {
    if n > 0 {
      var m: nat :| i <= m <= j && DAlts(c, a, i, m) && Iter(c, a, n - 1, m, j);
      AltsForward(c, a, i, m);
      IterForward(c, a, n - 1, m, j);
    }
  }

  lemma {:induction false} AltsForward(c: Context, a: Alts, i: nat, j: nat)
    requires DAlts(c, a, i, j) && i <= |c.s|
    ensures i <= j <= |c.s|
    decreases a, 0
  {
    if DItems(c, a.b, i, j) {
      ItemsForward(c, a.b, i, j);
    } else {
      AltsForward(c, a.rest, i, j);
    }
  }

  /** Taking the first of one or more iterations. */
  lemma FirstIteration(c: Context, a: Alts, n: nat, i: nat, j: nat) returns (m: nat)
    requires n >= 1 && Iter(c, a, n, i, j)
    ensures i <= m <= j && DAlts(c, a, i, m) && Iter(c, a, n - 1, m, j)
  {
    m :| i <= m <= j && DAlts(c, a, i, m) && Iter(c, a, n - 1, m, j);
  }

  /** n iterations followed by one more are n + 1 iterations. */
  lemma {:induction false} IterSnoc(c: Context, a: Alts, n: nat, i: nat, m: nat, j: nat)
    requires Iter(c, a, n, i, m) && DAlts(c, a, m, j) && i <= |c.s|
    ensures Iter(c, a, n + 1, i, j)
    decreases n
  {
    IterForward(c, a, n, i, m);
    AltsForward(c, a, m, j);
    if n == 0 {
      assert Iter(c, a, 0, j, j);
    } else {
      var k: nat :| i <= k <= m && DAlts(c, a, i, k) && Iter(c, a, n - 1, k, m);
      AltsForward(c, a, i, k);
      IterSnoc(c, a, n - 1, k, m, j);
    }
  }
}

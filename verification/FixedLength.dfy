/** find_fixedlength(): the length of a lookbehind branch, when all its matches have the same one. */
module FixedLength {
  import opened ByteCode
  import opened Meaning
  import opened Backtracking
  import opened MatchSteps
  import opened Scan

  /** What the scan computes: a length, or -1 when it finds none. */
  function FixedItems(its: Items): int
    decreases its, 0
  {
    match its
    case Nil => 0
    case Cons(n, tl) => if FixedNode(n) < 0 || FixedItems(tl) < 0 then -1 else FixedNode(n) + FixedItems(tl)
  }

  function FixedNode(n: Node): int
    decreases n, 0
  {
    match n
    case One(_) => 1
    case Rep(u, q, _) =>
      if q.Exact? && !u.NotChr? then q.n else if q.Range? && q.lo == q.hi then q.lo else -1
    case Grp(g) => if g.s then -1 else FixedAlts(g.alts)
    case Zero(_, _) => -1
  }

  /** All branches have to have the same length. */
  function FixedAlts(alts: Alts): int
    decreases alts, 0
  {
    match alts
    case Last(b) => FixedItems(b)
    case More(b, rest) => if FixedItems(b) == FixedAlts(rest) then FixedItems(b) else -1
  }

  // ---- Soundness ---------------------------------------------------------------------------------

  /** No group that consumes something is repeated without limit; neither is a class, by a range that has no
      upper limit. */
  ghost predicate SteadyItems(its: Items) {
    its.Cons? ==>
      && (its.hd.Grp? || its.hd.Zero? ==> SteadyGroup(its.hd.g))
      && (its.hd.Rep? && its.hd.q.Range? ==> its.hd.q.hi > 0 || its.hd.q.lo > 0)
      && SteadyItems(its.tl)
  }

  ghost predicate SteadyGroup(g: Group) {
    (g.ket == Plain || FixedAlts(g.alts) == 0) && SteadyAlts(g.alts)
  }

  ghost predicate SteadyAlts(alts: Alts) {
    SteadyItems(alts.b) && (alts.More? ==> SteadyAlts(alts.rest))
  }

  /** When a length is found, every match has it. */
  lemma {:induction false} ItemsFixed(c: Context, its: Items, i: nat, j: nat)
    requires DItems(c, its, i, j) && i <= |c.s| && SteadyItems(its) && FixedItems(its) >= 0
    ensures j == i + FixedItems(its)
    decreases its, 0
  {
    match its
    case Nil =>
    case Cons(n, tl) =>
      var m: nat :| i <= m <= j && DNode(c, n, i, m) && DItems(c, tl, m, j);
      NodeForward(c, n, i, m);
      if n.Grp? {
        assert DGroup(c, n.g, i, m) && SteadyGroup(n.g);
        GroupFixed(c, n.g, i, m);
      }
      ItemsFixed(c, tl, m, j);
  }

  lemma {:induction false} GroupFixed(c: Context, g: Group, i: nat, j: nat)
    requires DGroup(c, g, i, j) && i <= |c.s| && SteadyGroup(g) && FixedAlts(g.alts) >= 0
    ensures j == i + FixedAlts(g.alts)
    decreases g, 2
  {
    if g.ket == Plain {
      AltsFixed(c, g.alts, i, j);
    } else {
      var n: nat :| n >= 1 && Iter(c, g.alts, n, i, j);
      IterFixed(c, g.alts, n, i, j);
    }
  }

  lemma {:induction false} IterFixed(c: Context, alts: Alts, n: nat, i: nat, j: nat)
    requires Iter(c, alts, n, i, j) && i <= |c.s| && SteadyAlts(alts) && FixedAlts(alts) == 0
    ensures j == i
    decreases alts, 1, n
  {
    hide DAlts, SteadyAlts, FixedAlts;
    if n > 0 {
      var m := FirstIteration(c, alts, n, i, j);
      AltsFixed(c, alts, i, m);
      IterFixed(c, alts, n - 1, m, j);
    }
  }

  lemma {:induction false} AltsFixed(c: Context, alts: Alts, i: nat, j: nat)
    requires DAlts(c, alts, i, j) && i <= |c.s| && SteadyAlts(alts) && FixedAlts(alts) >= 0
    ensures j == i + FixedAlts(alts)
    decreases alts, 0
  {
    if DItems(c, alts.b, i, j) {
      ItemsFixed(c, alts.b, i, j);
    } else {
      AltsFixed(c, alts.rest, i, j);
    }
  }

  // ---- Groups that are repeated without limit --------------------------------------------------------

  /** c' has at k what c has from i to j. */
  ghost predicate Copied(c: Context, c': Context, i: nat, j: nat, k: nat) {
    && c'.tb == c.tb && c'.caseless == c.caseless
    && i <= j <= |c.s| && k + (j - i) <= |c'.s|
    && c'.s[k..k + (j - i)] == c.s[i..j]
  }

  lemma CopiedParts(c: Context, c': Context, i: nat, m: nat, j: nat, k: nat)
    requires Copied(c, c', i, j, k) && i <= m <= j
    ensures Copied(c, c', i, m, k) && Copied(c, c', m, j, k + (m - i))
  {
    CutSlice(c'.s, k, k + (m - i), k + (j - i));
    CutSlice(c.s, i, m, j);
  }

  lemma CutSlice(s: seq<byte>, i: nat, m: nat, j: nat)
    requires i <= m <= j <= |s|
    ensures s[i..m] == s[i..j][..m - i] && s[m..j] == s[i..j][m - i..]
  {
  }

  lemma CopiedByte(c: Context, c': Context, i: nat, j: nat, k: nat, t: nat)
    requires Copied(c, c', i, j, k) && k <= t < k + (j - i)
    ensures c'.s[t] == c.s[t - k + i]
  {
    assert c'.s[t] == c'.s[k..k + (j - i)][t - k] && c.s[t - k + i] == c.s[i..j][t - k];
  }

  lemma OneCopied(c: Context, c': Context, u: Unit, i: nat, j: nat, k: nat)
    requires DNode(c, One(u), i, j) && Copied(c, c', i, j, k)
    ensures DNode(c', One(u), k, k + (j - i))
  {
    CopiedByte(c, c', i, j, k, k);
  }

  lemma SomeRounds(c: Context, g: Group, i: nat, j: nat) returns (n: nat)
    requires g.ket != Plain && DGroup(c, g, i, j)
    ensures n >= 1 && Iter(c, g.alts, n, i, j)
  {
    n :| n >= 1 && Iter(c, g.alts, n, i, j);
  }

  /** Items of a fixed length look at nothing but what they match. */
  lemma {:induction false} ItemsCopied(c: Context, c': Context, its: Items, i: nat, j: nat, k: nat)
    requires DItems(c, its, i, j) && Copied(c, c', i, j, k) && SteadyItems(its) && FixedItems(its) >= 0
    ensures DItems(c', its, k, k + (j - i))
    decreases its, 0
  {
    hide Copied, Test;
    match its
    case Nil =>
    case Cons(n, tl) =>
      var m: nat :| i <= m <= j && DNode(c, n, i, m) && DItems(c, tl, m, j);
      CopiedParts(c, c', i, m, j, k);
      match n {
        case One(u) => OneCopied(c, c', u, i, m, k);
        case Rep(u, q, mode) => RepCopied(c, c', u, q, mode, i, m, k);
        case Grp(g) => GroupCopied(c, c', g, i, m, k);
      }
      ItemsCopied(c, c', tl, m, j, k + (m - i));
      assert DNode(c', n, k, k + (m - i)) && DItems(c', tl, k + (m - i), k + (j - i));
  }

  lemma RepCopied(c: Context, c': Context, u: Unit, q: Quant, mode: Mode, i: nat, j: nat, k: nat)
    requires DRep(c, u, q, mode, i, j) && Copied(c, c', i, j, k)
    requires q.Exact? || (q.Range? && q.lo == q.hi > 0)
    ensures DRep(c', u, q, mode, k, k + (j - i))
  {
    forall t: nat | k <= t < k + (j - i) ensures Test(c', u, t) {
      CopiedByte(c, c', i, j, k, t);
      assert Test(c, u, t - k + i);
    }
  }

  lemma {:induction false} GroupCopied(c: Context, c': Context, g: Group, i: nat, j: nat, k: nat)
    requires DGroup(c, g, i, j) && Copied(c, c', i, j, k) && SteadyAlts(g.alts) && FixedAlts(g.alts) >= 0
    ensures DGroup(c', g, k, k + (j - i))
    decreases g, 2
  {
    if g.ket == Plain {
      AltsCopied(c, c', g.alts, i, j, k);
    } else {
      var n: nat :| n >= 1 && Iter(c, g.alts, n, i, j);
      IterCopied(c, c', g.alts, n, i, j, k);
    }
  }

  lemma {:induction false} IterCopied(c: Context, c': Context, alts: Alts, n: nat, i: nat, j: nat, k: nat)
    requires Iter(c, alts, n, i, j) && Copied(c, c', i, j, k) && SteadyAlts(alts) && FixedAlts(alts) >= 0
    ensures Iter(c', alts, n, k, k + (j - i))
    decreases alts, 1, n
  {
    hide DAlts, SteadyAlts, FixedAlts;
    if n > 0 {
      var m := FirstIteration(c, alts, n, i, j);
      IterForward(c, alts, n - 1, m, j);
      CopiedParts(c, c', i, m, j, k);
      AltsCopied(c, c', alts, i, m, k);
      IterCopied(c, c', alts, n - 1, m, j, k + (m - i));
      assert k + (m - i) + (j - m) == k + (j - i);
    }
  }

  lemma {:induction false} AltsCopied(c: Context, c': Context, alts: Alts, i: nat, j: nat, k: nat)
    requires DAlts(c, alts, i, j) && Copied(c, c', i, j, k) && SteadyAlts(alts) && FixedAlts(alts) >= 0
    ensures DAlts(c', alts, k, k + (j - i))
    decreases alts, 0
  {
    hide DItems, SteadyItems, FixedItems;
    if DItems(c, alts.b, i, j) {
      ItemsCopied(c, c', alts.b, i, j, k);
    } else {
      AltsCopied(c, c', alts.rest, i, j, k);
    }
  }

  /** Whatever the subject, all matches of the group have length d. */
  ghost predicate AlwaysLong(tb: Tables, caseless: bool, g: Group, d: nat) {
    forall s: seq<byte>, i: nat, j: nat :: i <= |s| && DGroup(Context(s, tb, caseless), g, i, j) ==> j == i + d
  }

  ghost predicate Matchable(tb: Tables, caseless: bool, alts: Alts) {
    exists s: seq<byte>, i: nat, j: nat :: i <= |s| && DAlts(Context(s, tb, caseless), alts, i, j)
  }

  /** The closing ket of a repeating group is taken for a plain one. The length found is right exactly when it
      is zero, or when the body of the group has no match at all. */
  lemma LoopExactly(tb: Tables, caseless: bool, g: Group)
    requires g.ket != Plain && SteadyAlts(g.alts) && FixedAlts(g.alts) >= 0
    ensures AlwaysLong(tb, caseless, g, FixedAlts(g.alts)) <==> FixedAlts(g.alts) == 0 || !Matchable(tb, caseless, g.alts)
  {
    hide DAlts, SteadyAlts, FixedAlts;
    var d := FixedAlts(g.alts);
    if d == 0 || !Matchable(tb, caseless, g.alts) {
      forall s: seq<byte>, i: nat, j: nat | i <= |s| && DGroup(Context(s, tb, caseless), g, i, j) ensures j == i + d {
        var c := Context(s, tb, caseless);
        var n := SomeRounds(c, g, i, j);
        var m := FirstIteration(c, g.alts, n, i, j);
        assert Matchable(tb, caseless, g.alts);
        IterFixed(c, g.alts, n, i, j);
      }
    } else {
      var s: seq<byte>, i: nat, j: nat :| i <= |s| && DAlts(Context(s, tb, caseless), g.alts, i, j);
      Doubled(tb, caseless, g, s, i, j);
    }
  }

  /** The subject of a match, written twice, is matched by two rounds. */
  lemma Doubled(tb: Tables, caseless: bool, g: Group, s: seq<byte>, i: nat, j: nat)
    requires g.ket != Plain && SteadyAlts(g.alts) && FixedAlts(g.alts) > 0
    requires i <= |s| && DAlts(Context(s, tb, caseless), g.alts, i, j)
    ensures !AlwaysLong(tb, caseless, g, FixedAlts(g.alts))
  {
    hide DAlts, SteadyAlts, FixedAlts;
    var c, d := Context(s, tb, caseless), FixedAlts(g.alts);
    AltsForward(c, g.alts, i, j);
    AltsFixed(c, g.alts, i, j);
    var c' := Context(s[i..j] + s[i..j], tb, caseless);
    AltsCopied(c, c', g.alts, i, j, 0);
    AltsCopied(c, c', g.alts, i, j, d);
    assert Iter(c', g.alts, 0, d + d, d + d);
    assert Iter(c', g.alts, 1, d, d + d);
    assert Iter(c', g.alts, 2, 0, d + d);
    assert DGroup(c', g, 0, d + d);
  }

  ghost predicate NeverLonger(tb: Tables, caseless: bool, n: Node) {
    forall s: seq<byte>, i: nat, j: nat :: i <= |s| && DNode(Context(s, tb, caseless), n, i, j) ==> j == i
  }

  /** A class range without upper limit, and with a minimum of zero, is given length zero. This is right
      exactly when the class accepts no byte. The compiler writes such a range with another opcode. */
  lemma RangeExactly(tb: Tables, caseless: bool, u: Unit, m: Mode)
    requires tb.Valid() && UnitOk(u) && m != Possessive
    ensures FixedNode(Rep(u, Range(0, 0), m)) == 0
    ensures NeverLonger(tb, caseless, Rep(u, Range(0, 0), m)) <==> forall ch: byte :: !Accepts(tb, caseless, u, ch)
  {
    var n := Rep(u, Range(0, 0), m);
    if ch: byte :| Accepts(tb, caseless, u, ch) {
      var c := Context([ch], tb, caseless);
      assert Test(c, u, 0) && DNode(c, n, 0, 1) && 0 <= |c.s|;
      assert !NeverLonger(tb, caseless, n);
    } else {
      forall s: seq<byte>, i: nat, j: nat | i <= |s| && DNode(Context(s, tb, caseless), n, i, j) ensures j == i {
        assert i < j ==> Test(Context(s, tb, caseless), u, i);
      }
    }
  }

  /** (?:a)+ : the scan finds length 1, and yet aa matches. */
  lemma LoopsAreMissed(tb: Tables)
    requires tb.Valid()
    ensures var g := Group(false, 0, Last(Cons(One(Chr(97)), Nil)), RMax);
            FixedItems(Cons(Grp(g), Nil)) == 1 && !AlwaysLong(tb, false, g, 1)
  {
    var b := Cons(One(Chr(97)), Nil);
    var g := Group(false, 0, Last(b), RMax);
    var c := Context([97], tb, false);
    assert DNode(c, One(Chr(97)), 0, 1) && DItems(c, Nil, 1, 1);
    assert DItems(c, b, 0, 1) && DAlts(c, g.alts, 0, 1);
    assert FixedItems(Nil) == 0 && SteadyItems(Nil) && SteadyItems(b) && FixedItems(b) == 1 && FixedAlts(g.alts) == 1;
    Doubled(tb, false, g, [97], 0, 1);
  }

  // ---- The scan ----------------------------------------------------------------------------------

  /** The length of a character item, or -1 when it can vary. */
  method FixedItem(code: seq<byte>, cc: nat, ghost n: Node, ghost caseless: bool) returns (d: int, next: nat)
    requires (n.One? || n.Rep?) && AtNode(code, cc, n, caseless)
    ensures d == FixedNode(n) && (d >= 0 ==> next == cc + NodeLen(n))
  {
    var op := code[cc];
    assert n.One? ==> AtUnit(code, cc, n.u);
    assert n.Rep? ==> AtRep(code, cc, n.u, n.q, n.m, caseless);
    next := cc;
    if OP_NOT_DIGIT <= op <= OP_ALLANY {
      return 1, cc + 1;
    } else if OP_CHAR <= op <= OP_NOT {
      return 1, cc + 2;
    } else if op == OP_STAR + 8 || op == OP_TYPESTAR + 8 {
      return Get(code, cc + 1), cc + 4;
    } else if op == OP_CLASS || op == OP_NCLASS {
      next := cc + 33;
      var r := code[next];
      if r == OP_CRRANGE || r == OP_CRMINRANGE {
        if Get(code, next + 1) != Get(code, next + 3) { return -1, next; }
        return Get(code, next + 1), next + 5;
      } else if OP_CRSTAR <= r < OP_CRRANGE {
        // Only * and ? are looked for here; + is found to be no item in the next step of the scan.
        return -1, next;
      }
      return 1, next;
    }
    return -1, next;
  }

  method FindFixedlength(code: seq<byte>, pc: nat, ghost g: Group, ghost caseless: bool)
    returns (length: int)
    requires AtGroup(code, pc, g, caseless)
    ensures length == FixedAlts(g.alts)
    decreases g
  {
    hide AtItems, AtAlts, AtGroup, AtNode, AltsLen, NodeLen, Scanning, ItemsLen, GroupLen;
    StartScan(code, pc, g, caseless);
    length := -1;
    var branchlength: nat := 0;
    var cc: nat := pc + OpLength(code[pc]);
    ghost var its, alts := g.alts.b, g.alts;
    while true
      invariant Scanning(code, cc, its, alts, pc, g, caseless)
      invariant FixedAlts(g.alts) == LengthSoFar(length, branchlength, its, alts)
      invariant -1 <= length
      decreases alts, its
    {
      DecodeScan(code, cc, its, alts, pc, g, caseless);
      var op := code[cc];
      if op == OP_BRA || op == OP_CBRA {
        InnerGroup(code, cc, its, alts, pc, g, caseless);
        ghost var inner := its.hd.g;
        StartScan(code, cc, inner, caseless);
        var d := FindFixedlength(code, cc, inner, caseless);
        assert d == FixedNode(its.hd);
        if d < 0 { return d; }
        branchlength := branchlength + d;
        cc := SkipGroup(code, cc, inner, caseless);
        its := its.tl;
      } else if op == OP_ALT || OP_KET <= op <= OP_KETRMIN {
        BranchDone(length, branchlength, alts);
        if length < 0 {
          length := branchlength;
        } else if length != branchlength {
          return -1;
        }
        if op != OP_ALT { return; }
        NextBranch(code, cc, alts, pc, g, caseless);
        cc := cc + 1 + LINK_SIZE;
        branchlength := 0;
        alts := alts.rest;
        its := alts.b;
      } else if OP_BRA <= op <= OP_SCBRA || OP_BRAZERO <= op <= OP_BRAMINZERO {
        if OP_BRA <= op <= OP_SCBRA {
          InnerGroup(code, cc, its, alts, pc, g, caseless);
          StartScan(code, cc, its.hd.g, caseless);
        }
        assert FixedNode(its.hd) == -1;
        return -1;
      } else {
        InnerItem(code, cc, its, alts, pc, g, caseless);
        var d, next := FixedItem(code, cc, its.hd, caseless);
        if d < 0 { return -1; }
        branchlength := branchlength + d;
        cc := next;
        its := its.tl;
      }
    }
  }

  /** What the scan will yield, given the length of the branches already seen, and how far it has come
      in the current one. */
  ghost function LengthSoFar(length: int, branchlength: nat, its: Items, alts: Alts): int {
    var rest := if alts.Last? then -2 else FixedAlts(alts.rest);
    var d := if FixedItems(its) < 0 then -1 else branchlength + FixedItems(its);
    if d < 0 || (alts.More? && rest != d) || (length >= 0 && length != d) then -1 else d
  }

  /** At the end of a branch. */
  lemma BranchDone(length: int, branchlength: nat, alts: Alts)
    ensures length >= 0 && length != branchlength ==> LengthSoFar(length, branchlength, Nil, alts) == -1
    ensures !(length >= 0 && length != branchlength) && alts.Last? ==> LengthSoFar(length, branchlength, Nil, alts) == branchlength
    ensures !(length >= 0 && length != branchlength) && alts.More? ==>
              LengthSoFar(length, branchlength, Nil, alts) == LengthSoFar(branchlength, 0, alts.rest.b, alts.rest)
  {
  }
}

/** The least number of bytes that items of a pattern can consume. */
module Lengths {
  import opened Common
  import opened ByteCode
  import opened Meaning

  function MinItems(its: Items): nat
    decreases its, 0
  {
    match its
    case Nil => 0
    case Cons(n, tl) => MinNode(n) + MinItems(tl)
  }

  function MinNode(n: Node): nat
    decreases n, 0
  {
    match n
    case One(_) => 1
    case Rep(_, q, _) => q.Min()
    case Grp(g) => MinAlts(g.alts)
    case Zero(_, _) => 0
  }

  function MinAlts(alts: Alts): nat
    decreases alts, 0
  {
    match alts
    case Last(b) => MinItems(b)
    case More(b, rest) => Least(MinItems(b), MinAlts(rest))
  }

  /** No match consumes less. */
  lemma {:induction false} MinItemsBound(c: Context, its: Items, i: nat, j: nat)
    requires DItems(c, its, i, j) && i <= |c.s|
    ensures j >= i + MinItems(its)
    decreases its, 0
  {
    match its
    case Nil =>
    case Cons(n, tl) =>
      var m: nat :| i <= m <= j && DNode(c, n, i, m) && DItems(c, tl, m, j);
      NodeForward(c, n, i, m);
      MinNodeBound(c, n, i, m);
      MinItemsBound(c, tl, m, j);
  }

  lemma {:induction false} MinNodeBound(c: Context, n: Node, i: nat, j: nat)
    requires DNode(c, n, i, j) && i <= |c.s|
    ensures j >= i + MinNode(n)
    decreases n, 0
  {
    match n
    case One(_) =>
    case Rep(_, _, _) =>
    case Grp(g) => MinGroupBound(c, g, i, j);
    case Zero(_, _) => NodeForward(c, n, i, j);
  }

  lemma {:induction false} MinGroupBound(c: Context, g: Group, i: nat, j: nat)
    requires DGroup(c, g, i, j) && i <= |c.s|
    ensures j >= i + MinAlts(g.alts)
    decreases g, 1
  {
    if g.ket == Plain {
      MinAltsBound(c, g.alts, i, j);
    } else {
      var n: nat :| n >= 1 && Iter(c, g.alts, n, i, j);
      var m := FirstIteration(c, g.alts, n, i, j);
      AltsForward(c, g.alts, i, m);
      IterForward(c, g.alts, n - 1, m, j);
      MinAltsBound(c, g.alts, i, m);
    }
  }

  lemma {:induction false} MinAltsBound(c: Context, alts: Alts, i: nat, j: nat)
    requires DAlts(c, alts, i, j) && i <= |c.s|
    ensures j >= i + MinAlts(alts)
    decreases alts, 0
  {
    if DItems(c, alts.b, i, j) {
      MinItemsBound(c, alts.b, i, j);
    } else {
      MinAltsBound(c, alts.rest, i, j);
    }
  }

  // ---- The bound is reached ------------------------------------------------------------------------------------

  /** Every unit that has to be matched accepts some byte, and no repeat is possessive. */
  ghost predicate Reachable(tb: Tables, caseless: bool, its: Items)
    requires tb.Valid()
    decreases its, 0
  {
    its.Cons? ==>
      && (match its.hd
          case One(u) => UnitOk(u) && exists ch: byte :: Accepts(tb, caseless, u, ch)
          case Rep(u, q, m) =>
            && UnitOk(u) && m != Possessive && (q.Max() < 0 || q.Min() <= q.Max())
            && (q.Min() > 0 ==> exists ch: byte :: Accepts(tb, caseless, u, ch))
          case Grp(g) => ReachableAlts(tb, caseless, g.alts)
          case Zero(_, _) => true)
      && Reachable(tb, caseless, its.tl)
  }

  ghost predicate ReachableAlts(tb: Tables, caseless: bool, alts: Alts)
    requires tb.Valid()
    decreases alts, 0
  {
    Reachable(tb, caseless, alts.b) && (alts.More? ==> ReachableAlts(tb, caseless, alts.rest))
  }

  /** The subject of c has t at i. */
  ghost predicate StandsAt(c: Context, t: seq<byte>, i: nat) {
    i + |t| <= |c.s| && c.s[i..i + |t|] == t
  }

  lemma StandsParts(c: Context, t: seq<byte>, t': seq<byte>, i: nat)
    requires StandsAt(c, t + t', i)
    ensures StandsAt(c, t, i) && StandsAt(c, t', i + |t|)
  {
    assert c.s[i..i + |t|] == c.s[i..i + |t + t'|][..|t|] == t;
    assert c.s[i + |t|..i + |t| + |t'|] == c.s[i..i + |t + t'|][|t|..] == t';
  }

  /** There is a string of the least length, and wherever it stands the items match it. */
  lemma {:induction false} ItemsReached(tb: Tables, caseless: bool, its: Items) returns (t: seq<byte>)
    requires tb.Valid() && Reachable(tb, caseless, its)
    ensures |t| == MinItems(its)
    ensures forall c: Context, i: nat :: c.tb == tb && c.caseless == caseless && StandsAt(c, t, i) ==> DItems(c, its, i, i + |t|)
    decreases its, 1
  {
    t := [];
    if its.Cons? {
      var head := NodeReached(tb, caseless, its);
      var tail := ItemsReached(tb, caseless, its.tl);
      t := head + tail;
      forall c: Context, i: nat | c.tb == tb && c.caseless == caseless && StandsAt(c, t, i) ensures DItems(c, its, i, i + |t|) {
        StandsParts(c, head, tail, i);
        assert DNode(c, its.hd, i, i + |head|) && DItems(c, its.tl, i + |head|, i + |t|);
      }
    }
  }

  lemma {:induction false} NodeReached(tb: Tables, caseless: bool, its: Items) returns (t: seq<byte>)
    requires tb.Valid() && its.Cons? && Reachable(tb, caseless, its)
    ensures |t| == MinNode(its.hd)
    ensures forall c: Context, i: nat :: c.tb == tb && c.caseless == caseless && StandsAt(c, t, i) ==> DNode(c, its.hd, i, i + |t|)
    decreases its, 0
  {
    match its.hd
    case One(u) =>
      var ch: byte :| Accepts(tb, caseless, u, ch);
      t := [ch];
      forall c: Context, i: nat | c.tb == tb && c.caseless == caseless && StandsAt(c, t, i) ensures DNode(c, its.hd, i, i + |t|) {
        StandsByte(c, t, i, i);
      }
    case Rep(u, q, m) =>
      var ch: byte := 0;
      if q.Min() > 0 { ch :| Accepts(tb, caseless, u, ch); }
      t := seq(q.Min(), _ => ch);
      forall c: Context, i: nat | c.tb == tb && c.caseless == caseless && StandsAt(c, t, i) ensures DNode(c, its.hd, i, i + |t|) {
        forall k: nat | i <= k < i + |t| ensures Test(c, u, k) { StandsByte(c, t, i, k); }
      }
    case Grp(g) =>
      t := AltsReached(tb, caseless, g.alts);
      forall c: Context, i: nat | c.tb == tb && c.caseless == caseless && StandsAt(c, t, i) ensures DNode(c, its.hd, i, i + |t|) {
        assert DAlts(c, g.alts, i, i + |t|);
        assert Iter(c, g.alts, 0, i + |t|, i + |t|);
        assert Iter(c, g.alts, 1, i, i + |t|);
        assert DGroup(c, g, i, i + |t|);
      }
    case Zero(_, _) => t := [];
  }

  lemma StandsByte(c: Context, t: seq<byte>, i: nat, k: nat)
    requires StandsAt(c, t, i) && i <= k < i + |t|
    ensures c.s[k] == t[k - i]
  {
    assert c.s[k] == c.s[i..i + |t|][k - i];
  }

  /** The least length is not only a bound: there is a string of that length that the branches match. */
  lemma {:induction false} AltsReached(tb: Tables, caseless: bool, alts: Alts) returns (t: seq<byte>)
    requires tb.Valid() && ReachableAlts(tb, caseless, alts)
    ensures |t| == MinAlts(alts)
    ensures forall c: Context, i: nat :: c.tb == tb && c.caseless == caseless && StandsAt(c, t, i) ==> DAlts(c, alts, i, i + |t|)
    decreases alts, 0
  {
    t := ItemsReached(tb, caseless, alts.b);
    if alts.More? && MinAlts(alts.rest) < MinItems(alts.b) { t := AltsReached(tb, caseless, alts.rest); }
  }
}

/** The specification of match(): what remains to be done after a stretch of code, the first
    acceptable outcome of doing it, and a measure that every step of match() makes smaller. */
module Backtracking {
  import opened Common
  import opened ByteCode
  import opened Meaning
  import opened Outcomes
  import opened Lengths

  datatype Tail = NoMore | Alternatives(alts: Alts)

  /** What follows the branch being matched: the enclosing groups, innermost first. Each frame holds
      the group (whose bracket is at gp), its branches not yet tried, the items after the group and
      the subject position at which its current iteration started. */
  datatype Kont =
    | Done
    | Frame(gp: nat, g: Group, rest: Tail, after: Items, start: nat, outer: Kont)

  ghost predicate AtTail(code: seq<byte>, q: nat, gp: nat, g: Group, rest: Tail, caseless: bool) {
    && q + 1 + LINK_SIZE <= |code|
    && gp <= q
    && match rest
       case NoMore =>
         && code[q] == KetOp(g.ket)
         && Get(code, q + 1) == q - gp
         && q + 1 + LINK_SIZE == gp + GroupLen(g)
       case Alternatives(alts) =>
         && code[q] == OP_ALT
         && AtAlts(code, q, 1 + LINK_SIZE, alts, gp, KetOp(g.ket), caseless)
         && q + AltsLen(1 + LINK_SIZE, alts) == gp + GroupLen(g)
  }

  /** The code at q, where a branch ends, is what k says. */
  ghost predicate AtKont(code: seq<byte>, q: nat, k: Kont, caseless: bool)
    decreases k
  {
    match k
    case Done => q < |code| && code[q] == OP_END
    case Frame(gp, g, rest, after, _, outer) =>
      && AtGroup(code, gp, g, caseless)
      && AtTail(code, q, gp, g, rest, caseless)
      && AtItems(code, gp + GroupLen(g), after, caseless)
      && AtKont(code, gp + GroupLen(g) + ItemsLen(after), outer, caseless)
  }

  // ---- The first acceptable outcome --------------------------------------------------------

  /** The first of the given states from which the rest of the pattern succeeds. */
  function FirstOf(a: Attempt, xs: seq<State>, k: Kont): Option<State>
    decreases k, 1, |xs|
  {
    if xs == [] then None
    else match Leave(a, k, xs[0])
         case Some(r) => Some(r)
         case None => FirstOf(a, xs[1..], k)
  }

  /** The first success after reaching the end of a branch in state x. */
  function Leave(a: Attempt, k: Kont, x: State): Option<State>
    decreases k, 0, 0
  {
    match k
    case Done => if a.Acceptable(x.pos) then Some(x) else None
    case Frame(_, g, _, after, start, outer) => FirstOf(a, Then(a, AfterKet(a, g, start, x), after), outer)
  }

  function First(a: Attempt, its: Items, k: Kont, st: State): Option<State> {
    FirstOf(a, ItemsOutcomes(a, its, st), k)
  }

  function OrElse<T>(x: Option<T>, y: Option<T>): Option<T> {
    if x.Some? then x else y
  }

  lemma {:induction false} FirstOfAppend(a: Attempt, xs: seq<State>, ys: seq<State>, k: Kont)
    ensures FirstOf(a, xs + ys, k) == OrElse(FirstOf(a, xs, k), FirstOf(a, ys, k))
    decreases |xs|
  {
    if xs == [] {
      assert xs + ys == ys;
    } else {
      assert (xs + ys)[1..] == xs[1..] + ys;
      FirstOfAppend(a, xs[1..], ys, k);
    }
  }

  lemma {:induction false} ThenAppend(a: Attempt, xs: seq<State>, ys: seq<State>, its: Items)
    ensures Then(a, xs + ys, its) == Then(a, xs, its) + Then(a, ys, its)
    decreases |xs|
  {
    if xs == [] {
      assert xs + ys == ys;
    } else {
      assert (xs + ys)[1..] == xs[1..] + ys;
      ThenAppend(a, xs[1..], ys, its);
    }
  }

  lemma ThenOne(a: Attempt, x: State, its: Items)
    ensures Then(a, [x], its) == ItemsOutcomes(a, its, x)
  {
    assert [x][1..] == [];
    assert Then(a, [], its) == [];
  }

  /** Going through the states of xs one after the other and then through the items of tl. */
  lemma FirstOfThenAppend(a: Attempt, xs: seq<State>, ys: seq<State>, tl: Items, k: Kont)
    ensures FirstOf(a, Then(a, xs + ys, tl), k) == OrElse(FirstOf(a, Then(a, xs, tl), k), FirstOf(a, Then(a, ys, tl), k))
  {
    ThenAppend(a, xs, ys, tl);
    FirstOfAppend(a, Then(a, xs, tl), Then(a, ys, tl), k);
  }

  /** Matching a group and then tl is matching its branches with the group on the list of
      enclosing groups. */
  lemma GroupFirst(a: Attempt, gp: nat, g: Group, rest: Tail, tl: Items, k: Kont, st: State)
    ensures First(a, Cons(Grp(g), tl), k, st)
         == FirstOf(a, AltsOutcomes(a, g.alts, Enter(a, g, st)), Frame(gp, g, rest, tl, st.pos, k))
  {
    assert NodeOutcomes(a, Grp(g), st) == GroupOutcomes(a, g, st);
    assert ItemsOutcomes(a, Cons(Grp(g), tl), st) == Then(a, GroupOutcomes(a, g, st), tl);
    AfterEachFirst(a, gp, g, rest, tl, st.pos, k, AltsOutcomes(a, g.alts, Enter(a, g, st)));
  }

  lemma {:induction false} AfterEachFirst(a: Attempt, gp: nat, g: Group, rest: Tail, tl: Items, start: nat, k: Kont, xs: seq<State>)
    ensures FirstOf(a, Then(a, AfterEach(a, g, start, xs), tl), k) == FirstOf(a, xs, Frame(gp, g, rest, tl, start, k))
    decreases |xs|
  {
    if xs != [] {
      FirstOfThenAppend(a, AfterKet(a, g, start, xs[0]), AfterEach(a, g, start, xs[1..]), tl, k);
      AfterEachFirst(a, gp, g, rest, tl, start, k, xs[1..]);
    }
  }

  /** Which branches are still to be tried, and where their code is, does not affect the outcome. */
  lemma {:induction false} RestIrrelevant(a: Attempt, xs: seq<State>, f: Kont, rest: Tail)
    requires f.Frame?
    ensures FirstOf(a, xs, f) == FirstOf(a, xs, f.(rest := rest))
    decreases |xs|
  {
    if xs != [] {
      RestIrrelevant(a, xs[1..], f, rest);
    }
  }

  // ---- A measure for termination -----------------------------------------------------------

  function Left(size: nat, p: nat): nat {
    if p <= size then size - p else 0
  }

  function WItems(its: Items, size: nat, p: nat): nat
    decreases its, 0
  {
    match its
    case Nil => 0
    case Cons(n, tl) => WNode(n, size, p) + WItems(tl, size, p)
  }

  function WNode(n: Node, size: nat, p: nat): nat
    decreases n, 0
  {
    match n
    case One(_) => 1
    case Rep(_, _, _) => 1
    case Grp(g) => WGroup(g, size, p)
    case Zero(_, g) => 1 + WGroup(g, size, p)
  }

  /** A group can be entered once more than there are bytes left, if each iteration advances. */
  function WGroup(g: Group, size: nat, p: nat): nat
    decreases g, 1
  {
    (Left(size, p) + 1) * (WAlts(g.alts, size, p) + 2)
  }

  function WAlts(alts: Alts, size: nat, p: nat): nat
    decreases alts, 0
  {
    match alts
    case Last(b) => 1 + WItems(b, size, p)
    case More(b, rest) => 1 + WItems(b, size, p) + WAlts(rest, size, p)
  }

  function WKont(k: Kont, size: nat, p: nat): nat {
    match k
    case Done => 0
    case Frame(_, g, _, after, start, outer) =>
      1 + Left(size, start) * (WAlts(g.alts, size, start) + 2) + WItems(after, size, p) + WKont(outer, size, p)
  }

  function Work(its: Items, k: Kont, size: nat, p: nat): nat {
    WItems(its, size, p) + WKont(k, size, p)
  }

  lemma MulMono(x: nat, y: nat, x': nat, y': nat)
    requires x <= x' && y <= y'
    ensures x * y <= x' * y'
  {
    assert x * y <= x' * y;
    assert x' * y <= x' * y';
  }

  lemma {:induction false} WItemsMono(its: Items, size: nat, p: nat, p': nat)
    requires p <= p'
    ensures WItems(its, size, p') <= WItems(its, size, p)
    decreases its, 0
  {
    match its
    case Nil =>
    case Cons(n, tl) =>
      match n {
        case Grp(g) => WGroupMono(g, size, p, p');
        case Zero(_, g) => WGroupMono(g, size, p, p');
        case _ =>
      }
      WItemsMono(tl, size, p, p');
  }

  lemma {:induction false} WGroupMono(g: Group, size: nat, p: nat, p': nat)
    requires p <= p'
    ensures WGroup(g, size, p') <= WGroup(g, size, p)
    decreases g, 1
  {
    WAltsMono(g.alts, size, p, p');
    MulMono(Left(size, p') + 1, WAlts(g.alts, size, p') + 2, Left(size, p) + 1, WAlts(g.alts, size, p) + 2);
  }

  lemma {:induction false} WAltsMono(alts: Alts, size: nat, p: nat, p': nat)
    requires p <= p'
    ensures WAlts(alts, size, p') <= WAlts(alts, size, p)
    decreases alts, 0
  {
    WItemsMono(alts.b, size, p, p');
    if alts.More? {
      WAltsMono(alts.rest, size, p, p');
    }
  }

  lemma {:induction false} WKontMono(k: Kont, size: nat, p: nat, p': nat)
    requires p <= p'
    ensures WKont(k, size, p') <= WKont(k, size, p)
  {
    if k.Frame? {
      WItemsMono(k.after, size, p, p');
      WKontMono(k.outer, size, p, p');
    }
  }

  lemma WorkMono(its: Items, k: Kont, size: nat, p: nat, p': nat)
    requires p <= p'
    ensures Work(its, k, size, p') <= Work(its, k, size, p)
  {
    WItemsMono(its, size, p, p');
    WKontMono(k, size, p, p');
  }

  /** Entering a branch of a group leaves less to do, whatever the branch. */
  lemma EnterWork(gp: nat, g: Group, rest: Tail, b: Items, tl: Items, k: Kont, size: nat, p: nat)
    requires p <= size && WItems(b, size, p) < WAlts(g.alts, size, p)
    ensures Work(b, Frame(gp, g, rest, tl, p, k), size, p) < Work(Cons(Grp(g), tl), k, size, p)
  {
    var w := WAlts(g.alts, size, p) + 2;
    assert (Left(size, p) + 1) * w == Left(size, p) * w + w;
    assert WItems(Cons(Grp(g), tl), size, p) == WGroup(g, size, p) + WItems(tl, size, p);
  }

  /** Going round a loop again after an iteration that advanced leaves less to do. */
  lemma LoopWork(k: Kont, size: nat, p: nat)
    requires k.Frame? && k.start < p <= size
    ensures Work(Cons(Grp(k.g), k.after), k.outer, size, p) < Work(Nil, k, size, p)
  {
    assert WItems(Cons(Grp(k.g), k.after), size, p) == WGroup(k.g, size, p) + WItems(k.after, size, p);
    WAltsMono(k.g.alts, size, k.start, p);
    MulMono(Left(size, p) + 1, WAlts(k.g.alts, size, p) + 2, Left(size, k.start), WAlts(k.g.alts, size, k.start) + 2);
  }

  // ---- What holds whenever match() is called -----------------------------------------------

  /** Every unlimited repeat of a group that could match an empty string uses a "check empty" bracket. */
  ghost predicate CheckedItems(its: Items) {
    match its
    case Nil => true
    case Cons(n, tl) =>
      && (n.Grp? || n.Zero? ==> CheckedGroup(n.g))
      && CheckedItems(tl)
  }

  ghost predicate CheckedGroup(g: Group) {
    && (g.ket != Plain && !g.s ==> MinAlts(g.alts) >= 1)
    && CheckedAlts(g.alts)
  }

  ghost predicate CheckedAlts(alts: Alts) {
    CheckedItems(alts.b) && (alts.More? ==> CheckedAlts(alts.rest))
  }

  ghost predicate CheckedKont(k: Kont) {
    match k
    case Done => true
    case Frame(_, g, rest, after, _, outer) =>
      && CheckedGroup(g)
      && CheckedItems(after)
      && (rest.Alternatives? ==> CheckedAlts(rest.alts))
      && CheckedKont(outer)
  }

  /** All capturing groups have numbers up to n. */
  ghost predicate CapsItems(its: Items, n: nat) {
    its.Cons? ==> (its.hd.Grp? || its.hd.Zero? ==> CapsGroup(its.hd.g, n)) && CapsItems(its.tl, n)
  }

  ghost predicate CapsGroup(g: Group, n: nat) {
    g.cap <= n && CapsAlts(g.alts, n)
  }

  ghost predicate CapsAlts(alts: Alts, n: nat) {
    CapsItems(alts.b, n) && (alts.More? ==> CapsAlts(alts.rest, n))
  }

  ghost predicate CapsKont(k: Kont, n: nat) {
    match k
    case Done => true
    case Frame(_, g, rest, after, _, outer) =>
      && CapsGroup(g, n)
      && CapsItems(after, n)
      && (rest.Alternatives? ==> CapsAlts(rest.alts, n))
      && CapsKont(outer, n)
  }

  /** The start of each enclosing "check empty" group lies at or below its entry in the chain, and
      the starts of enclosing groups only grow inwards. */
  ghost predicate Remembered(k: Kont, chain: seq<nat>, p: nat) {
    match k
    case Done => true
    case Frame(_, g, _, _, start, outer) =>
      && start <= p
      && (g.s ==> chain != [] && start <= chain[0])
      && Remembered(outer, if g.s then chain[1..] else chain, start)
  }

  /** By the time the ket of an unchecked unlimited group is reached, at position p or later, the
      iteration has advanced. */
  ghost predicate Advances(k: Kont, p: nat) {
    match k
    case Done => true
    case Frame(_, g, _, after, start, outer) =>
      && (g.ket != Plain && !g.s ==> start < p)
      && Advances(outer, p + MinItems(after))
  }

  ghost predicate Ready(a: Attempt, its: Items, k: Kont, st: State) {
    && a.Valid()
    && st.pos <= |a.c.s|
    && |st.ov| >= a.offsetEnd
    && (forall i :: 0 <= i < |st.chain| ==> st.chain[i] <= st.pos)
    && CheckedItems(its)
    && CheckedKont(k)
    && CapsItems(its, a.topBracket)
    && CapsKont(k, a.topBracket)
    && Remembered(k, st.chain, st.pos)
    && Advances(k, st.pos + MinItems(its))
  }

  lemma {:induction false} AdvancesMono(k: Kont, p: nat, p': nat)
    requires Advances(k, p) && p <= p'
    ensures Advances(k, p')
  {
    if k.Frame? {
      AdvancesMono(k.outer, p + MinItems(k.after), p' + MinItems(k.after));
    }
  }

  lemma {:induction false} RememberedMono(k: Kont, chain: seq<nat>, p: nat, p': nat)
    requires Remembered(k, chain, p) && p <= p'
    ensures Remembered(k, chain, p')
  {
  }

  /** Remembering one more position on top of the chain is harmless. */
  lemma {:induction false} RememberedPush(k: Kont, chain: seq<nat>, p: nat, x: nat)
    requires Remembered(k, chain, p) && x >= p
    ensures Remembered(k, [x] + chain, p)
  {
    if k.Frame? {
      if k.g.s {
        assert ([x] + chain)[1..] == [chain[0]] + chain[1..];
        RememberedPush(k.outer, chain[1..], k.start, chain[0]);
      } else {
        RememberedPush(k.outer, chain, k.start, x);
      }
    }
  }

  /** A slot of the pair of an enclosing capturing group, which match() may leave changed. */
  ghost predicate Open(a: Attempt, k: Kont, i: int) {
    k.Frame? && ((a.Fits(k.g.cap) && (i == 2 * k.g.cap || i == 2 * k.g.cap + 1)) || Open(a, k.outer, i))
  }

  /** Equal except in the pairs of enclosing groups. */
  ghost predicate Agree(a: Attempt, k: Kont, v: seq<int>, w: seq<int>) {
    |v| == |w| && forall i :: 0 <= i < |v| && !Open(a, k, i) ==> v[i] == w[i]
  }
}

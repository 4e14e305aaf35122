/** The order in which an unlimited repeat of a group has its outcomes, and when remembered starts of inner
    groups disturb it. */
module LoopOrder {
  import opened Common
  import opened ByteCode
  import opened Meaning
  import opened Lengths
  import opened Outcomes
  import opened Emptiness
  import opened Replicate
  import opened Repetition

  // ---- What lies below on the chain of remembered starts does not matter ---------------------------------

  /** A state without remembered starts. */
  function Bare(st: State): State {
    st.(chain := [])
  }

  function Bares(xs: seq<State>): (r: seq<State>)
    ensures |r| == |xs|
  {
    if xs == [] then [] else [Bare(xs[0])] + Bares(xs[1..])
  }

  /** The states with more below on their chains. */
  function Over(xs: seq<State>, ch: seq<nat>): (r: seq<State>)
    ensures |r| == |xs|
  {
    if xs == [] then [] else [xs[0].(chain := xs[0].chain + ch)] + Over(xs[1..], ch)
  }

  lemma {:induction false} OverAppend(xs: seq<State>, ys: seq<State>, ch: seq<nat>)
    ensures Over(xs + ys, ch) == Over(xs, ch) + Over(ys, ch)
  {
    if xs == [] {
      assert xs + ys == ys;
    } else {
      assert (xs + ys)[1..] == xs[1..] + ys;
      OverAppend(xs[1..], ys, ch);
    }
  }

  lemma {:induction false} OverTwice(xs: seq<State>, ch: seq<nat>, more: seq<nat>)
    ensures Over(Over(xs, ch), more) == Over(xs, ch + more)
  {
    if xs != [] {
      assert (xs[0].chain + ch) + more == xs[0].chain + (ch + more);
      OverTwice(xs[1..], ch, more);
    }
  }

  lemma {:induction false} BaresAppend(xs: seq<State>, ys: seq<State>)
    ensures Bares(xs + ys) == Bares(xs) + Bares(ys)
  {
    if xs == [] {
      assert xs + ys == ys;
    } else {
      assert (xs + ys)[1..] == xs[1..] + ys;
      BaresAppend(xs[1..], ys);
    }
  }

  lemma {:induction false} BaresOver(xs: seq<State>, ch: seq<nat>)
    ensures Bares(Over(xs, ch)) == Bares(xs)
  {
    if xs != [] { BaresOver(xs[1..], ch); }
  }

  lemma OverBare(st: State)
    ensures Over([Bare(st)], st.chain) == [st]
  {
    assert [] + st.chain == st.chain;
    assert Over([Bare(st)], st.chain) == [st] + Over([], st.chain);
  }

  lemma {:induction false} DownOver(st: State, hi: int, lo: nat)
    ensures Down(st, hi, lo) == Over(Down(Bare(st), hi, lo), st.chain)
    decreases hi - lo + 1
  {
    if hi >= lo {
      DownOver(st, hi - 1, lo);
      OverBare(Advance(st, hi));
      OverAppend([Advance(Bare(st), hi)], Down(Bare(st), hi - 1, lo), st.chain);
    }
  }

  lemma {:induction false} UpOver(st: State, lo: nat, hi: int)
    ensures Up(st, lo, hi) == Over(Up(Bare(st), lo, hi), st.chain)
    decreases hi - lo + 1
  {
    if hi >= lo {
      UpOver(st, lo + 1, hi);
      OverBare(Advance(st, lo));
      OverAppend([Advance(Bare(st), lo)], Up(Bare(st), lo + 1, hi), st.chain);
    }
  }

  lemma RepOver(a: Attempt, u: Unit, q: Quant, m: Mode, st: State)
    ensures RepOutcomes(a, u, q, m, st) == Over(RepOutcomes(a, u, q, m, Bare(st)), st.chain)
  {
    var n := RunLength(a.c, u, st.pos, q.Max());
    DownOver(st, n, q.Min());
    UpOver(st, q.Min(), n);
    OverBare(Advance(st, n));
  }

  /** The outcomes of items depend on the chain only by carrying it along. */
  lemma {:induction false} ItemsOver(a: Attempt, its: Items, st: State)
    ensures ItemsOutcomes(a, its, st) == Over(ItemsOutcomes(a, its, Bare(st)), st.chain)
    decreases its, 0, 0, 0
  {
    hide NodeOutcomes;
    match its
    case Nil => OverBare(st);
    case Cons(n, tl) =>
      NodeOver(a, n, st);
      ThenOver(a, NodeOutcomes(a, n, Bare(st)), tl, st.chain);
  }

  lemma {:induction false} ThenOver(a: Attempt, sts: seq<State>, its: Items, ch: seq<nat>)
    ensures Then(a, Over(sts, ch), its) == Over(Then(a, sts, its), ch)
    decreases its, 1, |sts|, 0
  {
    hide ItemsOutcomes;
    if sts != [] {
      var x := sts[0];
      ItemsOver(a, its, x);
      ItemsOver(a, its, x.(chain := x.chain + ch));
      OverTwice(ItemsOutcomes(a, its, Bare(x)), x.chain, ch);
      ThenOver(a, sts[1..], its, ch);
      OverAppend(ItemsOutcomes(a, its, x), Then(a, sts[1..], its), ch);
    }
  }

  lemma {:induction false} NodeOver(a: Attempt, n: Node, st: State)
    ensures NodeOutcomes(a, n, st) == Over(NodeOutcomes(a, n, Bare(st)), st.chain)
    decreases n, 0, 0, 0
  {
    hide GroupOutcomes, RepOutcomes;
    match n
    case One(u) => OverBare(Advance(st, 1));
    case Rep(u, q, m) => RepOver(a, u, q, m, st);
    case Grp(g) => GroupOver(a, g, st);
    case Zero(lazy, g) =>
      GroupOver(a, g, st);
      OverBare(st);
      var xs := GroupOutcomes(a, g, Bare(st));
      OverAppend([Bare(st)], xs, st.chain);
      OverAppend(xs, [Bare(st)], st.chain);
  }

  lemma {:induction false} AltsOver(a: Attempt, alts: Alts, st: State)
    ensures AltsOutcomes(a, alts, st) == Over(AltsOutcomes(a, alts, Bare(st)), st.chain)
    decreases alts, 0, 0, 0
  {
    hide ItemsOutcomes;
    ItemsOver(a, alts.b, st);
    if alts.More? {
      AltsOver(a, alts.rest, st);
      OverAppend(ItemsOutcomes(a, alts.b, Bare(st)), AltsOutcomes(a, alts.rest, Bare(st)), st.chain);
    }
  }

  lemma {:induction false} GroupOver(a: Attempt, g: Group, st: State)
    ensures GroupOutcomes(a, g, st) == Over(GroupOutcomes(a, g, Bare(st)), st.chain)
    decreases g, Rest(a, st.pos), 2, 0
  {
    hide AltsOutcomes, AfterEach;
    var e, f := Enter(a, g, st), Enter(a, g, Bare(st));
    var xs := AltsOutcomes(a, g.alts, Bare(e));
    AltsOver(a, g.alts, e);
    AltsOver(a, g.alts, f);
    assert Bare(f) == Bare(e) && f.chain + st.chain == e.chain by { assert g.s ==> [st.pos] + [] == [st.pos]; }
    OverTwice(xs, f.chain, st.chain);
    if g.s { OverRemembers(xs, f.chain); }
    EachOver(a, g, st.pos, Over(xs, f.chain), st.chain);
  }

  lemma {:induction false} OverRemembers(xs: seq<State>, ch: seq<nat>)
    requires ch != []
    ensures forall k :: 0 <= k < |xs| ==> Over(xs, ch)[k].chain != []
  {
    if xs != [] { OverRemembers(xs[1..], ch); }
  }

  lemma {:induction false} EachOver(a: Attempt, g: Group, start: nat, xs: seq<State>, ch: seq<nat>)
    requires g.s ==> forall k :: 0 <= k < |xs| ==> xs[k].chain != []
    ensures AfterEach(a, g, start, Over(xs, ch)) == Over(AfterEach(a, g, start, xs), ch)
    decreases g, Rest(a, start), 1, |xs|
  {
    hide AfterKet;
    if xs != [] {
      KetOver(a, g, start, xs[0], ch);
      EachOver(a, g, start, xs[1..], ch);
      OverAppend(AfterKet(a, g, start, xs[0]), AfterEach(a, g, start, xs[1..]), ch);
    }
  }

  lemma {:induction false} KetOver(a: Attempt, g: Group, start: nat, x: State, ch: seq<nat>)
    requires g.s ==> x.chain != []
    ensures AfterKet(a, g, start, x.(chain := x.chain + ch)) == Over(AfterKet(a, g, start, x), ch)
    decreases g, Rest(a, start), 0, 0
  {
    hide GroupOutcomes;
    var z := x.(chain := x.chain + ch);
    var y, w := Close(a, g, x), Close(a, g, z);
    assert w == y.(chain := y.chain + ch) by { if g.s { assert (x.chain + ch)[1..] == x.chain[1..] + ch; } }
    OverOne(y, ch);
    if Loops(a, g, start, x) {
      var n, v := Again(g, y), Again(g, w);
      assert v == n.(chain := n.chain + ch) by { if g.s { assert [y.pos] + (y.chain + ch) == ([y.pos] + y.chain) + ch; } }
      GroupOver(a, g, n);
      GroupOver(a, g, v);
      var xs := GroupOutcomes(a, g, Bare(n));
      OverTwice(xs, n.chain, ch);
      OverAppend([y], Over(xs, n.chain), ch);
      OverAppend(Over(xs, n.chain), [y], ch);
    }
  }

  lemma OverOne(y: State, ch: seq<nat>)
    ensures Over([y], ch) == [y.(chain := y.chain + ch)]
  {
    assert Over([y], ch) == [y.(chain := y.chain + ch)] + Over([], ch);
  }

  // ---- Going round as the quantifier says ----------------------------------------------------------------

  /** One or more iterations without limit, in the order of the quantifier. After an empty iteration no
      further one is tried. Remembered starts play no part in this. */
  function Endless(a: Attempt, lazy: bool, g: Group, st: State): seq<State>
    decreases Rest(a, st.pos), 2, 0
  {
    EachEndless(a, lazy, g, st.pos, GroupOutcomes(a, g, Bare(st)))
  }

  function EachEndless(a: Attempt, lazy: bool, g: Group, start: nat, xs: seq<State>): seq<State>
    decreases Rest(a, start), 1, |xs|
  {
    if xs == [] then [] else Further(a, lazy, g, start, xs[0]) + EachEndless(a, lazy, g, start, xs[1..])
  }

  function Further(a: Attempt, lazy: bool, g: Group, start: nat, x: State): (r: seq<State>)
    ensures r != []
    decreases Rest(a, start), 0, 0
  {
    if !(start < x.pos <= |a.c.s|) then [Bare(x)]
    else if lazy then [Bare(x)] + Endless(a, lazy, g, x)
    else Endless(a, lazy, g, x) + [Bare(x)]
  }

  /** min iterations and more. */
  function Unlimited(a: Attempt, lazy: bool, g: Group, min: nat, st: State): seq<State>
    decreases min, 0
  {
    if min == 0 then (if lazy then [Bare(st)] + Endless(a, lazy, g, st) else Endless(a, lazy, g, st) + [Bare(st)])
    else if min == 1 then Endless(a, lazy, g, st)
    else EachUnlimited(a, lazy, g, min - 1, GroupOutcomes(a, g, Bare(st)))
  }

  function EachUnlimited(a: Attempt, lazy: bool, g: Group, min: nat, xs: seq<State>): seq<State>
    decreases min, 1, |xs|
  {
    if xs == [] then [] else Unlimited(a, lazy, g, min, xs[0]) + EachUnlimited(a, lazy, g, min, xs[1..])
  }

  // ---- Going round as the code does ----------------------------------------------------------------------

  /** An iteration ended in x, and the group is marked. Some inner group has left a remembered start behind
      that equals the end of the iteration, so that the ket takes the iteration for an empty one. */
  predicate Blocked(g: Group, x: State) {
    AnyBranchEmpty(g.alts) && x.chain != [] && x.chain[0] == x.pos
  }

  /** As Endless, but a blocked iteration is the last. */
  function Rounds(a: Attempt, lazy: bool, g: Group, st: State): seq<State>
    decreases Rest(a, st.pos), 2, 0
  {
    EachRound(a, lazy, g, st.pos, GroupOutcomes(a, g, Bare(st)))
  }

  function EachRound(a: Attempt, lazy: bool, g: Group, start: nat, xs: seq<State>): seq<State>
    decreases Rest(a, start), 1, |xs|
  {
    if xs == [] then [] else Round(a, lazy, g, start, xs[0]) + EachRound(a, lazy, g, start, xs[1..])
  }

  function Round(a: Attempt, lazy: bool, g: Group, start: nat, x: State): seq<State>
    decreases Rest(a, start), 0, 0
  {
    if !(start < x.pos <= |a.c.s|) || Blocked(g, x) then [Bare(x)]
    else if lazy then [Bare(x)] + Rounds(a, lazy, g, x)
    else Rounds(a, lazy, g, x) + [Bare(x)]
  }

  lemma RoundsBare(a: Attempt, lazy: bool, g: Group, st: State)
    ensures Rounds(a, lazy, g, Bare(st)) == Rounds(a, lazy, g, st)
  {
  }

  /** A group with a repeating ket goes round until an iteration is empty or blocked. */
  lemma {:induction false} LoopedRounds(a: Attempt, lazy: bool, g: Group, st: State)
    requires g.ket == Plain && !g.s
    ensures Bares(GroupOutcomes(a, Looped(lazy, g), st)) == Rounds(a, lazy, g, st)
    decreases Rest(a, st.pos), 1, 0
  {
    hide AltsOutcomes, AfterEach, AnyBranchEmpty, EachRound;
    var l := Looped(lazy, g);
    var m: seq<nat> := if l.s then [st.pos] else [];
    var xs := AltsOutcomes(a, g.alts, Enter(a, g, Bare(st)));
    GroupOver(a, l, st);
    BaresOver(GroupOutcomes(a, l, Bare(st)), st.chain);
    AltsOver(a, g.alts, Enter(a, l, Bare(st)));
    assert Enter(a, g, Bare(st)) == Bare(Enter(a, l, Bare(st))) && Enter(a, l, Bare(st)).chain == m by {
      assert [st.pos] + [] == [st.pos];
    }
    EachLoopedRound(a, lazy, g, st.pos, xs, m);
  }

  lemma {:induction false} EachLoopedRound(a: Attempt, lazy: bool, g: Group, start: nat, xs: seq<State>, m: seq<nat>)
    requires g.ket == Plain && !g.s && m == if AnyBranchEmpty(g.alts) then [start] else []
    ensures Bares(AfterEach(a, Looped(lazy, g), start, Over(xs, m))) == EachRound(a, lazy, g, start, AfterEach(a, g, start, xs))
    decreases Rest(a, start), 0, |xs|
  {
    hide AnyBranchEmpty, AfterKet, Round;
    if xs != [] {
      var x, l := xs[0], Looped(lazy, g);
      var z := x.(chain := x.chain + m);
      LoopedRound(a, lazy, g, start, x, m);
      EachLoopedRound(a, lazy, g, start, xs[1..], m);
      BaresAppend(AfterKet(a, l, start, z), AfterEach(a, l, start, Over(xs[1..], m)));
      var y := Close(a, g, x);
      assert ([y] + AfterEach(a, g, start, xs[1..]))[1..] == AfterEach(a, g, start, xs[1..]);
    }
  }

  lemma {:induction false} LoopedRound(a: Attempt, lazy: bool, g: Group, start: nat, x: State, m: seq<nat>)
    requires g.ket == Plain && !g.s && m == if AnyBranchEmpty(g.alts) then [start] else []
    ensures AfterKet(a, g, start, x) == [Close(a, g, x)]
    ensures Bares(AfterKet(a, Looped(lazy, g), start, x.(chain := x.chain + m))) == Round(a, lazy, g, start, Close(a, g, x))
    decreases Rest(a, start), 0, 0
  {
    hide AnyBranchEmpty, GroupOutcomes, Rounds;
    var l := Looped(lazy, g);
    var z, y := x.(chain := x.chain + m), Close(a, g, x);
    var w := Close(a, l, z);
    assert Bare(w) == Bare(y) && y.pos == x.pos && y.chain == x.chain;
    assert Loops(a, l, start, z) <==> start < x.pos <= |a.c.s| && !Blocked(g, y);
    BaresOne(w);
    if Loops(a, l, start, z) {
      var n := Again(l, w);
      LoopedRounds(a, lazy, g, n);
      RoundsBare(a, lazy, g, n);
      RoundsBare(a, lazy, g, y);
      assert Bare(n) == Bare(y);
      BaresAppend([w], GroupOutcomes(a, l, n));
      BaresAppend(GroupOutcomes(a, l, n), [w]);
    }
  }

  lemma BaresOne(x: State)
    ensures Bares([x]) == [Bare(x)]
  {
    assert Bares([x]) == [Bare(x)] + Bares([]);
  }

  // ---- When the two agree --------------------------------------------------------------------------------

  /** Some iteration that can be reached is blocked where a further one would have been possible. */
  predicate Cut(a: Attempt, g: Group, st: State)
    decreases Rest(a, st.pos), 2, 0
  {
    AnyCut(a, g, st.pos, GroupOutcomes(a, g, Bare(st)))
  }

  predicate AnyCut(a: Attempt, g: Group, start: nat, xs: seq<State>)
    decreases Rest(a, start), 1, |xs|
  {
    xs != [] && (CutAt(a, g, start, xs[0]) || AnyCut(a, g, start, xs[1..]))
  }

  predicate CutAt(a: Attempt, g: Group, start: nat, x: State)
    decreases Rest(a, start), 0, 0
  {
    start < x.pos <= |a.c.s| && if Blocked(g, x) then GroupOutcomes(a, g, Bare(x)) != [] else Cut(a, g, x)
  }

  /** xs is ys, or, when something is cut, has fewer outcomes. */
  predicate Falls(xs: seq<State>, ys: seq<State>, cut: bool) {
    |xs| <= |ys| && (cut <==> |xs| < |ys|) && (!cut ==> xs == ys)
  }

  lemma FallsBoth(xs: seq<State>, ys: seq<State>, cut: bool, xs': seq<State>, ys': seq<State>, cut': bool)
    requires Falls(xs, ys, cut) && Falls(xs', ys', cut')
    ensures Falls(xs + xs', ys + ys', cut || cut')
  {
  }

  lemma {:induction false} RoundsFall(a: Attempt, lazy: bool, g: Group, st: State)
    ensures Falls(Rounds(a, lazy, g, st), Endless(a, lazy, g, st), Cut(a, g, st))
    decreases Rest(a, st.pos), 2, 0
  {
    EachFalls(a, lazy, g, st.pos, GroupOutcomes(a, g, Bare(st)));
  }

  lemma {:induction false} EachFalls(a: Attempt, lazy: bool, g: Group, start: nat, xs: seq<State>)
    ensures Falls(EachRound(a, lazy, g, start, xs), EachEndless(a, lazy, g, start, xs), AnyCut(a, g, start, xs))
    decreases Rest(a, start), 1, |xs|
  {
    hide Round, Further, CutAt, Falls;
    if xs == [] {
      NothingFalls();
    } else {
      var x := xs[0];
      RoundFalls(a, lazy, g, start, x);
      EachFalls(a, lazy, g, start, xs[1..]);
      FallsBoth(Round(a, lazy, g, start, x), Further(a, lazy, g, start, x), CutAt(a, g, start, x),
                EachRound(a, lazy, g, start, xs[1..]), EachEndless(a, lazy, g, start, xs[1..]), AnyCut(a, g, start, xs[1..]));
    }
  }

  lemma NothingFalls()
    ensures Falls([], [], false)
  {
  }

  lemma {:induction false} RoundFalls(a: Attempt, lazy: bool, g: Group, start: nat, x: State)
    ensures Falls(Round(a, lazy, g, start, x), Further(a, lazy, g, start, x), CutAt(a, g, start, x))
    decreases Rest(a, start), 0, 0
  {
    hide Blocked, Rounds, Cut, Endless;
    if start < x.pos <= |a.c.s| {
      if Blocked(g, x) {
        EndlessEmpty(a, lazy, g, x);
      } else {
        RoundsFall(a, lazy, g, x);
      }
    }
  }

  lemma EndlessEmpty(a: Attempt, lazy: bool, g: Group, st: State)
    ensures Endless(a, lazy, g, st) == [] <==> GroupOutcomes(a, g, Bare(st)) == []
  {
    hide Further, GroupOutcomes;
  }

  /** A marked or unmarked group with a repeating ket has its outcomes in the order of a greedy or lazy
      quantifier exactly when no iteration is cut. */
  lemma OrderExactly(a: Attempt, lazy: bool, g: Group, st: State)
    requires g.ket == Plain && !g.s
    ensures Bares(GroupOutcomes(a, Looped(lazy, g), st)) == Endless(a, lazy, g, st) <==> !Cut(a, g, st)
  {
    LoopedRounds(a, lazy, g, st);
    RoundsFall(a, lazy, g, st);
  }

  /** Cut, after the copies for a minimum. */
  predicate CutAfter(a: Attempt, g: Group, min: nat, st: State)
    decreases min, 0
  {
    if min <= 1 then Cut(a, g, st) else AnyCutAfter(a, g, min - 1, GroupOutcomes(a, g, Bare(st)))
  }

  predicate AnyCutAfter(a: Attempt, g: Group, min: nat, xs: seq<State>)
    decreases min, 1, |xs|
  {
    xs != [] && (CutAfter(a, g, min, xs[0]) || AnyCutAfter(a, g, min, xs[1..]))
  }

  /** A group repeated min times or more has its outcomes in the order of a greedy or lazy {min,} exactly when
      no iteration is cut. */
  lemma UnlimitedOrder(a: Attempt, lazy: bool, g: Group, min: nat, st: State)
    requires g.ket == Plain && !g.s
    ensures Bares(ItemsOutcomes(a, Replicated(lazy, g, min, -1), st)) == Unlimited(a, lazy, g, min, st) <==> !CutAfter(a, g, min, st)
  {
    hide ItemsOutcomes, GroupOutcomes, AnyBranchEmpty, Cut;
    if min == 0 {
      var l := Looped(lazy, g);
      OneOrder(a, Zero(lazy, l), st);
      LoopedRounds(a, lazy, g, st);
      RoundsFall(a, lazy, g, st);
      BaresOne(st);
      BaresAppend([st], GroupOutcomes(a, l, st));
      BaresAppend(GroupOutcomes(a, l, st), [st]);
    } else {
      LoopFalls(a, lazy, g, min - 1, st);
    }
  }

  lemma {:induction false} LoopFalls(a: Attempt, lazy: bool, g: Group, n: nat, st: State)
    requires g.ket == Plain && !g.s
    ensures Falls(Bares(ItemsOutcomes(a, Copies(g, n, Cons(Grp(Looped(lazy, g)), Nil)), st)),
                  Unlimited(a, lazy, g, n + 1, st), CutAfter(a, g, n + 1, st))
    decreases n, 0
  {
    hide AnyBranchEmpty, GroupOutcomes, Falls, Cut;
    var l := Cons(Grp(Looped(lazy, g)), Nil);
    var its := Copies(g, n, l);
    ItemsOver(a, its, st);
    BaresOver(ItemsOutcomes(a, its, Bare(st)), st.chain);
    if n == 0 {
      OneOrder(a, l.hd, Bare(st));
      LoopedRounds(a, lazy, g, Bare(st));
      RoundsBare(a, lazy, g, st);
      RoundsFall(a, lazy, g, st);
    } else {
      assert NodeOutcomes(a, Grp(g), Bare(st)) == GroupOutcomes(a, g, Bare(st));
      EachLoopFalls(a, lazy, g, n - 1, GroupOutcomes(a, g, Bare(st)));
    }
  }

  lemma {:induction false} EachLoopFalls(a: Attempt, lazy: bool, g: Group, n: nat, xs: seq<State>)
    requires g.ket == Plain && !g.s
    ensures Falls(Bares(Then(a, xs, Copies(g, n, Cons(Grp(Looped(lazy, g)), Nil)))),
                  EachUnlimited(a, lazy, g, n + 1, xs), AnyCutAfter(a, g, n + 1, xs))
    decreases n, 1, |xs|
  {
    hide ItemsOutcomes, Unlimited, Copies, AnyBranchEmpty, Falls, CutAfter;
    var its := Copies(g, n, Cons(Grp(Looped(lazy, g)), Nil));
    if xs == [] {
      NothingFalls();
      assert Bares([]) == [];
    } else {
      LoopFalls(a, lazy, g, n, xs[0]);
      EachLoopFalls(a, lazy, g, n, xs[1..]);
      BaresAppend(ItemsOutcomes(a, its, xs[0]), Then(a, xs[1..], its));
      FallsBoth(Bares(ItemsOutcomes(a, its, xs[0])), Unlimited(a, lazy, g, n + 1, xs[0]), CutAfter(a, g, n + 1, xs[0]),
                Bares(Then(a, xs[1..], its)), EachUnlimited(a, lazy, g, n + 1, xs[1..]), AnyCutAfter(a, g, n + 1, xs[1..]));
    }
  }

  // ---- Where no iteration can be cut ---------------------------------------------------------------------

  /** There is no marked group. */
  ghost predicate NoMarks(its: Items)
    decreases its, 0
  {
    its.Cons? ==> (its.hd.Grp? || its.hd.Zero? ==> !its.hd.g.s && NoMarksInside(its.hd.g.alts)) && NoMarks(its.tl)
  }

  ghost predicate NoMarksInside(alts: Alts)
    decreases alts, 0
  {
    NoMarks(alts.b) && (alts.More? ==> NoMarksInside(alts.rest))
  }

  lemma {:induction false} ItemsKeep(a: Attempt, its: Items, st: State, x: State)
    requires NoMarks(its) && x in ItemsOutcomes(a, its, st)
    ensures x.chain == st.chain
    decreases its, 0, 0
  {
    hide NodeOutcomes;
    if its.Cons? {
      var y := ThenFrom(a, NodeOutcomes(a, its.hd, st), its.tl, x);
      NodeKeeps(a, its.hd, st, y);
      ItemsKeep(a, its.tl, y, x);
    }
  }

  lemma {:induction false} NodeKeeps(a: Attempt, n: Node, st: State, x: State)
    requires (n.Grp? || n.Zero? ==> !n.g.s && NoMarksInside(n.g.alts)) && x in NodeOutcomes(a, n, st)
    ensures x.chain == st.chain
    decreases n, 0, 0
  {
    hide GroupOutcomes;
    match n
    case One(_) =>
    case Rep(u, q, m) =>
      var run := RunLength(a.c, u, st.pos, q.Max());
      if run >= q.Min() && m == Greedy { DownFrom(st, run, q.Min(), x); }
      if run >= q.Min() && m == Lazy { UpFrom(st, q.Min(), run, x); }
    case Grp(g) => GroupKeeps(a, g, st, x);
    case Zero(_, g) => if x != st { GroupKeeps(a, g, st, x); }
  }

  lemma {:induction false} AltsKeep(a: Attempt, alts: Alts, st: State, x: State)
    requires NoMarksInside(alts) && x in AltsOutcomes(a, alts, st)
    ensures x.chain == st.chain
    decreases alts, 0, 0
  {
    hide ItemsOutcomes;
    if x in ItemsOutcomes(a, alts.b, st) { ItemsKeep(a, alts.b, st, x); } else { AltsKeep(a, alts.rest, st, x); }
  }

  lemma {:induction false} GroupKeeps(a: Attempt, g: Group, st: State, x: State)
    requires !g.s && NoMarksInside(g.alts) && x in GroupOutcomes(a, g, st)
    ensures x.chain == st.chain
    decreases g, Rest(a, st.pos), 1
  {
    hide AltsOutcomes;
    var xs := AltsOutcomes(a, g.alts, Enter(a, g, st));
    var y := AfterEachFrom(a, g, st.pos, xs, x);
    AltsKeep(a, g.alts, Enter(a, g, st), y);
    if x != Close(a, g, y) { GroupKeeps(a, g, Again(g, Close(a, g, y)), x); }
  }

  /** Nothing is cut when the group is not marked, or when no group inside it is. */
  lemma {:induction false} NeverCut(a: Attempt, g: Group, st: State)
    requires !AnyBranchEmpty(g.alts) || (!g.s && NoMarksInside(g.alts))
    ensures !Cut(a, g, st)
    decreases Rest(a, st.pos), 2, 0
  {
    hide GroupOutcomes, AnyBranchEmpty;
    var xs := GroupOutcomes(a, g, Bare(st));
    forall x | x in xs ensures !Blocked(g, x) {
      if AnyBranchEmpty(g.alts) { GroupKeeps(a, g, Bare(st), x); }
    }
    NeverAnyCut(a, g, st.pos, xs);
  }

  lemma {:induction false} NeverAnyCut(a: Attempt, g: Group, start: nat, xs: seq<State>)
    requires !AnyBranchEmpty(g.alts) || (!g.s && NoMarksInside(g.alts))
    requires forall x :: x in xs ==> !Blocked(g, x)
    ensures !AnyCut(a, g, start, xs)
    decreases Rest(a, start), 1, |xs|
  {
    hide AnyBranchEmpty, Cut, Blocked;
    if xs != [] {
      assert xs[0] in xs;
      if start < xs[0].pos <= |a.c.s| { NeverCut(a, g, xs[0]); }
      NeverAnyCut(a, g, start, xs[1..]);
    }
  }

  lemma {:induction false} NeverCutAfter(a: Attempt, g: Group, min: nat, st: State)
    requires !AnyBranchEmpty(g.alts) || (!g.s && NoMarksInside(g.alts))
    ensures !CutAfter(a, g, min, st)
    decreases min, 0
  {
    hide Cut, AnyBranchEmpty, GroupOutcomes;
    if min <= 1 { NeverCut(a, g, st); } else { NoneCutAfter(a, g, min - 1, GroupOutcomes(a, g, Bare(st))); }
  }

  lemma {:induction false} NoneCutAfter(a: Attempt, g: Group, min: nat, xs: seq<State>)
    requires !AnyBranchEmpty(g.alts) || (!g.s && NoMarksInside(g.alts))
    ensures !AnyCutAfter(a, g, min, xs)
    decreases min, 1, |xs|
  {
    hide CutAfter, AnyBranchEmpty;
    if xs != [] {
      NeverCutAfter(a, g, min, xs[0]);
      NoneCutAfter(a, g, min, xs[1..]);
    }
  }

  /** A group with no marked group inside, repeated min times or more, has its outcomes in the order of the
      quantifier, whether or not it is marked itself. */
  lemma QuantifierOrder(a: Attempt, lazy: bool, g: Group, min: nat, st: State)
    requires g.ket == Plain && !g.s && (!AnyBranchEmpty(g.alts) || NoMarksInside(g.alts))
    ensures Bares(ItemsOutcomes(a, Replicated(lazy, g, min, -1), st)) == Unlimited(a, lazy, g, min, st)
  {
    UnlimitedOrder(a, lazy, g, min, st);
    NeverCutAfter(a, g, min, st);
  }

  // ---- A group that can match nothing always has a further iteration -------------------------------------

  lemma {:induction false} ItemsGoOn(a: Attempt, its: Items, st: State)
    requires MinItems(its) == 0
    ensures ItemsOutcomes(a, its, st) != []
    decreases its, 0
  {
    hide NodeOutcomes;
    if its.Cons? {
      NodeGoesOn(a, its.hd, st);
      ItemsGoOn(a, its.tl, NodeOutcomes(a, its.hd, st)[0]);
    }
  }

  lemma {:induction false} NodeGoesOn(a: Attempt, n: Node, st: State)
    requires MinNode(n) == 0
    ensures NodeOutcomes(a, n, st) != []
    decreases n, 0
  {
    if n.Grp? {
      AltsGoOn(a, n.g.alts, Enter(a, n.g, st));
      KetGoesOn(a, n.g, st.pos, AltsOutcomes(a, n.g.alts, Enter(a, n.g, st)));
    }
  }

  lemma KetGoesOn(a: Attempt, g: Group, start: nat, xs: seq<State>)
    requires xs != []
    ensures AfterEach(a, g, start, xs) != []
  {
    assert AfterKet(a, g, start, xs[0]) != [];
  }

  lemma {:induction false} AltsGoOn(a: Attempt, alts: Alts, st: State)
    requires MinAlts(alts) == 0
    ensures AltsOutcomes(a, alts, st) != []
    decreases alts, 0
  {
    hide ItemsOutcomes, MinItems;
    if MinItems(alts.b) == 0 { ItemsGoOn(a, alts.b, st); } else { AltsGoOn(a, alts.rest, st); }
  }

  /** For such a group an iteration is cut exactly when it advanced and is blocked, or a later one is cut. */
  lemma CutWhenBlocked(a: Attempt, g: Group, start: nat, x: State)
    requires MinAlts(g.alts) == 0
    ensures CutAt(a, g, start, x) <==> start < x.pos <= |a.c.s| && (Blocked(g, x) || Cut(a, g, x))
  {
    hide Cut, Blocked, AltsOutcomes;
    AltsGoOn(a, g.alts, Enter(a, g, Bare(x)));
    KetGoesOn(a, g, x.pos, AltsOutcomes(a, g.alts, Enter(a, g, Bare(x))));
  }

  // ---- An order that is disturbed ------------------------------------------------------------------------

  /** (?:a|)* , whose group is marked. */
  const INNER := Group(true, 0, More(Cons(One(Chr(97)), Nil), Last(Nil)), RMax)

  /** b|(?:a|)* , in a plain bracket. */
  const OUTER := Group(false, 0, More(Cons(One(Chr(98)), Nil), Last(Cons(Zero(false, INNER), Nil))), Plain)

  lemma OneOutcome(a: Attempt, c: byte, st: State)
    ensures ItemsOutcomes(a, Cons(One(Chr(c)), Nil), st) == if Test(a.c, Chr(c), st.pos) then [Advance(st, 1)] else []
  {
    OneOrder(a, One(Chr(c)), st);
  }

  /** One round of the inner group. */
  lemma InnerRound(a: Attempt, st: State)
    ensures GroupOutcomes(a, INNER, st)
         == (if Test(a.c, Chr(97), st.pos) && st.pos < |a.c.s| then
               GroupOutcomes(a, INNER, st.(pos := st.pos + 1, chain := [st.pos + 1] + st.chain)) + [Advance(st, 1)]
             else []) + [st]
  {
    var e := Enter(a, INNER, st);
    assert e == st.(chain := [st.pos] + st.chain);
    OneOutcome(a, 97, e);
    var one: seq<State> := if Test(a.c, Chr(97), st.pos) then [Advance(e, 1)] else [];
    assert AltsOutcomes(a, INNER.alts, e) == one + [e] by {
      assert AltsOutcomes(a, Last(Nil), e) == ItemsOutcomes(a, Nil, e) == [e];
    }
    assert AfterKet(a, INNER, st.pos, e) == [st] by { assert e.chain[1..] == st.chain; }
    if one != [] {
      var x := one[0];
      assert (one + [e])[1..] == [e] && [e][1..] == [];
      assert AfterEach(a, INNER, st.pos, one + [e]) == AfterKet(a, INNER, st.pos, x) + AfterEach(a, INNER, st.pos, [e]);
      assert AfterEach(a, INNER, st.pos, [e]) == [st] + AfterEach(a, INNER, st.pos, []) == [st];
      assert Close(a, INNER, x) == Advance(st, 1) by { assert x.chain[1..] == st.chain; }
      assert Again(INNER, Advance(st, 1)) == st.(pos := st.pos + 1, chain := [st.pos + 1] + st.chain);
      assert Loops(a, INNER, st.pos, x);
    } else {
      assert one + [e] == [e] && [e][1..] == [];
      assert AfterEach(a, INNER, st.pos, [e]) == [st] + AfterEach(a, INNER, st.pos, []) == [st];
      assert [] + [st] == [st];
    }
  }

  /** The branches of the outer group: b, and then the outcomes of the inner one. */
  lemma OuterBranches(a: Attempt, st: State)
    ensures AltsOutcomes(a, OUTER.alts, st)
         == (if Test(a.c, Chr(98), st.pos) then [Advance(st, 1)] else []) + (GroupOutcomes(a, INNER, st) + [st])
  {
    hide GroupOutcomes;
    OneOutcome(a, 98, st);
    OneOrder(a, Zero(false, INNER), st);
    assert AltsOutcomes(a, OUTER.alts.rest, st) == GroupOutcomes(a, INNER, st) + [st];
  }

  /** Two rounds, from the start of aab. */
  lemma InnerFirst(a: Attempt, st: State)
    requires a.c.Valid() && a.c.s == [97, 97, 98] && st.pos <= 3
    ensures st.pos >= 2 ==> GroupOutcomes(a, INNER, st) == [st]
    ensures st.pos == 0 ==> GroupOutcomes(a, INNER, st) != []
                            && GroupOutcomes(a, INNER, st)[0] == st.(pos := 2, chain := [2, 1] + st.chain)
  {
    hide GroupOutcomes;
    InnerRound(a, st);
    assert st.pos >= 2 ==> [] + [st] == [st];
    if st.pos == 0 {
      var st1 := st.(pos := 1, chain := [1] + st.chain);
      var st2 := st1.(pos := 2, chain := [2] + st1.chain);
      InnerRound(a, st1);
      InnerRound(a, st2);
      assert [] + [st2] == [st2];
      assert [2] + ([1] + st.chain) == [2, 1] + st.chain;
    }
  }

  /** (?:b|(?:a|)*)* on aab: the greedy order begins with the match of all three bytes, and yet the first
      match that is found ends after two. The inner group leaves a remembered start behind, and the ket of
      the outer group takes it for the start of its own iteration, which then looks empty. */
  lemma MarkedGroupsStop(a: Attempt, st: State)
    requires a.c.Valid() && a.c.s == [97, 97, 98] && st.pos == 0
    ensures CutAfter(a, OUTER, 0, st)
    ensures var xs := ItemsOutcomes(a, Replicated(false, OUTER, 0, -1), st); xs != [] && xs[0].pos == 2
    ensures var xs := Unlimited(a, false, OUTER, 0, st); xs != [] && xs[0].pos == 3
  {
    var x2 := OuterFirst(a, st, 2);
    var xs := GroupOutcomes(a, OUTER, Bare(st));
    MarkedOuter();
    LoopedRounds(a, false, OUTER, st);
    assert Blocked(OUTER, x2);
    assert Round(a, false, OUTER, 0, x2) == [Bare(x2)];
    assert Rounds(a, false, OUTER, st) == [Bare(x2)] + EachRound(a, false, OUTER, 0, xs[1..]);
    OneOrder(a, Zero(false, Looped(false, OUTER)), st);
    FirstBare(GroupOutcomes(a, Looped(false, OUTER), st));
    var x3 := OuterFirst(a, x2, 3);
    var x := OuterFirst(a, x3, 3);
    EndlessFirst(a, OUTER, x3, x);
    EndlessFirst(a, OUTER, x2, x3);
    EndlessFirst(a, OUTER, st, x2);
    assert CutAt(a, OUTER, 0, x2);
  }

  lemma FirstBare(xs: seq<State>)
    ensures xs != [] <==> Bares(xs) != []
    ensures xs != [] ==> Bares(xs)[0] == Bare(xs[0])
  {
  }

  lemma MarkedOuter()
    ensures AnyBranchEmpty(OUTER.alts)
  {
    assert CouldBeEmpty(Cons(Zero(false, INNER), Nil)) by { assert CouldBeEmpty(Nil); }
    assert AnyBranchEmpty(OUTER.alts.rest);
  }

  lemma EndlessFirst(a: Attempt, g: Group, st: State, x: State)
    requires GroupOutcomes(a, g, Bare(st)) != [] && GroupOutcomes(a, g, Bare(st))[0] == x
    ensures Endless(a, false, g, st) != []
    ensures Endless(a, false, g, st)[0] == if st.pos < x.pos <= |a.c.s| && Endless(a, false, g, x) != []
                                               then Endless(a, false, g, x)[0] else Bare(x)
  {
    hide GroupOutcomes;
    var f := Further(a, false, g, st.pos, x);
    assert Endless(a, false, g, st) == f + EachEndless(a, false, g, st.pos, GroupOutcomes(a, g, Bare(st))[1..]);
  }

  /** The first outcome of the outer group, taken once; after two bytes the inner group leaves a start behind. */
  lemma OuterFirst(a: Attempt, st: State, pos: nat) returns (x: State)
    requires a.c.Valid() && a.c.s == [97, 97, 98] && (if st.pos == 0 then pos == 2 else 2 <= st.pos <= pos == 3)
    ensures GroupOutcomes(a, OUTER, Bare(st)) != [] && GroupOutcomes(a, OUTER, Bare(st))[0] == x && x.pos == pos
    ensures st.pos == 0 ==> x.chain != [] && x.chain[0] == 2
  {
    OuterBranches(a, Bare(st));
    InnerFirst(a, Bare(st));
    var xs := AltsOutcomes(a, OUTER.alts, Bare(st));
    assert Enter(a, OUTER, Bare(st)) == Bare(st);
    BodyOrder(a, OUTER, st.pos, xs);
    x := xs[0];
  }
}

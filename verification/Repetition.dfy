/** What the code of a repeated group means: exactly min to max iterations, tried in greedy or lazy
    order. */
module Repetition {
  import opened Common
  import opened ByteCode
  import opened Meaning
  import opened Outcomes
  import opened MatchSteps
  import opened Replicate

  // ---- The number of iterations ----------------------------------------------------------------------

  /** Some number of iterations from min to max, -1 standing for no limit. */
  ghost predicate Iterates(c: Context, alts: Alts, min: nat, max: int, i: nat, j: nat) {
    exists n: nat :: min <= n && (max < 0 || n <= max) && Iter(c, alts, n, i, j)
  }

  lemma {:induction false} IterJoin(c: Context, a: Alts, n: nat, k: nat, i: nat, m: nat, j: nat)
    requires Iter(c, a, n, i, m) && Iter(c, a, k, m, j) && i <= |c.s|
    ensures Iter(c, a, n + k, i, j)
    decreases n
  {
    if n > 0 {
      var t := FirstIteration(c, a, n, i, m);
      AltsForward(c, a, i, t);
      IterForward(c, a, n - 1, t, m);
      IterForward(c, a, k, m, j);
      IterJoin(c, a, n - 1, k, t, m, j);
    }
  }

  lemma {:induction false} IterSplit(c: Context, a: Alts, n: nat, k: nat, i: nat, j: nat) returns (m: nat)
    requires Iter(c, a, n + k, i, j) && i <= |c.s|
    ensures i <= m <= j && Iter(c, a, n, i, m) && Iter(c, a, k, m, j)
    decreases n
  {
    if n == 0 {
      m := i;
      IterForward(c, a, k, i, j);
    } else {
      var t := FirstIteration(c, a, n + k, i, j);
      AltsForward(c, a, i, t);
      m := IterSplit(c, a, n - 1, k, t, j);
    }
  }

  lemma GroupMeans(c: Context, g: Group, i: nat, j: nat)
    requires g.ket == Plain
    ensures DNode(c, Grp(g), i, j) <==> DAlts(c, g.alts, i, j)
  {
    assert DNode(c, Grp(g), i, j) <==> DGroup(c, g, i, j);
  }

  /** Copies of a plain group are so many iterations. */
  lemma {:induction false} CopiesMean(c: Context, g: Group, n: nat, tl: Items, i: nat, j: nat)
    requires g.ket == Plain && i <= |c.s|
    ensures DItems(c, Copies(g, n, tl), i, j) <==> exists m: nat :: i <= m <= j && Iter(c, g.alts, n, i, m) && DItems(c, tl, m, j)
    decreases n
  {
    hide DAlts, DItems;
    if n == 0 {
      assert Iter(c, g.alts, 0, i, i);
      if DItems(c, tl, i, j) { ItemsForward(c, tl, i, j); }
    } else {
      var rest := Copies(g, n - 1, tl);
      if DItems(c, Copies(g, n, tl), i, j) {
        var t := FirstItem(c, Grp(g), rest, i, j);
        NodeForward(c, Grp(g), i, t);
        GroupMeans(c, g, i, t);
        CopiesMean(c, g, n - 1, tl, t, j);
        var m: nat :| t <= m <= j && Iter(c, g.alts, n - 1, t, m) && DItems(c, tl, m, j);
        assert Iter(c, g.alts, n, i, m);
      }
      if m: nat :| i <= m <= j && Iter(c, g.alts, n, i, m) && DItems(c, tl, m, j) {
        var t := FirstIteration(c, g.alts, n, i, m);
        AltsForward(c, g.alts, i, t);
        GroupMeans(c, g, i, t);
        CopiesMean(c, g, n - 1, tl, t, j);
        assert t <= m <= j && Iter(c, g.alts, n - 1, t, m) && DItems(c, tl, m, j);
        BothItems(c, Grp(g), rest, i, t, j);
      }
    }
  }

  lemma FirstItem(c: Context, n: Node, tl: Items, i: nat, j: nat) returns (m: nat)
    requires DItems(c, Cons(n, tl), i, j)
    ensures i <= m <= j && DNode(c, n, i, m) && DItems(c, tl, m, j)
  {
    m :| i <= m <= j && DNode(c, n, i, m) && DItems(c, tl, m, j);
  }

  lemma BothItems(c: Context, n: Node, tl: Items, i: nat, m: nat, j: nat)
    requires i <= m <= j && DNode(c, n, i, m) && DItems(c, tl, m, j)
    ensures DItems(c, Cons(n, tl), i, j)
  {
  }

  /** A bracket around a group and an item. */
  lemma PairMeans(c: Context, g: Group, n: Node, i: nat, j: nat)
    requires g.ket == Plain && i <= |c.s|
    ensures DGroup(c, Coupled(g, n), i, j) <==> exists m: nat :: i <= m <= j && DAlts(c, g.alts, i, m) && DNode(c, n, m, j)
  {
    hide DAlts;
    var its := Cons(Grp(g), Cons(n, Nil));
    LastMeans(c, its, i, j);
    if DItems(c, its, i, j) {
      var m := FirstItem(c, Grp(g), Cons(n, Nil), i, j);
      NodeForward(c, Grp(g), i, m);
      GroupMeans(c, g, i, m);
      SingleMeans(c, n, m, j);
    }
    if m: nat :| i <= m <= j && DAlts(c, g.alts, i, m) && DNode(c, n, m, j) {
      GroupMeans(c, g, i, m);
      NodeForward(c, Grp(g), i, m);
      SingleMeans(c, n, m, j);
    }
  }

  lemma LastMeans(c: Context, its: Items, i: nat, j: nat)
    ensures DAlts(c, Last(its), i, j) <==> DItems(c, its, i, j)
  {
    hide DItems;
  }

  /** Nested optional copies are up to so many iterations. */
  lemma {:induction false} NestedMeans(c: Context, lazy: bool, g: Group, k: nat, i: nat, j: nat)
    requires k >= 1 && g.ket == Plain && i <= |c.s|
    ensures DNode(c, Nested(lazy, g, k), i, j) <==> Iterates(c, g.alts, 0, k, i, j)
    decreases k
  {
    hide DAlts;
    assert Iter(c, g.alts, 0, i, i);
    if k == 1 {
      OneIteration(c, g.alts, i, j);
      if n: nat :| n <= 1 && Iter(c, g.alts, n, i, j) { assert n == 0 || n == 1; }
    } else {
      var rest := Nested(lazy, g, k - 1);
      PairMeans(c, g, rest, i, j);
      if DGroup(c, Coupled(g, rest), i, j) {
        var m: nat :| i <= m <= j && DAlts(c, g.alts, i, m) && DNode(c, rest, m, j);
        AltsForward(c, g.alts, i, m);
        NestedMeans(c, lazy, g, k - 1, m, j);
        var n: nat :| n <= k - 1 && Iter(c, g.alts, n, m, j);
        assert Iter(c, g.alts, n + 1, i, j);
      }
      if n: nat :| n <= k && Iter(c, g.alts, n, i, j) {
        if n > 0 {
          var m := FirstIteration(c, g.alts, n, i, j);
          AltsForward(c, g.alts, i, m);
          NestedMeans(c, lazy, g, k - 1, m, j);
        }
      }
    }
  }

  lemma OneIteration(c: Context, a: Alts, i: nat, j: nat)
    requires i <= |c.s|
    ensures Iter(c, a, 1, i, j) <==> DAlts(c, a, i, j)
  {
    if DAlts(c, a, i, j) {
      AltsForward(c, a, i, j);
      assert Iter(c, a, 0, j, j);
    }
  }

  lemma SingleMeans(c: Context, n: Node, i: nat, j: nat)
    requires i <= |c.s|
    ensures DItems(c, Cons(n, Nil), i, j) <==> DNode(c, n, i, j)
  {
    hide DNode;
    if DNode(c, n, i, j) {
      NodeForward(c, n, i, j);
      assert DItems(c, Nil, j, j);
    }
  }

  lemma LoopedMeans(c: Context, lazy: bool, g: Group, i: nat, j: nat)
    ensures DGroup(c, Looped(lazy, g), i, j) <==> Iterates(c, g.alts, 1, -1, i, j)
  {
  }

  /** A repeated group matches exactly min to max iterations of the group. */
  lemma RepeatMeans(c: Context, lazy: bool, g: Group, min: nat, max: int, i: nat, j: nat)
    requires g.ket == Plain && i <= |c.s| && (max == -1 || (max >= 1 && min <= max))
    ensures DItems(c, Replicated(lazy, g, min, max), i, j) <==> Iterates(c, g.alts, min, max, i, j)
  {
    hide DAlts, Looped, DGroup, Nested, DItems;
    if min == 0 {
      RepeatFromZeroMeans(c, lazy, g, max, i, j);
    } else if max == -1 {
      LoopTail(c, lazy, g, min, i, j);
    } else {
      CopiesTail(c, lazy, g, min, max, i, j);
    }
  }

  lemma RepeatFromZeroMeans(c: Context, lazy: bool, g: Group, max: int, i: nat, j: nat)
    requires g.ket == Plain && i <= |c.s| && (max == -1 || max >= 1)
    ensures DItems(c, Replicated(lazy, g, 0, max), i, j) <==> Iterates(c, g.alts, 0, max, i, j)
  {
    hide DAlts, Looped, DGroup, DItems;
    if max == -1 {
      var n := Zero(lazy, Looped(lazy, g));
      SingleMeans(c, n, i, j);
      LoopedMeans(c, lazy, g, i, j);
      assert Iter(c, g.alts, 0, i, i);
      assert DNode(c, n, i, j) <==> i == j || DGroup(c, Looped(lazy, g), i, j);
      if k: nat :| Iter(c, g.alts, k, i, j) { assert k == 0 ==> i == j; }
    } else {
      SingleMeans(c, Nested(lazy, g, max), i, j);
      NestedMeans(c, lazy, g, max, i, j);
    }
  }

  lemma LoopTail(c: Context, lazy: bool, g: Group, min: nat, i: nat, j: nat)
    requires g.ket == Plain && i <= |c.s| && min >= 1
    ensures DItems(c, Replicated(lazy, g, min, -1), i, j) <==> Iterates(c, g.alts, min, -1, i, j)
  {
    hide DAlts, Looped, DGroup, DItems, Iter;
    var tl := Cons(Grp(Looped(lazy, g)), Nil);
    CopiesMean(c, g, min - 1, tl, i, j);
    if m: nat :| i <= m <= j && Iter(c, g.alts, min - 1, i, m) && DItems(c, tl, m, j) {
      IterForward(c, g.alts, min - 1, i, m);
      SingleMeans(c, Grp(Looped(lazy, g)), m, j);
      LoopedMeans(c, lazy, g, m, j);
      var n: nat :| n >= 1 && Iter(c, g.alts, n, m, j);
      IterJoin(c, g.alts, min - 1, n, i, m, j);
    }
    if n: nat :| n >= min && Iter(c, g.alts, n, i, j) {
      var m := IterSplit(c, g.alts, min - 1, n - (min - 1), i, j);
      IterForward(c, g.alts, min - 1, i, m);
      SingleMeans(c, Grp(Looped(lazy, g)), m, j);
      LoopedMeans(c, lazy, g, m, j);
    }
  }

  lemma CopiesTail(c: Context, lazy: bool, g: Group, min: nat, max: nat, i: nat, j: nat)
    requires g.ket == Plain && i <= |c.s| && 1 <= min <= max
    ensures DItems(c, Replicated(lazy, g, min, max), i, j) <==> Iterates(c, g.alts, min, max, i, j)
  {
    hide DAlts, DGroup, DItems, Iter, Nested;
    var tl := if max > min then Cons(Nested(lazy, g, max - min), Nil) else Nil;
    CopiesMean(c, g, min, tl, i, j);
    if m: nat :| i <= m <= j && Iter(c, g.alts, min, i, m) && DItems(c, tl, m, j) {
      IterForward(c, g.alts, min, i, m);
      TailMeans(c, lazy, g, max - min, tl, m, j);
      var n: nat :| n <= max - min && Iter(c, g.alts, n, m, j);
      IterJoin(c, g.alts, min, n, i, m, j);
    }
    if n: nat :| min <= n <= max && Iter(c, g.alts, n, i, j) {
      var m := IterSplit(c, g.alts, min, n - min, i, j);
      IterForward(c, g.alts, min, i, m);
      TailMeans(c, lazy, g, max - min, tl, m, j);
    }
  }

  lemma TailMeans(c: Context, lazy: bool, g: Group, k: nat, tl: Items, i: nat, j: nat)
    requires g.ket == Plain && i <= |c.s| && tl == if k > 0 then Cons(Nested(lazy, g, k), Nil) else Nil
    ensures DItems(c, tl, i, j) <==> Iterates(c, g.alts, 0, k, i, j)
  {
    hide DAlts, DGroup, DNode, Nested;
    if k > 0 {
      SingleMeans(c, Nested(lazy, g, k), i, j);
      NestedMeans(c, lazy, g, k, i, j);
    } else {
      assert Iter(c, g.alts, 0, i, i);
      if n: nat :| n <= 0 && Iter(c, g.alts, n, i, j) { assert i == j; }
    }
  }

  // ---- The order of the iterations ---------------------------------------------------------------------

  /** All ways to go through a group min to max times, as a greedy or a lazy quantifier orders them: a
      greedy one tries a further iteration before doing without it, a lazy one after. */
  function Repeats(a: Attempt, lazy: bool, g: Group, min: nat, max: nat, st: State): seq<State>
    decreases max, 0, 0
  {
    if max == 0 then [st]
    else
      var more := EachRepeats(a, lazy, g, if min > 0 then min - 1 else 0, max - 1, GroupOutcomes(a, g, st));
      if min > 0 then more else if lazy then [st] + more else more + [st]
  }

  function EachRepeats(a: Attempt, lazy: bool, g: Group, min: nat, max: nat, xs: seq<State>): seq<State>
    decreases max, 1, |xs|
  {
    if xs == [] then [] else Repeats(a, lazy, g, min, max, xs[0]) + EachRepeats(a, lazy, g, min, max, xs[1..])
  }

  lemma {:induction false} OneOrder(a: Attempt, n: Node, st: State)
    ensures ItemsOutcomes(a, Cons(n, Nil), st) == NodeOutcomes(a, n, st)
  {
    hide NodeOutcomes;
    ThenNil(a, NodeOutcomes(a, n, st));
  }

  /** A plain bracket that captures nothing passes on the outcomes of its body. */
  lemma {:induction false} BodyOrder(a: Attempt, g: Group, start: nat, xs: seq<State>)
    requires g.cap == 0 && !g.s && g.ket == Plain
    ensures AfterEach(a, g, start, xs) == xs
    decreases |xs|
  {
    if xs != [] {
      assert AfterKet(a, g, start, xs[0]) == [xs[0]];
      BodyOrder(a, g, start, xs[1..]);
    }
  }

  lemma PairOrder(a: Attempt, g: Group, n: Node, st: State)
    ensures GroupOutcomes(a, Coupled(g, n), st) == Then(a, GroupOutcomes(a, g, st), Cons(n, Nil))
  {
    var p := Coupled(g, n);
    var its := Cons(Grp(g), Cons(n, Nil));
    assert Enter(a, p, st) == st;
    assert AltsOutcomes(a, p.alts, st) == ItemsOutcomes(a, its, st);
    assert NodeOutcomes(a, Grp(g), st) == GroupOutcomes(a, g, st);
    BodyOrder(a, p, st.pos, ItemsOutcomes(a, its, st));
  }

  /** Nested optional copies are tried in the order of a quantifier {0,k}. */
  lemma {:induction false} NestedOrder(a: Attempt, lazy: bool, g: Group, k: nat, st: State)
    requires k >= 1
    ensures NodeOutcomes(a, Nested(lazy, g, k), st) == Repeats(a, lazy, g, 0, k, st)
    decreases k, 0
  {
    hide GroupOutcomes;
    var xs := GroupOutcomes(a, g, st);
    if k == 1 {
      EachDone(a, lazy, g, xs);
    } else {
      PairOrder(a, g, Nested(lazy, g, k - 1), st);
      EachNested(a, lazy, g, k - 1, xs);
    }
  }

  lemma {:induction false} EachDone(a: Attempt, lazy: bool, g: Group, xs: seq<State>)
    ensures EachRepeats(a, lazy, g, 0, 0, xs) == xs
    decreases |xs|
  {
    if xs != [] { EachDone(a, lazy, g, xs[1..]); }
  }

  lemma {:induction false} EachNested(a: Attempt, lazy: bool, g: Group, k: nat, xs: seq<State>)
    requires k >= 1
    ensures Then(a, xs, Cons(Nested(lazy, g, k), Nil)) == EachRepeats(a, lazy, g, 0, k, xs)
    decreases k, 1, |xs|
  {
    hide NodeOutcomes, ItemsOutcomes, Repeats, Nested;
    if xs != [] {
      OneOrder(a, Nested(lazy, g, k), xs[0]);
      NestedOrder(a, lazy, g, k, xs[0]);
      EachNested(a, lazy, g, k, xs[1..]);
    }
  }

  /** A group repeated min to max times has its outcomes in the order of a quantifier {min,max}. */
  lemma RepeatOrder(a: Attempt, lazy: bool, g: Group, min: nat, max: nat, st: State)
    requires max >= 1 && min <= max
    ensures ItemsOutcomes(a, Replicated(lazy, g, min, max), st) == Repeats(a, lazy, g, min, max, st)
  {
    hide NodeOutcomes, ItemsOutcomes, Repeats, Nested;
    if min == 0 {
      OneOrder(a, Nested(lazy, g, max), st);
      NestedOrder(a, lazy, g, max, st);
    } else {
      CopiesOrder(a, lazy, g, min, max - min, st);
    }
  }

  function NestedTail(lazy: bool, g: Group, k: nat): Items {
    if k > 0 then Cons(Nested(lazy, g, k), Nil) else Nil
  }

  lemma {:induction false} CopiesOrder(a: Attempt, lazy: bool, g: Group, n: nat, k: nat, st: State)
    ensures ItemsOutcomes(a, Copies(g, n, NestedTail(lazy, g, k)), st) == Repeats(a, lazy, g, n, n + k, st)
    decreases n, 0
  {
    if n == 0 {
      hide NodeOutcomes;
      if k > 0 {
        OneOrder(a, Nested(lazy, g, k), st);
        NestedOrder(a, lazy, g, k, st);
      }
    } else {
      assert NodeOutcomes(a, Grp(g), st) == GroupOutcomes(a, g, st);
      EachCopies(a, lazy, g, n - 1, k, GroupOutcomes(a, g, st));
    }
  }

  lemma {:induction false} EachCopies(a: Attempt, lazy: bool, g: Group, n: nat, k: nat, xs: seq<State>)
    ensures Then(a, xs, Copies(g, n, NestedTail(lazy, g, k))) == EachRepeats(a, lazy, g, n, n + k, xs)
    decreases n, 1, |xs|
  {
    hide NodeOutcomes, ItemsOutcomes, Repeats, Copies;
    if xs != [] {
      CopiesOrder(a, lazy, g, n, k, xs[0]);
      EachCopies(a, lazy, g, n, k, xs[1..]);
    }
  }
}

/** What matching does to the offset vector: every pair it sets is an ordered pair of offsets inside
    the stretch of subject that has been matched, and lies below the high water mark. */
module Captures {
  import opened ByteCode
  import opened Meaning
  import opened Outcomes
  import opened Backtracking

  /** The offsets recorded for capture k. */
  function Pair(ov: seq<int>, k: nat): (int, int) {
    (At(ov, 2 * k), At(ov, 2 * k + 1))
  }

  ghost predicate SetBetween(p: (int, int), lo: nat, hi: nat) {
    lo <= p.0 <= p.1 <= hi
  }

  /** How an outcome x differs from the state st it was reached from, when groups are numbered up to n. */
  ghost predicate Grows(a: Attempt, n: nat, st: State, x: State) {
    && st.pos <= x.pos <= |a.c.s|
    && |x.ov| == |st.ov|
    && st.top <= x.top && (x.top <= st.top || x.top <= 2 * n + 2)
    && (forall w :: a.offsetMax <= w < |st.ov| ==> x.ov[w] == st.ov[w] || st.pos <= x.ov[w] <= x.pos)
    && (forall w :: a.offsetEnd <= w < |st.ov| ==> x.ov[w] == st.ov[w])
    && (forall k: nat :: 2 * k + 1 < a.offsetMax ==>
          Pair(x.ov, k) == Pair(st.ov, k) || (SetBetween(Pair(x.ov, k), st.pos, x.pos) && 2 * k < x.top && k <= n))
  }

  lemma GrowsTrans(a: Attempt, n: nat, st: State, y: State, x: State)
    requires Grows(a, n, st, y) && Grows(a, n, y, x)
    ensures Grows(a, n, st, x)
  {
    forall k: nat | 2 * k + 1 < a.offsetMax
      ensures Pair(x.ov, k) == Pair(st.ov, k) || (SetBetween(Pair(x.ov, k), st.pos, x.pos) && 2 * k < x.top && k <= n)
    {
      assert Pair(y.ov, k) == Pair(st.ov, k) || SetBetween(Pair(y.ov, k), st.pos, y.pos);
    }
  }

  ghost predicate Sized(a: Attempt, st: State) {
    a.Valid() && st.pos <= |a.c.s| && |st.ov| >= a.offsetEnd
  }

  lemma {:induction false} ItemsGrow(a: Attempt, n: nat, its: Items, st: State, x: State)
    requires Sized(a, st) && CapsItems(its, n) && x in ItemsOutcomes(a, its, st)
    ensures Grows(a, n, st, x)
    decreases its, 0, 0, 0
  {
    match its
    case Nil =>
    case Cons(node, tl) =>
      var y := ThenFrom(a, NodeOutcomes(a, node, st), tl, x);
      NodeGrows(a, n, node, st, y);
      ItemsGrow(a, n, tl, y, x);
      GrowsTrans(a, n, st, y, x);
  }

  lemma {:induction false} NodeGrows(a: Attempt, n: nat, node: Node, st: State, x: State)
    requires Sized(a, st) && (node.Grp? || node.Zero? ==> CapsGroup(node.g, n)) && x in NodeOutcomes(a, node, st)
    ensures Grows(a, n, st, x)
    decreases node, 0, 0, 0
  {
    match node
    case One(_) =>
    case Rep(u, q, m) => RepFrom(a, u, q, m, st, x);
    case Grp(g) => GroupGrows(a, n, g, st, x);
    case Zero(_, g) => if x != st { GroupGrows(a, n, g, st, x); }
  }

  lemma {:induction false} AltsGrow(a: Attempt, n: nat, alts: Alts, st: State, x: State)
    requires Sized(a, st) && CapsAlts(alts, n) && x in AltsOutcomes(a, alts, st)
    ensures Grows(a, n, st, x)
    decreases alts, 0, 0, 0
  {
    if x in ItemsOutcomes(a, alts.b, st) {
      ItemsGrow(a, n, alts.b, st, x);
    } else {
      AltsGrow(a, n, alts.rest, st, x);
    }
  }

  lemma {:induction false} GroupGrows(a: Attempt, n: nat, g: Group, st: State, x: State)
    requires Sized(a, st) && CapsGroup(g, n) && x in GroupOutcomes(a, g, st)
    ensures Grows(a, n, st, x)
    decreases g, Rest(a, st.pos), 1, 0
  {
    var y := AfterEachFrom(a, g, st.pos, AltsOutcomes(a, g.alts, Enter(a, g, st)), x);
    AltsGrow(a, n, g.alts, Enter(a, g, st), y);
    IterationGrows(a, n, g, st, y);
    var z := Close(a, g, y);
    if x != z {
      GroupGrows(a, n, g, Again(g, z), x);
      assert Grows(a, n, z, x);
      GrowsTrans(a, n, st, z, x);
    }
  }

  /** A ket sets the pair of its group to the start saved in the group's working slot, and no other. */
  lemma IterationGrows(a: Attempt, n: nat, g: Group, st: State, y: State)
    requires Sized(a, st) && g.cap <= n && Grows(a, n, Enter(a, g, st), y)
    ensures Grows(a, n, st, Close(a, g, y))
  {
    var e := Enter(a, g, st);
    var z := Close(a, g, y);
    if a.Fits(g.cap) {
      assert a.offsetMax < a.offsetEnd - g.cap + 1;
      forall k: nat | 2 * k + 1 < a.offsetMax
        ensures Pair(z.ov, k) == Pair(st.ov, k) || (SetBetween(Pair(z.ov, k), st.pos, z.pos) && 2 * k < z.top && k <= n)
      {
        assert Pair(e.ov, k) == Pair(st.ov, k);
        if k != g.cap {
          assert Pair(z.ov, k) == Pair(y.ov, k);
        }
      }
    }
  }

  /** In every outcome of a whole pattern whose groups are numbered up to n, a capture that was unset
      at the start is still unset, or is an ordered pair of offsets inside the match and lies below
      the high water mark, which is at most 2n + 2. */
  lemma CapturesAreOrdered(a: Attempt, n: nat, g: Group, st: State, x: State)
    requires Sized(a, st) && CapsGroup(g, n) && x in GroupOutcomes(a, g, st) && st.top <= 2 * n + 2
    ensures st.top <= x.top <= 2 * n + 2
    ensures forall k: nat :: 2 * k + 1 < a.offsetMax && Pair(st.ov, k) == (-1, -1) ==>
              Pair(x.ov, k) == (-1, -1) || (SetBetween(Pair(x.ov, k), st.pos, x.pos) && 2 * k < x.top)
  {
    GroupGrows(a, n, g, st, x);
  }

  // ---- A capture is a match of its group -------------------------------------------------------------------------

  /** No group stands inside one of the same number, and none has a number of outer. */
  ghost predicate DistinctItems(its: Items, outer: set<nat>)
    decreases its, 0
  {
    its.Cons? ==> (its.hd.Grp? || its.hd.Zero? ==> DistinctGroup(its.hd.g, outer)) && DistinctItems(its.tl, outer)
  }

  ghost predicate DistinctGroup(g: Group, outer: set<nat>)
    decreases g, 1
  {
    if g.cap == 0 then DistinctAlts(g.alts, outer) else g.cap !in outer && DistinctAlts(g.alts, outer + {g.cap})
  }

  ghost predicate DistinctAlts(alts: Alts, outer: set<nat>)
    decreases alts, 0
  {
    DistinctItems(alts.b, outer) && (alts.More? ==> DistinctAlts(alts.rest, outer))
  }

  /** Group h is one of them or stands inside one. */
  ghost predicate ItemsHave(its: Items, h: Group)
    decreases its, 0
  {
    its.Cons? && (((its.hd.Grp? || its.hd.Zero?) && GroupHas(its.hd.g, h)) || ItemsHave(its.tl, h))
  }

  ghost predicate GroupHas(g: Group, h: Group)
    decreases g, 1
  {
    h == g || AltsHave(g.alts, h)
  }

  ghost predicate AltsHave(alts: Alts, h: Group)
    decreases alts, 0
  {
    ItemsHave(alts.b, h) || (alts.More? && AltsHave(alts.rest, h))
  }

  ghost predicate CapturedBy(c: Context, groups: iset<Group>, k: nat, p: (int, int)) {
    p.0 >= 0 && p.1 >= 0 && exists h :: h in groups && h.cap == k && DAlts(c, h.alts, p.0, p.1)
  }

  /** Every pair is as before or what a group of its number has matched; the slots of outer are as before. */
  ghost predicate Captured(a: Attempt, groups: iset<Group>, outer: set<nat>, st: State, x: State) {
    && st.pos <= x.pos <= |a.c.s|
    && |x.ov| == |st.ov|
    && (forall k: nat :: k in outer && a.Fits(k) ==> At(x.ov, a.offsetEnd - k) == At(st.ov, a.offsetEnd - k))
    && forall k: nat :: a.Fits(k) ==> Pair(x.ov, k) == Pair(st.ov, k) || CapturedBy(a.c, groups, k, Pair(x.ov, k))
  }

  lemma CapturedTrans(a: Attempt, groups: iset<Group>, outer: set<nat>, st: State, y: State, x: State)
    requires Captured(a, groups, outer, st, y) && Captured(a, groups, outer, y, x)
    ensures Captured(a, groups, outer, st, x)
  {
    hide CapturedBy;
  }

  lemma CapturedMore(a: Attempt, groups: iset<Group>, more: iset<Group>, outer: set<nat>, st: State, x: State)
    requires Captured(a, groups, outer, st, x) && groups <= more
    ensures Captured(a, more, outer, st, x)
  {
    hide DAlts;
    forall k: nat | a.Fits(k) && CapturedBy(a.c, groups, k, Pair(x.ov, k)) ensures CapturedBy(a.c, more, k, Pair(x.ov, k)) {
      var h :| h in groups && h.cap == k && DAlts(a.c, h.alts, Pair(x.ov, k).0, Pair(x.ov, k).1);
      assert h in more;
    }
  }

  ghost function InItems(its: Items): iset<Group> {
    iset h: Group | ItemsHave(its, h)
  }

  ghost function InGroup(g: Group): iset<Group> {
    iset h: Group | GroupHas(g, h)
  }

  ghost function InAlts(alts: Alts): iset<Group> {
    iset h: Group | AltsHave(alts, h)
  }

  lemma {:induction false} ItemsCapture(a: Attempt, its: Items, outer: set<nat>, st: State, x: State)
    requires Sized(a, st) && DistinctItems(its, outer) && x in ItemsOutcomes(a, its, st)
    ensures Captured(a, InItems(its), outer, st, x)
    decreases its, 0, 0, 0
  {
    hide CapturedBy, NodeOutcomes, GroupHas;
    match its
    case Nil =>
    case Cons(n, tl) =>
      var y := ThenFrom(a, NodeOutcomes(a, n, st), tl, x);
      NodeCaptures(a, n, outer, st, y);
      ItemsCapture(a, tl, outer, y, x);
      var one := if n.Grp? || n.Zero? then InGroup(n.g) else iset{};
      assert one <= InItems(its) && InItems(tl) <= InItems(its);
      CapturedMore(a, one, InItems(its), outer, st, y);
      CapturedMore(a, InItems(tl), InItems(its), outer, y, x);
      CapturedTrans(a, InItems(its), outer, st, y, x);
  }

  lemma {:induction false} NodeCaptures(a: Attempt, n: Node, outer: set<nat>, st: State, x: State)
    requires Sized(a, st) && (n.Grp? || n.Zero? ==> DistinctGroup(n.g, outer)) && x in NodeOutcomes(a, n, st)
    ensures Captured(a, if n.Grp? || n.Zero? then InGroup(n.g) else iset{}, outer, st, x)
    decreases n, 0, 0, 0
  {
    hide CapturedBy, GroupOutcomes, GroupHas;
    match n
    case One(_) =>
    case Rep(u, q, m) => RepFrom(a, u, q, m, st, x);
    case Grp(g) => GroupCaptures(a, g, outer, st, x);
    case Zero(_, g) => if x != st { GroupCaptures(a, g, outer, st, x); }
  }

  lemma {:induction false} AltsCapture(a: Attempt, alts: Alts, outer: set<nat>, st: State, x: State)
    requires Sized(a, st) && DistinctAlts(alts, outer) && x in AltsOutcomes(a, alts, st)
    ensures Captured(a, InAlts(alts), outer, st, x)
    decreases alts, 0, 0, 0
  {
    hide ItemsOutcomes, Captured, ItemsHave;
    if x in ItemsOutcomes(a, alts.b, st) {
      ItemsCapture(a, alts.b, outer, st, x);
      assert InItems(alts.b) <= InAlts(alts);
      CapturedMore(a, InItems(alts.b), InAlts(alts), outer, st, x);
    } else {
      AltsCapture(a, alts.rest, outer, st, x);
      assert InAlts(alts.rest) <= InAlts(alts);
      CapturedMore(a, InAlts(alts.rest), InAlts(alts), outer, st, x);
    }
  }

  /** In every outcome of a group, each pair that has changed is what a branch of a group of that number has matched:
      for a repeated group, in its last iteration. */
  lemma {:induction false} GroupCaptures(a: Attempt, g: Group, outer: set<nat>, st: State, x: State)
    requires Sized(a, st) && DistinctGroup(g, outer) && x in GroupOutcomes(a, g, st)
    ensures Captured(a, InGroup(g), outer, st, x)
    decreases g, Rest(a, st.pos), 1, 0
  {
    hide CapturedBy, AltsOutcomes, AltsHave, DistinctAlts;
    var xs := AltsOutcomes(a, g.alts, Enter(a, g, st));
    var y := AfterEachFrom(a, g, st.pos, xs, x);
    var within := if g.cap == 0 then outer else outer + {g.cap};
    AltsCapture(a, g.alts, within, Enter(a, g, st), y);
    AltsSound(a, g.alts, Enter(a, g, st), y);
    assert InAlts(g.alts) <= InGroup(g);
    CapturedMore(a, InAlts(g.alts), InGroup(g), within, Enter(a, g, st), y);
    IterationCaptures(a, g, outer, st, y);
    var z := Close(a, g, y);
    if x != z {
      var v := Again(g, z);
      GroupCaptures(a, g, outer, v, x);
      assert Captured(a, InGroup(g), outer, z, v);
      CapturedTrans(a, InGroup(g), outer, z, v, x);
      CapturedTrans(a, InGroup(g), outer, st, z, x);
    }
  }

  lemma IterationCaptures(a: Attempt, g: Group, outer: set<nat>, st: State, y: State)
    requires Sized(a, st) && (g.cap > 0 ==> g.cap !in outer) && DAlts(a.c, g.alts, st.pos, y.pos)
    requires Captured(a, InGroup(g), if g.cap == 0 then outer else outer + {g.cap}, Enter(a, g, st), y)
    ensures Captured(a, InGroup(g), outer, st, Close(a, g, y))
  {
    hide DAlts, AltsHave;
    var e, z := Enter(a, g, st), Close(a, g, y);
    if a.Fits(g.cap) {
      assert a.offsetMax < a.offsetEnd - g.cap + 1;
      assert Pair(z.ov, g.cap) == (st.pos, y.pos) by { assert g.cap in outer + {g.cap}; }
      assert g in InGroup(g);
      assert CapturedBy(a.c, InGroup(g), g.cap, Pair(z.ov, g.cap));
      OtherPairs(a, g, st, y);
      forall k: nat | k in outer && a.Fits(k) ensures At(z.ov, a.offsetEnd - k) == At(st.ov, a.offsetEnd - k) {
        assert k in outer + {g.cap};
      }
    }
  }

  lemma OtherPairs(a: Attempt, g: Group, st: State, y: State)
    requires Sized(a, st) && a.Fits(g.cap) && |y.ov| == |st.ov|
    ensures forall k: nat :: a.Fits(k) && k != g.cap ==> Pair(Close(a, g, y).ov, k) == Pair(y.ov, k)
    ensures forall k: nat :: a.Fits(k) ==> Pair(Enter(a, g, st).ov, k) == Pair(st.ov, k)
    ensures forall k: nat :: a.Fits(k) ==> At(Close(a, g, y).ov, a.offsetEnd - k) == At(y.ov, a.offsetEnd - k)
    ensures forall k: nat :: a.Fits(k) && k != g.cap ==> At(Enter(a, g, st).ov, a.offsetEnd - k) == At(st.ov, a.offsetEnd - k)
  {
  }
}

/** The outcomes of compiled code are the ways of the pattern, in their order. */
module CodeWays {
  import opened ByteCode
  import opened Meaning
  import opened Outcomes
  import opened Captures
  import opened Replicate
  import opened Repetition
  import opened LoopOrder
  import opened Emptiness
  import opened Marking
  import opened Syntax
  import opened Ways
  import Backtracking
  import Possessing

  // ---- The outcomes of the code are these ways -----------------------------------------------------------------

  /** State st is way w: the pairs of the captured groups hold their spans, those of the others are as in base, the
      groups of open are still to be closed, and the high water mark is behind the highest pair. Groups for which
      the vector has no room are only known to be lost. */
  ghost predicate Reflects(a: Attempt, base: State, open: map<nat, nat>, st: State, w: Way) {
    && st.pos == w.pos <= |a.c.s|
    && |st.ov| == |base.ov|
    && PairsShow(a, base, st.ov, w.caps)
    && SlotsShow(a, open, st.ov)
    && LostShows(a, base, st.lost, w.caps)
    && TopShows(a, base, st.top, w.caps)
  }

  ghost predicate PairsShow(a: Attempt, base: State, ov: seq<int>, caps: map<nat, Span>) {
    forall k: nat :: a.Fits(k) ==> Pair(ov, k) == if k in caps then (caps[k].start, caps[k].end) else Pair(base.ov, k)
  }

  ghost predicate SlotsShow(a: Attempt, open: map<nat, nat>, ov: seq<int>) {
    forall k: nat :: k in open && a.Fits(k) ==> At(ov, a.offsetEnd - k) == open[k]
  }

  ghost predicate LostShows(a: Attempt, base: State, lost: bool, caps: map<nat, Span>) {
    lost <==> base.lost || exists k :: k in caps && !a.Fits(k)
  }

  ghost predicate TopShows(a: Attempt, base: State, top: nat, caps: map<nat, Span>) {
    && base.top <= top && top % 2 == 0
    && (forall k :: k in caps && a.Fits(k) ==> 2 * k + 2 <= top)
    && (top == base.top || exists k :: k in caps && a.Fits(k) && top == 2 * k + 2)
  }

  ghost predicate Roomy(a: Attempt, base: State) {
    a.Valid() && a.offsetEnd <= |base.ov|
  }

  ghost predicate Matched(a: Attempt, base: State, open: map<nat, nat>, xs: seq<State>, ws: seq<Way>) {
    |xs| == |ws| && forall i :: 0 <= i < |xs| ==> Reflects(a, base, open, xs[i], ws[i])
  }

  lemma MatchedBoth(a: Attempt, base: State, open: map<nat, nat>, xs: seq<State>, ws: seq<Way>, xs': seq<State>, ws': seq<Way>)
    requires Matched(a, base, open, xs, ws) && Matched(a, base, open, xs', ws')
    ensures Matched(a, base, open, xs + xs', ws + ws')
  {
    hide Reflects;
  }

  lemma MatchedOne(a: Attempt, base: State, open: map<nat, nat>, x: State, w: Way)
    requires Reflects(a, base, open, x, w)
    ensures Matched(a, base, open, [x], [w])
  {
    hide Reflects;
  }

  lemma MatchedTail(a: Attempt, base: State, open: map<nat, nat>, xs: seq<State>, ws: seq<Way>)
    requires Matched(a, base, open, xs, ws) && xs != []
    ensures ws != [] && Reflects(a, base, open, xs[0], ws[0]) && Matched(a, base, open, xs[1..], ws[1..])
  {
    hide Reflects;
  }

  lemma ReflectsMoved(a: Attempt, base: State, open: map<nat, nat>, st: State, w: Way, pos: nat)
    requires Reflects(a, base, open, st, w) && pos <= |a.c.s|
    ensures Reflects(a, base, open, st.(pos := pos), w.(pos := pos))
  {
  }

  lemma ReflectsBare(a: Attempt, base: State, open: map<nat, nat>, st: State, ch: seq<nat>, w: Way)
    requires Reflects(a, base, open, st, w)
    ensures Reflects(a, base, open, st.(chain := ch), w)
  {
  }

  lemma {:induction false} MatchedBares(a: Attempt, base: State, open: map<nat, nat>, xs: seq<State>, ws: seq<Way>)
    ensures Matched(a, base, open, Bares(xs), ws) <==> Matched(a, base, open, xs, ws)
  {
    BaresAt(xs);
    if |xs| == |ws| {
      forall i | 0 <= i < |xs| ensures Reflects(a, base, open, Bares(xs)[i], ws[i]) <==> Reflects(a, base, open, xs[i], ws[i]) {
        if Reflects(a, base, open, xs[i], ws[i]) { ReflectsBare(a, base, open, xs[i], [], ws[i]); }
        if Reflects(a, base, open, Bares(xs)[i], ws[i]) { ReflectsBare(a, base, open, Bare(xs[i]), xs[i].chain, ws[i]); }
      }
    }
  }

  lemma {:induction false} BaresAt(xs: seq<State>)
    ensures forall i :: 0 <= i < |xs| ==> Bares(xs)[i] == Bare(xs[i])
  {
    if xs != [] { BaresAt(xs[1..]); }
  }

  // ---- Units -----------------------------------------------------------------------------------------------------

  /** The runs of a unit, as the matcher finds them; n is the longest. */
  function RunOutcomes(a: Attempt, u: Unit, min: nat, max: int, m: Mode, st: State): seq<State> {
    UpToLongest(RunLength(a.c, u, st.pos, max), min, m, st)
  }

  function UpToLongest(n: nat, min: nat, m: Mode, st: State): seq<State> {
    if n < min then []
    else match m
         case Possessive => [Advance(st, n)]
         case Greedy => Down(st, n, min)
         case Lazy => Up(st, min, n)
  }

  lemma LongestUnfold(n: nat, min: nat, m: Mode, st: State)
    ensures var more := UpToLongest(n, Fewer(min), m, Advance(st, 1));
            UpToLongest(n + 1, min, m, st)
            == if min > 0 then more else if m == Greedy then more + [st] else if m == Lazy then [st] + more else more
    ensures m == Possessive && min == 0 ==> UpToLongest(n, Fewer(min), m, Advance(st, 1)) != []
    ensures UpToLongest(0, min, m, st) == if min > 0 then [] else [st]
  {
    hide Down, Up;
    DownShift(st, n + 1, min);
    UpShift(st, min, n + 1);
    NoShift(st);
    assert Advance(Advance(st, 1), n) == Advance(st, n + 1);
  }

  lemma NoShift(st: State)
    ensures Advance(st, 0) == st && Down(st, 0, 0) == [st] && Up(st, 0, 0) == [st]
  {
    assert Down(st, 0, 0) == [st] + Down(st, -1, 0);
    assert Up(st, 0, 0) == [st] + Up(st, 1, 0);
  }

  /** Taking one more unit, the matcher goes on in the same way. */
  lemma RunOutcomesUnfold(a: Attempt, u: Unit, min: nat, max: int, m: Mode, st: State)
    requires st.pos <= |a.c.s| && max >= -1
    ensures var more := RunOutcomes(a, u, Fewer(min), Shorter(max), m, Advance(st, 1));
            RunOutcomes(a, u, min, max, m, st)
            == if max != 0 && Test(a.c, u, st.pos) then
                 if min > 0 then more
                 else if m == Greedy then more + [st]
                 else if m == Lazy then [st] + more
                 else more
               else if min > 0 then [] else [st]
    ensures max != 0 && Test(a.c, u, st.pos) && m == Possessive && min == 0 ==>
              RunOutcomes(a, u, Fewer(min), Shorter(max), m, Advance(st, 1)) != []
  {
    hide Test, UpToLongest;
    if max != 0 && Test(a.c, u, st.pos) {
      TestInside(a.c, u, st.pos);
      LongestUnfold(RunLength(a.c, u, st.pos + 1, Shorter(max)), min, m, st);
    } else {
      LongestUnfold(0, min, m, st);
    }
  }

  lemma {:induction false} RunsOf(a: Attempt, base: State, open: map<nat, nat>, u: Unit, min: nat, max: int, m: Mode, st: State, w: Way)
    requires Reflects(a, base, open, st, w) && max >= -1
    ensures Matched(a, base, open, RunOutcomes(a, u, min, max, m, st), RunWays(a.c, u, min, max, m, w))
    decreases Left(a.c, w.pos)
  {
    hide RunWays, RunOutcomes, Test, Reflects, Matched;
    SamePlace(a, base, open, st, w);
    RunsUnfold(a.c, u, min, max, m, w);
    RunOutcomesUnfold(a, u, min, max, m, st);
    MatchedOne(a, base, open, st, w);
    MatchedNone(a, base, open);
    assert [] + [w] == [w] + [] == [w];
    if max != 0 && Test(a.c, u, st.pos) {
      TestInside(a.c, u, st.pos);
      ReflectsMoved(a, base, open, st, w, st.pos + 1);
      RunsOf(a, base, open, u, Fewer(min), Shorter(max), m, Advance(st, 1), w.(pos := w.pos + 1));
      var more := RunOutcomes(a, u, Fewer(min), Shorter(max), m, Advance(st, 1));
      var ways := RunWays(a.c, u, Fewer(min), Shorter(max), m, w.(pos := w.pos + 1));
      MatchedLength(a, base, open, more, ways);
      MatchedBoth(a, base, open, more, ways, [st], [w]);
      MatchedBoth(a, base, open, [st], [w], more, ways);
    }
  }

  lemma SamePlace(a: Attempt, base: State, open: map<nat, nat>, st: State, w: Way)
    requires Reflects(a, base, open, st, w)
    ensures st.pos == w.pos <= |a.c.s| && Advance(st, 0) == st
  {
  }

  lemma MatchedNone(a: Attempt, base: State, open: map<nat, nat>)
    ensures Matched(a, base, open, [], [])
  {
  }

  lemma MatchedLength(a: Attempt, base: State, open: map<nat, nat>, xs: seq<State>, ws: seq<Way>)
    requires Matched(a, base, open, xs, ws)
    ensures |xs| == |ws|
  {
  }

  /** The longer runs are those from one byte further on. */
  lemma {:induction false} DownShift(st: State, hi: int, lo: nat)
    ensures lo > 0 ==> Down(st, hi, lo) == Down(Advance(st, 1), hi - 1, lo - 1)
    ensures lo == 0 && hi >= 0 ==> Down(st, hi, 0) == Down(Advance(st, 1), hi - 1, 0) + [st]
    decreases hi - lo + 1
  {
    if hi >= lo {
      DownShift(st, hi - 1, lo);
      if hi > 0 { assert Advance(Advance(st, 1), hi - 1) == Advance(st, hi); }
      if hi == 0 {
        assert Down(st, -1, 0) == [] && Down(Advance(st, 1), -1, 0) == [];
      } else if lo == 0 {
        assert [Advance(st, hi)] + (Down(Advance(st, 1), hi - 2, 0) + [st]) == ([Advance(st, hi)] + Down(Advance(st, 1), hi - 2, 0)) + [st];
      }
    }
  }

  lemma {:induction false} UpShift(st: State, lo: nat, hi: int)
    ensures lo > 0 ==> Up(st, lo, hi) == Up(Advance(st, 1), lo - 1, hi - 1)
    ensures lo == 0 && hi >= 0 ==> Up(st, 0, hi) == [st] + Up(Advance(st, 1), 0, hi - 1)
    decreases hi - lo + 1
  {
    if hi >= lo {
      UpShift(st, lo + 1, hi);
      if lo > 0 { assert Advance(Advance(st, 1), lo - 1) == Advance(st, lo); }
    }
  }

  /** A minimum is a run of just so many units, followed by a repeat without minimum. */
  lemma {:induction false} RunsSkip(c: Context, u: Unit, min: nat, max: int, m: Mode, w: Way)
    requires w.pos <= |c.s| && (max == -1 || min <= max)
    ensures RunWays(c, u, min, max, m, w)
         == if RunLength(c, u, w.pos, min) >= min then
              RunWays(c, u, 0, if max < 0 then max else max - min, m, w.(pos := w.pos + min))
            else []
    decreases min
  {
    hide RunWays, Test;
    RunsUnfold(c, u, min, max, m, w);
    if min > 0 && Test(c, u, w.pos) {
      TestInside(c, u, w.pos);
      var v := w.(pos := w.pos + 1);
      RunsSkip(c, u, min - 1, Shorter(max), m, v);
      assert RunLength(c, u, w.pos, min) == 1 + RunLength(c, u, w.pos + 1, min - 1);
      assert v.(pos := v.pos + (min - 1)) == w.(pos := w.pos + min);
    } else if min == 0 {
      assert w.(pos := w.pos + 0) == w;
    }
  }

  lemma OneRepeat(a: Attempt, base: State, open: map<nat, nat>, u: Unit, q: Quant, m: Mode, st: State, w: Way)
    requires Reflects(a, base, open, st, w) && q.Max() >= -1
    ensures Matched(a, base, open, ItemsOutcomes(a, Cons(Rep(u, q, m), Nil), st), RunWays(a.c, u, q.Min(), q.Max(), m, w))
  {
    hide Matched, Reflects, RunWays;
    OneOrder(a, Rep(u, q, m), st);
    RunsOf(a, base, open, u, q.Min(), q.Max(), m, st, w);
    assert RepOutcomes(a, u, q, m, st) == RunOutcomes(a, u, q.Min(), q.Max(), m, st);
  }

  lemma NoRepeat(a: Attempt, base: State, open: map<nat, nat>, u: Unit, m: Mode, st: State, w: Way)
    requires Reflects(a, base, open, st, w)
    ensures Matched(a, base, open, ItemsOutcomes(a, Nil, st), RunWays(a.c, u, 0, 0, m, w))
  {
    hide Matched, Reflects;
    MatchedOne(a, base, open, st, w);
    assert [] + [w] == [w] + [] == [w];
  }

  /** The items of a quantified unit have the ways of the unit, in their order. */
  lemma QuantifiedReflects(a: Attempt, base: State, open: map<nat, nat>, u: Unit, min: nat, max: int, m: Mode, st: State, w: Way)
    requires Reflects(a, base, open, st, w) && (max == -1 || min <= max)
    ensures Matched(a, base, open, ItemsOutcomes(a, Quantified(u, min, max, m), st), RunWays(a.c, u, min, max, m, w))
  {
    hide Matched, Reflects, RunWays, ItemsOutcomes, Test;
    if max == 0 {
      NoRepeat(a, base, open, u, m, st, w);
    } else if u.Class? || min == 0 || (min == 1 && max == -1) {
      var n := Quantified(u, min, max, m).hd;
      assert n.q.Min() == min && n.q.Max() == max;
      OneRepeat(a, base, open, u, n.q, m, st, w);
    } else if min == 1 {
      OneThenMore(a, base, open, u, max, m, st, w);
    } else {
      ExactThenMore(a, base, open, u, min, max, m, st, w);
    }
  }

  lemma OneThenMore(a: Attempt, base: State, open: map<nat, nat>, u: Unit, max: nat, m: Mode, st: State, w: Way)
    requires Reflects(a, base, open, st, w) && max >= 1
    ensures var tl := if max == 1 then Nil else Cons(Rep(u, Upto(max - 1), m), Nil);
            Matched(a, base, open, ItemsOutcomes(a, Cons(One(u), tl), st), RunWays(a.c, u, 1, max, m, w))
  {
    hide Matched, Reflects, RunWays, ItemsOutcomes, Test;
    var tl := if max == 1 then Nil else Cons(Rep(u, Upto(max - 1), m), Nil);
    var st', w' := Advance(st, 1), w.(pos := w.pos + 1);
    SamePlace(a, base, open, st, w);
    RunsUnfold(a.c, u, 1, max, m, w);
    OneAhead(a, u, tl, st);
    MatchedNone(a, base, open);
    if Test(a.c, u, st.pos) {
      TestInside(a.c, u, st.pos);
      ReflectsMoved(a, base, open, st, w, st.pos + 1);
      if max == 1 {
        NoRepeat(a, base, open, u, m, st', w');
      } else {
        OneRepeat(a, base, open, u, Upto(max - 1), m, st', w');
      }
    }
  }

  lemma OneAhead(a: Attempt, u: Unit, tl: Items, st: State)
    ensures ItemsOutcomes(a, Cons(One(u), tl), st) == if Test(a.c, u, st.pos) then ItemsOutcomes(a, tl, Advance(st, 1)) else []
  {
    hide Test;
    Backtracking.ThenOne(a, Advance(st, 1), tl);
    assert NodeOutcomes(a, One(u), st) == if Test(a.c, u, st.pos) then [Advance(st, 1)] else [];
    assert Outcomes.Then(a, [], tl) == [];
  }

  lemma ExactAhead(a: Attempt, u: Unit, min: nat, tl: Items, st: State)
    ensures ItemsOutcomes(a, Cons(Rep(u, Exact(min), Greedy), tl), st)
         == if RunLength(a.c, u, st.pos, min) >= min then ItemsOutcomes(a, tl, Advance(st, min)) else []
  {
    hide Test, RunLength;
    var n := RunLength(a.c, u, st.pos, min);
    Backtracking.ThenOne(a, Advance(st, min), tl);
    assert NodeOutcomes(a, Rep(u, Exact(min), Greedy), st) == RepOutcomes(a, u, Exact(min), Greedy, st);
    if n >= min { assert Down(st, min, min) == [Advance(st, min)] + Down(st, min - 1, min) == [Advance(st, min)]; }
    assert Outcomes.Then(a, [], tl) == [];
  }

  lemma ExactThenMore(a: Attempt, base: State, open: map<nat, nat>, u: Unit, min: nat, max: int, m: Mode, st: State, w: Way)
    requires Reflects(a, base, open, st, w) && (max == -1 || min <= max) && min >= 2
    ensures Matched(a, base, open, ItemsOutcomes(a, Cons(Rep(u, Exact(min), Greedy), AfterExact(u, min, max, m)), st),
                    RunWays(a.c, u, min, max, m, w))
  {
    hide Matched, Reflects, RunWays, ItemsOutcomes, Test;
    var tl := AfterExact(u, min, max, m);
    var st', w' := Advance(st, min), w.(pos := w.pos + min);
    SamePlace(a, base, open, st, w);
    RunsSkip(a.c, u, min, max, m, w);
    ExactAhead(a, u, min, tl, st);
    MatchedNone(a, base, open);
    if RunLength(a.c, u, st.pos, min) >= min {
      ReflectsMoved(a, base, open, st, w, st.pos + min);
      if tl.Nil? {
        NoRepeat(a, base, open, u, m, st', w');
      } else {
        OneRepeat(a, base, open, u, tl.hd.q, m, st', w');
      }
    }
  }

  // ---- Groups ------------------------------------------------------------------------------------------------------

  /** No group stands inside one of the same number, and none has a number of outer. */
  predicate Numbered(alts: Branches, outer: set<nat>)
    decreases alts, 0
  {
    NumberedPieces(alts.b, outer) && (alts.Or? ==> Numbered(alts.rest, outer))
  }

  predicate NumberedPieces(ps: Pieces, outer: set<nat>)
    decreases ps, 0
  {
    ps.Then? ==> NumberedPiece(ps.hd, outer) && NumberedPieces(ps.tl, outer)
  }

  predicate NumberedPiece(p: Piece, outer: set<nat>)
    decreases p, 1
  {
    match p
    case Paren(cap, alts) => NumberedGroup(cap, alts, outer)
    case RepeatParen(cap, alts, _, _, _) => NumberedGroup(cap, alts, outer)
    case _ => true
  }

  predicate NumberedGroup(cap: nat, alts: Branches, outer: set<nat>)
    decreases alts, 1
  {
    if cap == 0 then Numbered(alts, outer) else cap !in outer && Numbered(alts, outer + {cap})
  }

  /** In no group repeated without limit an iteration is cut, whatever the state. */
  ghost predicate Undisturbed(a: Attempt, alts: Branches)
    requires BranchesOk(alts, a.c.caseless)
    decreases alts, 0
  {
    UndisturbedPieces(a, alts.b) && (alts.Or? ==> Undisturbed(a, alts.rest))
  }

  ghost predicate UndisturbedPieces(a: Attempt, ps: Pieces)
    requires PiecesOk(ps, a.c.caseless)
    decreases ps, 0
  {
    ps.Then? ==> UndisturbedPiece(a, ps.hd) && UndisturbedPieces(a, ps.tl)
  }

  ghost predicate UndisturbedPiece(a: Attempt, p: Piece)
    requires PieceOk(p, a.c.caseless)
    decreases p, 0
  {
    match p
    case Paren(_, alts) => Undisturbed(a, alts)
    case RepeatParen(cap, alts, min, max, _) =>
      Undisturbed(a, alts) && (max == -1 ==> forall st: State :: !CutAfter(a, GroupOf(cap, alts, a.c.caseless), min, st))
    case _ => true
  }

  function Opened(open: map<nat, nat>, cap: nat, start: nat): map<nat, nat> {
    if cap == 0 then open else open[cap := start]
  }

  lemma EnterReflects(a: Attempt, base: State, open: map<nat, nat>, g: Group, st: State, w: Way)
    requires Reflects(a, base, open, st, w) && Roomy(a, base) && g.cap !in open
    ensures Reflects(a, base, Opened(open, g.cap, st.pos), Enter(a, g, st), w)
  {
    hide LostShows, TopShows;
    var e := Enter(a, g, st);
    if a.Fits(g.cap) {
      assert a.offsetMax <= a.offsetEnd - g.cap;
      forall k: nat | a.Fits(k) ensures Pair(e.ov, k) == Pair(st.ov, k) {
      }
    }
  }

  /** Closing the group records its span. */
  lemma CloseReflects(a: Attempt, base: State, open: map<nat, nat>, g: Group, start: nat, x: State, w: Way)
    requires Reflects(a, base, Opened(open, g.cap, start), x, w) && Roomy(a, base) && g.cap !in open
    ensures Reflects(a, base, open, Close(a, g, x), Record(g.cap, start, w))
  {
    hide PairsShow, SlotsShow, LostShows, TopShows;
    if g.cap > 0 {
      var y, v := Close(a, g, x), Record(g.cap, start, w);
      LessOpen(a, open, g.cap, start, x.ov);
      MoreLost(a, base, x.lost, w.caps, g.cap, Span(start, w.pos));
      MoreTop(a, base, x.top, w.caps, g.cap, Span(start, w.pos));
      if a.Fits(g.cap) {
        PairsOfClosed(a, g, x);
        ClosedPairs(a, base, open, g, start, x, w);
      } else {
        SamePairs(a, base, x.ov, w.caps, g.cap, Span(start, w.pos));
      }
    }
  }

  lemma LessOpen(a: Attempt, open: map<nat, nat>, cap: nat, start: nat, ov: seq<int>)
    requires SlotsShow(a, open[cap := start], ov) && cap !in open
    ensures SlotsShow(a, open, ov) && (a.Fits(cap) ==> At(ov, a.offsetEnd - cap) == start)
  {
    forall k: nat | k in open && a.Fits(k) ensures At(ov, a.offsetEnd - k) == open[k] {
      assert k in open[cap := start];
    }
    assert cap in open[cap := start];
  }

  lemma MoreLost(a: Attempt, base: State, lost: bool, caps: map<nat, Span>, cap: nat, span: Span)
    requires LostShows(a, base, lost, caps)
    ensures LostShows(a, base, lost || !a.Fits(cap), caps[cap := span])
  {
    var more := caps[cap := span];
    assert cap in more;
    if k :| k in caps && !a.Fits(k) { assert k in more; }
  }

  lemma MoreTop(a: Attempt, base: State, top: nat, caps: map<nat, Span>, cap: nat, span: Span)
    requires TopShows(a, base, top, caps)
    ensures TopShows(a, base, if a.Fits(cap) && top <= 2 * cap then 2 * cap + 2 else top, caps[cap := span])
  {
    var more := caps[cap := span];
    assert cap in more;
    if k :| k in caps && a.Fits(k) && top == 2 * k + 2 { assert k in more; }
    forall k | k in more && a.Fits(k) ensures 2 * k + 2 <= if a.Fits(cap) && top <= 2 * cap then 2 * cap + 2 else top {
      if k != cap { assert k in caps; }
    }
  }

  lemma SamePairs(a: Attempt, base: State, ov: seq<int>, caps: map<nat, Span>, cap: nat, span: Span)
    requires PairsShow(a, base, ov, caps) && !a.Fits(cap)
    ensures PairsShow(a, base, ov, caps[cap := span])
  {
  }

  lemma ClosedPairs(a: Attempt, base: State, open: map<nat, nat>, g: Group, start: nat, x: State, w: Way)
    requires PairsShow(a, base, x.ov, w.caps) && SlotsShow(a, open, x.ov) && a.Valid() && a.offsetEnd <= |x.ov|
    requires a.Fits(g.cap) && At(x.ov, a.offsetEnd - g.cap) == start && x.pos == w.pos
    ensures PairsShow(a, base, Close(a, g, x).ov, w.caps[g.cap := Span(start, w.pos)]) && SlotsShow(a, open, Close(a, g, x).ov)
  {
    hide Close;
    PairsOfClosed(a, g, x);
  }

  /** The pair of the closed group is its start, as remembered, and the present position; other pairs and slots stay. */
  lemma PairsOfClosed(a: Attempt, g: Group, x: State)
    requires a.Valid() && a.Fits(g.cap) && a.offsetEnd <= |x.ov|
    ensures Pair(Close(a, g, x).ov, g.cap) == (At(x.ov, a.offsetEnd - g.cap), x.pos)
    ensures forall k: nat :: a.Fits(k) && k != g.cap ==> Pair(Close(a, g, x).ov, k) == Pair(x.ov, k)
    ensures forall k: nat :: a.Fits(k) ==> At(Close(a, g, x).ov, a.offsetEnd - k) == At(x.ov, a.offsetEnd - k)
  {
  }

  // ---- Patterns ----------------------------------------------------------------------------------------------------

  /** What the lemmas about the parts of a pattern ask for. */
  ghost predicate Fit(a: Attempt, base: State, open: map<nat, nat>) {
    Roomy(a, base) && 0 !in open
  }

  /** The outcomes of a branch are its ways, in their order. */
  lemma {:induction false} PiecesReflect(a: Attempt, base: State, open: map<nat, nat>, ps: Pieces, st: State, w: Way)
    requires Fit(a, base, open) && Reflects(a, base, open, st, w)
    requires PiecesOk(ps, a.c.caseless) && NumberedPieces(ps, open.Keys) && UndisturbedPieces(a, ps)
    ensures Matched(a, base, open, ItemsOutcomes(a, EmitAll(ps, a.c.caseless), st), PiecesWays(a.c, ps, w))
    decreases ps, 0
  {
    hide Reflects, Matched, Emit, ItemsOutcomes, PieceWays, NumberedPiece, UndisturbedPiece, PieceOk, Fit;
    match ps
    case End =>
      MatchedOne(a, base, open, st, w);
      NilOutcomes(a, st);
    case Then(p, tl) =>
      PieceReflects(a, base, open, p, st, w);
      EachPiecesReflect(a, base, open, ItemsOutcomes(a, Emit(p, a.c.caseless), st), PieceWays(a.c, p, w), tl);
      Possessing.ItemsThen(a, Emit(p, a.c.caseless), EmitAll(tl, a.c.caseless), st);
  }

  lemma NilOutcomes(a: Attempt, st: State)
    ensures ItemsOutcomes(a, Nil, st) == [st]
  {
  }

  lemma {:induction false} EachPiecesReflect(a: Attempt, base: State, open: map<nat, nat>, xs: seq<State>, ws: seq<Way>, ps: Pieces)
    requires Fit(a, base, open) && Matched(a, base, open, xs, ws)
    requires PiecesOk(ps, a.c.caseless) && NumberedPieces(ps, open.Keys) && UndisturbedPieces(a, ps)
    ensures Matched(a, base, open, Outcomes.Then(a, xs, EmitAll(ps, a.c.caseless)), EachPiecesWays(a.c, ws, ps))
    decreases ps, 1, |xs|
  {
    hide Reflects, Matched, EmitAll, ItemsOutcomes, PiecesWays, NumberedPieces, UndisturbedPieces, PiecesOk, Fit;
    MatchedLength(a, base, open, xs, ws);
    MatchedNone(a, base, open);
    if xs != [] {
      var its := EmitAll(ps, a.c.caseless);
      MatchedTail(a, base, open, xs, ws);
      PiecesReflect(a, base, open, ps, xs[0], ws[0]);
      EachPiecesReflect(a, base, open, xs[1..], ws[1..], ps);
      MatchedBoth(a, base, open, ItemsOutcomes(a, its, xs[0]), PiecesWays(a.c, ps, ws[0]),
                  Outcomes.Then(a, xs[1..], its), EachPiecesWays(a.c, ws[1..], ps));
    }
  }

  lemma {:induction false} PieceReflects(a: Attempt, base: State, open: map<nat, nat>, p: Piece, st: State, w: Way)
    requires Fit(a, base, open) && Reflects(a, base, open, st, w)
    requires PieceOk(p, a.c.caseless) && NumberedPiece(p, open.Keys) && UndisturbedPiece(a, p)
    ensures Matched(a, base, open, ItemsOutcomes(a, Emit(p, a.c.caseless), st), PieceWays(a.c, p, w))
    decreases p, 5
  {
    hide Reflects, Matched, ItemsOutcomes, Quantified, Replicated, RunWays, TimesWays, UnlimitedWays, GroupWays, Fit, CutAfter;
    match p
    case Single(u, _) => SingleReflects(a, base, open, u, st, w);
    case Repeat(u, min, max, m, _) => QuantifiedReflects(a, base, open, u, min, max, m, st, w);
    case Paren(cap, alts) =>
      OneOrder(a, Grp(GroupOf(cap, alts, a.c.caseless)), st);
      GroupReflects(a, base, open, cap, alts, st, w);
      assert NodeOutcomes(a, Grp(GroupOf(cap, alts, a.c.caseless)), st) == GroupOutcomes(a, GroupOf(cap, alts, a.c.caseless), st);
    case RepeatParen(cap, alts, min, max, lazy) =>
      var g := GroupOf(cap, alts, a.c.caseless);
      if max >= 0 {
        RepeatOrder(a, lazy, g, min, max, st);
        TimesReflect(a, base, open, cap, alts, lazy, min, max, st, w);
      } else {
        UnlimitedOrder(a, lazy, g, min, st);
        UnlimitedReflect(a, base, open, cap, alts, lazy, min, st, w);
        MatchedBares(a, base, open, ItemsOutcomes(a, Replicated(lazy, g, min, max), st), UnlimitedWays(a.c, cap, alts, lazy, min, w));
      }
  }

  lemma SingleReflects(a: Attempt, base: State, open: map<nat, nat>, u: Unit, st: State, w: Way)
    requires Reflects(a, base, open, st, w)
    ensures Matched(a, base, open, ItemsOutcomes(a, Cons(One(u), Nil), st),
                    if Test(a.c, u, w.pos) then [w.(pos := w.pos + 1)] else [])
  {
    hide Reflects, Matched, ItemsOutcomes, Test;
    SamePlace(a, base, open, st, w);
    OneAhead(a, u, Nil, st);
    MatchedNone(a, base, open);
    if Test(a.c, u, st.pos) {
      TestInside(a.c, u, st.pos);
      NilOutcomes(a, Advance(st, 1));
      ReflectsMoved(a, base, open, st, w, st.pos + 1);
      MatchedOne(a, base, open, Advance(st, 1), w.(pos := w.pos + 1));
    }
  }

  /** A group's outcomes are its ways, with what its branches match recorded. */
  lemma {:induction false} GroupReflects(a: Attempt, base: State, open: map<nat, nat>, cap: nat, alts: Branches, st: State, w: Way)
    requires Fit(a, base, open) && Reflects(a, base, open, st, w)
    requires BranchesOk(alts, a.c.caseless) && NumberedGroup(cap, alts, open.Keys) && Undisturbed(a, alts)
    ensures Matched(a, base, open, GroupOutcomes(a, GroupOf(cap, alts, a.c.caseless), st), GroupWays(a.c, cap, alts, w))
    decreases alts, 1
  {
    hide Reflects, Matched, AltsOutcomes, BranchesWays, Numbered, Undisturbed, AfterEach;
    var g := GroupOf(cap, alts, a.c.caseless);
    var within := Opened(open, cap, st.pos);
    SamePlace(a, base, open, st, w);
    assert cap > 0 ==> within.Keys == open.Keys + {cap};
    EnterReflects(a, base, open, g, st, w);
    BranchesReflect(a, base, within, alts, Enter(a, g, st), w);
    EachCloses(a, base, open, g, st.pos, AltsOutcomes(a, g.alts, Enter(a, g, st)), BranchesWays(a.c, alts, w));
  }

  lemma {:induction false} EachCloses(a: Attempt, base: State, open: map<nat, nat>, g: Group, start: nat, xs: seq<State>, ws: seq<Way>)
    requires Fit(a, base, open) && g.cap !in open && g.ket == Plain && Matched(a, base, Opened(open, g.cap, start), xs, ws)
    ensures Matched(a, base, open, AfterEach(a, g, start, xs), Recorded(g.cap, start, ws))
    decreases |xs|
  {
    hide Reflects, Matched, Opened, Close;
    MatchedLength(a, base, Opened(open, g.cap, start), xs, ws);
    MatchedNone(a, base, open);
    if xs != [] {
      MatchedTail(a, base, Opened(open, g.cap, start), xs, ws);
      CloseReflects(a, base, open, g, start, xs[0], ws[0]);
      assert AfterKet(a, g, start, xs[0]) == [Close(a, g, xs[0])];
      EachCloses(a, base, open, g, start, xs[1..], ws[1..]);
      MatchedOne(a, base, open, Close(a, g, xs[0]), Record(g.cap, start, ws[0]));
      MatchedBoth(a, base, open, [Close(a, g, xs[0])], [Record(g.cap, start, ws[0])],
                  AfterEach(a, g, start, xs[1..]), Recorded(g.cap, start, ws[1..]));
    }
  }

  /** The branches of a pattern have their outcomes from left to right. */
  lemma {:induction false} BranchesReflect(a: Attempt, base: State, open: map<nat, nat>, alts: Branches, st: State, w: Way)
    requires Fit(a, base, open) && Reflects(a, base, open, st, w)
    requires BranchesOk(alts, a.c.caseless) && Numbered(alts, open.Keys) && Undisturbed(a, alts)
    ensures Matched(a, base, open, AltsOutcomes(a, EmitBranches(alts, a.c.caseless), st), BranchesWays(a.c, alts, w))
    decreases alts, 0
  {
    hide Reflects, Matched, ItemsOutcomes, EmitAll, PiecesWays, NumberedPieces, UndisturbedPieces, PiecesOk, Fit;
    PiecesReflect(a, base, open, alts.b, st, w);
    if alts.Or? {
      BranchesReflect(a, base, open, alts.rest, st, w);
      MatchedBoth(a, base, open, ItemsOutcomes(a, EmitAll(alts.b, a.c.caseless), st), PiecesWays(a.c, alts.b, w),
                  AltsOutcomes(a, EmitBranches(alts.rest, a.c.caseless), st), BranchesWays(a.c, alts.rest, w));
    }
  }

  // ---- Repeated groups ---------------------------------------------------------------------------------------------

  lemma {:induction false} TimesReflect(a: Attempt, base: State, open: map<nat, nat>, cap: nat, alts: Branches, lazy: bool, min: nat, max: nat,
                                        st: State, w: Way)
    requires Fit(a, base, open) && Reflects(a, base, open, st, w)
    requires BranchesOk(alts, a.c.caseless) && NumberedGroup(cap, alts, open.Keys) && Undisturbed(a, alts)
    ensures Matched(a, base, open, Repeats(a, lazy, GroupOf(cap, alts, a.c.caseless), min, max, st),
                    TimesWays(a.c, cap, alts, lazy, min, max, w))
    decreases alts, 2, max, 0, 0
  {
    hide Reflects, Matched, GroupOutcomes, GroupWays, NumberedGroup, Undisturbed, BranchesOk, Fit, GroupOf;
    var g := GroupOf(cap, alts, a.c.caseless);
    MatchedOne(a, base, open, st, w);
    if max > 0 {
      var xs, ws := GroupOutcomes(a, g, st), GroupWays(a.c, cap, alts, w);
      var min' := if min > 0 then min - 1 else 0;
      GroupReflects(a, base, open, cap, alts, st, w);
      EachTimesReflect(a, base, open, cap, alts, lazy, min', max - 1, xs, ws);
      var more, ways := EachRepeats(a, lazy, g, min', max - 1, xs), EachTimesWays(a.c, cap, alts, lazy, min', max - 1, ws);
      MatchedBoth(a, base, open, [st], [w], more, ways);
      MatchedBoth(a, base, open, more, ways, [st], [w]);
    }
  }

  lemma {:induction false} EachTimesReflect(a: Attempt, base: State, open: map<nat, nat>, cap: nat, alts: Branches, lazy: bool, min: nat, max: nat,
                                            xs: seq<State>, ws: seq<Way>)
    requires Fit(a, base, open) && Matched(a, base, open, xs, ws)
    requires BranchesOk(alts, a.c.caseless) && NumberedGroup(cap, alts, open.Keys) && Undisturbed(a, alts)
    ensures Matched(a, base, open, EachRepeats(a, lazy, GroupOf(cap, alts, a.c.caseless), min, max, xs),
                    EachTimesWays(a.c, cap, alts, lazy, min, max, ws))
    decreases alts, 2, max, 1, |xs|
  {
    hide Reflects, Matched, Repeats, TimesWays, NumberedGroup, Undisturbed, BranchesOk, Fit, GroupOf;
    MatchedLength(a, base, open, xs, ws);
    MatchedNone(a, base, open);
    if xs != [] {
      var g := GroupOf(cap, alts, a.c.caseless);
      MatchedTail(a, base, open, xs, ws);
      TimesReflect(a, base, open, cap, alts, lazy, min, max, xs[0], ws[0]);
      EachTimesReflect(a, base, open, cap, alts, lazy, min, max, xs[1..], ws[1..]);
      MatchedBoth(a, base, open, Repeats(a, lazy, g, min, max, xs[0]), TimesWays(a.c, cap, alts, lazy, min, max, ws[0]),
                  EachRepeats(a, lazy, g, min, max, xs[1..]), EachTimesWays(a.c, cap, alts, lazy, min, max, ws[1..]));
    }
  }

  lemma {:induction false} EndlessReflect(a: Attempt, base: State, open: map<nat, nat>, cap: nat, alts: Branches, lazy: bool, st: State, w: Way)
    requires Fit(a, base, open) && Reflects(a, base, open, st, w)
    requires BranchesOk(alts, a.c.caseless) && NumberedGroup(cap, alts, open.Keys) && Undisturbed(a, alts)
    ensures Matched(a, base, open, Endless(a, lazy, GroupOf(cap, alts, a.c.caseless), st), EndlessWays(a.c, cap, alts, lazy, w))
    decreases alts, 2, Left(a.c, w.pos), 2, 0
  {
    hide Reflects, Matched, GroupOutcomes, GroupWays, NumberedGroup, Undisturbed, BranchesOk, Fit, GroupOf;
    var g := GroupOf(cap, alts, a.c.caseless);
    SamePlace(a, base, open, st, w);
    ReflectsBare(a, base, open, st, [], w);
    GroupReflects(a, base, open, cap, alts, Bare(st), w);
    EachEndlessReflect(a, base, open, cap, alts, lazy, st.pos, GroupOutcomes(a, g, Bare(st)), GroupWays(a.c, cap, alts, w));
  }

  lemma {:induction false} EachEndlessReflect(a: Attempt, base: State, open: map<nat, nat>, cap: nat, alts: Branches, lazy: bool, start: nat,
                                              xs: seq<State>, ws: seq<Way>)
    requires Fit(a, base, open) && Matched(a, base, open, xs, ws)
    requires BranchesOk(alts, a.c.caseless) && NumberedGroup(cap, alts, open.Keys) && Undisturbed(a, alts)
    ensures Matched(a, base, open, EachEndless(a, lazy, GroupOf(cap, alts, a.c.caseless), start, xs),
                    EachEndlessWays(a.c, cap, alts, lazy, start, ws))
    decreases alts, 2, Left(a.c, start), 1, |xs|
  {
    hide Reflects, Matched, Further, FurtherWays, NumberedGroup, Undisturbed, BranchesOk, Fit, GroupOf;
    MatchedLength(a, base, open, xs, ws);
    MatchedNone(a, base, open);
    if xs != [] {
      var g := GroupOf(cap, alts, a.c.caseless);
      MatchedTail(a, base, open, xs, ws);
      FurtherReflects(a, base, open, cap, alts, lazy, start, xs[0], ws[0]);
      EachEndlessReflect(a, base, open, cap, alts, lazy, start, xs[1..], ws[1..]);
      MatchedBoth(a, base, open, Further(a, lazy, g, start, xs[0]), FurtherWays(a.c, cap, alts, lazy, start, ws[0]),
                  EachEndless(a, lazy, g, start, xs[1..]), EachEndlessWays(a.c, cap, alts, lazy, start, ws[1..]));
    }
  }

  lemma {:induction false} FurtherReflects(a: Attempt, base: State, open: map<nat, nat>, cap: nat, alts: Branches, lazy: bool, start: nat,
                                           x: State, w: Way)
    requires Fit(a, base, open) && Reflects(a, base, open, x, w)
    requires BranchesOk(alts, a.c.caseless) && NumberedGroup(cap, alts, open.Keys) && Undisturbed(a, alts)
    ensures Matched(a, base, open, Further(a, lazy, GroupOf(cap, alts, a.c.caseless), start, x), FurtherWays(a.c, cap, alts, lazy, start, w))
    decreases alts, 2, Left(a.c, start), 0, 0
  {
    hide Reflects, Matched, Endless, EndlessWays, NumberedGroup, Undisturbed, BranchesOk, Fit, GroupOf;
    var g := GroupOf(cap, alts, a.c.caseless);
    SamePlace(a, base, open, x, w);
    ReflectsBare(a, base, open, x, [], w);
    MatchedOne(a, base, open, Bare(x), w);
    if start < x.pos {
      EndlessReflect(a, base, open, cap, alts, lazy, x, w);
      var more, ways := Endless(a, lazy, g, x), EndlessWays(a.c, cap, alts, lazy, w);
      MatchedBoth(a, base, open, [Bare(x)], [w], more, ways);
      MatchedBoth(a, base, open, more, ways, [Bare(x)], [w]);
    }
  }

  lemma {:induction false} UnlimitedReflect(a: Attempt, base: State, open: map<nat, nat>, cap: nat, alts: Branches, lazy: bool, min: nat,
                                            st: State, w: Way)
    requires Fit(a, base, open) && Reflects(a, base, open, st, w)
    requires BranchesOk(alts, a.c.caseless) && NumberedGroup(cap, alts, open.Keys) && Undisturbed(a, alts)
    ensures Matched(a, base, open, Unlimited(a, lazy, GroupOf(cap, alts, a.c.caseless), min, st), UnlimitedWays(a.c, cap, alts, lazy, min, w))
    decreases alts, 3, min, 0, 0
  {
    hide Reflects, Matched, GroupOutcomes, GroupWays, Endless, EndlessWays, NumberedGroup, Undisturbed, BranchesOk, Fit, GroupOf;
    var g := GroupOf(cap, alts, a.c.caseless);
    ReflectsBare(a, base, open, st, [], w);
    MatchedOne(a, base, open, Bare(st), w);
    if min <= 1 {
      EndlessReflect(a, base, open, cap, alts, lazy, st, w);
      var more, ways := Endless(a, lazy, g, st), EndlessWays(a.c, cap, alts, lazy, w);
      MatchedBoth(a, base, open, [Bare(st)], [w], more, ways);
      MatchedBoth(a, base, open, more, ways, [Bare(st)], [w]);
    } else {
      GroupReflects(a, base, open, cap, alts, Bare(st), w);
      EachUnlimitedReflect(a, base, open, cap, alts, lazy, min - 1, GroupOutcomes(a, g, Bare(st)), GroupWays(a.c, cap, alts, w));
    }
  }

  lemma {:induction false} EachUnlimitedReflect(a: Attempt, base: State, open: map<nat, nat>, cap: nat, alts: Branches, lazy: bool, min: nat,
                                                xs: seq<State>, ws: seq<Way>)
    requires Fit(a, base, open) && Matched(a, base, open, xs, ws)
    requires BranchesOk(alts, a.c.caseless) && NumberedGroup(cap, alts, open.Keys) && Undisturbed(a, alts)
    ensures Matched(a, base, open, EachUnlimited(a, lazy, GroupOf(cap, alts, a.c.caseless), min, xs),
                    EachUnlimitedWays(a.c, cap, alts, lazy, min, ws))
    decreases alts, 3, min, 1, |xs|
  {
    hide Reflects, Matched, Unlimited, UnlimitedWays, NumberedGroup, Undisturbed, BranchesOk, Fit, GroupOf;
    MatchedLength(a, base, open, xs, ws);
    MatchedNone(a, base, open);
    if xs != [] {
      var g := GroupOf(cap, alts, a.c.caseless);
      MatchedTail(a, base, open, xs, ws);
      UnlimitedReflect(a, base, open, cap, alts, lazy, min, xs[0], ws[0]);
      EachUnlimitedReflect(a, base, open, cap, alts, lazy, min, xs[1..], ws[1..]);
      MatchedBoth(a, base, open, Unlimited(a, lazy, g, min, xs[0]), UnlimitedWays(a.c, cap, alts, lazy, min, ws[0]),
                  EachUnlimited(a, lazy, g, min, xs[1..]), EachUnlimitedWays(a.c, cap, alts, lazy, min, ws[1..]));
    }
  }

  // ---- Patterns in which no iteration can be cut -------------------------------------------------------------------

  /** Of every group that is repeated without limit and is seen to be able to match nothing, nothing inside is such a
      repeat again. */
  predicate Quiet(alts: Branches)
    decreases alts, 0
  {
    QuietPieces(alts.b) && (alts.Or? ==> Quiet(alts.rest))
  }

  predicate QuietPieces(ps: Pieces)
    decreases ps, 0
  {
    ps.Then? ==> QuietPiece(ps.hd) && QuietPieces(ps.tl)
  }

  predicate QuietPiece(p: Piece)
    decreases p, 0
  {
    match p
    case Paren(_, alts) => Quiet(alts)
    case RepeatParen(_, alts, _, max, _) => Quiet(alts) && (max == -1 && AnySeen(alts) ==> MarkFree(alts))
    case _ => true
  }

  predicate MarkFree(alts: Branches)
    decreases alts, 0
  {
    MarkFreePieces(alts.b) && (alts.Or? ==> MarkFree(alts.rest))
  }

  predicate MarkFreePieces(ps: Pieces)
    decreases ps, 0
  {
    ps.Then? ==> MarkFreePiece(ps.hd) && MarkFreePieces(ps.tl)
  }

  predicate MarkFreePiece(p: Piece)
    decreases p, 0
  {
    match p
    case Paren(_, alts) => MarkFree(alts)
    case RepeatParen(_, alts, _, max, _) => MarkFree(alts) && !(max == -1 && AnySeen(alts))
    case _ => true
  }

  lemma {:induction false} NoMarksAppend(xs: Items, ys: Items)
    requires NoMarks(xs) && NoMarks(ys)
    ensures NoMarks(Append(xs, ys))
  {
    if xs.Cons? { NoMarksAppend(xs.tl, ys); }
  }

  lemma {:induction false} NoMarksCopies(g: Group, n: nat, tl: Items)
    requires !g.s && NoMarksInside(g.alts) && NoMarks(tl)
    ensures NoMarks(Copies(g, n, tl))
  {
    if n > 0 { NoMarksCopies(g, n - 1, tl); }
  }

  lemma NoMarksOne(n: Node)
    requires n.Grp? || n.Zero? ==> !n.g.s && NoMarksInside(n.g.alts)
    ensures NoMarks(Cons(n, Nil))
  {
    assert NoMarks(Nil);
  }

  lemma {:induction false} NoMarksNested(lazy: bool, g: Group, k: nat)
    requires k >= 1 && !g.s && NoMarksInside(g.alts)
    ensures var n := Nested(lazy, g, k); n.Zero? && !n.g.s && NoMarksInside(n.g.alts)
  {
    if k > 1 {
      var n := Nested(lazy, g, k - 1);
      NoMarksNested(lazy, g, k - 1);
      NoMarksOne(n);
      assert NoMarks(Cons(Grp(g), Cons(n, Nil)));
    }
  }

  lemma NoMarksReplicated(lazy: bool, g: Group, min: nat, max: int)
    requires (max == -1 || (max >= 1 && min <= max)) && !g.s && NoMarksInside(g.alts) && !(max == -1 && AnyBranchEmpty(g.alts))
    ensures NoMarks(Replicated(lazy, g, min, max))
  {
    hide AnyBranchEmpty, NoMarksInside, Nested;
    assert NoMarks(Nil);
    if max == -1 {
      NoMarksOne(Zero(lazy, Looped(lazy, g)));
      NoMarksOne(Grp(Looped(lazy, g)));
      if min > 0 { NoMarksCopies(g, min - 1, Cons(Grp(Looped(lazy, g)), Nil)); }
    } else {
      if max > min {
        NoMarksNested(lazy, g, max - min);
        NoMarksOne(Nested(lazy, g, max - min));
      }
      if min > 0 { NoMarksCopies(g, min, if max > min then Cons(Nested(lazy, g, max - min), Nil) else Nil); }
    }
  }

  lemma {:induction false} MarkFreeIs(alts: Branches, caseless: bool)
    requires BranchesOk(alts, caseless) && MarkFree(alts)
    ensures NoMarksInside(EmitBranches(alts, caseless))
    decreases alts, 0
  {
    hide MarkFreePieces, PiecesOk, EmitAll, NoMarks;
    MarkFreeAll(alts.b, caseless);
    if alts.Or? { MarkFreeIs(alts.rest, caseless); }
  }

  lemma {:induction false} MarkFreeAll(ps: Pieces, caseless: bool)
    requires PiecesOk(ps, caseless) && MarkFreePieces(ps)
    ensures NoMarks(EmitAll(ps, caseless))
    decreases ps, 0
  {
    hide MarkFreePiece, PieceOk, Emit;
    if ps.Then? {
      MarkFreeOne(ps.hd, caseless);
      MarkFreeAll(ps.tl, caseless);
      NoMarksAppend(Emit(ps.hd, caseless), EmitAll(ps.tl, caseless));
    }
  }

  lemma {:induction false} MarkFreeOne(p: Piece, caseless: bool)
    requires PieceOk(p, caseless) && MarkFreePiece(p)
    ensures NoMarks(Emit(p, caseless))
    decreases p, 0
  {
    hide AnyBranchEmpty, Replicated;
    match p
    case Single(u, _) => NoMarksOne(One(u));
    case Repeat(u, min, max, m, _) => NoMarksUnits(u, min, max, m);
    case Paren(cap, alts) =>
      MarkFreeIs(alts, caseless);
      NoMarksOne(Grp(GroupOf(cap, alts, caseless)));
    case RepeatParen(cap, alts, min, max, lazy) =>
      MarkFreeIs(alts, caseless);
      AnySeenIs(alts, caseless);
      NoMarksReplicated(lazy, GroupOf(cap, alts, caseless), min, max);
  }

  lemma NoMarksUnits(u: Unit, min: nat, max: int, m: Mode)
    requires max == -1 || min <= max
    ensures NoMarks(Quantified(u, min, max, m))
  {
    var its := Quantified(u, min, max, m);
    assert NoMarks(Nil);
    if its.Cons? { assert its.tl.Cons? ==> its.tl.tl.Nil? && NoMarks(its.tl); }
  }

  /** In a quiet pattern no iteration is cut. */
  lemma {:induction false} QuietUndisturbed(a: Attempt, alts: Branches)
    requires BranchesOk(alts, a.c.caseless) && Quiet(alts)
    ensures Undisturbed(a, alts)
    decreases alts, 0
  {
    hide QuietPieces, PiecesOk, UndisturbedPieces;
    QuietAll(a, alts.b);
    if alts.Or? { QuietUndisturbed(a, alts.rest); }
  }

  lemma {:induction false} QuietAll(a: Attempt, ps: Pieces)
    requires PiecesOk(ps, a.c.caseless) && QuietPieces(ps)
    ensures UndisturbedPieces(a, ps)
    decreases ps, 0
  {
    hide QuietPiece, PieceOk, UndisturbedPiece;
    if ps.Then? {
      QuietOne(a, ps.hd);
      QuietAll(a, ps.tl);
    }
  }

  lemma {:induction false} QuietOne(a: Attempt, p: Piece)
    requires PieceOk(p, a.c.caseless) && QuietPiece(p)
    ensures UndisturbedPiece(a, p)
    decreases p, 0
  {
    hide AnyBranchEmpty, CutAfter, NoMarksInside;
    if p.Paren? { QuietUndisturbed(a, p.alts); }
    if p.RepeatParen? {
      QuietUndisturbed(a, p.alts);
      var g := GroupOf(p.cap, p.alts, a.c.caseless);
      if p.max == -1 {
        AnySeenIs(p.alts, a.c.caseless);
        if AnySeen(p.alts) { MarkFreeIs(p.alts, a.c.caseless); }
        forall st: State ensures !CutAfter(a, g, p.min, st) { NeverCutAfter(a, g, p.min, st); }
      }
    }
  }

  // ---- The whole pattern -------------------------------------------------------------------------------------------

  /** The outcomes of a whole pattern, from a state in which nothing is captured. */
  lemma PatternReflects(a: Attempt, alts: Branches, st: State)
    requires Roomy(a, st) && st.pos <= |a.c.s| && st.top % 2 == 0
    requires BranchesOk(alts, a.c.caseless) && Numbered(alts, {}) && Undisturbed(a, alts)
    ensures Matched(a, st, map[], GroupOutcomes(a, GroupOf(0, alts, a.c.caseless), st), BranchesWays(a.c, alts, Way(st.pos, map[])))
  {
    hide GroupOutcomes, BranchesWays, Matched, Undisturbed, Numbered;
    var w := Way(st.pos, map[]);
    var open: map<nat, nat> := map[];
    assert Reflects(a, st, open, st, w);
    assert open.Keys == {};
    GroupReflects(a, st, open, 0, alts, st, w);
    RecordedNone(w.pos, BranchesWays(a.c, alts, w));
    assert GroupWays(a.c, 0, alts, w) == Recorded(0, w.pos, BranchesWays(a.c, alts, w));
  }

  lemma {:induction false} RecordedNone(start: nat, ws: seq<Way>)
    ensures Recorded(0, start, ws) == ws
  {
    if ws != [] { RecordedNone(start, ws[1..]); }
  }
}

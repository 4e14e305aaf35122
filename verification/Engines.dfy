/** The two matching engines side by side, and what the DFA engine reports about its vector. */
module Engines {
  import opened Common
  import opened ByteCode
  import opened Meaning
  import opened Outcomes
  import opened Backtracking
  import opened MatchSteps
  import opened DfaSteps
  import opened DfaMeaning
  import opened DfaExec

  /** The two engines agree. The moves of the DFA engine from a.mstart get to the end of the pattern at
      some acceptable offset exactly when the backtracking matcher has a first outcome, and that
      outcome ends at one of these offsets. */
  lemma EnginesAgree(a: Attempt, m: Machine, g: Group, st: State)
    requires m.c == a.c && Suitable(m, g) && st.pos == a.mstart <= |a.c.s|
    ensures var f := First(a, Cons(Grp(g), Nil), Done, st);
            && (f.Some? <==> exists j: nat :: Ends(m, a.mstart, j) && a.Acceptable(j))
            && (f.Some? ==> Ends(m, a.mstart, f.value.pos) && a.Acceptable(f.value.pos))
  {
    hide First, Ends, DGroup, AtPattern, GroupLen, Consistent, GroupOutcomes;
    PatternFirst(a, g, st);
    forall j: nat ensures Ends(m, a.mstart, j) <==> DGroup(a.c, g, a.mstart, j) {
      EndsAreMatches(m, g, a.mstart, j);
    }
  }

  /** The offsets that Exec() collects, and the outcome of MatchWhole(), for one start offset: either
      both find nothing, or the backtracking matcher's end is among the collected ones, of which
      the last is the longest. */
  lemma CollectedAgree(a: Attempt, g: Group, st: State, ends: seq<nat>)
    requires st.pos == a.mstart <= |a.c.s|
    requires forall j: nat :: j in ends <==> DGroup(a.c, g, a.mstart, j) && a.Acceptable(j)
    requires Increasing(ends)
    ensures var f := First(a, Cons(Grp(g), Nil), Done, st);
            && (f.None? <==> ends == [])
            && (f.Some? ==> f.value.pos in ends && f.value.pos <= ends[|ends| - 1])
  {
    hide First, DGroup, GroupOutcomes;
    PatternFirst(a, g, st);
    if ends != [] {
      assert ends[0] in ends;
    }
  }

  /** A yield of zero is documented to mean that there were too many matches for the vector. */
  ghost predicate ReportsOverflow(n: nat, size: nat) {
    MatchCount(n, size) == 0 <==> 2 * n > size
  }

  /** It does mean that, except when at least two matches fill the vector exactly. */
  lemma OverflowExactly(n: nat, size: nat)
    requires size % 2 == 0
    ensures ReportsOverflow(n, size) <==> !(n >= 2 && 2 * n == size)
    ensures ReportsOverflow(n, size) && MatchCount(n, size) != 0 ==> MatchCount(n, size) == if n == 0 then -1 else n
  {
  }

  /** Two matches in a vector with room for two: all are stored, and yet the yield is zero. */
  lemma TwoMatchesOverflow(start: nat, first: nat, second: nat)
    ensures Stored([start, second, start, first], 4, start, [first, second]) && MatchCount(2, 4) == 0
    ensures !ReportsOverflow(2, 4)
  {
    var v: seq<int> := [start, second, start, first];
    forall t: nat | 2 * t + 1 < 4 && t < 2
      ensures SlotPair(v, t) == (start as int, [first, second][1 - t] as int)
    {
      assert t == 0 || t == 1;
    }
  }
}

/** From a parsed pattern to a match: compiling, studying and matching, put together. What is found is what
    the pattern means. */
module Pipeline {
  import opened Common
  import opened ByteCode
  import opened Meaning
  import opened Outcomes
  import opened Backtracking
  import opened DfaSteps
  import opened DfaMeaning
  import opened DfaExec
  import opened Match
  import opened Repetition
  import opened StartBits
  import opened Exec
  import opened PcreStudy
  import opened MatchSteps
  import opened AutoPossess
  import opened Marking
  import opened Possessing
  import opened PossessCheck
  import opened Syntax
  import opened Ways
  import opened CodeWays
  import opened Captures
  import opened Sizes
  import opened FirstBytes
  import opened StartLine
  import opened CompilePattern

  /** The conditions on a match other than the pattern: where it may start, and whether it may be empty. */
  datatype Wanted = Wanted(startOffset: nat, notempty: bool, notemptyAtStart: bool)

  /** The pattern matches from t to j, and the match is wanted. */
  ghost predicate IsMatch(c: Context, alts: Branches, w: Wanted, t: nat, j: nat) {
    MBranches(c, alts, t, j) && !(j == t && (w.notempty || (w.notemptyAtStart && t == w.startOffset)))
  }

  ghost predicate StartsMatch(c: Context, alts: Branches, w: Wanted, t: nat) {
    exists j: nat :: IsMatch(c, alts, w, t, j)
  }

  /** t is a starting point that the options allow. */
  ghost predicate Allowed(c: Context, w: Wanted, o: Options, t: nat) {
    && w.startOffset <= t <= |c.s|
    && (o.anchored ==> t == w.startOffset)
    && (o.firstline ==> NoNewline(c.s, w.startOffset, t))
  }

  /** The result of a search for the pattern: no match at any allowed start, or the leftmost one. */
  ghost predicate Answers(c: Context, alts: Branches, w: Wanted, o: Options, rc: int, start: nat, end: nat) {
    && (rc == -1 ==> forall t: nat :: Allowed(c, w, o, t) ==> !StartsMatch(c, alts, w, t))
    && (rc >= 0 ==>
          && Allowed(c, w, o, start)
          && IsMatch(c, alts, w, start, end)
          && forall t: nat :: w.startOffset <= t < start ==> !StartsMatch(c, alts, w, t))
  }

  /** The ends that were collected are exactly those of the wanted matches from start, and the vector and the yield
      follow from them. */
  ghost predicate Collects(c: Context, alts: Branches, w: Wanted, start: nat, rc: int, v: seq<int>, offsetcount: nat, ends: seq<nat>) {
    && (forall j: nat :: j in ends <==> IsMatch(c, alts, w, start, j))
    && Increasing(ends)
    && rc == MatchCount(|ends|, offsetcount - offsetcount % 2)
    && Stored(v, offsetcount - offsetcount % 2, start, ends)
  }

  ghost predicate Describes(a: Attempt, c: Context, w: Wanted) {
    a.c == c && a.startOffset == w.startOffset && a.notempty == w.notempty && a.notemptyAtStart == w.notemptyAtStart
  }

  /** The compiled group has a match at t exactly when the pattern has one. */
  lemma MatchesMean(a: Attempt, alts: Branches, w: Wanted, t: nat)
    requires Describes(a, a.c, w) && BranchesOk(alts, a.c.caseless) && t <= |a.c.s|
    ensures MatchesAt(a, GroupOf(0, alts, a.c.caseless), t) <==> StartsMatch(a.c, alts, w, t)
  {
    hide MBranches, DAlts, EmitBranches;
    var g := GroupOf(0, alts, a.c.caseless);
    forall j: nat ensures DGroup(a.c, g, t, j) <==> MBranches(a.c, alts, t, j) {
      BranchesMean(a.c, alts, t, j);
    }
    if MatchesAt(a, g, t) {
      var j: nat :| DGroup(a.c, g, t, j) && a.(mstart := t).Acceptable(j);
      assert IsMatch(a.c, alts, w, t, j);
    }
    if StartsMatch(a.c, alts, w, t) {
      var j: nat :| IsMatch(a.c, alts, w, t, j);
      assert DGroup(a.c, g, t, j) && a.(mstart := t).Acceptable(j);
    }
  }

  /** No match was found by a search that was perhaps anchored only because the pattern allowed it: then
      there is none at any allowed starting point. */
  lemma NoneAnywhere(a: Attempt, alts: Branches, w: Wanted, o: Options, o': Options, t: nat)
    requires Describes(a, a.c, w) && BranchesOk(alts, a.c.caseless) && a.c.Valid()
    requires Exhausted(o', a, GroupOf(0, alts, a.c.caseless)) && Allowed(a.c, w, o, t)
    requires o' == o.(anchored := o'.anchored)
    requires o'.anchored != o.anchored ==> o'.anchored && LeadsWith(EmitBranches(alts, a.c.caseless), OP_ALLANY)
    ensures !StartsMatch(a.c, alts, w, t)
  {
    hide DGroup, StartsMatch, MatchesAt, LeadsWith, EmitBranches;
    var g := GroupOf(0, alts, a.c.caseless);
    MatchesMean(a, alts, w, t);
    if o'.anchored == o.anchored {
      assert Eligible(o', a, t);
    } else {
      assert Eligible(o', a, a.startOffset);
      AnchoredSuffices(a, g, t);
    }
  }

  /** The match that was found starts as far to the left as possible. */
  lemma NoneBefore(a: Attempt, alts: Branches, w: Wanted, start: nat, t: nat)
    requires Describes(a, a.c, w) && BranchesOk(alts, a.c.caseless)
    requires NoMatches(a, GroupOf(0, alts, a.c.caseless), a.startOffset, start) && a.startOffset <= t < start <= |a.c.s|
    ensures !StartsMatch(a.c, alts, w, t)
  {
    hide MatchesAt, StartsMatch;
    MatchesMean(a, alts, w, t);
  }

  lemma FoundMatch(a: Attempt, alts: Branches, w: Wanted, start: nat, v: seq<int>, r: State)
    requires Describes(a, a.c, w) && BranchesOk(alts, a.c.caseless) && start <= |a.c.s|
    requires Finds(a, GroupOf(0, alts, a.c.caseless), start, v, r)
    ensures IsMatch(a.c, alts, w, start, r.pos)
  {
    hide DGroup, First, GroupOutcomes, EmitBranches, MBranches;
    var g := GroupOf(0, alts, a.c.caseless);
    PatternFirst(a.(mstart := start), g, State(start, v, 2, [], false));
    PlainMatch(a.c, g, start, r.pos);
    BranchesMean(a.c, alts, start, r.pos);
  }

  lemma Located(a: Attempt, alts: Branches, w: Wanted, o: Options, o': Options, start: nat, v: seq<int>, r: State)
    requires Describes(a, a.c, w) && BranchesOk(alts, a.c.caseless) && o' == o.(anchored := o'.anchored)
    requires o.anchored ==> o'.anchored
    requires Leftmost(o', a, GroupOf(0, alts, a.c.caseless), start) && Finds(a, GroupOf(0, alts, a.c.caseless), start, v, r)
    ensures Allowed(a.c, w, o, start) && IsMatch(a.c, alts, w, start, r.pos)
    ensures forall t: nat :: w.startOffset <= t < start ==> !StartsMatch(a.c, alts, w, t)
  {
    hide MatchesAt, StartsMatch, IsMatch, Finds, EmitBranches, NoMatches;
    FoundMatch(a, alts, w, start, v, r);
    forall t: nat | w.startOffset <= t < start ensures !StartsMatch(a.c, alts, w, t) { NoneBefore(a, alts, w, start, t); }
  }

  lemma PlainMatch(c: Context, g: Group, i: nat, j: nat)
    requires g.ket == Plain
    ensures DGroup(c, g, i, j) <==> DAlts(c, g.alts, i, j)
  {
  }

  // ---- Which match is found, and what it has captured ---------------------------------------------------------

  /** The first of the ways that ends in a wanted match. */
  function FirstWanted(w: Wanted, t: nat, ws: seq<Way>): Option<Way> {
    if ws == [] then None
    else if !(ws[0].pos == t && (w.notempty || (w.notemptyAtStart && t == w.startOffset))) then Some(ws[0])
    else FirstWanted(w, t, ws[1..])
  }

  /** The way that the pattern prefers, from t. */
  function Best(c: Context, alts: Branches, w: Wanted, t: nat): Option<Way> {
    FirstWanted(w, t, BranchesWays(c, alts, Way(t, map[])))
  }

  /** Whether a vector of offsetcount offsets has room for the pair of group k; a third of it is work space. */
  predicate Room(offsetcount: nat, k: nat) {
    k < (offsetcount - offsetcount % 3) / 3
  }

  /** The match from t that was reported is the preferred one. The vector has its captures, and unset pairs for the
      other groups. The yield is one more than the highest number of a group that has captured something, or zero
      when there was no room for a group. */
  ghost predicate Reported(c: Context, alts: Branches, w: Wanted, t: nat, offsetcount: nat, rc: int, end: nat, v: seq<int>) {
    var best := Best(c, alts, w, t);
    && best.Some? && end == best.value.pos
    && |v| == offsetcount && (offsetcount >= 2 ==> v[0] == t && v[1] == end)
    && (forall k: nat :: 1 <= k <= TopBracket(alts) && Room(offsetcount, k) ==>
          (v[2 * k], v[2 * k + 1])
          == if k in best.value.caps then (best.value.caps[k].start as int, best.value.caps[k].end as int) else (-1, -1))
    && (rc > 0 ==>
          && (forall k :: k in best.value.caps ==> k < rc && Room(offsetcount, k))
          && (rc == 1 || rc - 1 in best.value.caps))
    && (rc == 0 ==> offsetcount < 2 || !Room(offsetcount, TopBracket(alts)))
  }

  /** The preferred way is a wanted match, and every span that it has captured is a match of a group of that number. */
  lemma BestMeans(c: Context, alts: Branches, w: Wanted, t: nat)
    requires t <= |c.s| && BranchesOk(alts, c.caseless)
    ensures var best := Best(c, alts, w, t);
            && (best.Some? <==> StartsMatch(c, alts, w, t))
            && (best.Some? ==>
                  && IsMatch(c, alts, w, t, best.value.pos)
                  && forall k :: k in best.value.caps ==>
                       && t <= best.value.caps[k].start <= best.value.caps[k].end <= best.value.pos
                       && GainedBy(c, GroupsOf(alts), k, best.value.caps[k]))
  {
    hide MBranches, BranchesWays, HasGroup;
    var ws := BranchesWays(c, alts, Way(t, map[]));
    FirstOfWays(w, t, ws);
    var best := Best(c, alts, w, t);
    if best.Some? {
      BranchesGain(c, alts, Way(t, map[]), best.value);
      assert IsMatch(c, alts, w, t, best.value.pos);
    }
    if j: nat :| IsMatch(c, alts, w, t, j) {
      WaysMean(c, alts, Way(t, map[]), j);
    }
  }

  lemma {:induction false} FirstOfWays(w: Wanted, t: nat, ws: seq<Way>)
    ensures var x := FirstWanted(w, t, ws);
            && (x.Some? ==> x.value in ws && !(x.value.pos == t && (w.notempty || (w.notemptyAtStart && t == w.startOffset))))
            && (x.None? ==> forall y :: y in ws ==> y.pos == t && (w.notempty || (w.notemptyAtStart && t == w.startOffset)))
  {
    if ws != [] { FirstOfWays(w, t, ws[1..]); }
  }

  /** No group has a number above the highest. */
  lemma {:induction false} TopBounds(alts: Branches, k: nat, body: Branches)
    requires HasGroup(alts, k, body)
    ensures k <= TopBracket(alts)
    decreases alts, 0
  {
    if HasGroupIn(alts.b, k, body) { TopBoundsIn(alts.b, k, body); } else { TopBounds(alts.rest, k, body); }
  }

  lemma {:induction false} TopBoundsIn(ps: Pieces, k: nat, body: Branches)
    requires HasGroupIn(ps, k, body)
    ensures k <= TopOfPieces(ps)
    decreases ps, 0
  {
    if HasGroupAt(ps.hd, k, body) {
      if !(ps.hd.cap == k && ps.hd.alts == body) { TopBounds(ps.hd.alts, k, body); }
    } else {
      TopBoundsIn(ps.tl, k, body);
    }
  }

  /** And unless it is zero, some group has it. */
  lemma {:induction false} TopReached(alts: Branches) returns (body: Branches)
    requires TopBracket(alts) > 0
    ensures HasGroup(alts, TopBracket(alts), body)
    decreases alts, 0
  {
    hide HasGroupIn, TopOfPieces;
    if alts.Only? || TopOfPieces(alts.b) >= TopBracket(alts.rest) {
      body := TopReachedIn(alts.b);
    } else {
      body := TopReached(alts.rest);
    }
  }

  lemma {:induction false} TopReachedIn(ps: Pieces) returns (body: Branches)
    requires TopOfPieces(ps) > 0
    ensures HasGroupIn(ps, TopOfPieces(ps), body)
    decreases ps, 0
  {
    var p := ps.hd;
    var n := if p.Paren? || p.RepeatParen? then Greatest(p.cap, TopBracket(p.alts)) else 0;
    if n < TopOfPieces(ps.tl) {
      body := TopReachedIn(ps.tl);
    } else if p.cap >= TopBracket(p.alts) {
      body := p.alts;
    } else {
      body := TopReached(p.alts);
    }
  }

  /** Group numbers are not nested in themselves, and no iteration is cut. */
  ghost predicate InItsOrder(c: Context, alts: Branches) {
    BranchesOk(alts, c.caseless) && Numbered(alts, {}) && forall a: Attempt :: a.c == c ==> Undisturbed(a, alts)
  }

  lemma QuietInOrder(c: Context, alts: Branches)
    requires BranchesOk(alts, c.caseless) && Numbered(alts, {}) && Quiet(alts)
    ensures InItsOrder(c, alts)
  {
    hide Undisturbed, Quiet, Numbered;
    forall a: Attempt | a.c == c ensures Undisturbed(a, alts) { QuietUndisturbed(a, alts); }
  }

  function AttemptOf(c: Context, w: Wanted, offsetcount: nat, top: nat): Attempt {
    var offsetEnd := offsetcount - offsetcount % 3;
    Attempt(c, offsetEnd, 2 * offsetEnd / 3, 0, w.startOffset, w.notempty, w.notemptyAtStart, top)
  }

  /** The run of match() that found the match: it started with vector v and had outcome r. */
  ghost predicate Ran(c: Context, alts: Branches, w: Wanted, t: nat, offsetcount: nat, rc: int, end: nat, vector: seq<int>,
                      v: seq<int>, r: State)
    requires BranchesOk(alts, c.caseless)
  {
    var a := AttemptOf(c, w, offsetcount, TopBracket(alts));
    && Finds(a, GroupOf(0, alts, c.caseless), t, v, r)
    && |v| == offsetcount && t <= |c.s| && end == r.pos
    && vector == Whole(r.ov, offsetcount, t, r.pos)
    && (forall k: nat :: 1 <= k <= TopBracket(alts) && a.Fits(k) ==> Pair(v, k) == (-1, -1))
    && (rc > 0 ==> rc == r.top / 2 && !r.lost)
    && (rc == 0 ==> offsetcount < 2 || 2 * TopBracket(alts) >= a.offsetMax)
  }

  lemma {:induction false} FirstMatched(a: Attempt, base: State, w: Wanted, xs: seq<State>, ws: seq<Way>)
    requires Describes(a, a.c, w) && Matched(a, base, map[], xs, ws)
    ensures var x, y := FirstOf(a, xs, Done), FirstWanted(w, a.mstart, ws);
            (x.Some? <==> y.Some?) && (x.Some? ==> Reflects(a, base, map[], x.value, y.value))
    decreases |xs|
  {
    hide Matched, Reflects;
    MatchedLength(a, base, map[], xs, ws);
    if xs != [] {
      MatchedTail(a, base, map[], xs, ws);
      SamePlace(a, base, map[], xs[0], ws[0]);
      assert Leave(a, Done, xs[0]) == if a.Acceptable(xs[0].pos) then Some(xs[0]) else None;
      FirstMatched(a, base, w, xs[1..], ws[1..]);
    }
  }

  lemma GroupRuns(a: Attempt, g: Group, st: State)
    ensures ItemsOutcomes(a, Cons(Grp(g), Nil), st) == GroupOutcomes(a, g, st)
  {
    OneOrder(a, Grp(g), st);
    assert NodeOutcomes(a, Grp(g), st) == GroupOutcomes(a, g, st);
  }

  /** The outcome that was found is the preferred way. */
  lemma RanBest(c: Context, alts: Branches, w: Wanted, t: nat, offsetcount: nat, v: seq<int>, r: State)
    requires c.Valid() && InItsOrder(c, alts) && t <= |c.s| && |v| == offsetcount
    requires Finds(AttemptOf(c, w, offsetcount, TopBracket(alts)), GroupOf(0, alts, c.caseless), t, v, r)
    ensures var a := AttemptOf(c, w, offsetcount, TopBracket(alts)).(mstart := t);
            var best := Best(c, alts, w, t);
            best.Some? && Reflects(a, State(t, v, 2, [], false), map[], r, best.value)
  {
    hide Matched, Reflects, Undisturbed, Numbered, GroupOutcomes, BranchesWays, TopBracket;
    var a := AttemptOf(c, w, offsetcount, TopBracket(alts)).(mstart := t);
    var st := State(t, v, 2, [], false);
    var g := GroupOf(0, alts, c.caseless);
    GroupRuns(a, g, st);
    PatternReflects(a, alts, st);
    FirstMatched(a, st, w, GroupOutcomes(a, g, st), BranchesWays(c, alts, Way(t, map[])));
  }

  lemma RanReports(c: Context, alts: Branches, w: Wanted, t: nat, offsetcount: nat, rc: int, end: nat, vector: seq<int>,
                   v: seq<int>, r: State)
    requires c.Valid() && InItsOrder(c, alts) && rc >= 0 && Ran(c, alts, w, t, offsetcount, rc, end, vector, v, r)
    ensures Reported(c, alts, w, t, offsetcount, rc, end, vector)
  {
    hide InItsOrder, Finds, Best, TopBracket, LostShows, TopShows, SlotsShow;
    var a := AttemptOf(c, w, offsetcount, TopBracket(alts)).(mstart := t);
    var st := State(t, v, 2, [], false);
    RanBest(c, alts, w, t, offsetcount, v, r);
    var best := Best(c, alts, w, t).value;
    RoomFits(offsetcount, a);
    forall k: nat | 1 <= k <= TopBracket(alts) && Room(offsetcount, k)
      ensures (vector[2 * k], vector[2 * k + 1])
           == if k in best.caps then (best.caps[k].start as int, best.caps[k].end as int) else (-1, -1)
    {
      assert a.Fits(k) && Pair(v, k) == (-1, -1);
      assert Pair(r.ov, k) == (vector[2 * k], vector[2 * k + 1]);
    }
    if rc > 0 { HighestPair(a, st, r, best, rc); }
    if rc == 0 && offsetcount >= 2 { assert !Room(offsetcount, TopBracket(alts)); }
  }

  lemma RoomFits(offsetcount: nat, a: Attempt)
    requires a.offsetEnd == offsetcount - offsetcount % 3 && a.offsetMax == 2 * a.offsetEnd / 3
    ensures forall k: nat :: Room(offsetcount, k) <==> 2 * k < a.offsetMax
    ensures forall k: nat :: Room(offsetcount, k) ==> 2 * k + 1 < offsetcount
  {
  }

  lemma HighestPair(a: Attempt, st: State, r: State, w: Way, rc: int)
    requires LostShows(a, st, r.lost, w.caps) && TopShows(a, st, r.top, w.caps) && !r.lost && st.top == 2 && rc == r.top / 2
    ensures forall k :: k in w.caps ==> a.Fits(k) && k < rc
    ensures rc == 1 || rc - 1 in w.caps
  {
  }

  /** Compiles a pattern, and studies it if asked to. */
  method Prepare(alts: Branches, caseless: bool, tb: Tables, cbits: seq<bv8>, anchored: bool, studied: bool) returns (r: Compiled)
    requires BranchesOk(alts, caseless) && TablesAgree(tb, cbits)
    requires studied ==> ScannableGroup(GroupOf(0, alts, caseless), caseless)
    ensures r.TooLong? <==> PreRegex(0, alts, caseless) + 1 > 65536
    ensures r.Compiled? ==>
              var g := GroupOf(0, alts, caseless);
              && AtPattern(r.code, g, caseless)
              && HoldsAlways(r.facts, tb, caseless, g)
              && r.facts.topBracket == TopBracket(alts)
              && (r.facts.minLength.Some? <==> studied)
              && r.anchored == (anchored || LeadsWith(g.alts, OP_ALLANY))
  {
    hide AtPattern, HoldsAlways, LeadsWith, ScannableGroup, InferBranches, PreRegex, TablesAgree, EmitBranches, GroupStarts, FactOf,
         TiedToLines, TopBracket;
    TablesValid(tb, cbits);
    r := PcreCompile(alts, caseless, tb, anchored);
    if studied && r.Compiled? {
      var facts := PcreStudy.PcreStudy(r.code, tb, cbits, caseless, r.anchored, r.facts, GroupOf(0, alts, caseless));
      r := r.(facts := facts);
    }
  }

  /** Compiles a pattern without making further repeats possessive, studies it if asked to, and matches it.
      Unless the pattern is too long or a limit was hit, a match is found exactly when the pattern, as its
      meaning is defined on the parsed form, matches from some allowed starting point; it starts at the
      leftmost such point. */
  method SearchAsIs(alts: Branches, caseless: bool, tb: Tables, cbits: seq<bv8>, o: Options, studied: bool,
                    subject: seq<byte>, w: Wanted, offsetcount: nat, matchLimit: nat, matchLimitRecursion: nat)
    returns (tooLong: bool, rc: int, start: nat, end: nat, vector: seq<int>, calls: nat, ghost v: seq<int>, ghost r: State)
    requires BranchesOk(alts, caseless) && TablesAgree(tb, cbits) && w.startOffset <= |subject|
    requires Settled(alts) && (studied ==> Studiable(alts)) && offsetcount >= 2
    ensures tooLong <==> PreRegex(0, alts, caseless) + 1 > 65536
    ensures !tooLong ==> Answers(Context(subject, tb, caseless), alts, w, o, rc, start, end)
    ensures !tooLong && rc >= 0 && InItsOrder(Context(subject, tb, caseless), alts) ==>
              Reported(Context(subject, tb, caseless), alts, w, start, offsetcount, rc, end, vector)
    ensures !tooLong && rc >= 0 ==>
              calls <= matchLimit && Ran(Context(subject, tb, caseless), alts, w, start, offsetcount, rc, end, vector, v, r)
    ensures !tooLong && rc < 0 ==> rc in {-1, -8, -21}
    ensures !tooLong && rc == -8 ==> calls > matchLimit
    ensures !tooLong && rc == -21 ==>
              exists t: nat :: t <= |subject| && matchLimitRecursion <= WGroup(GroupOf(0, alts, caseless), |subject|, t)
  {
    hide AtPattern, HoldsAlways, FactsSound, LeadsWith, CheckedGroup, CapsGroup, ScannableGroup, InferBranches, PreRegex, Settled,
         TablesAgree, EmitBranches, MatchesAt, StartsMatch, IsMatch, First, DGroup, Exhausted, NoMatches, WGroup, CapturesOrdered,
         Allowed, TopBracket, DistinctGroup, InItsOrder, Reported;
    tooLong, rc, start, end, vector, calls, v, r := false, 0, 0, 0, [], 0, [], State(0, [], 0, [], false);
    TablesValid(tb, cbits);
    PatternUsable(alts, caseless);
    PatternSettled(0, alts, caseless);
    var compiled := Prepare(alts, caseless, tb, cbits, o.anchored, studied);
    if compiled.TooLong? { tooLong := true; return; }
    ghost var g := GroupOf(0, alts, caseless);
    var facts := compiled.facts;
    var offsets := new int[offsetcount](_ => 0);
    var md := new MatchData(subject, compiled.code, tb, caseless, offsets, offsetcount - offsetcount % 3, w.startOffset,
                            w.notempty, w.notemptyAtStart, matchLimit, matchLimitRecursion, facts.topBracket);
    var o' := o.(anchored := compiled.anchored);
    FactsFor(facts, tb, caseless, g, subject);
    ghost var at;
    rc, at, v, r := PcreExec(md, facts, o', offsetcount, g);
    calls := md.matchCallCount;
    ghost var a := md.AttemptAt(0);
    if rc == PCRE_ERROR_NOMATCH {
      forall t: nat | Allowed(a.c, w, o, t) ensures !StartsMatch(a.c, alts, w, t) { NoneAnywhere(a, alts, w, o, o', t); }
    }
    if rc >= 0 {
      start, end, vector := offsets[0], offsets[1], offsets[..];
      Located(a, alts, w, o, o', at, v, r);
      assert a == AttemptOf(a.c, w, offsetcount, TopBracket(alts));
      assert Ran(a.c, alts, w, start, offsetcount, rc, end, vector, v, r);
      if InItsOrder(a.c, alts) { RanReports(a.c, alts, w, start, offsetcount, rc, end, vector, v, r); }
    }
  }

  /** Compiles a pattern in the same way, and runs the DFA engine from one starting point. Unless a list in the workspace
      becomes full, the ends are exactly those of the matches that the pattern has there. */
  method DfaSearchAsIs(alts: Branches, caseless: bool, tb: Tables, subject: seq<byte>, w: Wanted, start: nat, wscount: nat,
                       offsetcount: nat)
    returns (tooLong: bool, rc: int, offsets: array<int>, ghost ends: seq<nat>)
    requires BranchesOk(alts, caseless) && CaseConsistent(tb) && w.startOffset <= start <= |subject|
    ensures tooLong <==> PreRegex(0, alts, caseless) + 1 > 65536
    ensures !tooLong && rc != -19 ==>
              Collects(Context(subject, tb, caseless), alts, w, start, rc, offsets[..], offsetcount, ends)
  {
    hide AtPattern, HoldsAlways, LeadsWith, InferBranches, PreRegex, EmitBranches, FactOf, TiedToLines, TopBracket, MBranches, Stored,
         MatchCount, Increasing, CaseConsistent, DAlts;
    tooLong, rc, ends := false, 0, [];
    offsets := new int[offsetcount](_ => -1);
    var compiled := PcreCompile(alts, caseless, tb, false);
    if compiled.TooLong? { tooLong := true; return; }
    ghost var g := GroupOf(0, alts, caseless);
    var c := Context(subject, tb, caseless);
    var engine := new Engine(compiled.code, c, wscount, w.startOffset, w.notempty, w.notemptyAtStart);
    rc, ends := engine.Exec(start, offsets, offsetcount, g);
    forall j: nat ensures DGroup(c, g, start, j) <==> MBranches(c, alts, start, j) {
      BranchesMean(c, alts, start, j);
      PlainMatch(c, g, start, j);
    }
  }

  // ---- With automatic possessive repeats --------------------------------------------------------------------

  lemma SameMatches(c: Context, alts: Branches, w: Wanted, t: nat)
    requires c.Valid() && OrderlyTables(c.tb) && BranchesOk(alts, c.caseless) && NoZeroMissed(c.tb, c.caseless, alts)
    requires t <= |c.s|
    ensures forall j: nat :: IsMatch(c, Possess(c.tb, c.caseless, alts), w, t, j) <==> IsMatch(c, alts, w, t, j)
    ensures StartsMatch(c, Possess(c.tb, c.caseless, alts), w, t) <==> StartsMatch(c, alts, w, t)
  {
    hide OrderlyTables, NoZeroMissed, Possess, MBranches;
    var alts' := Possess(c.tb, c.caseless, alts);
    forall j: nat ensures IsMatch(c, alts', w, t, j) <==> IsMatch(c, alts, w, t, j) { PossessedMeans(c, alts, t, j); }
    if j: nat :| IsMatch(c, alts', w, t, j) { assert IsMatch(c, alts, w, t, j); }
    if j: nat :| IsMatch(c, alts, w, t, j) { assert IsMatch(c, alts', w, t, j); }
  }

  lemma {:induction false} SameTop(tb: Tables, caseless: bool, ps: Pieces)
    requires tb.Valid()
    ensures TopOfPieces(PossessAll(tb, caseless, ps)) == TopOfPieces(ps)
    decreases ps, 0
  {
    hide Decided;
    if ps.Then? {
      SameTop(tb, caseless, ps.tl);
      if ps.hd.Paren? || ps.hd.RepeatParen? { SameTopBracket(tb, caseless, ps.hd.alts); }
    }
  }

  lemma {:induction false} SameTopBracket(tb: Tables, caseless: bool, alts: Branches)
    requires tb.Valid()
    ensures TopBracket(Possess(tb, caseless, alts)) == TopBracket(alts)
    decreases alts, 1
  {
    SameTop(tb, caseless, alts.b);
    if alts.Or? { SameTopBracket(tb, caseless, alts.rest); }
  }

  lemma {:induction false} SameStudy(tb: Tables, caseless: bool, ps: Pieces)
    requires tb.Valid() && PiecesOk(ps, caseless)
    ensures StudiablePieces(PossessAll(tb, caseless, ps)) == StudiablePieces(ps)
    decreases ps, 0
  {
    hide Decided, AnySeen, NumberOk;
    if ps.Then? {
      SameStudy(tb, caseless, ps.tl);
      if ps.hd.Paren? || ps.hd.RepeatParen? {
        SameStudyBranches(tb, caseless, ps.hd.alts);
        BranchesStay(tb, caseless, ps.hd.alts);
      }
    }
  }

  lemma {:induction false} SameStudyBranches(tb: Tables, caseless: bool, alts: Branches)
    requires tb.Valid() && BranchesOk(alts, caseless)
    ensures Studiable(Possess(tb, caseless, alts)) == Studiable(alts)
    decreases alts, 1
  {
    SameStudy(tb, caseless, alts.b);
    if alts.Or? { SameStudyBranches(tb, caseless, alts.rest); }
  }

  /** What the possessive repeats leave as it was. */
  lemma PossessedFits(tb: Tables, caseless: bool, alts: Branches)
    requires OrderlyTables(tb) && BranchesOk(alts, caseless)
    ensures var alts' := Possess(tb, caseless, alts);
            && BranchesOk(alts', caseless) && TopBracket(alts') == TopBracket(alts)
            && (Settled(alts') <==> Settled(alts)) && (Studiable(alts') <==> Studiable(alts))
            && PreRegex(0, alts', caseless) == PreRegex(0, alts, caseless)
  {
    hide OrderlyTables, Possess, TopBracket, Settled, PreBranches;
    CaseKnown(tb);
    BranchesStay(tb, caseless, alts);
    SameTopBracket(tb, caseless, alts);
    SameStudyBranches(tb, caseless, alts);
    PossessedBranchesLen(tb, caseless, alts);
  }

  /** Compiles a pattern, with the unlimited repeats made possessive for which check_auto_possessive() says yes,
      studies it if asked to, and matches it. Unless the pattern is too long or a limit was hit, the result is the
      one for the pattern that is compiled; when the check misses no minimum of zero, that is the one for the
      pattern itself, as its meaning is defined on the parsed form. */
  method Search(alts: Branches, caseless: bool, tb: Tables, cbits: seq<bv8>, o: Options, studied: bool,
                subject: seq<byte>, w: Wanted, offsetcount: nat, matchLimit: nat, matchLimitRecursion: nat)
    returns (tooLong: bool, rc: int, start: nat, end: nat, vector: seq<int>, calls: nat)
    requires BranchesOk(alts, caseless) && OrderlyTables(tb) && TablesAgree(tb, cbits) && w.startOffset <= |subject|
    requires Settled(alts) && (studied ==> Studiable(alts)) && offsetcount >= 2
    ensures tooLong <==> PreRegex(0, alts, caseless) + 1 > 65536
    ensures !tooLong ==>
              && tb.Valid()
              && Answers(Context(subject, tb, caseless), Possess(tb, caseless, alts), w, o, rc, start, end)
              && (NoZeroMissed(tb, caseless, alts) ==> Answers(Context(subject, tb, caseless), alts, w, o, rc, start, end))
    ensures !tooLong && rc >= 0 ==>
              var c := Context(subject, tb, caseless);
              && tb.Valid() && calls <= matchLimit
              && (InItsOrder(c, Possess(tb, caseless, alts)) ==>
                    Reported(c, Possess(tb, caseless, alts), w, start, offsetcount, rc, end, vector))
              && (NoZeroMissed(tb, caseless, alts) && InItsOrder(c, alts) ==>
                    Reported(c, alts, w, start, offsetcount, rc, end, vector))
    ensures !tooLong && rc < 0 ==> rc in {-1, -8, -21}
    ensures !tooLong && rc == -8 ==> calls > matchLimit
    ensures !tooLong && rc == -21 ==>
              tb.Valid() && BranchesOk(Possess(tb, caseless, alts), caseless)
              && exists t: nat :: t <= |subject|
                                  && matchLimitRecursion <= WGroup(GroupOf(0, Possess(tb, caseless, alts), caseless), |subject|, t)
  {
    hide OrderlyTables, TablesAgree, Possess, Settled, TopBracket, PreRegex, StartsMatch, IsMatch, WGroup, EmitBranches, BranchesOk;
    CaseKnown(tb);
    PossessedFits(tb, caseless, alts);
    ghost var v, r;
    tooLong, rc, start, end, vector, calls, v, r :=
      SearchAsIs(Possess(tb, caseless, alts), caseless, tb, cbits, o, studied, subject, w, offsetcount, matchLimit, matchLimitRecursion);
    if !tooLong && NoZeroMissed(tb, caseless, alts) {
      ghost var c := Context(subject, tb, caseless);
      SameAnswers(c, alts, w, o, rc, start, end);
      if rc >= 0 && InItsOrder(c, alts) {
        SameRun(c, alts, w, start, offsetcount, rc, end, vector, v, r);
        RanReports(c, alts, w, start, offsetcount, rc, end, vector, v, r);
      }
    }
  }

  lemma SameRun(c: Context, alts: Branches, w: Wanted, t: nat, offsetcount: nat, rc: int, end: nat, vector: seq<int>,
                v: seq<int>, r: State)
    requires c.Valid() && OrderlyTables(c.tb) && BranchesOk(alts, c.caseless) && NoZeroMissed(c.tb, c.caseless, alts)
    requires BranchesOk(Possess(c.tb, c.caseless, alts), c.caseless)
    requires Ran(c, Possess(c.tb, c.caseless, alts), w, t, offsetcount, rc, end, vector, v, r)
    ensures Ran(c, alts, w, t, offsetcount, rc, end, vector, v, r)
  {
    hide OrderlyTables, Possess, NoZeroMissed, BranchesOk, TopBracket, GroupOutcomes;
    SameTopBracket(c.tb, c.caseless, alts);
    var a := AttemptOf(c, w, offsetcount, TopBracket(alts)).(mstart := t);
    var st := State(t, v, 2, [], false);
    PossessedSame(a, 0, alts, st);
    GroupRuns(a, GroupOf(0, alts, c.caseless), st);
    GroupRuns(a, GroupOf(0, Possess(c.tb, c.caseless, alts), c.caseless), st);
  }

  lemma SameAnswers(c: Context, alts: Branches, w: Wanted, o: Options, rc: int, start: nat, end: nat)
    requires c.Valid() && OrderlyTables(c.tb) && BranchesOk(alts, c.caseless) && NoZeroMissed(c.tb, c.caseless, alts)
    requires Answers(c, Possess(c.tb, c.caseless, alts), w, o, rc, start, end)
    ensures Answers(c, alts, w, o, rc, start, end)
  {
    hide OrderlyTables, Possess, NoZeroMissed, StartsMatch, IsMatch, BranchesOk;
    forall t: nat | t <= |c.s| ensures StartsMatch(c, Possess(c.tb, c.caseless, alts), w, t) <==> StartsMatch(c, alts, w, t) {
      SameMatches(c, alts, w, t);
    }
    if rc >= 0 { SameMatches(c, alts, w, start); }
  }

  /** At a+b{0}a the check misses the zero. On the subject aa the pattern has a match from the start, and the
      pattern that is compiled has none at all, so that this is what a search then reports. */
  lemma ZeroMissed(tb: Tables, w: Wanted, o: Options, rc: int, start: nat, end: nat)
    requires tb.Valid() && w.startOffset == 0
    ensures var c := Context([97, 97], tb, false);
            && BranchesOk(MISSED, false) && !NoZeroMissed(tb, false, MISSED)
            && StartsMatch(c, MISSED, w, 0)
            && (Answers(c, Possess(tb, false, MISSED), w, o, rc, start, end) ==> rc < 0 && !Answers(c, MISSED, w, o, -1, 0, 0))
  {
    hide Possess, MBranches, NoZeroMissed, BranchesOk;
    var c := Context([97, 97], tb, false);
    MissedMeans(tb, 0, 2);
    assert IsMatch(c, MISSED, w, 0, 2);
    if start <= 2 { MissedMeans(tb, start, end); }
    assert Allowed(c, w, o, 0);
  }

  /** The same for the DFA engine. */
  method DfaSearch(alts: Branches, caseless: bool, tb: Tables, subject: seq<byte>, w: Wanted, start: nat, wscount: nat,
                   offsetcount: nat)
    returns (tooLong: bool, rc: int, offsets: array<int>, ghost ends: seq<nat>)
    requires BranchesOk(alts, caseless) && OrderlyTables(tb) && w.startOffset <= start <= |subject|
    ensures tooLong <==> PreRegex(0, alts, caseless) + 1 > 65536
    ensures !tooLong && rc != -19 ==>
              var c := Context(subject, tb, caseless);
              && tb.Valid()
              && Collects(c, Possess(tb, caseless, alts), w, start, rc, offsets[..], offsetcount, ends)
              && (NoZeroMissed(tb, caseless, alts) ==> Collects(c, alts, w, start, rc, offsets[..], offsetcount, ends))
  {
    hide OrderlyTables, Possess, PreRegex, IsMatch, EmitBranches, BranchesOk, Stored, MatchCount, Increasing;
    CaseKnown(tb);
    PossessedFits(tb, caseless, alts);
    tooLong, rc, offsets, ends := DfaSearchAsIs(Possess(tb, caseless, alts), caseless, tb, subject, w, start, wscount, offsetcount);
    if NoZeroMissed(tb, caseless, alts) { SameMatches(Context(subject, tb, caseless), alts, w, start); }
  }

  lemma CaseKnown(tb: Tables)
    requires OrderlyTables(tb)
    ensures CaseConsistent(tb) && tb.Valid()
  {
  }
}

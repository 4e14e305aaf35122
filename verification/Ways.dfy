/** The ways in which a pattern matches, in the order of its alternatives and quantifiers and with the spans that its
    groups capture, defined on the parsed form alone. */
module Ways {
  import opened ByteCode
  import opened Meaning
  import opened Syntax

  datatype Span = Span(start: nat, end: nat)

  /** Where a match stands, and what the groups have captured so far. */
  datatype Way = Way(pos: nat, caps: map<nat, Span>)

  function Left(c: Context, pos: nat): nat {
    if pos <= |c.s| then |c.s| - pos else 0
  }

  // ---- The ways of a pattern ---------------------------------------------------------------------------------

  /** One more byte is taken before doing without it by a greedy repeat, and after by a lazy one; a possessive one
      does not do without a byte that it can take. */
  function RunWays(c: Context, u: Unit, min: nat, max: int, m: Mode, w: Way): seq<Way>
    decreases Left(c, w.pos)
  {
    var more :=
      if max != 0 && Test(c, u, w.pos) then
        RunWays(c, u, if min > 0 then min - 1 else 0, if max < 0 then max else max - 1, m, w.(pos := w.pos + 1))
      else [];
    if min > 0 then more
    else match m
         case Greedy => more + [w]
         case Lazy => [w] + more
         case Possessive => if more == [] then [w] else more
  }

  function PieceWays(c: Context, p: Piece, w: Way): seq<Way>
    decreases p, 5
  {
    match p
    case Single(u, _) => if Test(c, u, w.pos) then [w.(pos := w.pos + 1)] else []
    case Repeat(u, min, max, m, _) => RunWays(c, u, min, max, m, w)
    case Paren(cap, alts) => GroupWays(c, cap, alts, w)
    case RepeatParen(cap, alts, min, max, lazy) =>
      if max >= 0 then TimesWays(c, cap, alts, lazy, min, max, w) else UnlimitedWays(c, cap, alts, lazy, min, w)
  }

  /** The branches from left to right; what a branch matches is what the group has captured. */
  function GroupWays(c: Context, cap: nat, alts: Branches, w: Way): seq<Way>
    decreases alts, 1
  {
    Recorded(cap, w.pos, BranchesWays(c, alts, w))
  }

  function Recorded(cap: nat, start: nat, ws: seq<Way>): (r: seq<Way>)
    ensures |r| == |ws|
  {
    if ws == [] then [] else [Record(cap, start, ws[0])] + Recorded(cap, start, ws[1..])
  }

  function Record(cap: nat, start: nat, w: Way): Way {
    if cap == 0 then w else w.(caps := w.caps[cap := Span(start, w.pos)])
  }

  /** min to max iterations; a further one is tried before doing without it, or after by a lazy quantifier. */
  function TimesWays(c: Context, cap: nat, alts: Branches, lazy: bool, min: nat, max: nat, w: Way): seq<Way>
    decreases alts, 2, max, 0, 0
  {
    if max == 0 then [w]
    else
      var more := EachTimesWays(c, cap, alts, lazy, if min > 0 then min - 1 else 0, max - 1, GroupWays(c, cap, alts, w));
      if min > 0 then more else if lazy then [w] + more else more + [w]
  }

  function EachTimesWays(c: Context, cap: nat, alts: Branches, lazy: bool, min: nat, max: nat, ws: seq<Way>): seq<Way>
    decreases alts, 2, max, 1, |ws|
  {
    if ws == [] then []
    else TimesWays(c, cap, alts, lazy, min, max, ws[0]) + EachTimesWays(c, cap, alts, lazy, min, max, ws[1..])
  }

  /** One or more iterations without limit. After one that matched nothing no further one is tried. */
  function EndlessWays(c: Context, cap: nat, alts: Branches, lazy: bool, w: Way): seq<Way>
    decreases alts, 2, Left(c, w.pos), 2, 0
  {
    EachEndlessWays(c, cap, alts, lazy, w.pos, GroupWays(c, cap, alts, w))
  }

  function EachEndlessWays(c: Context, cap: nat, alts: Branches, lazy: bool, start: nat, ws: seq<Way>): seq<Way>
    decreases alts, 2, Left(c, start), 1, |ws|
  {
    if ws == [] then []
    else FurtherWays(c, cap, alts, lazy, start, ws[0]) + EachEndlessWays(c, cap, alts, lazy, start, ws[1..])
  }

  function FurtherWays(c: Context, cap: nat, alts: Branches, lazy: bool, start: nat, w: Way): seq<Way>
    decreases alts, 2, Left(c, start), 0, 0
  {
    if !(start < w.pos <= |c.s|) then [w]
    else if lazy then [w] + EndlessWays(c, cap, alts, lazy, w)
    else EndlessWays(c, cap, alts, lazy, w) + [w]
  }

  /** min iterations and more. */
  function UnlimitedWays(c: Context, cap: nat, alts: Branches, lazy: bool, min: nat, w: Way): seq<Way>
    decreases alts, 3, min, 0, 0
  {
    if min == 0 then
      if lazy then [w] + EndlessWays(c, cap, alts, lazy, w) else EndlessWays(c, cap, alts, lazy, w) + [w]
    else if min == 1 then EndlessWays(c, cap, alts, lazy, w)
    else EachUnlimitedWays(c, cap, alts, lazy, min - 1, GroupWays(c, cap, alts, w))
  }

  function EachUnlimitedWays(c: Context, cap: nat, alts: Branches, lazy: bool, min: nat, ws: seq<Way>): seq<Way>
    decreases alts, 3, min, 1, |ws|
  {
    if ws == [] then []
    else UnlimitedWays(c, cap, alts, lazy, min, ws[0]) + EachUnlimitedWays(c, cap, alts, lazy, min, ws[1..])
  }

  function BranchesWays(c: Context, alts: Branches, w: Way): seq<Way>
    decreases alts, 0
  {
    match alts
    case Only(b) => PiecesWays(c, b, w)
    case Or(b, rest) => PiecesWays(c, b, w) + BranchesWays(c, rest, w)
  }

  function PiecesWays(c: Context, ps: Pieces, w: Way): seq<Way>
    decreases ps, 0
  {
    match ps
    case End => [w]
    case Then(p, tl) => EachPiecesWays(c, PieceWays(c, p, w), tl)
  }

  function EachPiecesWays(c: Context, ws: seq<Way>, ps: Pieces): seq<Way>
    decreases ps, 1, |ws|
  {
    if ws == [] then [] else PiecesWays(c, ps, ws[0]) + EachPiecesWays(c, ws[1..], ps)
  }

  // ---- Runs come longest or shortest first -------------------------------------------------------------------

  function Fewer(min: nat): nat {
    if min > 0 then min - 1 else 0
  }

  function Shorter(max: int): int {
    if max < 0 then max else max - 1
  }

  /** What a repeat that takes one more byte goes on with. */
  lemma RunsUnfold(c: Context, u: Unit, min: nat, max: int, m: Mode, w: Way)
    ensures var more := if max != 0 && Test(c, u, w.pos) then RunWays(c, u, Fewer(min), Shorter(max), m, w.(pos := w.pos + 1)) else [];
            RunWays(c, u, min, max, m, w)
            == if min > 0 then more
               else if m == Greedy then more + [w]
               else if m == Lazy then [w] + more
               else if more == [] then [w] else more
  {
  }

  lemma {:induction false} RunsSound(c: Context, u: Unit, min: nat, max: int, m: Mode, w: Way, x: Way)
    requires w.pos <= |c.s| && (max == -1 || min <= max) && x in RunWays(c, u, min, max, m, w)
    ensures x == w.(pos := x.pos) && MRun(c, u, min, max, m, w.pos, x.pos)
    decreases Left(c, w.pos)
  {
    hide RunWays, MRun, Test;
    RunsUnfold(c, u, min, max, m, w);
    if x != w || (max != 0 && Test(c, u, w.pos) && (min > 0 || m == Possessive)) {
      assert max != 0 && Test(c, u, w.pos);
      TestInside(c, u, w.pos);
      var v := w.(pos := w.pos + 1);
      if x in RunWays(c, u, Fewer(min), Shorter(max), m, v) {
        RunsSound(c, u, Fewer(min), Shorter(max), m, v, x);
        RunForward(c, u, Fewer(min), Shorter(max), m, v.pos, x.pos);
        OneLonger(c, u, min, max, m, w.pos, x.pos);
      } else {
        SomeRun(c, u, Shorter(max), v);
      }
    } else {
      EmptyRun(c, u, max, m, w.pos);
    }
  }

  lemma TestInside(c: Context, u: Unit, i: nat)
    requires Test(c, u, i)
    ensures i < |c.s|
  {
  }

  lemma EmptyRun(c: Context, u: Unit, max: int, m: Mode, i: nat)
    requires i <= |c.s| && max >= -1
    ensures MRun(c, u, 0, max, m, i, i) <==> !(m == Possessive && max != 0 && Test(c, u, i))
  {
  }

  lemma {:induction false} RunsComplete(c: Context, u: Unit, min: nat, max: int, m: Mode, w: Way, j: nat)
    requires w.pos <= |c.s| && (max == -1 || min <= max) && MRun(c, u, min, max, m, w.pos, j)
    ensures w.(pos := j) in RunWays(c, u, min, max, m, w)
    decreases Left(c, w.pos)
  {
    hide RunWays, Test;
    RunsUnfold(c, u, min, max, m, w);
    if j == w.pos {
      EmptyRun(c, u, max, m, w.pos);
      assert w.(pos := j) == w;
    } else {
      assert Test(c, u, w.pos);
      var v := w.(pos := w.pos + 1);
      OneLonger(c, u, min, max, m, w.pos, j);
      RunsComplete(c, u, Fewer(min), Shorter(max), m, v, j);
      assert v.(pos := j) == w.(pos := j);
    }
  }

  /** Longest first, shortest first, or no more than one. */
  ghost predicate InOrder(m: Mode, ws: seq<Way>) {
    match m
    case Greedy => forall k, l :: 0 <= k < l < |ws| ==> ws[l].pos < ws[k].pos
    case Lazy => forall k, l :: 0 <= k < l < |ws| ==> ws[k].pos < ws[l].pos
    case Possessive => |ws| <= 1
  }

  lemma {:induction false} RunsOrdered(c: Context, u: Unit, min: nat, max: int, m: Mode, w: Way)
    requires w.pos <= |c.s| && (max == -1 || min <= max)
    ensures InOrder(m, RunWays(c, u, min, max, m, w))
    decreases Left(c, w.pos)
  {
    hide RunWays, Test;
    RunsUnfold(c, u, min, max, m, w);
    if max != 0 && Test(c, u, w.pos) {
      TestInside(c, u, w.pos);
      var v := w.(pos := w.pos + 1);
      var more := RunWays(c, u, Fewer(min), Shorter(max), m, v);
      RunsOrdered(c, u, Fewer(min), Shorter(max), m, v);
      forall k | 0 <= k < |more| ensures w.pos < more[k].pos {
        RunsSound(c, u, Fewer(min), Shorter(max), m, v, more[k]);
        RunForward(c, u, Fewer(min), Shorter(max), m, v.pos, more[k].pos);
      }
    }
  }

  lemma RunForward(c: Context, u: Unit, min: nat, max: int, m: Mode, i: nat, j: nat)
    requires MRun(c, u, min, max, m, i, j)
    ensures i <= j <= |c.s|
  {
  }

  /** A repeat of a unit has exactly the runs that its limits allow, each once: the longest first when it is greedy,
      the shortest first when it is lazy, and only the longest when it is possessive. */
  lemma RunsExactly(c: Context, u: Unit, min: nat, max: int, m: Mode, w: Way)
    requires w.pos <= |c.s| && (max == -1 || min <= max)
    ensures InOrder(m, RunWays(c, u, min, max, m, w))
    ensures forall x :: x in RunWays(c, u, min, max, m, w) <==> x == w.(pos := x.pos) && MRun(c, u, min, max, m, w.pos, x.pos)
  {
    hide RunWays, MRun, InOrder;
    RunsOrdered(c, u, min, max, m, w);
    forall x ensures x in RunWays(c, u, min, max, m, w) <==> x == w.(pos := x.pos) && MRun(c, u, min, max, m, w.pos, x.pos) {
      if x in RunWays(c, u, min, max, m, w) { RunsSound(c, u, min, max, m, w, x); }
      if x == w.(pos := x.pos) && MRun(c, u, min, max, m, w.pos, x.pos) { RunsComplete(c, u, min, max, m, w, x.pos); }
    }
  }

  lemma OneLonger(c: Context, u: Unit, min: nat, max: int, m: Mode, i: nat, j: nat)
    requires max != 0 && Test(c, u, i) && i < j
    ensures MRun(c, u, min, max, m, i, j)
       <==> MRun(c, u, if min > 0 then min - 1 else 0, if max < 0 then max else max - 1, m, i + 1, j)
  {
  }

  /** There always is a possessive run of any length. */
  lemma {:induction false} SomeRun(c: Context, u: Unit, max: int, w: Way)
    requires w.pos <= |c.s| && max >= -1
    ensures RunWays(c, u, 0, max, Possessive, w) != []
  {
  }

  // ---- What the ways mean ------------------------------------------------------------------------------------------

  /** Group k with the branches body stands somewhere in the pattern. */
  ghost predicate HasGroup(alts: Branches, k: nat, body: Branches)
    decreases alts, 0
  {
    HasGroupIn(alts.b, k, body) || (alts.Or? && HasGroup(alts.rest, k, body))
  }

  ghost predicate HasGroupIn(ps: Pieces, k: nat, body: Branches)
    decreases ps, 0
  {
    ps.Then? && (HasGroupAt(ps.hd, k, body) || HasGroupIn(ps.tl, k, body))
  }

  ghost predicate HasGroupAt(p: Piece, k: nat, body: Branches)
    decreases p, 0
  {
    (p.Paren? || p.RepeatParen?) && ((p.cap == k && p.alts == body) || HasGroup(p.alts, k, body))
  }

  /** What w has captured and v had not is each time a match of a group of that number, inside the stretch between. */
  ghost predicate Gains(c: Context, groups: iset<(nat, Branches)>, v: Way, w: Way) {
    && v.pos <= w.pos <= |c.s|
    && (forall k :: k in v.caps ==> k in w.caps)
    && forall k :: k in w.caps ==>
         || (k in v.caps && v.caps[k] == w.caps[k])
         || (v.pos <= w.caps[k].start <= w.caps[k].end <= w.pos && GainedBy(c, groups, k, w.caps[k]))
  }

  ghost predicate GainedBy(c: Context, groups: iset<(nat, Branches)>, k: nat, span: Span) {
    exists body :: (k, body) in groups && MBranches(c, body, span.start, span.end)
  }

  lemma GainsTrans(c: Context, groups: iset<(nat, Branches)>, u: Way, v: Way, w: Way)
    requires Gains(c, groups, u, v) && Gains(c, groups, v, w)
    ensures Gains(c, groups, u, w)
  {
    hide GainedBy;
  }

  lemma GainsMore(c: Context, groups: iset<(nat, Branches)>, more: iset<(nat, Branches)>, v: Way, w: Way)
    requires Gains(c, groups, v, w) && groups <= more
    ensures Gains(c, more, v, w)
  {
    hide MBranches;
    forall k | k in w.caps && GainedBy(c, groups, k, w.caps[k]) ensures GainedBy(c, more, k, w.caps[k]) {
      var body :| (k, body) in groups && MBranches(c, body, w.caps[k].start, w.caps[k].end);
      assert (k, body) in more;
    }
  }

  ghost function GroupsOf(alts: Branches): iset<(nat, Branches)> {
    iset k: nat, body: Branches | HasGroup(alts, k, body) :: (k, body)
  }

  ghost function GroupsIn(ps: Pieces): iset<(nat, Branches)> {
    iset k: nat, body: Branches | HasGroupIn(ps, k, body) :: (k, body)
  }

  ghost function GroupsAt(p: Piece): iset<(nat, Branches)> {
    iset k: nat, body: Branches | HasGroupAt(p, k, body) :: (k, body)
  }

  /** Every way is a match of the pattern, and what it has captured are matches of the groups. */
  lemma {:induction false} BranchesGain(c: Context, alts: Branches, w: Way, x: Way)
    requires w.pos <= |c.s| && BranchesOk(alts, c.caseless) && x in BranchesWays(c, alts, w)
    ensures MBranches(c, alts, w.pos, x.pos) && Gains(c, GroupsOf(alts), w, x)
    decreases alts, 0
  {
    hide MPieces, PiecesWays, HasGroupIn, Gains, PiecesOk;
    if x in PiecesWays(c, alts.b, w) {
      PiecesGain(c, alts.b, w, x);
      assert GroupsIn(alts.b) <= GroupsOf(alts);
      GainsMore(c, GroupsIn(alts.b), GroupsOf(alts), w, x);
    } else {
      BranchesGain(c, alts.rest, w, x);
      assert GroupsOf(alts.rest) <= GroupsOf(alts);
      GainsMore(c, GroupsOf(alts.rest), GroupsOf(alts), w, x);
    }
  }

  lemma {:induction false} PiecesGain(c: Context, ps: Pieces, w: Way, x: Way)
    requires w.pos <= |c.s| && PiecesOk(ps, c.caseless) && x in PiecesWays(c, ps, w)
    ensures MPieces(c, ps, w.pos, x.pos) && Gains(c, GroupsIn(ps), w, x)
    decreases ps, 0
  {
    hide MPiece, PieceWays, HasGroupAt, GainedBy, PieceOk;
    if ps.Then? {
      var y := FromEach(c, PieceWays(c, ps.hd, w), ps.tl, x);
      PieceGains(c, ps.hd, w, y);
      PiecesGain(c, ps.tl, y, x);
      assert GroupsAt(ps.hd) <= GroupsIn(ps) && GroupsIn(ps.tl) <= GroupsIn(ps);
      GainsMore(c, GroupsAt(ps.hd), GroupsIn(ps), w, y);
      GainsMore(c, GroupsIn(ps.tl), GroupsIn(ps), y, x);
      GainsTrans(c, GroupsIn(ps), w, y, x);
      assert MPiece(c, ps.hd, w.pos, y.pos) && MPieces(c, ps.tl, y.pos, x.pos);
    }
  }

  lemma {:induction false} FromEach(c: Context, ws: seq<Way>, ps: Pieces, x: Way) returns (y: Way)
    requires x in EachPiecesWays(c, ws, ps)
    ensures y in ws && x in PiecesWays(c, ps, y)
    decreases |ws|
  {
    hide PiecesWays;
    if x in PiecesWays(c, ps, ws[0]) { y := ws[0]; } else { y := FromEach(c, ws[1..], ps, x); }
  }

  lemma {:induction false} PieceGains(c: Context, p: Piece, w: Way, x: Way)
    requires w.pos <= |c.s| && PieceOk(p, c.caseless) && x in PieceWays(c, p, w)
    ensures MPiece(c, p, w.pos, x.pos) && Gains(c, GroupsAt(p), w, x)
    decreases p, 5
  {
    hide MBranches, RunWays, GainedBy, BranchesOk;
    match p
    case Single(u, _) =>
    case Repeat(u, min, max, m, _) =>
      RunsSound(c, u, min, max, m, w, x);
      RunForward(c, u, min, max, m, w.pos, x.pos);
    case Paren(cap, alts) =>
      GroupGains(c, cap, alts, w, x);
      AtGroup(p);
      GainsMore(c, WithGroup(cap, alts), GroupsAt(p), w, x);
    case RepeatParen(cap, alts, min, max, lazy) =>
      if max >= 0 {
        var n := TimesGain(c, cap, alts, lazy, min, max, w, x);
        assert MPiece(c, p, w.pos, x.pos);
      } else {
        var n := UnlimitedGain(c, cap, alts, lazy, min, w, x);
        assert MPiece(c, p, w.pos, x.pos);
      }
      AtGroup(p);
      GainsMore(c, WithGroup(cap, alts), GroupsAt(p), w, x);
  }

  ghost function WithGroup(cap: nat, alts: Branches): iset<(nat, Branches)> {
    GroupsOf(alts) + iset{(cap, alts)}
  }

  lemma AtGroup(p: Piece)
    requires p.Paren? || p.RepeatParen?
    ensures WithGroup(p.cap, p.alts) <= GroupsAt(p)
  {
  }

  lemma {:induction false} GroupGains(c: Context, cap: nat, alts: Branches, w: Way, x: Way)
    requires w.pos <= |c.s| && BranchesOk(alts, c.caseless) && x in GroupWays(c, cap, alts, w)
    ensures MBranches(c, alts, w.pos, x.pos) && Gains(c, WithGroup(cap, alts), w, x)
    ensures cap > 0 ==> cap in x.caps && x.caps[cap] == Span(w.pos, x.pos)
    decreases alts, 1
  {
    hide MBranches, BranchesWays, GroupsOf;
    var y := FromRecorded(cap, w.pos, BranchesWays(c, alts, w), x);
    BranchesGain(c, alts, w, y);
    GainsMore(c, GroupsOf(alts), WithGroup(cap, alts), w, y);
    assert (cap, alts) in WithGroup(cap, alts);
  }

  lemma {:induction false} FromRecorded(cap: nat, start: nat, ws: seq<Way>, x: Way) returns (y: Way)
    requires x in Recorded(cap, start, ws)
    ensures y in ws && x == Record(cap, start, y)
  {
    if x == Record(cap, start, ws[0]) { y := ws[0]; } else { y := FromRecorded(cap, start, ws[1..], x); }
  }

  lemma MoreTimes(c: Context, alts: Branches, n: nat, i: nat, m: nat, j: nat)
    requires i <= m <= j && MBranches(c, alts, i, m) && MTimes(c, alts, n, m, j)
    ensures MTimes(c, alts, n + 1, i, j)
  {
  }

  lemma {:induction false} TimesGain(c: Context, cap: nat, alts: Branches, lazy: bool, min: nat, max: nat, w: Way, x: Way) returns (n: nat)
    requires w.pos <= |c.s| && BranchesOk(alts, c.caseless) && x in TimesWays(c, cap, alts, lazy, min, max, w)
    ensures n <= max && (min <= max ==> min <= n) && MTimes(c, alts, n, w.pos, x.pos) && Gains(c, WithGroup(cap, alts), w, x)
    decreases alts, 2, max, 0
  {
    hide MBranches, GroupWays, WithGroup, GainedBy;
    if x == w && (max == 0 || min == 0) {
      n := 0;
    } else {
      var min' := if min > 0 then min - 1 else 0;
      var y := FromTimes(c, cap, alts, lazy, min', max - 1, GroupWays(c, cap, alts, w), x);
      GroupGains(c, cap, alts, w, y);
      n := TimesGain(c, cap, alts, lazy, min', max - 1, y, x);
      GainsTrans(c, WithGroup(cap, alts), w, y, x);
      MoreTimes(c, alts, n, w.pos, y.pos, x.pos);
      n := n + 1;
    }
  }

  lemma {:induction false} FromTimes(c: Context, cap: nat, alts: Branches, lazy: bool, min: nat, max: nat, ws: seq<Way>, x: Way) returns (y: Way)
    requires x in EachTimesWays(c, cap, alts, lazy, min, max, ws)
    ensures y in ws && x in TimesWays(c, cap, alts, lazy, min, max, y)
    decreases |ws|
  {
    hide TimesWays;
    if x in TimesWays(c, cap, alts, lazy, min, max, ws[0]) { y := ws[0]; } else { y := FromTimes(c, cap, alts, lazy, min, max, ws[1..], x); }
  }

  lemma {:induction false} EndlessGain(c: Context, cap: nat, alts: Branches, lazy: bool, w: Way, x: Way) returns (n: nat)
    requires w.pos <= |c.s| && BranchesOk(alts, c.caseless) && x in EndlessWays(c, cap, alts, lazy, w)
    ensures n >= 1 && MTimes(c, alts, n, w.pos, x.pos) && Gains(c, WithGroup(cap, alts), w, x)
    decreases alts, 2, Left(c, w.pos), 2
  {
    hide MBranches, GroupWays, WithGroup, GainedBy;
    var y := FromEndless(c, cap, alts, lazy, w.pos, GroupWays(c, cap, alts, w), x);
    GroupGains(c, cap, alts, w, y);
    if x == y {
      assert MTimes(c, alts, 0, x.pos, x.pos);
      n := 0;
    } else {
      n := EndlessGain(c, cap, alts, lazy, y, x);
      GainsTrans(c, WithGroup(cap, alts), w, y, x);
    }
    MoreTimes(c, alts, n, w.pos, y.pos, x.pos);
    n := n + 1;
  }

  lemma {:induction false} FromEndless(c: Context, cap: nat, alts: Branches, lazy: bool, start: nat, ws: seq<Way>, x: Way) returns (y: Way)
    requires x in EachEndlessWays(c, cap, alts, lazy, start, ws)
    ensures y in ws && (x == y || (start < y.pos <= |c.s| && x in EndlessWays(c, cap, alts, lazy, y)))
    decreases |ws|
  {
    hide EndlessWays;
    if x in FurtherWays(c, cap, alts, lazy, start, ws[0]) { y := ws[0]; } else { y := FromEndless(c, cap, alts, lazy, start, ws[1..], x); }
  }

  lemma {:induction false} UnlimitedGain(c: Context, cap: nat, alts: Branches, lazy: bool, min: nat, w: Way, x: Way) returns (n: nat)
    requires w.pos <= |c.s| && BranchesOk(alts, c.caseless) && x in UnlimitedWays(c, cap, alts, lazy, min, w)
    ensures n >= min && MTimes(c, alts, n, w.pos, x.pos) && Gains(c, WithGroup(cap, alts), w, x)
    decreases alts, 3, min
  {
    hide MBranches, GroupWays, EndlessWays, WithGroup, GainedBy;
    if min == 0 && x == w {
      n := 0;
    } else if min <= 1 {
      n := EndlessGain(c, cap, alts, lazy, w, x);
    } else {
      var y := FromUnlimited(c, cap, alts, lazy, min - 1, GroupWays(c, cap, alts, w), x);
      GroupGains(c, cap, alts, w, y);
      n := UnlimitedGain(c, cap, alts, lazy, min - 1, y, x);
      GainsTrans(c, WithGroup(cap, alts), w, y, x);
      MoreTimes(c, alts, n, w.pos, y.pos, x.pos);
      n := n + 1;
    }
  }

  lemma {:induction false} FromUnlimited(c: Context, cap: nat, alts: Branches, lazy: bool, min: nat, ws: seq<Way>, x: Way) returns (y: Way)
    requires x in EachUnlimitedWays(c, cap, alts, lazy, min, ws)
    ensures y in ws && x in UnlimitedWays(c, cap, alts, lazy, min, y)
    decreases |ws|
  {
    hide UnlimitedWays;
    if x in UnlimitedWays(c, cap, alts, lazy, min, ws[0]) { y := ws[0]; } else { y := FromUnlimited(c, cap, alts, lazy, min, ws[1..], x); }
  }

  // ---- Every match is the end of some way --------------------------------------------------------------------------

  lemma {:induction false} BranchesComplete(c: Context, alts: Branches, w: Way, j: nat) returns (x: Way)
    requires w.pos <= |c.s| && BranchesOk(alts, c.caseless) && MBranches(c, alts, w.pos, j)
    ensures x in BranchesWays(c, alts, w) && x.pos == j <= |c.s| && w.pos <= j
    decreases alts, 0
  {
    hide MPieces, PiecesWays, PiecesOk;
    if MPieces(c, alts.b, w.pos, j) {
      x := PiecesComplete(c, alts.b, w, j);
    } else {
      x := BranchesComplete(c, alts.rest, w, j);
    }
  }

  lemma {:induction false} PiecesComplete(c: Context, ps: Pieces, w: Way, j: nat) returns (x: Way)
    requires w.pos <= |c.s| && PiecesOk(ps, c.caseless) && MPieces(c, ps, w.pos, j)
    ensures x in PiecesWays(c, ps, w) && x.pos == j <= |c.s| && w.pos <= j
    decreases ps, 0
  {
    hide MPiece, PieceWays, PieceOk;
    if ps.End? {
      x := w;
    } else {
      var m: nat :| w.pos <= m <= j && MPiece(c, ps.hd, w.pos, m) && MPieces(c, ps.tl, m, j);
      var y := PieceComplete(c, ps.hd, w, m);
      x := PiecesComplete(c, ps.tl, y, j);
      IntoEach(c, PieceWays(c, ps.hd, w), ps.tl, y, x);
    }
  }

  lemma {:induction false} IntoEach(c: Context, ws: seq<Way>, ps: Pieces, y: Way, x: Way)
    requires y in ws && x in PiecesWays(c, ps, y)
    ensures x in EachPiecesWays(c, ws, ps)
    decreases |ws|
  {
    hide PiecesWays;
    if y != ws[0] { IntoEach(c, ws[1..], ps, y, x); }
  }

  lemma {:induction false} PieceComplete(c: Context, p: Piece, w: Way, j: nat) returns (x: Way)
    requires w.pos <= |c.s| && PieceOk(p, c.caseless) && MPiece(c, p, w.pos, j)
    ensures x in PieceWays(c, p, w) && x.pos == j <= |c.s| && w.pos <= j
    decreases p, 5
  {
    hide MBranches, RunWays, BranchesOk;
    match p
    case Single(u, _) => x := w.(pos := j);
    case Repeat(u, min, max, m, _) =>
      RunsComplete(c, u, min, max, m, w, j);
      RunForward(c, u, min, max, m, w.pos, j);
      x := w.(pos := j);
    case Paren(cap, alts) => x := GroupComplete(c, cap, alts, w, j);
    case RepeatParen(cap, alts, min, max, lazy) =>
      var n: nat :| min <= n && (max < 0 || n <= max) && MTimes(c, alts, n, w.pos, j);
      if max >= 0 {
        x := TimesComplete(c, cap, alts, lazy, min, max, w, n, j);
      } else {
        x := UnlimitedComplete(c, cap, alts, lazy, min, w, n, j);
      }
  }

  lemma {:induction false} GroupComplete(c: Context, cap: nat, alts: Branches, w: Way, j: nat) returns (x: Way)
    requires w.pos <= |c.s| && BranchesOk(alts, c.caseless) && MBranches(c, alts, w.pos, j)
    ensures x in GroupWays(c, cap, alts, w) && x.pos == j <= |c.s| && w.pos <= j
    decreases alts, 1
  {
    hide MBranches, BranchesWays;
    var y := BranchesComplete(c, alts, w, j);
    x := Record(cap, w.pos, y);
    IntoRecorded(cap, w.pos, BranchesWays(c, alts, w), y);
  }

  lemma {:induction false} IntoRecorded(cap: nat, start: nat, ws: seq<Way>, y: Way)
    requires y in ws
    ensures Record(cap, start, y) in Recorded(cap, start, ws)
  {
    if y != ws[0] { IntoRecorded(cap, start, ws[1..], y); }
  }

  lemma {:induction false} TimesComplete(c: Context, cap: nat, alts: Branches, lazy: bool, min: nat, max: nat, w: Way, n: nat, j: nat)
    returns (x: Way)
    requires w.pos <= |c.s| && BranchesOk(alts, c.caseless) && min <= n <= max && MTimes(c, alts, n, w.pos, j)
    ensures x in TimesWays(c, cap, alts, lazy, min, max, w) && x.pos == j <= |c.s| && w.pos <= j
    decreases alts, 2, max, 0
  {
    hide MBranches, GroupWays;
    if n == 0 {
      x := w;
    } else {
      var m := FirstTime(c, alts, n, w.pos, j);
      var y := GroupComplete(c, cap, alts, w, m);
      var min' := if min > 0 then min - 1 else 0;
      x := TimesComplete(c, cap, alts, lazy, min', max - 1, y, n - 1, j);
      IntoTimes(c, cap, alts, lazy, min', max - 1, GroupWays(c, cap, alts, w), y, x);
    }
  }

  lemma {:induction false} IntoTimes(c: Context, cap: nat, alts: Branches, lazy: bool, min: nat, max: nat, ws: seq<Way>, y: Way, x: Way)
    requires y in ws && x in TimesWays(c, cap, alts, lazy, min, max, y)
    ensures x in EachTimesWays(c, cap, alts, lazy, min, max, ws)
    decreases |ws|
  {
    hide TimesWays;
    if y != ws[0] { IntoTimes(c, cap, alts, lazy, min, max, ws[1..], y, x); }
  }

  /** Iterations that match nothing can be left out. */
  lemma {:induction false} EndlessComplete(c: Context, cap: nat, alts: Branches, lazy: bool, w: Way, n: nat, j: nat) returns (x: Way)
    requires w.pos <= |c.s| && BranchesOk(alts, c.caseless) && n >= 1 && MTimes(c, alts, n, w.pos, j)
    ensures x in EndlessWays(c, cap, alts, lazy, w) && x.pos == j <= |c.s| && w.pos <= j
    decreases alts, 2, n, 2
  {
    hide MBranches, GroupWays;
    var m := FirstTime(c, alts, n, w.pos, j);
    var y := GroupComplete(c, cap, alts, w, m);
    if m == w.pos && n > 1 {
      x := EndlessComplete(c, cap, alts, lazy, w, n - 1, j);
    } else {
      x := y;
      if n > 1 { x := EndlessComplete(c, cap, alts, lazy, y, n - 1, j); } else { assert j == m; }
      IntoEndless(c, cap, alts, lazy, w.pos, GroupWays(c, cap, alts, w), y, x);
    }
  }

  lemma {:induction false} IntoEndless(c: Context, cap: nat, alts: Branches, lazy: bool, start: nat, ws: seq<Way>, y: Way, x: Way)
    requires y in ws && x in FurtherWays(c, cap, alts, lazy, start, y)
    ensures x in EachEndlessWays(c, cap, alts, lazy, start, ws)
    decreases |ws|
  {
    hide FurtherWays;
    if y != ws[0] { IntoEndless(c, cap, alts, lazy, start, ws[1..], y, x); }
  }

  lemma {:induction false} UnlimitedComplete(c: Context, cap: nat, alts: Branches, lazy: bool, min: nat, w: Way, n: nat, j: nat) returns (x: Way)
    requires w.pos <= |c.s| && BranchesOk(alts, c.caseless) && n >= min && MTimes(c, alts, n, w.pos, j)
    ensures x in UnlimitedWays(c, cap, alts, lazy, min, w) && x.pos == j <= |c.s| && w.pos <= j
    decreases alts, 3, min
  {
    hide MBranches, GroupWays, EndlessWays;
    if n == 0 {
      x := w;
    } else if min <= 1 {
      x := EndlessComplete(c, cap, alts, lazy, w, n, j);
    } else {
      var m := FirstTime(c, alts, n, w.pos, j);
      var y := GroupComplete(c, cap, alts, w, m);
      x := UnlimitedComplete(c, cap, alts, lazy, min - 1, y, n - 1, j);
      IntoUnlimited(c, cap, alts, lazy, min - 1, GroupWays(c, cap, alts, w), y, x);
    }
  }

  lemma {:induction false} IntoUnlimited(c: Context, cap: nat, alts: Branches, lazy: bool, min: nat, ws: seq<Way>, y: Way, x: Way)
    requires y in ws && x in UnlimitedWays(c, cap, alts, lazy, min, y)
    ensures x in EachUnlimitedWays(c, cap, alts, lazy, min, ws)
    decreases |ws|
  {
    hide UnlimitedWays;
    if y != ws[0] { IntoUnlimited(c, cap, alts, lazy, min, ws[1..], y, x); }
  }

  /** The ways of a pattern end exactly where the pattern matches. */
  lemma WaysMean(c: Context, alts: Branches, w: Way, j: nat)
    requires w.pos <= |c.s| && BranchesOk(alts, c.caseless)
    ensures MBranches(c, alts, w.pos, j) <==> exists x :: x in BranchesWays(c, alts, w) && x.pos == j
  {
    hide MBranches, BranchesWays;
    if MBranches(c, alts, w.pos, j) { var x := BranchesComplete(c, alts, w, j); }
    if x :| x in BranchesWays(c, alts, w) && x.pos == j { BranchesGain(c, alts, w, x); }
  }

  // ---- A group around a single unit --------------------------------------------------------------------------------

  /** (?:u), with u a single unit. */
  function Around(u: Unit): Branches {
    Only(Pieces.Then(Single(u, true), End))
  }

  lemma AroundWays(c: Context, u: Unit, w: Way)
    ensures GroupWays(c, 0, Around(u), w) == if Test(c, u, w.pos) then [w.(pos := w.pos + 1)] else []
  {
    hide Test;
    var v := w.(pos := w.pos + 1);
    var ws := PieceWays(c, Single(u, true), w);
    assert ws == if Test(c, u, w.pos) then [v] else [];
    assert BranchesWays(c, Around(u), w) == PiecesWays(c, Around(u).b, w) == EachPiecesWays(c, ws, End);
    assert PiecesWays(c, End, v) == [v] && Record(0, w.pos, v) == v && Recorded(0, w.pos, []) == [];
    assert EachPiecesWays(c, [], End) == [];
    assert EachPiecesWays(c, [v], End) == [v] + EachPiecesWays(c, [v][1..], End);
    assert Recorded(0, w.pos, [v]) == [v] + Recorded(0, w.pos, [v][1..]);
  }

  /** Repeated with limits, it has the ways of the unit itself with the same quantifier, greedy or lazy. */
  lemma {:induction false} TimesAround(c: Context, u: Unit, lazy: bool, min: nat, max: nat, w: Way)
    requires w.pos <= |c.s| && min <= max
    ensures TimesWays(c, 0, Around(u), lazy, min, max, w) == RunWays(c, u, min, max, if lazy then Lazy else Greedy, w)
    decreases max
  {
    hide GroupWays, RunWays, Test, Around;
    RunsUnfold(c, u, min, max, if lazy then Lazy else Greedy, w);
    assert [] + [w] == [w] + [] == [w];
    if max > 0 {
      AroundWays(c, u, w);
      var v := w.(pos := w.pos + 1);
      var min' := Fewer(min);
      assert EachTimesWays(c, 0, Around(u), lazy, min', max - 1, []) == [];
      if Test(c, u, w.pos) {
        TestInside(c, u, w.pos);
        TimesAround(c, u, lazy, min', max - 1, v);
        var ws := TimesWays(c, 0, Around(u), lazy, min', max - 1, v);
        assert EachTimesWays(c, 0, Around(u), lazy, min', max - 1, [v]) == ws + EachTimesWays(c, 0, Around(u), lazy, min', max - 1, [v][1..]) == ws;
      }
    }
  }

  /** And so it has without a limit. */
  lemma {:induction false} UnlimitedAround(c: Context, u: Unit, lazy: bool, min: nat, w: Way)
    requires w.pos <= |c.s|
    ensures UnlimitedWays(c, 0, Around(u), lazy, min, w) == RunWays(c, u, min, -1, if lazy then Lazy else Greedy, w)
    decreases Left(c, w.pos), min
  {
    hide GroupWays, RunWays, Test, Around;
    var m := if lazy then Lazy else Greedy;
    var v := w.(pos := w.pos + 1);
    RunsUnfold(c, u, min, -1, m, w);
    AroundWays(c, u, w);
    assert [] + [w] == [w] + [] == [w];
    assert EachEndlessWays(c, 0, Around(u), lazy, w.pos, []) == [];
    if Test(c, u, w.pos) {
      TestInside(c, u, w.pos);
      UnlimitedAround(c, u, lazy, 0, v);
      var more := RunWays(c, u, 0, -1, m, v);
      assert FurtherWays(c, 0, Around(u), lazy, w.pos, v) == UnlimitedWays(c, 0, Around(u), lazy, 0, v) == more;
      assert EachEndlessWays(c, 0, Around(u), lazy, w.pos, [v]) == more + EachEndlessWays(c, 0, Around(u), lazy, w.pos, [v][1..]) == more;
      assert EndlessWays(c, 0, Around(u), lazy, w) == more;
      if min > 1 {
        UnlimitedAround(c, u, lazy, min - 1, v);
        var ws := RunWays(c, u, min - 1, -1, m, v);
        assert EachUnlimitedWays(c, 0, Around(u), lazy, min - 1, [v]) == ws + EachUnlimitedWays(c, 0, Around(u), lazy, min - 1, [v][1..]) == ws;
      }
    } else {
      assert EndlessWays(c, 0, Around(u), lazy, w) == [];
      assert EachUnlimitedWays(c, 0, Around(u), lazy, if min > 0 then min - 1 else 0, []) == [];
    }
  }
}

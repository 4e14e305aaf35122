/** The DFA engine internal_dfa_exec(): two lists of states, swapped for every character, and the
    vector of matches, longest first. */
module DfaExec {
  import opened ByteCode
  import opened Meaning
  import opened Backtracking
  import opened Outcomes
  import opened MatchSteps
  import opened DfaSteps
  import opened DfaMeaning

  const ERROR_NOMATCH := -1
  const ERROR_DFA_WSSIZE := -19

  // ---- The vector of matches ---------------------------------------------------------------

  /** The vector holds as many of the matches found so far as fit, the latest (and longest) first. */
  ghost predicate Stored(v: seq<int>, size: nat, start: nat, ends: seq<nat>) {
    forall t: nat :: 2 * t + 1 < size && t < |ends| ==> SlotPair(v, t) == (start as int, ends[|ends| - 1 - t] as int)
  }

  function SlotPair(v: seq<int>, t: nat): (int, int) {
    if 2 * t + 1 < |v| then (v[2 * t], v[2 * t + 1]) else (-1, -1)
  }

  /** The value that the engine returns for n matches and a vector of the given even size. */
  function MatchCount(n: nat, size: nat): (r: int)
    ensures r == ERROR_NOMATCH || 0 <= r <= n
  {
    if n == 0 then ERROR_NOMATCH
    else if size < 2 then 0
    else if n == 1 then 1
    else if 2 * n < size then n
    else 0
  }

  /** memmove(offsets + 2, offsets, count * sizeof(int)) */
  method ShiftUp(offsets: array<int>, count: nat)
    requires count + 2 <= offsets.Length
    modifies offsets
    ensures forall i :: 0 <= i < count ==> offsets[i + 2] == old(offsets[i])
    ensures forall i :: count + 2 <= i < offsets.Length ==> offsets[i] == old(offsets[i])
  {
    var i := count;
    while i > 0
      invariant 0 <= i <= count
      invariant forall k :: i <= k < count ==> offsets[k + 2] == old(offsets[k])
      invariant forall k :: 0 <= k < i + 2 || count + 2 <= k < offsets.Length ==> offsets[k] == old(offsets[k])
    {
      i := i - 1;
      offsets[i + 2] := offsets[i];
    }
  }

  /** Saves a match, shifting up all previous matches so that the longest is always first. */
  method Record(offsets: array<int>, size: nat, matchCount: int, start: nat, ptr: nat, ghost ends: seq<nat>)
    returns (newCount: int)
    requires size <= offsets.Length && size % 2 == 0
    requires matchCount == MatchCount(|ends|, size) && Stored(offsets[..], size, start, ends)
    modifies offsets
    ensures newCount == MatchCount(|ends| + 1, size) && Stored(offsets[..], size, start, ends + [ptr])
  {
    newCount := matchCount;
    if matchCount < 0 {
      newCount := if size >= 2 then 1 else 0;
    } else if matchCount > 0 {
      newCount := matchCount + 1;
      if newCount * 2 >= size { newCount := 0; }
    }
    var count := (if newCount == 0 then size else newCount * 2) - 2;
    ghost var v := offsets[..];
    if count > 0 { ShiftUp(offsets, count); }
    if size >= 2 {
      offsets[0] := start;
      offsets[1] := ptr;
    }
    ghost var ends' := ends + [ptr];
    forall t: nat | 2 * t + 1 < size && t < |ends'|
      ensures SlotPair(offsets[..], t) == (start as int, ends'[|ends'| - 1 - t] as int)
    {
      if t > 0 {
        assert SlotPair(v, t - 1) == (start as int, ends[|ends| - t] as int);
        assert offsets[2 * t] == v[2 * (t - 1)] && offsets[2 * t + 1] == v[2 * (t - 1) + 1];
      }
    }
  }

  // ---- Histories of state lists ------------------------------------------------------------

  /** A state that stands somewhere in the pattern. */
  ghost predicate Known(m: Machine, x: Config) {
    exists its: Items, k: Kont :: Where(m, x, its, k)
  }

  ghost predicate Initial(m: Machine, x: Config) {
    x.count == 0 && x.off in BranchStarts(m.code, 0, OpLength(Byte(m.code, 0)))
  }

  /** State x is reached at offset p from a branch of the pattern at start. */
  ghost predicate Reached(m: Machine, start: nat, p: nat, x: Config) {
    exists y :: Initial(m, y) && Reaches(m, start, y, p, x)
  }

  ghost predicate Within(zs: seq<Config>, list: seq<Config>) {
    forall z :: z in zs ==> z in list
  }

  /** hist[t] lists the states that were active at offset start + t, and is closed under the moves. */
  ghost predicate Closed(m: Machine, start: nat, hist: seq<seq<Config>>) {
    && (forall t: nat, x :: t < |hist| && x in hist[t] ==> Within(Stays(m, start + t, x), hist[t]))
    && (forall t: nat, x :: t < |hist| - 1 && x in hist[t] ==> Within(Moves(m, start + t, x), hist[t + 1]))
  }

  /** The states for the next character are all in list next. */
  ghost predicate Feeds(m: Machine, start: nat, hist: seq<seq<Config>>, next: seq<Config>) {
    if hist == [] then forall y :: Initial(m, y) ==> y in next
    else FeedsFrom(m, start + |hist| - 1, hist[|hist| - 1], next)
  }

  ghost predicate FeedsFrom(m: Machine, p: nat, list: seq<Config>, next: seq<Config>) {
    forall x :: x in list ==> Within(Moves(m, p, x), next)
  }

  lemma NoMoves(m: Machine, p: nat, list: seq<Config>, x: Config, z: Config)
    requires FeedsFrom(m, p, list, []) && x in list
    ensures z !in Moves(m, p, x)
  {
    hide Moves;
    assert Within(Moves(m, p, x), []);
  }

  /** When no state is left for the next character, every state that can be reached was active. */
  lemma {:induction false} HistoryComplete(m: Machine, start: nat, hist: seq<seq<Config>>, n: nat, p: nat, x: Config, r: nat, y: Config)
    requires Closed(m, start, hist) && hist != [] && Feeds(m, start, hist, [])
    requires start <= p < start + |hist| && x in hist[p - start] && Leads(m, n, p, x, r, y)
    ensures start <= r < start + |hist| && y in hist[r - start]
    decreases n
  {
    hide Stays, Moves;
    if n > 0 {
      var t: nat := p - start;
      if z :| z in Stays(m, p, x) && Leads(m, n - 1, p, z, r, y) {
        assert Within(Stays(m, start + t, x), hist[t]);
        HistoryComplete(m, start, hist, n - 1, p, z, r, y);
      } else {
        var z :| z in Moves(m, p, x) && Leads(m, n - 1, p + 1, z, r, y);
        if t == |hist| - 1 { NoMoves(m, p, hist[t], x, z); }
        assert Within(Moves(m, start + t, x), hist[t + 1]);
        HistoryComplete(m, start, hist, n - 1, p + 1, z, r, y);
      }
    }
  }

  ghost predicate Suitable(m: Machine, g: Group) {
    && Consistent(m)
    && AtPattern(m.code, g, m.c.caseless)
    && m.endCode == GroupLen(g) - 1 - LINK_SIZE
  }

  lemma KnownStay(m: Machine, p: nat, x: Config, z: Config)
    requires Consistent(m) && Known(m, x) && x.off != m.endCode && p <= |m.c.s| && z in Stays(m, p, x)
    ensures Known(m, z)
  {
    hide Where, Stays;
    var its: Items, k: Kont :| Where(m, x, its, k);
    var its', k' := SoundStay(m, p, x, its, k, z, 0);
  }

  lemma KnownMove(m: Machine, p: nat, x: Config, z: Config)
    requires Consistent(m) && Known(m, x) && x.off != m.endCode && z in Moves(m, p, x)
    ensures Known(m, z) && p + 1 <= |m.c.s|
  {
    hide Where, Moves;
    var its: Items, k: Kont :| Where(m, x, its, k);
    var its', k' := SoundMove(m, p, x, its, k, z, 0);
  }

  lemma KnownInitial(m: Machine, g: Group, x: Config)
    requires Suitable(m, g) && Initial(m, x)
    ensures Known(m, x)
  {
    hide Where, AtAlts, BranchStarts, AtItems, AtKont;
    PatternItems(m.code, g, m.c.caseless);
    GroupBytes(m.code, 0, g, m.c.caseless);
    var p', h', alts := BranchOf(m.code, 0, HdrLen(g), g.alts, 0, KetOp(g.ket), m.c.caseless, x.off);
    EnterCode(m.code, 0, p', h', g, alts, Nil, Done, 0, m.c.caseless);
    var k := Frame(0, g, if alts.Last? then NoMore else Alternatives(alts.rest), Nil, 0, Done);
    WhereBranch(m, x, alts.b, k);
  }

  lemma WhereBranch(m: Machine, x: Config, its: Items, k: Kont)
    requires AtItems(m.code, x.off, its, m.c.caseless) && AtKont(m.code, x.off + ItemsLen(its), k, m.c.caseless)
    requires x.count == 0
    ensures Where(m, x, its, k)
  {
    CountZero(m.code, x.off, its, m.c.caseless);
  }

  lemma ReachedStay(m: Machine, start: nat, p: nat, x: Config, z: Config)
    requires Reached(m, start, p, x) && z in Stays(m, p, x)
    ensures Reached(m, start, p, z)
  {
    hide Stays, Reaches, Initial;
    var y :| Initial(m, y) && Reaches(m, start, y, p, x);
    ReachesStay(m, p, x, z);
    ReachesTrans(m, start, y, p, x, p, z);
  }

  lemma ReachedMove(m: Machine, start: nat, p: nat, x: Config, z: Config)
    requires Reached(m, start, p, x) && z in Moves(m, p, x)
    ensures Reached(m, start, p + 1, z)
  {
    hide Moves, Reaches, Initial;
    var y :| Initial(m, y) && Reaches(m, start, y, p, x);
    ReachesMove(m, p, x, z);
    ReachesTrans(m, start, y, p, x, p + 1, z);
  }

  // ---- One list at a time ------------------------------------------------------------------

  /** Every listed state stands in the pattern and is reached at p. */
  ghost predicate Sane(m: Machine, start: nat, p: nat, list: seq<Config>) {
    forall x :: x in list ==> p <= |m.c.s| && Known(m, x) && Reached(m, start, p, x)
  }

  /** The states of done have been acted on: what they lead to is in the lists. */
  ghost predicate Handled(m: Machine, p: nat, done: seq<Config>, list: seq<Config>, next: seq<Config>) {
    forall x :: x in done ==> Within(Stays(m, p, x), list) && Within(Moves(m, p, x), next)
  }

  lemma StepSane(m: Machine, start: nat, p: nat, list: seq<Config>, next: seq<Config>, x: Config)
    requires Consistent(m) && Sane(m, start, p, list) && Sane(m, start, p + 1, next) && x in list && x.off != m.endCode
    ensures Sane(m, start, p, list + Stays(m, p, x)) && Sane(m, start, p + 1, next + Moves(m, p, x))
  {
    hide Stays, Moves, Known, Reached;
    forall z | z in Stays(m, p, x) ensures Known(m, z) && Reached(m, start, p, z) {
      KnownStay(m, p, x, z);
      ReachedStay(m, start, p, x, z);
    }
    forall z | z in Moves(m, p, x) ensures p + 1 <= |m.c.s| && Known(m, z) && Reached(m, start, p + 1, z) {
      KnownMove(m, p, x, z);
      ReachedMove(m, start, p, x, z);
    }
  }

  lemma StepHandled(m: Machine, p: nat, done: seq<Config>, list: seq<Config>, next: seq<Config>, x: Config)
    requires Handled(m, p, done, list, next)
    ensures Handled(m, p, done + [x], list + Stays(m, p, x), next + Moves(m, p, x))
  {
    hide Stays, Moves;
  }

  lemma SkipHandled(m: Machine, p: nat, done: seq<Config>, list: seq<Config>, next: seq<Config>, x: Config)
    requires Handled(m, p, done, list, next) && (x in done || x.off == m.endCode)
    requires m.endCode < |m.code| && m.code[m.endCode] == OP_KET
    ensures Handled(m, p, done + [x], list, next)
  {
    hide Stays, Moves;
    if x.off == m.endCode { NothingAfterEnd(m, p, x); }
  }

  lemma NothingAfterEnd(m: Machine, p: nat, x: Config)
    requires m.endCode < |m.code| && m.code[m.endCode] == OP_KET && x.off == m.endCode
    ensures Stays(m, p, x) == [] && Moves(m, p, x) == []
  {
  }

  lemma EndCount(m: Machine, x: Config)
    requires Known(m, x) && x.off == m.endCode < |m.code| && m.code[m.endCode] == OP_KET
    ensures x == Config(m.endCode, 0)
  {
    hide AtItems, AtKont;
    var its: Items, k: Kont :| Where(m, x, its, k);
    Decode(m.code, x.off, its, k, m.c.caseless);
  }

  /** Another list is added to the history. */
  lemma ExtendHistory(m: Machine, start: nat, hist: seq<seq<Config>>, before: seq<Config>, list: seq<Config>, next: seq<Config>)
    requires Closed(m, start, hist) && Feeds(m, start, hist, before) && Within(before, list)
    requires Handled(m, start + |hist|, list, list, next)
    ensures Closed(m, start, hist + [list]) && Feeds(m, start, hist + [list], next)
  {
    hide Stays, Moves, Initial;
    var n := |hist|;
    var hist' := hist + [list];
    forall t: nat, x | t < |hist'| && x in hist'[t] ensures Within(Stays(m, start + t, x), hist'[t]) {
    }
    forall t: nat, x | t < |hist'| - 1 && x in hist'[t] ensures Within(Moves(m, start + t, x), hist'[t + 1]) {
      if t == n - 1 {
        assert FeedsFrom(m, start + n - 1, hist[n - 1], before);
        assert Within(Moves(m, start + t, x), before);
      }
    }
  }

  /** ends lists, in increasing order, the acceptable offsets at which the end was active. */
  ghost predicate Collected(m: Machine, a: Attempt, hist: seq<seq<Config>>, ends: seq<nat>) {
    && (forall j :: j in ends <==> a.mstart <= j < a.mstart + |hist| && Config(m.endCode, 0) in hist[j - a.mstart] && a.Acceptable(j))
    && Increasing(ends)
  }

  ghost predicate Increasing(ends: seq<nat>) {
    forall x: nat, y: nat :: x < y < |ends| ==> ends[x] < ends[y]
  }

  lemma CollectOne(m: Machine, a: Attempt, hist: seq<seq<Config>>, ends: seq<nat>, list: seq<Config>)
    requires Collected(m, a, hist, ends)
    ensures Collected(m, a, hist + [list],
              if Config(m.endCode, 0) in list && a.Acceptable(a.mstart + |hist|) then ends + [a.mstart + |hist|] else ends)
  {
    forall x | 0 <= x < |ends| ensures ends[x] < a.mstart + |hist| {
      assert ends[x] in ends;
    }
  }

  lemma ReachedHasHistory(m: Machine, g: Group, start: nat, hist: seq<seq<Config>>, j: nat)
    requires Suitable(m, g) && start <= |m.c.s|
    requires Closed(m, start, hist) && hist != [] && Feeds(m, start, hist, [])
    requires forall y :: Initial(m, y) ==> y in hist[0]
    ensures DGroup(m.c, g, start, j) ==> start <= j < start + |hist| && Config(m.endCode, 0) in hist[j - start]
  {
    hide AtPattern, Leads, Closed, Feeds, GroupLen, BranchStarts, DGroup, Consistent;
    EndsAreMatches(m, g, start, j);
    if DGroup(m.c, g, start, j) {
      var b :| b in BranchStarts(m.code, 0, OpLength(Byte(m.code, 0))) && Reaches(m, start, Config(b, 0), j, Config(m.endCode, 0));
      assert Initial(m, Config(b, 0));
      var n: nat :| Leads(m, n, start, Config(b, 0), j, Config(m.endCode, 0));
      HistoryComplete(m, start, hist, n, start, Config(b, 0), j, Config(m.endCode, 0));
    }
  }

  lemma ReachedIsMatch(m: Machine, g: Group, start: nat, p: nat)
    requires Suitable(m, g) && start <= |m.c.s| && Reached(m, start, p, Config(m.endCode, 0))
    ensures DGroup(m.c, g, start, p)
  {
    hide AtPattern, Reaches, GroupLen, BranchStarts, DGroup, Consistent;
    EndsAreMatches(m, g, start, p);
    var y :| Initial(m, y) && Reaches(m, start, y, p, Config(m.endCode, 0));
    assert y == Config(y.off, 0);
  }

  /** What holds between two characters: hist records the lists so far, next is the list to come. */
  ghost predicate Recorded(m: Machine, a: Attempt, hist: seq<seq<Config>>, next: seq<Config>, ends: seq<nat>) {
    && Closed(m, a.mstart, hist)
    && Feeds(m, a.mstart, hist, next)
    && (hist != [] ==> forall y :: Initial(m, y) ==> y in hist[0])
    && (forall t: nat :: t < |hist| ==> Sane(m, a.mstart, a.mstart + t, hist[t]))
    && Collected(m, a, hist, ends)
  }

  lemma RecordList(m: Machine, a: Attempt, hist: seq<seq<Config>>, before: seq<Config>, ends: seq<nat>,
                   list: seq<Config>, next: seq<Config>)
    requires Recorded(m, a, hist, before, ends) && Within(before, list)
    requires Handled(m, a.mstart + |hist|, list, list, next) && Sane(m, a.mstart, a.mstart + |hist|, list)
    ensures Recorded(m, a, hist + [list], next,
              if Config(m.endCode, 0) in list && a.Acceptable(a.mstart + |hist|) then ends + [a.mstart + |hist|] else ends)
  {
    hide Closed, Collected, Initial, Handled, Sane, FeedsFrom;
    ExtendHistory(m, a.mstart, hist, before, list, next);
    CollectOne(m, a, hist, ends, list);
  }

  /** With no states left over, the collected offsets are exactly the ends of the matches. */
  lemma CollectedAreMatches(m: Machine, a: Attempt, g: Group, hist: seq<seq<Config>>, ends: seq<nat>)
    requires Suitable(m, g) && a.c == m.c && a.mstart <= |m.c.s|
    requires hist != [] && Recorded(m, a, hist, [], ends)
    ensures Increasing(ends)
    ensures forall j: nat :: j in ends <==> DGroup(m.c, g, a.mstart, j) && a.Acceptable(j)
  {
    hide Suitable, Closed, Feeds, Initial, DGroup, Known, Reached;
    forall j: nat ensures j in ends <==> DGroup(m.c, g, a.mstart, j) && a.Acceptable(j) {
      ReachedHasHistory(m, g, a.mstart, hist, j);
      if j in ends {
        assert Sane(m, a.mstart, a.mstart + (j - a.mstart), hist[j - a.mstart]);
        ReachedIsMatch(m, g, a.mstart, j);
      }
    }
  }

  // ---- The engine --------------------------------------------------------------------------

  class Engine {
    const code: seq<byte>
    const c: Context
    const wscount: nat
    const startOffset: nat
    const notempty: bool
    const notemptyAtStart: bool
    var endCode: nat
    var activeStates: array<Config>
    var newStates: array<Config>
    var activeCount: nat
    var newCount: nat

    constructor (code: seq<byte>, c: Context, wscount: nat, startOffset: nat, notempty: bool, notemptyAtStart: bool)
      ensures Valid() && newCount == 0 && fresh(activeStates) && fresh(newStates)
      ensures this.code == code && this.c == c && this.wscount == wscount
      ensures this.startOffset == startOffset && this.notempty == notempty && this.notemptyAtStart == notemptyAtStart
    {
      this.code, this.c, this.wscount := code, c, wscount;
      this.startOffset, this.notempty, this.notemptyAtStart := startOffset, notempty, notemptyAtStart;
      endCode, activeCount, newCount := 0, 0, 0;
      activeStates := new Config[wscount](_ => Config(0, 0));
      newStates := new Config[wscount](_ => Config(0, 0));
    }

    ghost predicate Valid()
      reads this
    {
      && activeStates != newStates
      && activeStates.Length == newStates.Length == wscount
      && activeCount <= wscount
      && newCount <= wscount
    }

    /** One of the two lists has no more room. */
    ghost predicate Full()
      reads this
    {
      activeCount >= wscount || newCount >= wscount
    }

    ghost function Active(): seq<Config>
      requires Valid()
      reads this, activeStates
    {
      activeStates[..activeCount]
    }

    ghost function New(): seq<Config>
      requires Valid()
      reads this, newStates
    {
      newStates[..newCount]
    }

    ghost function M(): Machine
      reads this
    {
      Machine(code, c, endCode)
    }

    /** ADD_ACTIVE(x, y) */
    method AddActive(off: nat, count: nat) returns (ok: bool)
      requires Valid()
      modifies this`activeCount, activeStates
      ensures !ok ==> Full()
      ensures ok ==> Valid() && Active() == old(Active()) + [Config(off, count)] && New() == old(New())
    {
      if activeCount >= wscount { return false; }
      activeStates[activeCount] := Config(off, count);
      activeCount := activeCount + 1;
      return true;
    }

    /** ADD_NEW(x, y) */
    method AddNew(off: nat, count: nat) returns (ok: bool)
      requires Valid()
      modifies this`newCount, newStates
      ensures !ok ==> Full()
      ensures ok ==> Valid() && New() == old(New()) + [Config(off, count)] && Active() == old(Active())
    {
      if newCount >= wscount { return false; }
      newStates[newCount] := Config(off, count);
      newCount := newCount + 1;
      return true;
    }

    /** A closing bracket other than the last one. */
    method Ket(x: Config, ghost its: Items, ghost k: Kont, ghost p: nat) returns (ok: bool)
      requires Valid() && Where(M(), x, its, k) && its.Nil? && k.Frame? && k.rest.NoMore? && x.off != endCode
      modifies this`activeCount, activeStates
      ensures !ok ==> Full()
      ensures ok ==> Valid() && Active() == old(Active()) + Stays(M(), p, x) && New() == old(New())
    {
      hide Stays, Moves, AtItems, AtKont, ItemsLen;
      WhereNil(M(), x, k);
      LoopAt(code, x.off, k, c.caseless);
      KetStays(M(), p, x, k.gp, k.g.ket);
      ok := AddActive(x.off + 1 + LINK_SIZE, 0);
      if ok && code[x.off] != OP_KET {
        ok := AddActive(x.off - Get(code, x.off + 1), 0);
      }
    }

    /** The end of a branch that is not the last. */
    method Alt(x: Config, ghost its: Items, ghost k: Kont, ghost p: nat) returns (ok: bool)
      requires Valid() && Where(M(), x, its, k) && its.Nil? && k.Frame? && k.rest.Alternatives?
      modifies this`activeCount, activeStates
      ensures !ok ==> Full()
      ensures ok ==> Valid() && Active() == old(Active()) + Stays(M(), p, x) && New() == old(New())
    {
      hide Stays, Moves, AtAlts, AtItems, AltsLen;
      AltStays(M(), p, x);
      AltsKetLink(code, x.off, 1 + LINK_SIZE, k.rest.alts, k.gp, KetOp(k.g.ket), c.caseless);
      var q := SkipToKet(code, x.off, 1 + LINK_SIZE, k.rest.alts, k.gp, KetOp(k.g.ket), c.caseless);
      ok := AddActive(q, 0);
    }

    /** An opening bracket: adds the start of every branch. */
    method Bracket(x: Config, ghost its: Items, ghost k: Kont, ghost p: nat) returns (ok: bool)
      requires Valid() && Where(M(), x, its, k) && its.Cons? && its.hd.Grp?
      modifies this`activeCount, activeStates
      ensures !ok ==> Full()
      ensures ok ==> Valid() && Active() == old(Active()) + Stays(M(), p, x) && New() == old(New())
    {
      hide Moves, AtItems, AtKont, AtAlts, AtGroup, BranchStarts, AltsLen, Stays, ItemsLen, OpLength, KetOf;
      ghost var g := its.hd.g;
      GroupAt(code, x.off, g, its.tl, c.caseless);
      GroupBytes(code, x.off, g, c.caseless);
      ghost var bs := BranchStarts(code, x.off, HdrLen(g));
      BranchStates(M(), p, x, g);
      var q: nat := x.off;
      var h: nat := OpLength(code[q]);
      ghost var alts, done: seq<nat> := g.alts, [];
      while true
        invariant Valid() && AtAlts(code, q, h, alts, x.off, KetOp(g.ket), c.caseless)
        invariant bs == done + BranchStarts(code, q, h)
        invariant Active() == old(Active()) + StartStates(done) && New() == old(New())
        decreases alts
      {
        BranchEnd(code, q, h, alts, x.off, KetOp(g.ket), c.caseless);
        LinksFrom(code, q, h, alts, x.off, KetOp(g.ket), c.caseless);
        ok := AddActive(q + h, 0);
        if !ok { return; }
        done := done + [q + h];
        q := q + Get(code, q + 1);
        if code[q] != OP_ALT { break; }
        h, alts := 1 + LINK_SIZE, alts.rest;
      }
    }

    /** BRAZERO or BRAMINZERO: the group, and what follows it. */
    method ZeroGroup(x: Config, ghost its: Items, ghost k: Kont, ghost p: nat) returns (ok: bool)
      requires Valid() && Where(M(), x, its, k) && its.Cons? && its.hd.Zero?
      modifies this`activeCount, activeStates
      ensures !ok ==> Full()
      ensures ok ==> Valid() && Active() == old(Active()) + Stays(M(), p, x) && New() == old(New())
    {
      hide Stays, Moves, AtItems, AtKont, AtAlts, AltsLen;
      ConsAt(code, x.off, its, c.caseless);
      ZeroAt(code, x.off, its, c.caseless);
      ZeroStays(M(), p, x, its.hd);
      ghost var g := its.hd.g;
      var q := SkipToKet(code, x.off + 1, HdrLen(g), g.alts, x.off + 1, KetOp(g.ket), c.caseless);
      ok := AddActive(x.off + 1, 0);
      if ok { ok := AddActive(q + 1 + LINK_SIZE, 0); }
    }

    /** A character, negated character, type or class, perhaps repeated. The item may be left at the
        current character, or counted and kept, or left at the next character. A possessive repeat
        takes back the first possibility when the character matches. */
    method Item(x: Config, ptr: nat, ghost its: Items, ghost k: Kont) returns (ok: bool)
      requires Valid() && Where(M(), x, its, k) && its.Cons? && (its.hd.One? || its.hd.Rep?) && c.Valid()
      modifies this`activeCount, this`newCount, activeStates, newStates
      ensures !ok ==> Full()
      ensures ok ==> Valid() && Active() == old(Active()) + Stays(M(), ptr, x) && New() == old(New()) + Moves(M(), ptr, x)
    {
      hide Stays, Moves, AtItems, AtKont, AtNode, DfaAccepts, ItemAt, NodeLen, AfterHit, Where, MayLeave;
      ItemHere(M(), x, its, k);
      ItemMoves(M(), ptr, x, its.hd);
      var n := ItemAt(code, x.off, c.caseless);
      var hit := ptr < |c.s| && DfaAccepts(c.tb, c.caseless, n.Rep?, n.u, c.s[ptr]);
      assert hit == HitAt(M(), n, ptr);
      var leave := MayLeave(n, x.count);
      ok := true;
      if leave {
        ok := AddActive(x.off + NodeLen(n), 0);
        if !ok { return; }
      }
      if hit {
        if leave && Possesses(n) {
          activeCount := activeCount - 1;
          assert Active() == old(Active());
        }
        var y := AfterHit(n, x);
        ok := AddNew(y.off, y.count);
      }
    }

    /** Acts on one active state. */
    method Process(x: Config, ptr: nat) returns (ok: bool)
      requires Valid() && Known(M(), x) && x.off != endCode && c.Valid()
      modifies this`activeCount, this`newCount, activeStates, newStates
      ensures !ok ==> Full()
      ensures ok ==> Valid() && Active() == old(Active()) + Stays(M(), ptr, x) && New() == old(New()) + Moves(M(), ptr, x)
    {
      hide Stays, Moves, AtItems, AtKont;
      ghost var its: Items, k: Kont :| Where(M(), x, its, k);
      Decode(code, x.off, its, k, c.caseless);
      var op := code[x.off];
      if OP_KET <= op <= OP_KETRMIN {
        NoMoveHere(M(), ptr, x);
        ok := Ket(x, its, k, ptr);
      } else if op == OP_ALT {
        NoMoveHere(M(), ptr, x);
        ok := Alt(x, its, k, ptr);
      } else if OP_BRA <= op <= OP_SCBRA {
        NoMoveHere(M(), ptr, x);
        ok := Bracket(x, its, k, ptr);
      } else if OP_BRAZERO <= op <= OP_BRAMINZERO {
        NoMoveHere(M(), ptr, x);
        ok := ZeroGroup(x, its, k, ptr);
      } else if op == OP_END {
        EndStays(M(), ptr, x);
        ok := true;
      } else {
        ok := Item(x, ptr, its, k);
      }
    }

    /** Lists the first item of every branch of the pattern, and finds its end. */
    method Begin(ghost g: Group) returns (ok: bool)
      requires Valid() && newCount == 0 && AtPattern(code, g, c.caseless)
      modifies this`endCode, this`newCount, newStates
      ensures !ok ==> Full()
      ensures ok ==> Valid() && New() == StartStates(BranchStarts(code, 0, HdrLen(g)))
      ensures ok ==> endCode == GroupLen(g) - 1 - LINK_SIZE && endCode < |code| && code[endCode] == OP_KET
    {
      hide AtPattern, AtItems, AtKont, AtAlts, AtGroup, BranchStarts, AltsLen, ItemsLen, GroupLen, KetOf, OpLength;
      PatternItems(code, g, c.caseless);
      GroupBytes(code, 0, g, c.caseless);
      KetLink(code, 0, g, c.caseless);
      ghost var bs := BranchStarts(code, 0, HdrLen(g));
      endCode := 0;
      var length: nat := OpLength(code[0]);
      ghost var alts, done: seq<nat> := g.alts, [];
      while true
        invariant Valid() && AtAlts(code, endCode, length, alts, 0, OP_KET, c.caseless)
        invariant bs == done + BranchStarts(code, endCode, length)
        invariant KetOf(code, endCode) == KetOf(code, 0)
        invariant New() == StartStates(done)
        decreases alts
      {
        BranchEnd(code, endCode, length, alts, 0, OP_KET, c.caseless);
        LinksFrom(code, endCode, length, alts, 0, OP_KET, c.caseless);
        KetOfLast(code, endCode, length, alts, 0, c.caseless);
        ok := AddNew(endCode + length, 0);
        if !ok { return; }
        done := done + [endCode + length];
        endCode := endCode + Get(code, endCode + 1);
        if code[endCode] != OP_ALT { break; }
        length, alts := 1 + LINK_SIZE, alts.rest;
      }
    }

    ghost function AttemptAt(start: nat): Attempt
    {
      Attempt(c, 0, 0, start, startOffset, notempty, notemptyAtStart, 0)
    }

    /** The end of the pattern: records a match, unless it is empty and may not be. */
    method Matched(start: nat, ptr: nat, offsets: array<int>, size: nat, matchCount0: int, ghost ends0: seq<nat>)
      returns (matchCount: int, ghost ends: seq<nat>)
      requires startOffset <= start <= ptr && size <= offsets.Length && size % 2 == 0
      requires matchCount0 == MatchCount(|ends0|, size) && Stored(offsets[..], size, start, ends0)
      modifies offsets
      ensures ends == if AttemptAt(start).Acceptable(ptr) then ends0 + [ptr] else ends0
      ensures matchCount == MatchCount(|ends|, size) && Stored(offsets[..], size, start, ends)
    {
      hide Stored, MatchCount;
      matchCount, ends := matchCount0, ends0;
      if ptr > start || (!notempty && (!notemptyAtStart || start > startOffset)) {
        matchCount := Record(offsets, size, matchCount, start, ptr, ends);
        ends := ends + [ptr];
      }
    }

    /** Acts on every active state once, for the character at ptr. */
    method Scan(start: nat, ptr: nat, offsets: array<int>, size: nat, matchCount0: int, ghost ends0: seq<nat>)
      returns (ok: bool, matchCount: int, ghost ends: seq<nat>)
      requires Valid() && newCount == 0 && startOffset <= start <= ptr
      requires c.Valid() && Consistent(M()) && endCode < |code| && code[endCode] == OP_KET
      requires Sane(M(), start, ptr, Active())
      requires size <= offsets.Length && size % 2 == 0
      requires matchCount0 == MatchCount(|ends0|, size) && Stored(offsets[..], size, start, ends0)
      modifies this`activeCount, this`newCount, activeStates, newStates, offsets
      ensures !ok ==> Full()
      ensures ok ==> Valid() && Within(old(Active()), Active())
      ensures ok ==> Handled(M(), ptr, Active(), Active(), New())
      ensures ok ==> Sane(M(), start, ptr, Active()) && Sane(M(), start, ptr + 1, New())
      ensures ok ==> ends == if Config(endCode, 0) in Active() && AttemptAt(start).Acceptable(ptr) then ends0 + [ptr] else ends0
      ensures ok ==> matchCount == MatchCount(|ends|, size) && Stored(offsets[..], size, start, ends)
    {
      hide Known, Reached, Stays, Moves, Stored, Consistent;
      matchCount, ends, ok := matchCount0, ends0, true;
      var i: nat := 0;
      while i < activeCount
        invariant Valid() && i <= activeCount
        invariant Within(old(Active()), Active())
        invariant Sane(M(), start, ptr, Active()) && Sane(M(), start, ptr + 1, New())
        invariant Handled(M(), ptr, Active()[..i], Active(), New())
        invariant ends == if Config(endCode, 0) in Active()[..i] && AttemptAt(start).Acceptable(ptr) then ends0 + [ptr] else ends0
        invariant matchCount == MatchCount(|ends|, size) && Stored(offsets[..], size, start, ends)
        decreases wscount - i
      {
        var x := activeStates[i];
        ghost var active, next := Active(), New();
        assert active[..i + 1] == active[..i] + [x];
        var known := Listed(i, x);
        if known {
          SkipHandled(M(), ptr, active[..i], active, next, x);
        } else if x.off == endCode {
          SkipHandled(M(), ptr, active[..i], active, next, x);
          EndCount(M(), x);
          matchCount, ends := Matched(start, ptr, offsets, size, matchCount, ends);
        } else {
          assert x in active;
          StepSane(M(), start, ptr, active, next, x);
          StepHandled(M(), ptr, active[..i], active, next, x);
          ok := Process(x, ptr);
          if !ok { return; }
          assert Active()[..i + 1] == active[..i + 1];
        }
        i := i + 1;
      }
      assert Active()[..i] == Active();
    }

    /** Whether the state stands among the first i of the active list. */
    method Listed(i: nat, x: Config) returns (found: bool)
      requires Valid() && i <= activeCount
      ensures found <==> x in Active()[..i]
    {
      var j: nat := 0;
      while j < i
        invariant j <= i
        invariant x !in Active()[..j]
      {
        if activeStates[j].off == x.off && activeStates[j].count == x.count {
          assert Active()[j] == x;
          return true;
        }
        assert Active()[..j + 1] == Active()[..j] + [Active()[j]];
        j := j + 1;
      }
      return false;
    }

    /** Makes the list of new states the active one and acts on it. */
    method NextCharacter(start: nat, ptr: nat, offsets: array<int>, size: nat, matchCount0: int,
                         ghost hist0: seq<seq<Config>>, ghost ends0: seq<nat>)
      returns (ok: bool, matchCount: int, ghost hist: seq<seq<Config>>, ghost ends: seq<nat>)
      requires Valid() && startOffset <= start && ptr == start + |hist0|
      requires c.Valid() && Consistent(M()) && endCode < |code| && code[endCode] == OP_KET
      requires Recorded(M(), AttemptAt(start), hist0, New(), ends0) && Sane(M(), start, ptr, New())
      requires size <= offsets.Length && size % 2 == 0
      requires matchCount0 == MatchCount(|ends0|, size) && Stored(offsets[..], size, start, ends0)
      modifies this`activeStates, this`newStates, this`activeCount, this`newCount, activeStates, newStates, offsets
      ensures {activeStates, newStates} == old({activeStates, newStates})
      ensures !ok ==> Full()
      ensures ok ==> Valid() && |hist| == |hist0| + 1
      ensures ok ==> Recorded(M(), AttemptAt(start), hist, New(), ends) && Sane(M(), start, ptr + 1, New())
      ensures ok ==> matchCount == MatchCount(|ends|, size) && Stored(offsets[..], size, start, ends)
    {
      hide Known, Reached, Handled, Recorded, Stored, MatchCount, Sane, Within, Consistent;
      ghost var before := New();
      activeStates, newStates := newStates, activeStates;
      activeCount, newCount := newCount, 0;
      assert Active() == before && New() == [];
      NothingListed(M(), start, ptr + 1);
      ok, matchCount, ends := Scan(start, ptr, offsets, size, matchCount0, ends0);
      hist := hist0;
      if ok {
        RecordList(M(), AttemptAt(start), hist0, before, ends0, Active(), New());
        hist := hist0 + [Active()];
      }
    }

    /** Runs the engine from start. Unless a list in the workspace has become full, it has collected exactly the
        acceptable ends of the matches from start, and the vector holds as many of them as fit, the
        longest first. */
    method Exec(start: nat, offsets: array<int>, offsetcount: nat, ghost g: Group)
      returns (rc: int, ghost ends: seq<nat>)
      requires Valid() && newCount == 0 && startOffset <= start <= |c.s| && offsetcount <= offsets.Length
      requires CaseConsistent(c.tb) && AtPattern(code, g, c.caseless)
      modifies this, activeStates, newStates, offsets
      ensures rc == -19 ==> Full()
      ensures rc != -19 ==>
                && (forall j: nat :: j in ends <==> DGroup(c, g, start, j) && AttemptAt(start).Acceptable(j))
                && Increasing(ends)
                && rc == MatchCount(|ends|, offsetcount - offsetcount % 2)
                && Stored(offsets[..], offsetcount - offsetcount % 2, start, ends)
    {
      hide AtPattern, GroupLen, Known, Reached, DGroup, Handled, Recorded, BranchStarts, CaseConsistent, Stored, MatchCount,
        Sane, Within, StartStates, Increasing, HdrLen, Consistent;
      var size := offsetcount - offsetcount % 2;
      ends := [];
      rc := ERROR_NOMATCH;
      var ok := Begin(g);
      if !ok { return ERROR_DFA_WSSIZE, ends; }
      ghost var m, a := M(), AttemptAt(start);
      NothingStored(offsets[..], size, start);
      ghost var hist: seq<seq<Config>> := [];
      IsSuitable(m, g);
      InitialLists(m, a, g, New());
      var ptr := start;
      while true
        invariant Valid() && {activeStates, newStates} == old({activeStates, newStates}) && M() == m
        invariant ptr == start + |hist| <= |c.s|
        invariant Sane(m, start, ptr, New()) && Recorded(m, a, hist, New(), ends)
        invariant rc == MatchCount(|ends|, size) && Stored(offsets[..], size, start, ends)
        decreases |c.s| - ptr
      {
        ok, rc, hist, ends := NextCharacter(start, ptr, offsets, size, rc, hist, ends);
        if !ok { return ERROR_DFA_WSSIZE, ends; }
        if newCount == 0 { break; }
        SaneInside(m, start, ptr + 1, New());
        ptr := ptr + 1;
      }
      assert New() == [];
      CollectedAreMatches(m, a, g, hist, ends);
    }
  }

  lemma KetOfLast(code: seq<byte>, p: nat, h: nat, alts: Alts, start: nat, caseless: bool)
    requires AtAlts(code, p, h, alts, start, OP_KET, caseless)
    ensures alts.Last? ==> KetOf(code, p) == p + Get(code, p + 1)
  {
  }

  lemma InitialLists(m: Machine, a: Attempt, g: Group, list: seq<Config>)
    requires Suitable(m, g) && a.mstart <= |m.c.s| && list == StartStates(BranchStarts(m.code, 0, HdrLen(g)))
    ensures Sane(m, a.mstart, a.mstart, list)
    ensures Recorded(m, a, [], list, [])
  {
    hide Known;
    var bs := BranchStarts(m.code, 0, HdrLen(g));
    assert AtGroup(m.code, 0, g, m.c.caseless);
    GroupBytes(m.code, 0, g, m.c.caseless);
    forall y ensures Initial(m, y) <==> y in list {
      if Initial(m, y) {
        var i :| 0 <= i < |bs| && bs[i] == y.off;
        assert list[i] == y;
      }
    }
    forall x | x in list ensures Known(m, x) && Reached(m, a.mstart, a.mstart, x) {
      KnownInitial(m, g, x);
      ReachesSame(m, a.mstart, x);
    }
  }

  lemma NothingListed(m: Machine, start: nat, p: nat)
    ensures Sane(m, start, p, [])
  {
  }

  lemma SaneInside(m: Machine, start: nat, p: nat, list: seq<Config>)
    requires Sane(m, start, p, list) && list != []
    ensures p <= |m.c.s|
  {
    assert list[0] in list;
  }

  lemma NothingStored(v: seq<int>, size: nat, start: nat)
    ensures Stored(v, size, start, []) && MatchCount(0, size) == ERROR_NOMATCH
  {
  }

  lemma IsSuitable(m: Machine, g: Group)
    requires CaseConsistent(m.c.tb) && AtPattern(m.code, g, m.c.caseless) && m.endCode == GroupLen(g) - 1 - LINK_SIZE
    ensures Suitable(m, g) && Consistent(m) && m.c.tb.Valid()
  {
  }

  predicate Possesses(n: Node) {
    n.Rep? && n.m.Possessive?
  }

  lemma ItemHere(m: Machine, x: Config, its: Items, k: Kont)
    requires Where(m, x, its, k) && its.Cons? && (its.hd.One? || its.hd.Rep?)
    ensures AtNode(m.code, x.off, its.hd, m.c.caseless)
    ensures ItemAt(m.code, x.off, m.c.caseless) == its.hd && UnitOk(its.hd.u)
    ensures forall count :: MayLeave(its.hd, count) ==> its.hd.Rep?
  {
    ConsAt(m.code, x.off, its, m.c.caseless);
    ItemAtIs(m.code, x.off, its.hd, m.c.caseless);
  }

  lemma WhereNil(m: Machine, x: Config, k: Kont)
    requires Where(m, x, Nil, k)
    ensures AtKont(m.code, x.off, k, m.c.caseless) && x.count == 0
  {
  }

  function StartStates(bs: seq<nat>): seq<Config> {
    seq(|bs|, i requires 0 <= i < |bs| => Config(bs[i], 0))
  }

  lemma BranchStates(m: Machine, p: nat, x: Config, g: Group)
    requires AtGroup(m.code, x.off, g, m.c.caseless)
    ensures Stays(m, p, x) == StartStates(BranchStarts(m.code, x.off, HdrLen(g)))
  {
    assert OpLength(Byte(m.code, x.off)) == HdrLen(g);
  }

  lemma NoMoveHere(m: Machine, p: nat, x: Config)
    requires x.off < |m.code|
    requires var op := m.code[x.off];
             OP_KET <= op <= OP_KETRMIN || op == OP_ALT || OP_BRA <= op <= OP_SCBRA || OP_BRAZERO <= op <= OP_BRAMINZERO
    ensures Moves(m, p, x) == []
  {
  }
}

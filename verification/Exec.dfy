/** pcre_exec(): match() is tried at successive starting points, and facts known about the pattern are
    used to pass over starting points where no match can begin. */
module Exec {
  import opened Common
  import opened ByteCode
  import opened Meaning
  import opened Outcomes
  import opened Captures
  import opened Backtracking
  import opened Match
  import opened StartBits

  const REQ_BYTE_MAX := 1000
  const PCRE_ERROR_NOMATCH := -1
  const PCRE_ERROR_MATCHLIMIT := -8
  const PCRE_ERROR_RECURSIONLIMIT := -21

  datatype Letter = Letter(c: byte, caseless: bool)

  /** What compiling and studying a pattern recorded about it. */
  datatype Facts = Facts(firstByte: Option<Letter>, reqByte: Option<Letter>, startBits: Option<seq<bv8>>,
                         minLength: Option<nat>, startline: bool, topBracket: nat)

  datatype Options = Options(anchored: bool, firstline: bool, noStartOptimize: bool)

  predicate IsFirst(tb: Tables, l: Letter, ch: byte)
    requires tb.Valid()
  {
    if l.caseless then tb.lcc[ch] == tb.lcc[l.c] else ch == l.c
  }

  predicate IsRequired(tb: Tables, l: Letter, ch: byte)
    requires tb.Valid()
  {
    ch == l.c || (l.caseless && ch == tb.fcc[l.c])
  }

  predicate IsNewline(s: seq<byte>, i: nat) {
    i < |s| && s[i] == NEWLINE
  }

  predicate WasNewline(s: seq<byte>, i: nat) {
    1 <= i <= |s| && s[i - 1] == NEWLINE
  }

  // ---- Facts that hold of every match --------------------------------------------------------

  ghost predicate FirstSound(c: Context, g: Group, l: Letter) {
    c.Valid() && forall i: nat, j: nat :: i <= |c.s| && DGroup(c, g, i, j) ==> i < |c.s| && IsFirst(c.tb, l, c.s[i])
  }

  predicate RequiredAt(c: Context, l: Letter, k: nat) {
    c.Valid() && k < |c.s| && IsRequired(c.tb, l, c.s[k])
  }

  /** Each match contains the letter, not before its skip'th byte. */
  ghost predicate RequiredSound(c: Context, g: Group, l: Letter, skip: nat) {
    forall i: nat, j: nat :: i <= |c.s| && DGroup(c, g, i, j) ==> exists k: nat :: i + skip <= k < j && RequiredAt(c, l, k)
  }

  ghost predicate MapSound(c: Context, g: Group, bits: seq<bv8>) {
    |bits| == 32 && forall i: nat, j: nat :: i <= |c.s| && DGroup(c, g, i, j) ==> i < |c.s| && Has(bits, c.s[i])
  }

  ghost predicate LengthSound(c: Context, g: Group, n: nat) {
    forall i: nat, j: nat :: i <= |c.s| && DGroup(c, g, i, j) ==> j >= i + n
  }

  /** A match that starts in the middle of a line could also have started one byte earlier. */
  ghost predicate StartlineSound(c: Context, g: Group) {
    forall i: nat, j: nat :: i < |c.s| && !IsNewline(c.s, i) && DGroup(c, g, i + 1, j) ==> DGroup(c, g, i, j)
  }

  ghost predicate FactsSound(f: Facts, c: Context, g: Group) {
    && (f.firstByte.Some? ==> FirstSound(c, g, f.firstByte.value))
    && (f.reqByte.Some? ==> RequiredSound(c, g, f.reqByte.value, if f.firstByte.Some? then 1 else 0))
    && (f.startBits.Some? ==> MapSound(c, g, f.startBits.value))
    && (f.minLength.Some? ==> LengthSound(c, g, f.minLength.value))
    && (f.startline ==> StartlineSound(c, g))
    && CapsGroup(g, f.topBracket)
  }

  // ---- What trying every start would find ----------------------------------------------------

  /** The starting points that the options allow. */
  ghost predicate Eligible(o: Options, a: Attempt, t: nat) {
    && a.startOffset <= t <= |a.c.s|
    && (o.anchored ==> t == a.startOffset)
    && (o.firstline ==> NoNewline(a.c.s, a.startOffset, t))
  }

  ghost predicate NoNewline(s: seq<byte>, lo: nat, hi: nat) {
    forall u: nat :: lo <= u < hi ==> !IsNewline(s, u)
  }

  /** A line ends before the first byte 10, and a further one starts behind it. */
  lemma LinesMean(s: seq<byte>, lo: nat, hi: nat)
    ensures NoNewline(s, lo, hi) <==> forall u: nat :: lo <= u < hi && u < |s| ==> s[u] != 10
    ensures WasNewline(s, hi) <==> 1 <= hi <= |s| && s[hi - 1] == 10
  {
    if forall u: nat :: lo <= u < hi && u < |s| ==> s[u] != 10 {
      forall u: nat | lo <= u < hi ensures !IsNewline(s, u) {
      }
    }
    if NoNewline(s, lo, hi) {
      forall u: nat | lo <= u < hi && u < |s| ensures s[u] != 10 {
        assert !IsNewline(s, u);
      }
    }
  }

  /** The pattern has an acceptable match that starts at t. */
  ghost predicate MatchesAt(a: Attempt, g: Group, t: nat) {
    exists j: nat :: DGroup(a.c, g, t, j) && a.(mstart := t).Acceptable(j)
  }

  ghost predicate NoMatches(a: Attempt, g: Group, lo: nat, hi: nat) {
    forall t: nat :: lo <= t < hi ==> !MatchesAt(a, g, t)
  }

  /** In the middle of a line, no match at t means no match at t + 1. */
  lemma StartlineStep(a: Attempt, g: Group, t: nat)
    requires StartlineSound(a.c, g) && t < |a.c.s| && a.c.s[t] != 10 && !MatchesAt(a, g, t)
    ensures !MatchesAt(a, g, t + 1)
  {
    assert !IsNewline(a.c.s, t);
    if MatchesAt(a, g, t + 1) {
      var j: nat :| DGroup(a.c, g, t + 1, j) && a.(mstart := t + 1).Acceptable(j);
      GroupForward(a.c, g, t + 1, j);
    }
  }

  lemma TooShort(a: Attempt, g: Group, n: nat, start: nat)
    requires LengthSound(a.c, g, n) && |a.c.s| - start < n
    ensures NoMatches(a, g, start, |a.c.s| + 1)
  {
    forall t: nat, j: nat | start <= t < |a.c.s| + 1 ensures !DGroup(a.c, g, t, j) {
      if DGroup(a.c, g, t, j) { GroupForward(a.c, g, t, j); }
    }
  }

  lemma LacksRequired(a: Attempt, g: Group, l: Letter, skip: nat, start: nat)
    requires RequiredSound(a.c, g, l, skip)
    requires forall k: nat :: start + skip <= k ==> !RequiredAt(a.c, l, k)
    ensures NoMatches(a, g, start, |a.c.s| + 1)
  {
    forall t: nat, j: nat | start <= t < |a.c.s| + 1 ensures !DGroup(a.c, g, t, j) {
    }
  }

  // ---- The start optimizations ---------------------------------------------------------------

  /** Where the scan for a starting point stops: at the first newline when the match has to start in
      the first line. */
  method LineEnd(subject: seq<byte>, startMatch: nat) returns (t: nat)
    requires startMatch <= |subject|
    ensures startMatch <= t <= |subject| && NoNewline(subject, startMatch, t)
    ensures forall u: nat :: startMatch <= u < t ==> subject[u] != 10
    ensures t < |subject| ==> subject[t] == 10
  {
    t := startMatch;
    while t < |subject| && !IsNewline(subject, t)
      invariant startMatch <= t <= |subject| && NoNewline(subject, startMatch, t)
      invariant forall u: nat :: startMatch <= u < t ==> subject[u] != 10
    {
      t := t + 1;
    }
  }

  /** Moves on to the next point where the known facts allow a match to start. */
  method NextStart(f: Facts, o: Options, endSubject: nat, startMatch: nat, ghost g: Group, ghost a: Attempt,
                   subject: seq<byte>, tb: Tables, startOffset: nat) returns (next: nat)
    requires a.c.Valid() && a.c.s == subject && a.c.tb == tb && a.startOffset == startOffset
    requires startOffset <= startMatch <= endSubject <= |subject| && (o.anchored ==> startMatch == startOffset)
    requires FactsSound(f, a.c, g) && NoMatches(a, g, startOffset, startMatch)
    ensures startMatch <= next <= endSubject && (o.anchored ==> next == startMatch)
    ensures NoMatches(a, g, startOffset, next)
  {
    hide DGroup, CapsGroup, IsFirst, Has;
    next := startMatch;
    if !o.anchored && f.firstByte.Some? {
      while next < endSubject && !IsFirst(tb, f.firstByte.value, subject[next])
        invariant startMatch <= next <= endSubject && NoMatches(a, g, startOffset, next)
      {
        next := next + 1;
      }
    } else if f.startline {
      if startMatch > startOffset {
        while next < endSubject && !WasNewline(subject, next)
          invariant startMatch <= next <= endSubject && NoMatches(a, g, startOffset, next)
        {
          StartlineStep(a, g, next - 1);
          next := next + 1;
        }
      }
    } else if !o.anchored && f.startBits.Some? {
      while next < endSubject && !Has(f.startBits.value, subject[next])
        invariant startMatch <= next <= endSubject && NoMatches(a, g, startOffset, next)
      {
        next := next + 1;
      }
    }
  }

  /** Looks for the required byte from p on. */
  method FindRequired(subject: seq<byte>, tb: Tables, l: Letter, p0: nat, ghost c: Context) returns (p: nat)
    requires c.Valid() && c.s == subject && c.tb == tb
    ensures p < |subject| || forall k: nat :: p0 <= k ==> !RequiredAt(c, l, k)
  {
    p := p0;
    while p < |subject|
      invariant p0 <= p && forall k: nat :: p0 <= k < p ==> !RequiredAt(c, l, k)
      decreases |subject| - p
    {
      if IsRequired(tb, l, subject[p]) { return; }
      p := p + 1;
    }
  }

  /** Whether the subject is too short, or lacks the required byte, for a match at startMatch or
      later. The place where the byte was last found is remembered in reqBytePtr. */
  method Hopeless(f: Facts, o: Options, subject: seq<byte>, tb: Tables, startMatch: nat, reqBytePtr0: int,
                  ghost g: Group, ghost a: Attempt) returns (hopeless: bool, reqBytePtr: int)
    requires a.c.Valid() && a.c.s == subject && a.c.tb == tb && startMatch <= |subject|
    requires FactsSound(f, a.c, g)
    ensures hopeless ==> NoMatches(a, g, startMatch, |subject| + 1)
  {
    hide DGroup, CapsGroup, RequiredAt, NoMatches;
    reqBytePtr := reqBytePtr0;
    if f.minLength.Some? && |subject| - startMatch < f.minLength.value {
      TooShort(a, g, f.minLength.value, startMatch);
      return true, reqBytePtr;
    }
    if f.reqByte.Some? && |subject| - startMatch < REQ_BYTE_MAX {
      var skip := if !o.anchored && f.firstByte.Some? then 1 else 0;
      var p := startMatch + skip;
      if p > reqBytePtr {
        p := FindRequired(subject, tb, f.reqByte.value, p, a.c);
        if p >= |subject| {
          LacksRequired(a, g, f.reqByte.value, skip, startMatch);
          return true, reqBytePtr;
        }
        reqBytePtr := p;
      }
    }
    return false, reqBytePtr;
  }

  // ---- The bumpalong loop --------------------------------------------------------------------

  /** The first n entries of the vector are unset. */
  ghost predicate Unset(v: seq<int>, n: nat) {
    n <= |v| && forall k :: 0 <= k < n ==> v[k] == -1
  }

  /** Unsets the pairs that the pattern can set. */
  method ResetPairs(offsets: array<int>, resetcount: nat)
    requires resetcount <= offsets.Length
    modifies offsets
    ensures Unset(offsets[..], resetcount)
    ensures forall k :: resetcount <= k < offsets.Length ==> offsets[k] == old(offsets[k])
  {
    var i := 0;
    while i < resetcount
      invariant 0 <= i <= resetcount
      invariant forall k :: 0 <= k < i ==> offsets[k] == -1
      invariant forall k :: i <= k < offsets.Length ==> offsets[k] == old(offsets[k])
    {
      offsets[i] := -1;
      i := i + 1;
    }
  }

  /** Unsets the working slots, at the end of the vector, that the pattern can use. */
  method ResetSlots(offsets: array<int>, ocount: nat, resetcount: nat)
    requires ocount <= offsets.Length && resetcount / 2 <= ocount + 1
    modifies offsets
    ensures forall k :: ocount - resetcount / 2 < k < ocount ==> offsets[k] == -1
    ensures forall k :: 0 <= k < offsets.Length && (k <= ocount - resetcount / 2 || ocount <= k) ==> offsets[k] == old(offsets[k])
  {
    var i: int := ocount;
    var end := ocount - resetcount / 2 + 1;
    while i - 1 >= end
      invariant i <= ocount && (end <= i || i == ocount)
      invariant forall k :: i <= k < ocount ==> offsets[k] == -1
      invariant forall k :: 0 <= k < i || ocount <= k < offsets.Length ==> offsets[k] == old(offsets[k])
    {
      i := i - 1;
      offsets[i] := -1;
    }
  }

  /** match() from start has outcome r, starting with vector v. */
  ghost predicate Finds(a: Attempt, g: Group, start: nat, v: seq<int>, r: State) {
    First(a.(mstart := start), Cons(Grp(g), Nil), Done, State(start, v, 2, [], false)) == Some(r)
  }

  /** start is the leftmost point where a match starts. */
  ghost predicate Leftmost(o: Options, a: Attempt, g: Group, start: nat) {
    Eligible(o, a, start) && MatchesAt(a, g, start) && NoMatches(a, g, a.startOffset, start)
  }

  /** Trying every allowed starting point finds nothing. */
  ghost predicate Exhausted(o: Options, a: Attempt, g: Group) {
    forall t: nat :: Eligible(o, a, t) ==> !MatchesAt(a, g, t)
  }

  lemma NothingTried(o: Options, a: Attempt, g: Group)
    requires a.startOffset <= |a.c.s|
    ensures Eligible(o, a, a.startOffset) && NoMatches(a, g, a.startOffset, a.startOffset)
  {
  }

  lemma HopelessIsExhausted(o: Options, a: Attempt, g: Group, start: nat)
    requires NoMatches(a, g, a.startOffset, start) && NoMatches(a, g, start, |a.c.s| + 1)
    ensures Exhausted(o, a, g)
  {
    hide MatchesAt;
  }

  /** One more starting point has failed: there are no more, or the next one is allowed too. */
  lemma TriedOne(o: Options, a: Attempt, g: Group, start: nat)
    requires Eligible(o, a, start) && NoMatches(a, g, a.startOffset, start) && !MatchesAt(a, g, start)
    ensures NoMatches(a, g, a.startOffset, start + 1)
    ensures o.firstline && IsNewline(a.c.s, start) ==> Exhausted(o, a, g)
    ensures o.anchored || start + 1 > |a.c.s| ==> Exhausted(o, a, g)
    ensures (!o.anchored && start + 1 <= |a.c.s| && !(o.firstline && IsNewline(a.c.s, start))
             ==> Eligible(o, a, start + 1))
  {
    hide MatchesAt;
  }

  lemma StillEligible(o: Options, a: Attempt, start: nat, end: nat, next: nat)
    requires Eligible(o, a, start) && start <= next <= end <= |a.c.s| && (o.anchored ==> next == start)
    requires o.firstline ==> NoNewline(a.c.s, start, end)
    ensures Eligible(o, a, next)
  {
  }

  /** The start optimizations, made before each call of match(). */
  method Optimize(md: MatchData, f: Facts, o: Options, start: nat, reqBytePtr0: int, ghost g: Group)
    returns (startMatch: nat, hopeless: bool, reqBytePtr: int)
    requires md.tb.Valid() && md.startOffset <= start <= |md.subject|
    requires FactsSound(f, Context(md.subject, md.tb, md.caseless), g)
    requires Eligible(o, md.AttemptAt(0), start) && NoMatches(md.AttemptAt(0), g, md.startOffset, start)
    ensures start <= startMatch <= |md.subject| && Eligible(o, md.AttemptAt(0), startMatch)
    ensures NoMatches(md.AttemptAt(0), g, md.startOffset, startMatch)
    ensures hopeless ==> Exhausted(o, md.AttemptAt(0), g)
  {
    hide FactsSound, MatchesAt, NoMatches, Exhausted, NoNewline;
    ghost var a := md.AttemptAt(0);
    startMatch, hopeless, reqBytePtr := start, false, reqBytePtr0;
    var endSubject := |md.subject|;
    if o.firstline { endSubject := LineEnd(md.subject, startMatch); }
    if o.noStartOptimize { return; }
    startMatch := NextStart(f, o, endSubject, startMatch, g, a, md.subject, md.tb, md.startOffset);
    StillEligible(o, a, start, endSubject, startMatch);
    hopeless, reqBytePtr := Hopeless(f, o, md.subject, md.tb, startMatch, reqBytePtr0, g, a);
    if hopeless { HopelessIsExhausted(o, a, g, startMatch); }
  }

  /** Turns the result of match() into the yield and fills in the pair of the whole match. */
  method Finish(md: MatchData, code: Code, offsetcount: nat) returns (rc: int)
    requires code != MATCH_NOMATCH && offsetcount <= md.offsetVector.Length
    modifies md.offsetVector
    ensures code == MATCH_MATCH ==>
              && rc == (if md.offsetOverflow || offsetcount < 2 then 0 else md.endOffsetTop / 2)
              && md.offsetVector[..] == Whole(old(md.offsetVector[..]), offsetcount, md.startMatchPtr, md.endMatchPtr)
    ensures code == ERROR_MATCHLIMIT ==> rc == PCRE_ERROR_MATCHLIMIT
    ensures code == ERROR_RECURSIONLIMIT ==> rc == PCRE_ERROR_RECURSIONLIMIT
  {
    if code != MATCH_MATCH {
      return if code == ERROR_MATCHLIMIT then PCRE_ERROR_MATCHLIMIT else PCRE_ERROR_RECURSIONLIMIT;
    }
    rc := if md.offsetOverflow then 0 else md.endOffsetTop / 2;
    if offsetcount < 2 {
      rc := 0;
    } else {
      md.offsetVector[0] := md.startMatchPtr;
      md.offsetVector[1] := md.endMatchPtr;
    }
  }

  /** The vector with the whole match in its first pair, when there is room. */
  function Whole(v: seq<int>, offsetcount: nat, start: nat, end: nat): seq<int> {
    if 2 <= offsetcount <= |v| then v[0 := start][1 := end] else v
  }

  /** Matches a pattern. Unless a limit is hit, the yield is not negative exactly when trying every
      allowed starting point in order would find a match; then the match is the one that match()
      finds at the leftmost of these. */
  method PcreExec(md: MatchData, f: Facts, o: Options, offsetcount: nat, ghost g: Group)
    returns (rc: int, ghost start: nat, ghost v: seq<int>, ghost r: State)
    requires md.offsetEnd == offsetcount - offsetcount % 3 && offsetcount <= md.offsetVector.Length
    requires md.offsetMax == 2 * md.offsetEnd / 3 && md.topBracket == f.topBracket && !md.offsetOverflow
    requires md.tb.Valid() && md.startOffset <= |md.subject|
    requires AtPattern(md.code, g, md.caseless) && CheckedGroup(g)
    requires FactsSound(f, Context(md.subject, md.tb, md.caseless), g)
    modifies md, md.offsetVector
    ensures rc == PCRE_ERROR_NOMATCH ==> Exhausted(o, md.AttemptAt(0), g)
    ensures rc >= 0 ==> Leftmost(o, md.AttemptAt(0), g, start) && Finds(md.AttemptAt(0), g, start, v, r)
    ensures rc >= 0 ==> md.offsetVector[..] == Whole(r.ov, offsetcount, start, r.pos)
    ensures rc >= 0 ==> rc == (if md.offsetOverflow || offsetcount < 2 then 0 else r.top / 2)
    ensures rc == 0 ==> offsetcount < 2 || 2 * f.topBracket >= md.offsetMax
    ensures rc > 0 ==> !r.lost
    ensures rc >= 0 ==> md.matchCallCount <= md.matchLimit && md.matchLimitRecursion > 0
    ensures rc >= 0 ==> CapturesOrdered(md.offsetMax, f.topBracket, r.ov, start, r.pos, r.top)
    ensures rc >= 0 ==> |v| == md.offsetVector.Length && start <= |md.subject|
    ensures rc >= 0 ==> forall k: nat :: 1 <= k <= f.topBracket && md.AttemptAt(0).Fits(k) ==> Pair(v, k) == (-1, -1)
    ensures rc >= 0 && DistinctGroup(g, {}) ==> forall k: nat :: md.AttemptAt(0).Fits(k) ==>
              Pair(r.ov, k) == Pair(v, k) || CapturedBy(md.AttemptAt(0).c, InGroup(g), k, Pair(r.ov, k))
    ensures rc == PCRE_ERROR_MATCHLIMIT ==> md.matchCallCount > md.matchLimit
    ensures rc == PCRE_ERROR_RECURSIONLIMIT ==>
              exists t: nat :: t <= |md.subject| && md.matchLimitRecursion <= WGroup(g, |md.subject|, t)
    ensures rc < 0 ==> rc in {PCRE_ERROR_NOMATCH, PCRE_ERROR_MATCHLIMIT, PCRE_ERROR_RECURSIONLIMIT}
  {
    hide AtPattern, CheckedGroup, FactsSound, MatchesAt, NoMatches, Exhausted, First, CapsGroup, NoNewline, DGroup, CapturesOrdered, WGroup,
      DistinctGroup, CapturedBy, GroupHas;
    var ocount := md.offsetEnd;
    var resetcount := 2 + f.topBracket * 2;
    if resetcount > offsetcount { resetcount := ocount; }
    ResetSlots(md.offsetVector, ocount, resetcount);
    ghost var a := md.AttemptAt(0);
    var startMatch := md.startOffset;
    var reqBytePtr: int := (startMatch as int) - 1;
    start, v, r := 0, [], State(0, [], 0, [], false);
    NothingTried(o, a, g);
    CapsKnown(f, a.c, g);
    while true
      invariant md.startOffset <= startMatch <= |md.subject| && Eligible(o, a, startMatch)
      invariant NoMatches(a, g, md.startOffset, startMatch) && md.OverflowRight()
      decreases |md.subject| - startMatch
    {
      ResetPairs(md.offsetVector, resetcount);
      var hopeless: bool;
      startMatch, hopeless, reqBytePtr := Optimize(md, f, o, startMatch, reqBytePtr, g);
      if hopeless { break; }
      v := md.offsetVector[..];
      var code := md.MatchWhole(startMatch, g);
      if code != MATCH_NOMATCH {
        start := startMatch;
        if code == MATCH_MATCH {
          r := First(md.AttemptAt(start), Cons(Grp(g), Nil), Done, State(start, v, 2, [], false)).value;
          MatchFound(a, g, start, r.pos);
          OrderedAfter(md.offsetMax, resetcount, f.topBracket, v, r, start);
          UnsetPairs(md.offsetMax, resetcount, f.topBracket, v);
        }
        rc := Finish(md, code, offsetcount);
        return;
      }
      assert md.AttemptAt(startMatch) == a.(mstart := startMatch) && md.AttemptAt(startMatch).c == a.c;
      NoMatchFound(a, g, startMatch);
      TriedOne(o, a, g, startMatch);
      if o.firstline && IsNewline(md.subject, startMatch) { break; }
      startMatch := startMatch + 1;
      if o.anchored || startMatch > |md.subject| { break; }
    }
    rc := PCRE_ERROR_NOMATCH;
  }

  /** The pair of every group is unset, or ordered and below the high water mark. */
  ghost predicate CapturesOrdered(offsetMax: nat, n: nat, ov: seq<int>, start: nat, end: nat, top: nat) {
    && top <= 2 * n + 2
    && forall k: nat :: 1 <= k <= n && 2 * k + 1 < offsetMax ==>
         Pair(ov, k) == (-1, -1) || (SetBetween(Pair(ov, k), start, end) && 2 * k < top)
  }

  lemma OrderedAfter(offsetMax: nat, resetcount: nat, n: nat, v: seq<int>, r: State, start: nat)
    requires Unset(v, resetcount) && (resetcount == 2 * n + 2 || offsetMax <= resetcount)
    requires r.top <= 2 * n + 2
    requires forall k: nat :: 2 * k + 1 < offsetMax && Pair(v, k) == (-1, -1) ==>
               Pair(r.ov, k) == (-1, -1) || (SetBetween(Pair(r.ov, k), start, r.pos) && 2 * k < r.top)
    ensures CapturesOrdered(offsetMax, n, r.ov, start, r.pos, r.top)
  {
  }

  lemma UnsetPairs(offsetMax: nat, resetcount: nat, n: nat, v: seq<int>)
    requires Unset(v, resetcount) && (resetcount == 2 * n + 2 || offsetMax <= resetcount) && offsetMax % 2 == 0
    ensures forall k: nat :: 1 <= k <= n && 2 * k < offsetMax ==> Pair(v, k) == (-1, -1)
  {
  }

  lemma CapsKnown(f: Facts, c: Context, g: Group)
    requires FactsSound(f, c, g)
    ensures CapsGroup(g, f.topBracket)
  {
  }

  lemma MatchFound(a: Attempt, g: Group, t: nat, j: nat)
    requires DGroup(a.c, g, t, j) && a.(mstart := t).Acceptable(j)
    ensures MatchesAt(a, g, t)
  {
  }

  lemma NoMatchFound(a: Attempt, g: Group, t: nat)
    requires forall j: nat :: DGroup(a.c, g, t, j) ==> !a.(mstart := t).Acceptable(j)
    ensures !MatchesAt(a, g, t)
  {
  }
}

/** The backtracking matcher match(), with its offset vector, its chain of remembered group starts
    and its limits. */
module Match {
  import opened Common
  import opened ByteCode
  import opened Meaning
  import opened Outcomes
  import opened Lengths
  import opened Captures
  import opened Backtracking
  import opened MatchSteps

  lemma EnterKeeps(a: Attempt, g: Group, st: State)
    ensures Enter(a, g, st).lost == st.lost
  {
  }

  datatype Code = MATCH_MATCH | MATCH_NOMATCH | ERROR_MATCHLIMIT | ERROR_RECURSIONLIMIT

  /** The data block of one call of pcre_exec(). */
  class MatchData {
    const subject: seq<byte>
    const code: seq<byte>
    const tb: Tables
    const caseless: bool
    const offsetVector: array<int>
    const offsetEnd: nat
    const offsetMax: nat
    const startOffset: nat
    const notempty: bool
    const notemptyAtStart: bool
    const matchLimit: nat
    const matchLimitRecursion: nat
    const topBracket: nat
    var matchCallCount: nat
    var endMatchPtr: nat
    var endOffsetTop: nat
    var startMatchPtr: nat
    var offsetOverflow: bool

    constructor (subject: seq<byte>, code: seq<byte>, tb: Tables, caseless: bool, offsetVector: array<int>, offsetEnd: nat,
                 startOffset: nat, notempty: bool, notemptyAtStart: bool, matchLimit: nat, matchLimitRecursion: nat,
                 topBracket: nat)
      requires offsetEnd % 3 == 0 && offsetEnd <= offsetVector.Length
      ensures this.subject == subject && this.code == code && this.tb == tb && this.caseless == caseless
      ensures this.offsetVector == offsetVector && this.startOffset == startOffset
      ensures this.notempty == notempty && this.notemptyAtStart == notemptyAtStart
      ensures this.matchLimit == matchLimit && this.matchLimitRecursion == matchLimitRecursion
      ensures this.offsetEnd == offsetEnd && offsetMax == 2 * offsetEnd / 3
      ensures this.topBracket == topBracket && matchCallCount == 0 && !offsetOverflow
    {
      this.subject, this.code, this.tb, this.caseless := subject, code, tb, caseless;
      this.offsetVector, this.startOffset := offsetVector, startOffset;
      this.notempty, this.notemptyAtStart := notempty, notemptyAtStart;
      this.matchLimit, this.matchLimitRecursion, this.topBracket := matchLimit, matchLimitRecursion, topBracket;
      this.offsetEnd, offsetMax := offsetEnd, 2 * offsetEnd / 3;
      matchCallCount, endMatchPtr, endOffsetTop, startMatchPtr, offsetOverflow := 0, 0, 0, 0, false;
    }

    /** The block belongs to attempt a. */
    ghost predicate Serves(a: Attempt) {
      && a.Valid()
      && a.c == Context(subject, tb, caseless)
      && a.offsetEnd == offsetEnd <= offsetVector.Length
      && a.offsetMax == offsetMax
      && a.startOffset == startOffset
      && a.notempty == notempty
      && a.notemptyAtStart == notemptyAtStart
      && a.topBracket == topBracket
    }

    /** offset_overflow tells that the vector is too small for the groups of the pattern. */
    ghost predicate OverflowRight()
      reads this`offsetOverflow
    {
      offsetOverflow ==> 2 * topBracket >= offsetMax
    }

    /** offset_overflow tells of every capture that was lost, and no limit on calls has been exceeded. */
    ghost predicate Going(st: State)
      reads this`offsetOverflow, this`matchCallCount
    {
      OverflowRight() && (st.lost ==> offsetOverflow) && matchCallCount <= matchLimit
    }

    /** match() is about to go on from state st with its and then k, whose code is at ecode. The
        pairs of the groups enclosing this point may differ from those of st. */
    ghost predicate Poised(a: Attempt, its: Items, k: Kont, st: State, ecode: nat)
      reads this`offsetOverflow, this`matchCallCount, offsetVector
    {
      && Serves(a)
      && Going(st)
      && Ready(a, its, k, st)
      && AtItems(code, ecode, its, caseless)
      && AtKont(code, ecode + ItemsLen(its), k, caseless)
      && Agree(a, k, offsetVector[..], st.ov)
    }

    /** The block describes a match with outcome r. */
    ghost predicate Holds(r: State)
      reads this, offsetVector
    {
      offsetVector[..] == r.ov && endMatchPtr == r.pos && endOffsetTop == r.top
    }

    /** A return code is the right answer, for a call from st, when the first acceptable outcome is f: after a match the
        block holds that outcome; after a failure the offset vector is as it was, except in the pairs of the
        enclosing groups. */
    ghost predicate Answers(a: Attempt, f: Option<State>, k: Kont, st: State, rrc: Code)
      reads this, offsetVector
    {
      && (rrc == MATCH_MATCH ==> f.Some? && Holds(f.value) && startMatchPtr == a.mstart && Going(f.value))
      && (rrc == MATCH_NOMATCH ==> f.None? && Agree(a, k, offsetVector[..], st.ov) && Going(st))
      && (rrc == ERROR_MATCHLIMIT ==> matchCallCount > matchLimit)
      && OverflowRight()
    }

    /** match() as it is called: checks the limits, remembers the subject position when a "check
        empty" group is starting, and goes on. */
    method Match(eptr: nat, ecode: nat, mstart: nat, offsetTop: nat, eptrb: seq<nat>, cbegroup: bool, rdepth: nat,
                 ghost a: Attempt, ghost its: Items, ghost k: Kont, ghost st: State)
      returns (rrc: Code)
      requires Poised(a, its, k, st, ecode)
      requires eptr == st.pos && offsetTop == st.top && mstart == a.mstart
      requires st.chain == if cbegroup then [eptr] + eptrb else eptrb
      modifies this, offsetVector
      ensures Answers(a, First(a, its, k, st), k, st, rrc)
      ensures rrc == ERROR_RECURSIONLIMIT ==> matchLimitRecursion <= rdepth + Work(its, k, |subject|, eptr)
      ensures rdepth >= matchLimitRecursion ==> rrc == ERROR_MATCHLIMIT || rrc == ERROR_RECURSIONLIMIT
      ensures matchCallCount > old(matchCallCount)
      decreases Work(its, k, |a.c.s|, st.pos), 5
    {
      matchCallCount := matchCallCount + 1;
      if matchCallCount - 1 >= matchLimit { return ERROR_MATCHLIMIT; }
      if rdepth >= matchLimitRecursion { return ERROR_RECURSIONLIMIT; }
      var chain := if cbegroup then [eptr] + eptrb else eptrb;
      rrc := Run(eptr, ecode, mstart, offsetTop, chain, rdepth, a, its, k, st);
    }

    /** From (its, k, st) match() has moved on, at the same level, to (its', k', st'): the answer is
        still the same, and less remains to be done. */
    ghost predicate MovedOn(a: Attempt, its: Items, k: Kont, st: State, its': Items, k': Kont, st': State,
                            eptr: nat, ecode: nat, offsetTop: nat, eptrb: seq<nat>)
      reads this`offsetOverflow, this`matchCallCount, offsetVector
    {
      && Poised(a, its', k', st', ecode)
      && eptr == st'.pos && offsetTop == st'.top && eptrb == st'.chain
      && First(a, its', k', st') == First(a, its, k, st)
      && (Work(its', k', |a.c.s|, st'.pos) < Work(its, k, |a.c.s|, st.pos)
          || (Work(its', k', |a.c.s|, st'.pos) == Work(its, k, |a.c.s|, st.pos) && !Alternated(k') && Alternated(k)))
      && Inside(a, k', k)
      && Agree(a, k, st'.ov, st.ov)
      && (st.lost ==> st'.lost)
    }

    ghost predicate Alternated(k: Kont) {
      k.Frame? && k.rest.Alternatives?
    }

    /** The loop over opcodes. */
    method Run(eptr0: nat, ecode0: nat, mstart: nat, offsetTop0: nat, eptrb0: seq<nat>, rdepth: nat,
               ghost a: Attempt, ghost its0: Items, ghost k0: Kont, ghost st0: State)
      returns (rrc: Code)
      requires Poised(a, its0, k0, st0, ecode0)
      requires eptr0 == st0.pos && offsetTop0 == st0.top && eptrb0 == st0.chain && mstart == a.mstart
      modifies this, offsetVector
      ensures Answers(a, First(a, its0, k0, st0), k0, st0, rrc)
      ensures rrc == ERROR_RECURSIONLIMIT ==> matchLimitRecursion <= rdepth + Work(its0, k0, |subject|, eptr0)
      ensures matchCallCount >= old(matchCallCount)
      decreases Work(its0, k0, |a.c.s|, st0.pos), 4
    {
      var eptr: nat, ecode: nat, offsetTop: nat, eptrb := eptr0, ecode0, offsetTop0, eptrb0;
      ghost var its, k, st := its0, k0, st0;
      hide Poised, First, Work, Agree, Inside, AtItems, AtKont, AtGroup, GroupOp;
      AgreeSame(a, k, st.ov);
      while true
        invariant Poised(a, its, k, st, ecode)
        invariant eptr == st.pos && offsetTop == st.top && eptrb == st.chain
        invariant First(a, its, k, st) == First(a, its0, k0, st0)
        invariant Work(its, k, |a.c.s|, st.pos) <= Work(its0, k0, |a.c.s|, st0.pos)
        invariant Inside(a, k, k0) && (st0.lost ==> st.lost)
        invariant Agree(a, k0, st.ov, st0.ov)
        invariant matchCallCount >= old(matchCallCount)
        decreases Work(its, k, |a.c.s|, st.pos), Alternated(k)
      {
        ghost var k', st' := k, st;
        DecodePoised(a, its, k, st, ecode);
        var op := code[ecode];
        var done := true;
        if OP_BRA <= op <= OP_SCBRA {
          if (op == OP_CBRA || op == OP_SCBRA) && 2 * Get(code, ecode + 1 + LINK_SIZE) < offsetMax {
            rrc := MatchCapture(eptr, ecode, mstart, offsetTop, eptrb, rdepth, a, its.hd.g, its.tl, k, st);
          } else {
            rrc := MatchBracket(eptr, ecode, mstart, offsetTop, eptrb, rdepth, a, its.hd.g, its.tl, k, st);
          }
        } else if op == OP_END {
          rrc := MatchEnd(eptr, mstart, offsetTop, a, st);
        } else if op == OP_ALT {
          done, rrc := false, MATCH_NOMATCH;
          ecode, k := MatchAlt(ecode, a, k, st);
        } else if OP_BRAZERO <= op <= OP_BRAMINZERO {
          rrc, done, ecode, its := MatchZero(eptr, ecode, mstart, offsetTop, eptrb, rdepth, a, its, k, st);
        } else if OP_KET <= op <= OP_KETRMIN {
          rrc, done, ecode, offsetTop, eptrb, its, k, st :=
            MatchKet(eptr, ecode, mstart, offsetTop, eptrb, rdepth, a, k, st);
        } else if OP_STAR <= op < OP_CRSTAR || op == OP_CLASS || op == OP_NCLASS {
          rrc, done, eptr, ecode, its, st :=
            MatchQuantified(eptr, ecode, mstart, offsetTop, eptrb, rdepth, a, its, k, st);
        } else {
          done, eptr, ecode, its, st := MatchOne(eptr, ecode, a, its, k, st);
          rrc := MATCH_NOMATCH;
        }
        if done {
          if rrc == MATCH_NOMATCH { AgreeTrans(a, k0, k', offsetVector[..], st'.ov, st0.ov); }
          return;
        }
        InsideTrans(a, k, k', k0);
        AgreeTrans(a, k0, k', st.ov, st'.ov, st0.ov);
      }
    }

    /** What the opcode tells about the work that remains. */
    lemma DecodePoised(a: Attempt, its: Items, k: Kont, st: State, ecode: nat)
      requires Poised(a, its, k, st, ecode)
      ensures ecode < |code|
      ensures code[ecode] == OP_END <==> its.Nil? && k.Done?
      ensures code[ecode] == OP_ALT <==> its.Nil? && k.Frame? && k.rest.Alternatives?
      ensures OP_KET <= code[ecode] <= OP_KETRMIN <==> its.Nil? && k.Frame? && k.rest.NoMore?
      ensures OP_NOT_DIGIT <= code[ecode] <= OP_ALLANY || OP_CHAR <= code[ecode] <= OP_NOT
          <==> its.Cons? && its.hd.One? && !its.hd.u.Class?
      ensures OP_STAR <= code[ecode] < OP_CRSTAR <==> its.Cons? && its.hd.Rep? && !its.hd.u.Class?
      ensures OP_CLASS <= code[ecode] <= OP_NCLASS
          <==> its.Cons? && (its.hd.One? || its.hd.Rep?) && its.hd.u.Class?
      ensures OP_BRA <= code[ecode] <= OP_SCBRA <==> its.Cons? && its.hd.Grp?
      ensures OP_BRAZERO <= code[ecode] <= OP_BRAMINZERO <==> its.Cons? && its.hd.Zero?
      ensures OP_BRA <= code[ecode] <= OP_SCBRA ==> (
                && its == Cons(Grp(its.hd.g), its.tl)
                && ecode + HdrLen(its.hd.g) <= |code|
                && (code[ecode] == OP_CBRA || code[ecode] == OP_SCBRA <==> its.hd.g.cap > 0)
                && (its.hd.g.cap > 0 ==> HdrLen(its.hd.g) == 3 + LINK_SIZE)
                && (its.hd.g.cap > 0 ==> Get(code, ecode + 1 + LINK_SIZE) == its.hd.g.cap))
      ensures Serves(a) && Going(st) && Agree(a, k, offsetVector[..], st.ov)
    {
      Decode(code, ecode, its, k, caseless);
      hide Ready, AtKont, Agree;
      if its.Cons? && its.hd.Grp? {
        GroupAt(code, ecode, its.hd.g, its.tl, caseless);
        BracketOp(a, code, ecode, its.hd.g, st);
      }
    }

    /** The end of the pattern. */
    method MatchEnd(eptr: nat, mstart: nat, offsetTop: nat, ghost a: Attempt, ghost st: State) returns (rrc: Code)
      requires Serves(a) && Going(st) && Agree(a, Done, offsetVector[..], st.ov)
      requires eptr == st.pos && offsetTop == st.top && mstart == a.mstart
      modifies this`endMatchPtr, this`endOffsetTop, this`startMatchPtr
      ensures Answers(a, First(a, Nil, Done, st), Done, st, rrc)
      ensures rrc == MATCH_MATCH || rrc == MATCH_NOMATCH
    {
      assert FirstOf(a, [st], Done) == if a.Acceptable(st.pos) then Some(st) else None;
      if eptr == mstart && (notempty || (notemptyAtStart && mstart == startOffset)) {
        return MATCH_NOMATCH;
      }
      endMatchPtr, endOffsetTop, startMatchPtr := eptr, offsetTop, mstart;
      assert offsetVector[..] == st.ov;
      return MATCH_MATCH;
    }

    /** The end of a branch that is not the last: goes to the ket. */
    method MatchAlt(ecode: nat, ghost a: Attempt, ghost k: Kont, ghost st: State) returns (q: nat, ghost k': Kont)
      requires Poised(a, Nil, k, st, ecode) && Alternated(k)
      ensures MovedOn(a, Nil, k, st, Nil, k', st, st.pos, q, st.top, st.chain)
    {
      hide AtAlts, AtGroup, AltsLen, GroupLen, FirstOf, ItemsOutcomes, Agree, Ready, Work, Inside;
      q := SkipToKet(code, ecode, 1 + LINK_SIZE, k.rest.alts, k.gp, KetOp(k.g.ket), caseless);
      RestIrrelevant(a, ItemsOutcomes(a, Nil, st), k, NoMore);
      k' := k.(rest := NoMore);
      NoMoreReady(a, k, st, offsetVector[..]);
    }

    /** BRAZERO tries the group and then does without it; BRAMINZERO the other way round. */
    method MatchZero(eptr: nat, ecode0: nat, mstart: nat, offsetTop: nat, eptrb: seq<nat>, rdepth: nat,
                     ghost a: Attempt, ghost its: Items, ghost k: Kont, ghost st: State)
      returns (rrc: Code, done: bool, ecode: nat, ghost its': Items)
      requires Poised(a, its, k, st, ecode0) && its.Cons? && its.hd.Zero?
      requires eptr == st.pos && offsetTop == st.top && eptrb == st.chain && mstart == a.mstart
      modifies this, offsetVector
      ensures done ==> Answers(a, First(a, its, k, st), k, st, rrc)
      ensures done && rrc == ERROR_RECURSIONLIMIT ==> matchLimitRecursion <= rdepth + Work(its, k, |subject|, eptr)
      ensures !done ==> MovedOn(a, its, k, st, its', k, st, eptr, ecode, offsetTop, eptrb)
      ensures matchCallCount >= old(matchCallCount)
      decreases Work(its, k, |a.c.s|, st.pos), 3
    {
      hide Ready, AtItems, AtKont, First, Work, Agree, AtGroup, AtAlts, Inside, ItemsLen, GroupLen, NodeLen, AltsLen;
      ghost var g, tl := its.hd.g, its.tl;
      ZeroAt(code, ecode0, its, caseless);
      AgreeSame(a, k, st.ov);
      ZeroFirst(a, its.hd, tl, k, st);
      ZeroReady(a, its.hd, tl, k, st);
      var next := SkipToKet(code, ecode0 + 1, HdrLen(g), g.alts, ecode0 + 1, KetOp(g.ket), caseless);
      if code[ecode0] == OP_BRAZERO {
        rrc := Match(eptr, ecode0 + 1, mstart, offsetTop, eptrb, false, rdepth + 1, a, Cons(Grp(g), tl), k, st);
        ecode, its' := next + 1 + LINK_SIZE, tl;
      } else {
        rrc := Match(eptr, next + 1 + LINK_SIZE, mstart, offsetTop, eptrb, false, rdepth + 1, a, tl, k, st);
        ecode, its' := ecode0 + 1, Cons(Grp(g), tl);
      }
      done := rrc != MATCH_NOMATCH;
    }

    /** The end of a group. */
    method MatchKet(eptr: nat, ecode0: nat, mstart: nat, offsetTop0: nat, eptrb0: seq<nat>, rdepth: nat,
                    ghost a: Attempt, ghost k: Kont, ghost st: State)
      returns (rrc: Code, done: bool, ecode: nat, offsetTop: nat, eptrb: seq<nat>, ghost its': Items, ghost k': Kont, ghost st': State)
      requires Poised(a, Nil, k, st, ecode0) && k.Frame? && k.rest.NoMore?
      requires eptr == st.pos && offsetTop0 == st.top && eptrb0 == st.chain && mstart == a.mstart
      modifies this, offsetVector
      ensures done ==> Answers(a, First(a, Nil, k, st), k, st, rrc)
      ensures done && rrc == ERROR_RECURSIONLIMIT ==> matchLimitRecursion <= rdepth + Work(Nil, k, |subject|, eptr)
      ensures !done ==> MovedOn(a, Nil, k, st, its', k', st', eptr, ecode, offsetTop, eptrb)
      ensures matchCallCount >= old(matchCallCount)
      decreases Work(Nil, k, |a.c.s|, st.pos), 3
    {
      hide Ready, AtItems, AtKont, AtGroup, Work, GroupLen, FirstOf, ItemsOutcomes;
      LoopAt(code, ecode0, k, caseless);
      CloseReady(a, k, st);
      ReadySized(a, Nil, k, st);
      var prev: nat := ecode0 - Get(code, ecode0 + 1);
      var isS := code[prev] >= OP_SBRA;
      var saved := 0;
      eptrb := eptrb0;
      if isS {
        saved := eptrb[0];
        eptrb := eptrb[1..];
      }
      its', k', st' := k.after, k.outer, Close(a, k.g, st);
      assert Agree(a, k, st'.ov, st.ov);
      offsetTop := CloseCapture(eptr, prev, offsetTop0, a, k, st);
      done, ecode := false, ecode0 + 1 + LINK_SIZE;
      if code[ecode0] == OP_KET || (isS && eptr == saved) {
        rrc := MATCH_NOMATCH;
        CloseFirst(a, k, st);
      } else {
        rrc := MatchRepeatedGroup(eptr, ecode0, prev, isS, mstart, offsetTop, eptrb, rdepth, a, k, st);
        done := true;
      }
    }

    /** A repeated character, type or class, or a class that is not repeated. */
    method MatchQuantified(eptr0: nat, ecode0: nat, mstart: nat, offsetTop: nat, eptrb: seq<nat>, rdepth: nat,
                           ghost a: Attempt, ghost its: Items, ghost k: Kont, ghost st: State)
      returns (rrc: Code, done: bool, eptr: nat, ecode: nat, ghost its': Items, ghost st': State)
      requires Poised(a, its, k, st, ecode0) && its.Cons? && (its.hd.Rep? || (its.hd.One? && its.hd.u.Class?))
      requires OP_STAR <= code[ecode0] < OP_CRSTAR <==> !its.hd.u.Class?
      requires eptr0 == st.pos && offsetTop == st.top && eptrb == st.chain && mstart == a.mstart
      modifies this, offsetVector
      ensures done ==> Answers(a, First(a, its, k, st), k, st, rrc)
      ensures done && rrc == ERROR_RECURSIONLIMIT ==> matchLimitRecursion <= rdepth + Work(its, k, |subject|, eptr0)
      ensures !done ==> MovedOn(a, its, k, st, its', k, st', eptr, ecode, offsetTop, eptrb)
      ensures matchCallCount >= old(matchCallCount)
      decreases Work(its, k, |a.c.s|, st.pos), 3
    {
      hide AtItems, AtKont, FirstOf, Work, ItemsOutcomes;
      ConsAt(code, ecode0, its, caseless);
      var unit, min, max, minimize, possessive;
      if OP_STAR <= code[ecode0] < OP_CRSTAR {
        unit, min, max, minimize, possessive, ecode :=
          ReadRepeat(code, ecode0, caseless, its.hd.u, its.hd.q, its.hd.m);
      } else {
        unit, min, max, minimize, ecode := ReadClass(code, ecode0, caseless, its.hd);
        possessive := false;
      }
      var carryOn;
      rrc, carryOn, eptr := MatchRepeat(eptr0, ecode, mstart, offsetTop, eptrb, rdepth, unit, min, max,
                                        minimize, possessive, a, its.hd, its.tl, k, st);
      done := !carryOn;
      its', st' := its.tl, st;
      if !done {
        StepReady(a, its.hd, its.tl, k, st, eptr);
        st' := st.(pos := eptr);
      }
    }

    /** A single character, negated character or type. */
    method MatchOne(eptr0: nat, ecode0: nat, ghost a: Attempt, ghost its: Items, ghost k: Kont, ghost st: State)
      returns (done: bool, eptr: nat, ecode: nat, ghost its': Items, ghost st': State)
      requires Poised(a, its, k, st, ecode0) && its.Cons? && its.hd.One? && !its.hd.u.Class?
      requires eptr0 == st.pos
      ensures done ==> First(a, its, k, st) == None
      ensures !done ==> MovedOn(a, its, k, st, its', k, st', eptr, ecode, st.top, st.chain)
    {
      hide Ready, AtItems, AtKont, First, Work, Accepts, ItemsLen;
      OneFirst(a, its.hd.u, its.tl, k, st);
      ConsAt(code, ecode0, its, caseless);
      var unit := UnitAt(code, ecode0);
      assert unit == its.hd.u;
      ReadySized(a, its, k, st);
      eptr, ecode, done := eptr0, ecode0, true;
      its', st' := its, st;
      if eptr < |subject| && Accepts(tb, caseless, unit, subject[eptr]) {
        StepReady(a, its.hd, its.tl, k, st, eptr + 1);
        eptr, ecode, done := eptr + 1, ecode + UnitLen(unit), false;
        its', st' := its.tl, Advance(st, 1);
      }
    }

    /** The capturing part of a closing ket. */
    method CloseCapture(eptr: nat, prev: nat, offsetTop: nat, ghost a: Attempt, ghost k: Kont, ghost st: State)
      returns (newTop: nat)
      requires Serves(a) && Going(st) && k.Frame? && prev == k.gp && AtGroup(code, prev, k.g, caseless)
      requires k.g.cap <= topBracket
      requires |st.ov| == offsetVector.Length && eptr == st.pos && offsetTop == st.top
      requires Agree(a, k, offsetVector[..], st.ov)
      modifies this`offsetOverflow, offsetVector
      ensures newTop == Close(a, k.g, st).top && Going(Close(a, k.g, st))
      ensures Agree(a, k.outer, offsetVector[..], Close(a, k.g, st).ov)
    {
      newTop := offsetTop;
      if code[prev] == OP_CBRA || code[prev] == OP_SCBRA {
        var number := Get(code, prev + 1 + LINK_SIZE);
        var offset := 2 * number;
        if offset >= offsetMax {
          offsetOverflow := true;
        } else {
          ghost var ov := offsetVector[..];
          if Open(a, k, offsetEnd - number) { OpenBelow(a, k, offsetEnd - number); }
          offsetVector[offset] := offsetVector[offsetEnd - number];
          offsetVector[offset + 1] := eptr;
          if newTop <= offset { newTop := offset + 2; }
        }
      }
    }

    /** A bracket whose capture fits in the offset vector: tries the branches in turn and puts the
        old offsets back when all of them fail. */
    method MatchCapture(eptr: nat, ecode: nat, mstart: nat, offsetTop: nat, eptrb: seq<nat>, rdepth: nat,
                        ghost a: Attempt, ghost g: Group, ghost tl: Items, ghost k: Kont, ghost st: State)
      returns (rrc: Code)
      requires Poised(a, Cons(Grp(g), tl), k, st, ecode) && a.Fits(g.cap)
      requires eptr == st.pos && offsetTop == st.top && eptrb == st.chain && mstart == a.mstart
      modifies this, offsetVector
      ensures Answers(a, First(a, Cons(Grp(g), tl), k, st), k, st, rrc)
      ensures rrc == ERROR_RECURSIONLIMIT ==>
                matchLimitRecursion <= rdepth + Work(Cons(Grp(g), tl), k, |subject|, eptr)
      ensures matchCallCount >= old(matchCallCount)
      decreases Work(Cons(Grp(g), tl), k, |a.c.s|, st.pos), 3
    {
      hide Ready, AtItems, AtKont, AtAlts, AtGroup, Trying, First, FirstOf, Work, Agree, Enter;
      GroupAt(code, ecode, g, tl, caseless);
      BracketOp(a, code, ecode, g, st);
      ReadySized(a, Cons(Grp(g), tl), k, st);
      var number := Get(code, ecode + 1 + LINK_SIZE);
      var offset := 2 * number;
      var saveOffset1, saveOffset2 := offsetVector[offset], offsetVector[offset + 1];
      var saveOffset3 := offsetVector[offsetEnd - number];
      ghost var ov := offsetVector[..];
      offsetVector[offsetEnd - number] := eptr;
      ghost var e := Enter(a, g, st);
      EnterKeeps(a, g, st);
      ghost var f := Frame(ecode, g, NoMore, tl, eptr, k);
      SaveSlot(a, g, k, f, ov, st);
      assert offsetVector[..] == Set(ov, offsetEnd - number, eptr);
      rrc := TryBranches(eptr, ecode, mstart, offsetTop, eptrb, rdepth, a, g, tl, k, st);
      if rrc != MATCH_NOMATCH { return; }
      ghost var left := offsetVector[..];
      offsetVector[offset] := saveOffset1;
      offsetVector[offset + 1] := saveOffset2;
      offsetVector[offsetEnd - number] := saveOffset3;
      RestoreSlots(a, g, k, f, ov, left, offsetVector[..], st);
      return MATCH_NOMATCH;
    }

    /** Tries the branches of a capturing bracket in turn. */
    method TryBranches(eptr: nat, ecode: nat, mstart: nat, offsetTop: nat, eptrb: seq<nat>, rdepth: nat,
                       ghost a: Attempt, ghost g: Group, ghost tl: Items, ghost k: Kont, ghost st: State)
      returns (rrc: Code)
      requires Serves(a) && Going(st) && Ready(a, Cons(Grp(g), tl), k, st) && g.cap > 0
      requires AtItems(code, ecode, Cons(Grp(g), tl), caseless) && AtGroup(code, ecode, g, caseless)
      requires AtKont(code, ecode + ItemsLen(Cons(Grp(g), tl)), k, caseless)
      requires Agree(a, Frame(ecode, g, NoMore, tl, eptr, k), offsetVector[..], Enter(a, g, st).ov)
      requires eptr == st.pos && offsetTop == st.top && eptrb == st.chain && mstart == a.mstart
      modifies this, offsetVector
      ensures Answers(a, First(a, Cons(Grp(g), tl), k, st), Frame(ecode, g, NoMore, tl, eptr, k), Enter(a, g, st), rrc)
      ensures rrc == ERROR_RECURSIONLIMIT ==>
                matchLimitRecursion <= rdepth + Work(Cons(Grp(g), tl), k, |subject|, eptr)
      ensures matchCallCount >= old(matchCallCount)
      decreases Work(Cons(Grp(g), tl), k, |a.c.s|, st.pos), 2
    {
      hide Ready, AtItems, AtKont, AtAlts, AtGroup, Trying, First, Work, Agree, Enter;
      BracketOp(a, code, ecode, g, st);
      ghost var e := Enter(a, g, st);
      EnterKeeps(a, g, st);
      ghost var f := Frame(ecode, g, NoMore, tl, eptr, k);
      var cbegroup := code[ecode] == OP_SCBRA;
      TryingFirst(a, code, ecode, g, tl, k, st);
      var p: nat := ecode;
      ghost var h: nat, alts := HdrLen(g), g.alts;
      while true
        invariant Trying(a, code, ecode, p, h, g, alts, tl, k, st)
        invariant Agree(a, f, offsetVector[..], e.ov)
        invariant matchCallCount >= old(matchCallCount) && Going(st)
        decreases alts
      {
        ghost var f' := EnterReady(a, code, ecode, p, h, g, alts, tl, k, st);
        TryingNext(a, code, ecode, p, h, g, alts, tl, k, st);
        AgreeRest(a, f, f'.rest, offsetVector[..], e.ov);
        rrc := Match(eptr, p + OpLength(code[p]), mstart, offsetTop, eptrb, cbegroup, rdepth + 1, a, alts.b, f', e);
        if rrc == MATCH_NOMATCH { AgreeRest(a, f, f'.rest, offsetVector[..], e.ov); }
        if rrc != MATCH_NOMATCH { return; }
        p := p + Get(code, p + 1);
        if code[p] != OP_ALT { break; }
        h, alts := 1 + LINK_SIZE, alts.rest;
      }
      return MATCH_NOMATCH;
    }

    /** A bracket that captures nothing. The last branch continues at the same recursion level,
        unless its start has to be remembered. */
    method MatchBracket(eptr: nat, ecode: nat, mstart: nat, offsetTop: nat, eptrb: seq<nat>, rdepth: nat,
                        ghost a: Attempt, ghost g: Group, ghost tl: Items, ghost k: Kont, ghost st: State)
      returns (rrc: Code)
      requires Poised(a, Cons(Grp(g), tl), k, st, ecode) && !a.Fits(g.cap)
      requires eptr == st.pos && offsetTop == st.top && eptrb == st.chain && mstart == a.mstart
      modifies this, offsetVector
      ensures Answers(a, First(a, Cons(Grp(g), tl), k, st), k, st, rrc)
      ensures rrc == ERROR_RECURSIONLIMIT ==>
                matchLimitRecursion <= rdepth + Work(Cons(Grp(g), tl), k, |subject|, eptr)
      ensures matchCallCount >= old(matchCallCount)
      decreases Work(Cons(Grp(g), tl), k, |a.c.s|, st.pos), 3
    {
      hide Ready, AtItems, AtKont, AtAlts, Trying, FirstOf, Work, ItemsOutcomes, AltsOutcomes, WAlts, MinAlts, CheckedAlts,
        ItemsLen, GroupLen, AtGroup, AtTail;
      GroupAt(code, ecode, g, tl, caseless);
      BracketOp(a, code, ecode, g, st);
      ghost var e := Enter(a, g, st);
      EnterKeeps(a, g, st);
      ghost var f := Frame(ecode, g, NoMore, tl, eptr, k);
      TryingFirst(a, code, ecode, g, tl, k, st);
      var cbegroup := code[ecode] >= OP_SBRA;
      var p: nat := ecode;
      ghost var h: nat, alts := HdrLen(g), g.alts;
      while true
        invariant Trying(a, code, ecode, p, h, g, alts, tl, k, st)
        invariant Agree(a, f, offsetVector[..], e.ov)
        invariant matchCallCount >= old(matchCallCount) && Going(st)
        decreases alts
      {
        ghost var f' := EnterReady(a, code, ecode, p, h, g, alts, tl, k, st);
        TryingNext(a, code, ecode, p, h, g, alts, tl, k, st);
        if code[p + Get(code, p + 1)] != OP_ALT {
          if !cbegroup {
            rrc := Match(eptr, p + OpLength(code[p]), mstart, offsetTop, eptrb, false, rdepth, a, alts.b, f', e);
          } else {
            rrc := Match(eptr, p + OpLength(code[p]), mstart, offsetTop, eptrb, true, rdepth + 1, a, alts.b, f', e);
          }
          return;
        }
        rrc := Match(eptr, p + OpLength(code[p]), mstart, offsetTop, eptrb, cbegroup, rdepth + 1, a, alts.b, f', e);
        if rrc != MATCH_NOMATCH { return; }
        p := p + Get(code, p + 1);
        h, alts := 1 + LINK_SIZE, alts.rest;
      }
    }

    /** A repeating ket after an iteration that was not empty: another iteration and the rest of the
        pattern are tried, in the order that the ket says. */
    method MatchRepeatedGroup(eptr: nat, ecode: nat, prev: nat, isS: bool, mstart: nat, offsetTop: nat, eptrb: seq<nat>,
                              rdepth: nat, ghost a: Attempt, ghost k: Kont, ghost st: State)
      returns (rrc: Code)
      requires Serves(a) && Ready(a, Nil, k, st) && k.Frame? && k.rest.NoMore? && Going(Close(a, k.g, st))
      requires AtKont(code, ecode, k, caseless)
      requires Loops(a, k.g, k.start, st) && isS == k.g.s && prev == k.gp
      requires Agree(a, k.outer, offsetVector[..], Close(a, k.g, st).ov)
      requires eptr == st.pos && mstart == a.mstart
      requires offsetTop == Close(a, k.g, st).top && eptrb == Close(a, k.g, st).chain
      modifies this, offsetVector
      ensures Answers(a, First(a, Nil, k, st), k.outer, Close(a, k.g, st), rrc)
      ensures rrc == ERROR_RECURSIONLIMIT ==> matchLimitRecursion <= rdepth + Work(Nil, k, |subject|, eptr)
      ensures matchCallCount >= old(matchCallCount)
      decreases Work(Nil, k, |a.c.s|, st.pos), 2
    {
      hide Ready, AtItems, AtKont, AtGroup, AtTail, First, Work, Agree, Close, Loops, ItemsLen, GroupLen;
      ghost var y := Close(a, k.g, st);
      ghost var z := Again(k.g, y);
      ghost var again := Cons(Grp(k.g), k.after);
      ClosePos(a, k.g, st);
      CloseReady(a, k, st);
      AgainReady(a, k, st);
      LoopFirst(a, k, st);
      LoopAt(code, ecode, k, caseless);
      if code[ecode] == OP_KETRMIN {
        rrc := Match(eptr, ecode + 1 + LINK_SIZE, mstart, offsetTop, eptrb, false, rdepth + 1, a, k.after, k.outer, y);
        if rrc != MATCH_NOMATCH { return; }
        if isS {
          rrc := Match(eptr, prev, mstart, offsetTop, eptrb, true, rdepth + 1, a, again, k.outer, z);
        } else {
          rrc := Match(eptr, prev, mstart, offsetTop, eptrb, false, rdepth, a, again, k.outer, z);
        }
      } else {
        rrc := Match(eptr, prev, mstart, offsetTop, eptrb, isS, rdepth + 1, a, again, k.outer, z);
        if rrc != MATCH_NOMATCH { return; }
        rrc := Match(eptr, ecode + 1 + LINK_SIZE, mstart, offsetTop, eptrb, false, rdepth, a, k.after, k.outer, y);
      }
    }

    /** A repeated unit. After an exact or possessive repeat match() carries on at the same level. */
    method MatchRepeat(eptr0: nat, next: nat, mstart: nat, offsetTop: nat, eptrb: seq<nat>, rdepth: nat,
                       unit: Unit, min: nat, max: int, minimize: bool, possessive: bool,
                       ghost a: Attempt, ghost n: Node, ghost tl: Items, ghost k: Kont, ghost st: State)
      returns (rrc: Code, carryOn: bool, eptr: nat)
      requires Serves(a) && Going(st) && Ready(a, Cons(n, tl), k, st) && st.pos <= |subject|
      requires AtItems(code, next, tl, caseless) && AtKont(code, next + ItemsLen(tl), k, caseless)
      requires Agree(a, k, offsetVector[..], st.ov)
      requires (n.One? || n.Rep?) && unit == n.u && UnitOk(unit) && (max < 0 || min <= max)
      requires n.One? ==> min == 1 && max == 1
      requires n.Rep? ==> min == n.q.Min() && max == n.q.Max()
      requires n.Rep? && min != max ==> minimize == n.m.Lazy? && possessive == n.m.Possessive?
      requires eptr0 == st.pos && offsetTop == st.top && eptrb == st.chain && mstart == a.mstart
      modifies this, offsetVector
      ensures !carryOn ==> Answers(a, First(a, Cons(n, tl), k, st), k, st, rrc)
      ensures !carryOn && rrc == ERROR_RECURSIONLIMIT ==>
                matchLimitRecursion <= rdepth + Work(Cons(n, tl), k, |subject|, eptr0)
      ensures carryOn ==> First(a, Cons(n, tl), k, st) == First(a, tl, k, st.(pos := eptr))
      ensures carryOn ==> st.pos + min <= eptr <= |subject| && offsetVector[..] == old(offsetVector[..]) && Going(st)
      ensures matchCallCount >= old(matchCallCount)
      decreases Work(Cons(n, tl), k, |a.c.s|, st.pos), 2
    {
      hide Ready, AtItems, AtKont, Then, First, FirstOf, Work, WItems, WKont, Agree, ItemsOutcomes,
           RunLength, Down, Up, Accepts, Test, UnitOk, ItemsLen;
      RepeatFirst(a, n, tl, k, st);
      carryOn := false;
      var enough;
      enough, eptr := MatchMinimum(unit, eptr0, min, max, a);
      if !enough { return MATCH_NOMATCH, false, eptr; }
      if min == max {
        RunLengthIs(a.c, unit, st.pos, max, min);
        return MATCH_NOMATCH, true, eptr;
      }
      if minimize {
        rrc := MatchLazy(eptr, next, mstart, offsetTop, eptrb, rdepth, unit, min, max, a, n, tl, k, st);
        return;
      }
      var pp := eptr;
      eptr := RunToEnd(unit, eptr, min, max, a, st);
      if possessive { return MATCH_NOMATCH, true, eptr; }
      rrc := MatchGreedy(eptr, pp, next, mstart, offsetTop, eptrb, rdepth, unit, min, a, n, tl, k, st);
    }

    /** Consumes the minimum number of units, if there are that many. */
    method MatchMinimum(unit: Unit, eptr0: nat, min: nat, max: int, ghost a: Attempt) returns (enough: bool, eptr: nat)
      requires Serves(a) && UnitOk(unit) && eptr0 <= |subject| && (max < 0 || min <= max)
      ensures enough ==> eptr == eptr0 + min && eptr <= |subject|
      ensures enough ==> forall t: nat :: eptr0 <= t < eptr ==> Test(a.c, unit, t)
      ensures !enough ==> RunLength(a.c, unit, eptr0, max) < min
    {
      eptr := eptr0;
      for i := 0 to min
        invariant eptr == eptr0 + i && eptr <= |subject|
        invariant forall t: nat :: eptr0 <= t < eptr ==> Test(a.c, unit, t)
      {
        if eptr >= |subject| || !Accepts(tb, caseless, unit, subject[eptr]) {
          RunLengthIs(a.c, unit, eptr0, max, i);
          return false, eptr;
        }
        eptr := eptr + 1;
      }
      return true, eptr;
    }

    /** Finds the longest possible run. */
    method RunToEnd(unit: Unit, pp: nat, min: nat, max: int, ghost a: Attempt, ghost st: State) returns (eptr: nat)
      requires Serves(a) && UnitOk(unit) && pp <= |subject| && pp == st.pos + min && (max < 0 || min < max)
      requires forall t: nat :: st.pos <= t < pp ==> Test(a.c, unit, t)
      ensures eptr == st.pos + RunLength(a.c, unit, st.pos, max)
      ensures pp <= eptr <= |subject|
    {
      eptr := pp;
      var i := min;
      if unit == Type(OP_ALLANY) {
        if max < 0 || max - min > |subject| - eptr {
          eptr := |subject|;
        } else {
          eptr := eptr + (max - min);
        }
        assert forall t: nat :: t < |subject| ==> Test(a.c, unit, t);
        RunLengthIs(a.c, unit, st.pos, if max < 0 then -1 else max, eptr - st.pos);
        return;
      }
      while max < 0 || i < max
        invariant eptr == st.pos + i && pp <= eptr <= |subject| && (max >= 0 ==> i <= max)
        invariant forall t: nat :: st.pos <= t < eptr ==> Test(a.c, unit, t)
        decreases |subject| - eptr
      {
        if eptr >= |subject| || !Accepts(tb, caseless, unit, subject[eptr]) {
          assert !Test(a.c, unit, eptr);
          break;
        }
        eptr := eptr + 1;
        i := i + 1;
      }
      RunLengthIs(a.c, unit, st.pos, max, eptr - st.pos);
    }

    /** Tries the rest of the pattern after ever shorter runs. */
    method MatchGreedy(last: nat, pp: nat, next: nat, mstart: nat, offsetTop: nat, eptrb: seq<nat>, rdepth: nat,
                       unit: Unit, min: nat, ghost a: Attempt, ghost n: Node, ghost tl: Items, ghost k: Kont, ghost st: State)
      returns (rrc: Code)
      requires Serves(a) && Going(st) && Ready(a, Cons(n, tl), k, st)
      requires AtItems(code, next, tl, caseless) && AtKont(code, next + ItemsLen(tl), k, caseless)
      requires Agree(a, k, offsetVector[..], st.ov)
      requires n.Rep? && min == n.q.Min() && pp == st.pos + min && pp <= last <= |subject|
      requires offsetTop == st.top && eptrb == st.chain && mstart == a.mstart
      modifies this, offsetVector
      ensures Answers(a, FirstOf(a, Then(a, Down(st, last - st.pos, min), tl), k), k, st, rrc)
      ensures rrc == ERROR_RECURSIONLIMIT ==>
                matchLimitRecursion <= rdepth + Work(Cons(n, tl), k, |subject|, st.pos)
      ensures matchCallCount >= old(matchCallCount)
      decreases Work(Cons(n, tl), k, |a.c.s|, st.pos), 1
    {
      hide Ready, AtItems, AtKont, Then, Down, FirstOf, Work, WItems, WKont, Agree, ItemsOutcomes;
      var eptr: int := last;
      while eptr >= pp
        invariant pp - 1 <= eptr <= last
        invariant FirstOf(a, Then(a, Down(st, last - st.pos, min), tl), k)
               == FirstOf(a, Then(a, Down(st, eptr - st.pos, min), tl), k)
        invariant Agree(a, k, offsetVector[..], st.ov)
        invariant matchCallCount >= old(matchCallCount) && Going(st)
      {
        StepReady(a, n, tl, k, st, eptr);
        DownFirst(a, tl, k, st, eptr - st.pos, min);
        rrc := Match(eptr, next, mstart, offsetTop, eptrb, false, rdepth + 1, a, tl, k, st.(pos := eptr));
        if rrc != MATCH_NOMATCH { return; }
        eptr := eptr - 1;
      }
      NoRunsLeft(a, tl, k, st, eptr - st.pos, min);
      return MATCH_NOMATCH;
    }

    /** Tries the rest of the pattern after ever longer runs. */
    method MatchLazy(pp: nat, next: nat, mstart: nat, offsetTop: nat, eptrb: seq<nat>, rdepth: nat,
                     unit: Unit, min: nat, max: int, ghost a: Attempt, ghost n: Node, ghost tl: Items, ghost k: Kont, ghost st: State)
      returns (rrc: Code)
      requires Serves(a) && Going(st) && Ready(a, Cons(n, tl), k, st) && UnitOk(unit)
      requires AtItems(code, next, tl, caseless) && AtKont(code, next + ItemsLen(tl), k, caseless)
      requires Agree(a, k, offsetVector[..], st.ov)
      requires n.Rep? && min == n.q.Min() && (max < 0 || min < max) && pp == st.pos + min && pp <= |subject|
      requires forall t: nat :: st.pos <= t < pp ==> Test(a.c, unit, t)
      requires offsetTop == st.top && eptrb == st.chain && mstart == a.mstart
      modifies this, offsetVector
      ensures Answers(a, FirstOf(a, Then(a, Up(st, min, RunLength(a.c, unit, st.pos, max)), tl), k), k, st, rrc)
      ensures rrc == ERROR_RECURSIONLIMIT ==>
                matchLimitRecursion <= rdepth + Work(Cons(n, tl), k, |subject|, st.pos)
      ensures matchCallCount >= old(matchCallCount)
      decreases Work(Cons(n, tl), k, |a.c.s|, st.pos), 1
    {
      hide Ready, AtItems, AtKont, Then, First, FirstOf, Work, Agree, ItemsOutcomes, ItemsLen, Up, UnitOk, Accepts;
      ghost var run := RunLength(a.c, unit, st.pos, max);
      var eptr, fi := pp, min;
      while true
        invariant eptr == st.pos + fi && pp <= eptr <= |subject| && min <= fi && (max >= 0 ==> fi <= max)
        invariant forall t: nat :: st.pos <= t < eptr ==> Test(a.c, unit, t)
        invariant FirstOf(a, Then(a, Up(st, min, run), tl), k) == FirstOf(a, Then(a, Up(st, fi, run), tl), k)
        invariant Agree(a, k, offsetVector[..], st.ov)
        invariant matchCallCount >= old(matchCallCount) && Going(st)
        decreases |subject| - eptr
      {
        StepReady(a, n, tl, k, st, eptr);
        NextRun(a, tl, k, st, unit, max, fi);
        rrc := Match(eptr, next, mstart, offsetTop, eptrb, false, rdepth + 1, a, tl, k, st.(pos := eptr));
        if rrc != MATCH_NOMATCH { return; }
        if (max >= 0 && fi >= max) || eptr >= |subject| || !Accepts(tb, caseless, unit, subject[eptr]) {
          LastRun(a, tl, k, st, unit, max, fi);
          return MATCH_NOMATCH;
        }
        eptr := eptr + 1;
        fi := fi + 1;
      }
    }

    /** One call of match() on a whole pattern, as pcre_exec() makes it. With no limit hit it answers
        MATCH_MATCH exactly when the pattern has an acceptable match at start; the match it finds is
        one of these, and captures that were unset at the start are unset or ordered afterwards. */
    method MatchWhole(start: nat, ghost g: Group) returns (rrc: Code)
      requires offsetEnd <= offsetVector.Length && offsetEnd % 3 == 0 && offsetMax == 2 * offsetEnd / 3
      requires tb.Valid() && start <= |subject| && OverflowRight()
      requires AtPattern(code, g, caseless) && CheckedGroup(g) && CapsGroup(g, topBracket)
      modifies this, offsetVector
      ensures var a := AttemptAt(start);
              && (rrc == MATCH_MATCH ==> a.Acceptable(endMatchPtr) && DGroup(a.c, g, start, endMatchPtr))
              && (rrc == MATCH_MATCH ==> startMatchPtr == start)
              && (rrc == MATCH_NOMATCH ==> forall j: nat :: DGroup(a.c, g, start, j) ==> !a.Acceptable(j))
      ensures rrc == MATCH_MATCH ==>
                var f := First(AttemptAt(start), Cons(Grp(g), Nil), Done, State(start, old(offsetVector[..]), 2, [], false));
                f.Some? && Holds(f.value) && (f.value.lost ==> offsetOverflow)
      ensures OverflowRight()
      ensures rrc == MATCH_MATCH ==> 2 <= endOffsetTop <= 2 * topBracket + 2
      ensures rrc == MATCH_MATCH ==> forall k: nat :: 2 * k + 1 < offsetMax && Pair(old(offsetVector[..]), k) == (-1, -1) ==>
                Pair(offsetVector[..], k) == (-1, -1)
                || (SetBetween(Pair(offsetVector[..], k), start, endMatchPtr) && 2 * k < endOffsetTop)
      ensures rrc == MATCH_MATCH && DistinctGroup(g, {}) ==> forall k: nat :: AttemptAt(start).Fits(k) ==>
                Pair(offsetVector[..], k) == Pair(old(offsetVector[..]), k)
                || CapturedBy(AttemptAt(start).c, InGroup(g), k, Pair(offsetVector[..], k))
      ensures rrc == MATCH_NOMATCH ==> offsetVector[..] == old(offsetVector[..])
      ensures rrc == MATCH_MATCH || rrc == MATCH_NOMATCH ==> matchCallCount <= matchLimit && matchLimitRecursion > 0
      ensures rrc == ERROR_MATCHLIMIT ==> matchCallCount > matchLimit
      ensures rrc == ERROR_RECURSIONLIMIT ==> matchLimitRecursion <= WGroup(g, |subject|, start)
    {
      hide AtItems, AtGroup, FirstOf, ItemsOutcomes, WGroup, GroupLen, DGroup, CheckedGroup, CapsGroup, DistinctGroup, GroupHas, DAlts;
      ghost var a := AttemptAt(start);
      ghost var st := State(start, offsetVector[..], 2, [], false);
      PatternReady(a, code, g, st);
      PatternFirst(a, g, st);
      matchCallCount := 0;
      rrc := Match(start, 0, start, 2, [], false, 0, a, Cons(Grp(g), Nil), Done, st);
      if rrc == MATCH_MATCH {
        CapturesAreOrdered(a, topBracket, g, st, First(a, Cons(Grp(g), Nil), Done, st).value);
        if DistinctGroup(g, {}) { GroupCaptures(a, g, {}, st, First(a, Cons(Grp(g), Nil), Done, st).value); }
      }
    }

    ghost function AttemptAt(start: nat): Attempt {
      Attempt(Context(subject, tb, caseless), offsetEnd, offsetMax, start, startOffset, notempty, notemptyAtStart, topBracket)
    }
  }
}

/** The outcomes of a pattern in the order in which a backtracking matcher reaches them, with the
    captures and the chain of remembered group starts that each outcome carries. */
module Outcomes {
  import opened ByteCode
  import opened Meaning

  /** One attempt at a match: the subject, the sizes of the offset vector, the start of the
      attempt, the options that reject empty matches, and the highest number of a group. */
  datatype Attempt = Attempt(c: Context, offsetEnd: nat, offsetMax: nat,
                             mstart: nat, startOffset: nat, notempty: bool, notemptyAtStart: bool,
                             topBracket: nat) {

    predicate Valid() {
      && c.Valid()
      && mstart <= |c.s|
      && offsetEnd % 3 == 0
      && offsetMax == 2 * offsetEnd / 3
    }

    /** Whether a match that ends at pos is acceptable at OP_END. */
    predicate Acceptable(pos: nat) {
      !(pos == mstart && (notempty || (notemptyAtStart && mstart == startOffset)))
    }

    /** Whether the offset vector has room for a capturing group (cap is 0 for no capture). */
    predicate Fits(cap: nat) {
      cap > 0 && 2 * cap < offsetMax
    }
  }

  /** A matching state: subject position, offset vector, its high water mark, the chain of subject positions
      remembered at the starts of "check empty" groups, innermost first, and whether a group was closed for
      which the vector has no room. */
  datatype State = State(pos: nat, ov: seq<int>, top: nat, chain: seq<nat>, lost: bool)

  function Set(ov: seq<int>, k: int, v: int): (r: seq<int>)
    ensures |r| == |ov|
  {
    if 0 <= k < |ov| then ov[k := v] else ov
  }

  function At(ov: seq<int>, k: int): int {
    if 0 <= k < |ov| then ov[k] else -1
  }

  /** What passing the opening bracket does to the state. */
  function Enter(a: Attempt, g: Group, st: State): State {
    var ov := if a.Fits(g.cap) then Set(st.ov, a.offsetEnd - g.cap, st.pos) else st.ov;
    st.(ov := ov, chain := if g.s then [st.pos] + st.chain else st.chain)
  }

  /** What passing the closing ket does to the state. */
  function Close(a: Attempt, g: Group, st: State): State {
    var chain := if g.s && st.chain != [] then st.chain[1..] else st.chain;
    if a.Fits(g.cap) then
      st.(ov := Set(Set(st.ov, 2 * g.cap, At(st.ov, a.offsetEnd - g.cap)), 2 * g.cap + 1, st.pos),
      top := if st.top <= 2 * g.cap then 2 * g.cap + 2 else st.top,
      chain := chain)
    else
      st.(chain := chain, lost := st.lost || g.cap > 0)
  }

  /** The state in which a repeating group is re-entered: its start is remembered here once, and
      once more when the opening bracket is passed. */
  function Again(g: Group, st: State): State {
    if g.s then st.(chain := [st.pos] + st.chain) else st
  }

  /** A repeating ket loops unless its iteration was empty. An S group finds the start of the
      iteration at the head of the chain; other groups do not look, they rely on progress. */
  predicate Loops(a: Attempt, g: Group, start: nat, x: State) {
    && g.ket != Plain
    && start < x.pos <= |a.c.s|
    && !(g.s && x.chain != [] && x.pos == x.chain[0])
  }

  function Advance(st: State, k: nat): State {
    st.(pos := st.pos + k)
  }

  /** The number of consecutive units at i, at most max (no limit when max is negative). */
  function RunLength(c: Context, u: Unit, i: nat, max: int): (n: nat)
    ensures i <= |c.s| ==> i + n <= |c.s|
    ensures max >= 0 ==> n <= max
    ensures forall t: nat :: i <= t < i + n ==> Test(c, u, t)
    ensures n == max || !Test(c, u, i + n)
    decreases |c.s| - i
  {
    if max == 0 || !Test(c, u, i) then 0
    else 1 + RunLength(c, u, i + 1, if max < 0 then max else max - 1)
  }

  /** Longest first: st advanced by hi, hi - 1, ..., lo. */
  function Down(st: State, hi: int, lo: nat): seq<State>
    decreases hi - lo + 1
  {
    if hi < lo then [] else [Advance(st, hi)] + Down(st, hi - 1, lo)
  }

  /** Shortest first: st advanced by lo, lo + 1, ..., hi. */
  function Up(st: State, lo: nat, hi: int): seq<State>
    decreases hi - lo + 1
  {
    if hi < lo then [] else [Advance(st, lo)] + Up(st, lo + 1, hi)
  }

  function RepOutcomes(a: Attempt, u: Unit, q: Quant, m: Mode, st: State): seq<State> {
    var n := RunLength(a.c, u, st.pos, q.Max());
    if n < q.Min() then []
    else match m
         case Possessive => [Advance(st, n)]
         case Greedy => Down(st, n, q.Min())
         case Lazy => Up(st, q.Min(), n)
  }

  function Rest(a: Attempt, pos: nat): nat {
    if pos <= |a.c.s| then |a.c.s| - pos else 0
  }

  function NodeOutcomes(a: Attempt, n: Node, st: State): seq<State>
    decreases n, 0, 0, 0
  {
    match n
    case One(u) => if Test(a.c, u, st.pos) then [Advance(st, 1)] else []
    case Rep(u, q, m) => RepOutcomes(a, u, q, m, st)
    case Grp(g) => GroupOutcomes(a, g, st)
    case Zero(lazy, g) =>
      if lazy then [st] + GroupOutcomes(a, g, st) else GroupOutcomes(a, g, st) + [st]
  }

  function GroupOutcomes(a: Attempt, g: Group, st: State): seq<State>
    decreases g, Rest(a, st.pos), 2, 0
  {
    AfterEach(a, g, st.pos, AltsOutcomes(a, g.alts, Enter(a, g, st)))
  }

  /** The outcomes of a group whose current iteration began at start, given those of its body. */
  function AfterEach(a: Attempt, g: Group, start: nat, xs: seq<State>): seq<State>
    decreases g, Rest(a, start), 1, |xs|
  {
    if xs == [] then [] else AfterKet(a, g, start, xs[0]) + AfterEach(a, g, start, xs[1..])
  }

  function AfterKet(a: Attempt, g: Group, start: nat, x: State): seq<State>
    decreases g, Rest(a, start), 0, 0
  {
    var y := Close(a, g, x);
    if !Loops(a, g, start, x) then [y]
    else if g.ket == RMin then [y] + GroupOutcomes(a, g, Again(g, y))
    else GroupOutcomes(a, g, Again(g, y)) + [y]
  }

  function AltsOutcomes(a: Attempt, alts: Alts, st: State): seq<State>
    decreases alts, 0, 0, 0
  {
    match alts
    case Last(b) => ItemsOutcomes(a, b, st)
    case More(b, rest) => ItemsOutcomes(a, b, st) + AltsOutcomes(a, rest, st)
  }

  function ItemsOutcomes(a: Attempt, its: Items, st: State): seq<State>
    decreases its, 0, 0, 0
  {
    match its
    case Nil => [st]
    case Cons(n, tl) => Then(a, NodeOutcomes(a, n, st), tl)
  }

  /** The outcomes of items from each of the given states in turn. */
  function Then(a: Attempt, sts: seq<State>, its: Items): seq<State>
    decreases its, 1, |sts|, 0
  {
    if sts == [] then [] else ItemsOutcomes(a, its, sts[0]) + Then(a, sts[1..], its)
  }

  // ---- Outcomes are matches ----------------------------------------------------------------

  lemma {:induction false} ThenFrom(a: Attempt, sts: seq<State>, its: Items, y: State) returns (x: State)
    requires y in Then(a, sts, its)
    ensures x in sts && y in ItemsOutcomes(a, its, x)
  {
    if y in ItemsOutcomes(a, its, sts[0]) {
      x := sts[0];
    } else {
      x := ThenFrom(a, sts[1..], its, y);
    }
  }

  lemma {:induction false} AfterEachFrom(a: Attempt, g: Group, start: nat, xs: seq<State>, y: State) returns (x: State)
    requires y in AfterEach(a, g, start, xs)
    ensures x in xs && y in AfterKet(a, g, start, x)
    decreases |xs|
  {
    if y in AfterKet(a, g, start, xs[0]) {
      x := xs[0];
    } else {
      x := AfterEachFrom(a, g, start, xs[1..], y);
    }
  }

  lemma {:induction false} DownFrom(st: State, hi: int, lo: nat, x: State)
    requires x in Down(st, hi, lo)
    ensures lo <= x.pos - st.pos <= hi && x == st.(pos := x.pos)
    decreases hi - lo + 1
  {
    if x != Advance(st, hi) {
      DownFrom(st, hi - 1, lo, x);
    }
  }

  lemma {:induction false} UpFrom(st: State, lo: nat, hi: int, x: State)
    requires x in Up(st, lo, hi)
    ensures lo <= x.pos - st.pos <= hi && x == st.(pos := x.pos)
    decreases hi - lo + 1
  {
    if x != Advance(st, lo) {
      UpFrom(st, lo + 1, hi, x);
    }
  }

  lemma RepFrom(a: Attempt, u: Unit, q: Quant, m: Mode, st: State, x: State)
    requires st.pos <= |a.c.s| && x in RepOutcomes(a, u, q, m, st)
    ensures st.pos <= x.pos && x == st.(pos := x.pos) && DRep(a.c, u, q, m, st.pos, x.pos)
  {
    var n := RunLength(a.c, u, st.pos, q.Max());
    match m
    case Possessive =>
    case Greedy => DownFrom(st, n, q.Min(), x);
    case Lazy => UpFrom(st, q.Min(), n, x);
  }

  lemma {:induction false} ItemsSound(a: Attempt, its: Items, st: State, x: State)
    requires st.pos <= |a.c.s| && x in ItemsOutcomes(a, its, st)
    ensures DItems(a.c, its, st.pos, x.pos)
    decreases its, 0, 0, 0
  {
    match its
    case Nil =>
    case Cons(n, tl) =>
      var y := ThenFrom(a, NodeOutcomes(a, n, st), tl, x);
      NodeSound(a, n, st, y);
      NodeForward(a.c, n, st.pos, y.pos);
      ItemsSound(a, tl, y, x);
      ItemsForward(a.c, tl, y.pos, x.pos);
  }

  lemma {:induction false} NodeSound(a: Attempt, n: Node, st: State, x: State)
    requires st.pos <= |a.c.s| && x in NodeOutcomes(a, n, st)
    ensures DNode(a.c, n, st.pos, x.pos)
    decreases n, 0, 0, 0
  {
    match n
    case One(_) =>
    case Rep(u, q, m) => RepFrom(a, u, q, m, st, x);
    case Grp(g) => GroupSound(a, g, st, x);
    case Zero(_, g) => if x != st { GroupSound(a, g, st, x); }
  }

  lemma {:induction false} AltsSound(a: Attempt, alts: Alts, st: State, x: State)
    requires st.pos <= |a.c.s| && x in AltsOutcomes(a, alts, st)
    ensures DAlts(a.c, alts, st.pos, x.pos)
    decreases alts, 0, 0, 0
  {
    if x in ItemsOutcomes(a, alts.b, st) {
      ItemsSound(a, alts.b, st, x);
    } else {
      AltsSound(a, alts.rest, st, x);
    }
  }

  lemma {:induction false} GroupSound(a: Attempt, g: Group, st: State, x: State)
    requires st.pos <= |a.c.s| && x in GroupOutcomes(a, g, st)
    ensures DGroup(a.c, g, st.pos, x.pos)
    decreases g, Rest(a, st.pos), 1, 0
  {
    var y := AfterEachFrom(a, g, st.pos, AltsOutcomes(a, g.alts, Enter(a, g, st)), x);
    AltsSound(a, g.alts, Enter(a, g, st), y);
    AltsForward(a.c, g.alts, st.pos, y.pos);
    if g.ket != Plain {
      if x == Close(a, g, y) {
        assert Iter(a.c, g.alts, 0, x.pos, x.pos);
        assert Iter(a.c, g.alts, 1, st.pos, x.pos);
      } else {
        GroupSound(a, g, Again(g, Close(a, g, y)), x);
        var n: nat :| n >= 1 && Iter(a.c, g.alts, n, y.pos, x.pos);
        IterForward(a.c, g.alts, n, y.pos, x.pos);
        assert Iter(a.c, g.alts, n + 1, st.pos, x.pos);
      }
    }
  }

  // ---- Every match is the end of some outcome ----------------------------------------------

  /** ch is ch0 with positions in lo..hi pushed on top of it. */
  ghost predicate Pushed(ch0: seq<nat>, ch: seq<nat>, lo: nat, hi: nat) {
    && |ch0| <= |ch|
    && ch[|ch| - |ch0|..] == ch0
    && forall k :: 0 <= k < |ch| - |ch0| ==> lo <= ch[k] < hi
  }

  lemma PushedTrans(ch0: seq<nat>, ch1: seq<nat>, ch2: seq<nat>, lo: nat, mid: nat, hi: nat)
    requires Pushed(ch0, ch1, lo, mid) && Pushed(ch1, ch2, mid, hi) && lo <= mid <= hi
    ensures Pushed(ch0, ch2, lo, hi)
  {
    var d := |ch2| - |ch1|;
    forall k | 0 <= k < |ch2| - |ch0| ensures lo <= ch2[k] < hi {
      if k >= d {
        assert ch2[k] == ch2[d..][k - d];
      }
    }
    assert ch2[|ch2| - |ch0|..] == ch2[d..][|ch1| - |ch0|..];
  }

  lemma {:induction false} ThenIn(a: Attempt, sts: seq<State>, its: Items, x: State, y: State)
    requires x in sts && y in ItemsOutcomes(a, its, x)
    ensures y in Then(a, sts, its)
  {
    if x != sts[0] {
      ThenIn(a, sts[1..], its, x, y);
    }
  }

  lemma {:induction false} AfterEachIn(a: Attempt, g: Group, start: nat, xs: seq<State>, x: State, y: State)
    requires x in xs && y in AfterKet(a, g, start, x)
    ensures y in AfterEach(a, g, start, xs)
    decreases |xs|
  {
    if x != xs[0] {
      AfterEachIn(a, g, start, xs[1..], x, y);
    }
  }

  lemma {:induction false} DownIn(st: State, hi: int, lo: nat, k: nat)
    requires lo <= k <= hi
    ensures Advance(st, k) in Down(st, hi, lo)
    decreases hi - lo + 1
  {
    if k != hi {
      DownIn(st, hi - 1, lo, k);
    }
  }

  lemma {:induction false} UpIn(st: State, lo: nat, hi: int, k: nat)
    requires lo <= k <= hi
    ensures Advance(st, k) in Up(st, lo, hi)
    decreases hi - lo + 1
  {
    if k != lo {
      UpIn(st, lo + 1, hi, k);
    }
  }

  lemma RepIn(a: Attempt, u: Unit, q: Quant, m: Mode, st: State, j: nat)
    requires DRep(a.c, u, q, m, st.pos, j)
    ensures st.(pos := j) in RepOutcomes(a, u, q, m, st)
  {
    var n := RunLength(a.c, u, st.pos, q.Max());
    var k := j - st.pos;
    assert st.(pos := j) == Advance(st, k);
    assert k <= n;
    match m
    case Possessive =>
    case Greedy => DownIn(st, n, q.Min(), k);
    case Lazy => UpIn(st, q.Min(), n, k);
  }

  lemma {:induction false} ItemsComplete(a: Attempt, its: Items, st: State, j: nat) returns (x: State)
    requires st.pos <= |a.c.s| && DItems(a.c, its, st.pos, j)
    ensures x in ItemsOutcomes(a, its, st) && x.pos == j
    ensures st.pos <= j && Pushed(st.chain, x.chain, st.pos, j)
    decreases its, 0, 0
  {
    match its
    case Nil => x := st;
    case Cons(n, tl) =>
      var m: nat :| st.pos <= m <= j && DNode(a.c, n, st.pos, m) && DItems(a.c, tl, m, j);
      NodeForward(a.c, n, st.pos, m);
      var y := NodeComplete(a, n, st, m);
      x := ItemsComplete(a, tl, y, j);
      ThenIn(a, NodeOutcomes(a, n, st), tl, y, x);
      PushedTrans(st.chain, y.chain, x.chain, st.pos, m, j);
  }

  lemma {:induction false} NodeComplete(a: Attempt, n: Node, st: State, j: nat) returns (x: State)
    requires st.pos <= |a.c.s| && DNode(a.c, n, st.pos, j)
    ensures x in NodeOutcomes(a, n, st) && x.pos == j
    ensures st.pos <= j && Pushed(st.chain, x.chain, st.pos, j)
    decreases n, 0, 0
  {
    match n
    case One(_) => x := Advance(st, 1);
    case Rep(u, q, m) =>
      x := st.(pos := j);
      RepIn(a, u, q, m, st, j);
    case Grp(g) => x := GroupComplete(a, g, st, j);
    case Zero(_, g) =>
      if st.pos == j {
        x := st;
      } else {
        x := GroupComplete(a, g, st, j);
      }
  }

  lemma {:induction false} AltsComplete(a: Attempt, alts: Alts, st: State, j: nat) returns (x: State)
    requires st.pos <= |a.c.s| && DAlts(a.c, alts, st.pos, j)
    ensures x in AltsOutcomes(a, alts, st) && x.pos == j
    ensures st.pos <= j && Pushed(st.chain, x.chain, st.pos, j)
    decreases alts, 0, 0
  {
    if DItems(a.c, alts.b, st.pos, j) {
      x := ItemsComplete(a, alts.b, st, j);
    } else {
      x := AltsComplete(a, alts.rest, st, j);
    }
  }

  lemma {:induction false} GroupComplete(a: Attempt, g: Group, st: State, j: nat) returns (x: State)
    requires st.pos <= |a.c.s| && DGroup(a.c, g, st.pos, j)
    ensures x in GroupOutcomes(a, g, st) && x.pos == j
    ensures st.pos <= j && Pushed(st.chain, x.chain, st.pos, j)
    decreases g, 2, 0
  {
    if g.ket == Plain {
      var y := BodyComplete(a, g, st, j);
      x := Close(a, g, y);
      AfterEachIn(a, g, st.pos, AltsOutcomes(a, g.alts, Enter(a, g, st)), y, x);
    } else {
      var n: nat :| n >= 1 && Iter(a.c, g.alts, n, st.pos, j);
      x := LoopComplete(a, g, st, n, j);
    }
  }

  /** Without its topmost position the chain has kept what lay below the remembered start. */
  lemma PushedBody(ch0: seq<nat>, ch: seq<nat>, lo: nat, hi: nat)
    requires Pushed([lo] + ch0, ch, lo, hi)
    ensures ch != [] && Pushed(ch0, ch[1..], lo, hi) && (lo < hi ==> ch[0] < hi)
  {
    var d := |ch| - 1 - |ch0|;
    assert ch[d..] == [lo] + ch0 && ch[d] == ch[d..][0];
    assert ch[1..][d..] == ch[d..][1..] == ch0;
    assert forall k :: 0 <= k < d ==> ch[1..][k] == ch[k + 1];
  }

  /** One iteration of the body, and what the ket then finds on the chain. */
  lemma {:induction false} BodyComplete(a: Attempt, g: Group, st: State, j: nat) returns (y: State)
    requires st.pos <= |a.c.s| && DAlts(a.c, g.alts, st.pos, j)
    ensures y in AltsOutcomes(a, g.alts, Enter(a, g, st)) && y.pos == j
    ensures st.pos <= j <= |a.c.s| && Pushed(st.chain, Close(a, g, y).chain, st.pos, j)
    ensures st.pos < j && g.ket != Plain ==> Loops(a, g, st.pos, y)
    decreases g, 0, 0
  {
    hide Pushed, AltsOutcomes, DAlts;
    AltsForward(a.c, g.alts, st.pos, j);
    y := AltsComplete(a, g.alts, Enter(a, g, st), j);
    if g.s { PushedBody(st.chain, y.chain, st.pos, j); }
  }

  /** Empty iterations can be dropped, so any number of iterations is the end of some outcome. */
  lemma {:induction false} LoopComplete(a: Attempt, g: Group, st: State, n: nat, j: nat) returns (x: State)
    requires st.pos <= |a.c.s| && g.ket != Plain && n >= 1 && Iter(a.c, g.alts, n, st.pos, j)
    ensures x in GroupOutcomes(a, g, st) && x.pos == j
    ensures st.pos <= j && Pushed(st.chain, x.chain, st.pos, j)
    decreases g, 1, n, 1
  {
    IterForward(a.c, g.alts, n, st.pos, j);
    var m: nat :| st.pos <= m <= j && DAlts(a.c, g.alts, st.pos, m) && Iter(a.c, g.alts, n - 1, m, j);
    if m == st.pos && n > 1 {
      x := LoopComplete(a, g, st, n - 1, j);
    } else {
      var xs := AltsOutcomes(a, g.alts, Enter(a, g, st));
      var y := BodyComplete(a, g, st, m);
      x := Close(a, g, y);
      if n > 1 && m < j {
        x := LoopAgain(a, g, st, y, n - 1, j);
      } else {
        AfterEachIn(a, g, st.pos, xs, y, x);
      }
    }
  }

  lemma ClosePos(a: Attempt, g: Group, y: State)
    ensures Close(a, g, y).pos == y.pos
  {
  }

  /** The loop goes round again after an iteration with outcome y. */
  lemma {:induction false} LoopAgain(a: Attempt, g: Group, st: State, y: State, n: nat, j: nat) returns (x: State)
    requires st.pos <= y.pos <= |a.c.s| && y.pos < j && n >= 1 && Iter(a.c, g.alts, n, y.pos, j)
    requires y in AltsOutcomes(a, g.alts, Enter(a, g, st)) && Loops(a, g, st.pos, y)
    requires Pushed(st.chain, Close(a, g, y).chain, st.pos, y.pos)
    ensures x in GroupOutcomes(a, g, st) && x.pos == j
    ensures Pushed(st.chain, x.chain, st.pos, j)
    decreases g, 1, n, 2
  {
    hide Iter, AltsOutcomes, Enter, Close;
    var xs := AltsOutcomes(a, g.alts, Enter(a, g, st));
    var c := Close(a, g, y);
    ClosePos(a, g, y);
    var z := Again(g, c);
    IterForward(a.c, g.alts, n, y.pos, j);
    x := LoopComplete(a, g, z, n, j);
    assert x in AfterKet(a, g, st.pos, y);
    AfterEachIn(a, g, st.pos, xs, y, x);
    assert Pushed(c.chain, z.chain, st.pos, j);
    assert Pushed(z.chain, x.chain, st.pos, j);
    PushedJoin(c.chain, z.chain, x.chain, st.pos, j);
    PushedJoin(st.chain, c.chain, x.chain, st.pos, j);
  }

  lemma PushedJoin(ch0: seq<nat>, ch1: seq<nat>, ch2: seq<nat>, lo: nat, hi: nat)
    requires Pushed(ch0, ch1, lo, hi) && Pushed(ch1, ch2, lo, hi)
    ensures Pushed(ch0, ch2, lo, hi)
  {
    var d := |ch2| - |ch1|;
    forall k | 0 <= k < |ch2| - |ch0| ensures lo <= ch2[k] < hi {
      if k >= d {
        assert ch2[k] == ch2[d..][k - d];
      }
    }
    assert ch2[|ch2| - |ch0|..] == ch2[d..][|ch1| - |ch0|..];
  }
}

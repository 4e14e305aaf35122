/** The repetition of a bracketed group: copies of its code, nested optional copies whose brackets are
    chained together until their ends are known, and a repeating ket on the last copy. */
module Replicate {
  import opened ByteCode
  import opened Backtracking
  import opened MatchSteps
  import opened CodeMoves
  import opened Emptiness

  // ---- What the repetition becomes -----------------------------------------------------------------

  /** n copies of a group, and then tl. */
  function Copies(g: Group, n: nat, tl: Items): Items {
    if n == 0 then tl else Cons(Grp(g), Copies(g, n - 1, tl))
  }

  /** Up to k copies of a group, each inside the optional bracket of the one before. */
  function Nested(lazy: bool, g: Group, k: nat): Node
    requires k >= 1
  {
    if k == 1 then Zero(lazy, g) else Zero(lazy, Coupled(g, Nested(lazy, g, k - 1)))
  }

  /** A plain bracket around a group and one more item. */
  function Coupled(g: Group, n: Node): Group {
    Group(false, 0, Last(Cons(Grp(g), Cons(n, Nil))), Plain)
  }

  /** The last copy of an unlimited repeat. */
  function Looped(lazy: bool, g: Group): Group {
    g.(s := AnyBranchEmpty(g.alts), ket := if lazy then RMin else RMax)
  }

  /** A group repeated min to max times; max is -1 for no limit. */
  function Replicated(lazy: bool, g: Group, min: nat, max: int): Items
    requires max == -1 || (max >= 1 && min <= max)
  {
    if min == 0 then Cons(if max == -1 then Zero(lazy, Looped(lazy, g)) else Nested(lazy, g, max), Nil)
    else if max == -1 then Copies(g, min - 1, Cons(Grp(Looped(lazy, g)), Nil))
    else Copies(g, min, if max > min then Cons(Nested(lazy, g, max - min), Nil) else Nil)
  }

  lemma NestedForm(lazy: bool, g: Group, k: nat)
    requires k >= 1
    ensures Nested(lazy, g, k) == Zero(lazy, Nested(lazy, g, k).g)
  {
  }

  // ---- Writing into the code buffer ----------------------------------------------------------------

  /** PUT() */
  method Put(buf: array<byte>, n: nat, d: nat)
    requires n + LINK_SIZE <= buf.Length && d < 0x10000
    modifies buf
    ensures Get(buf[..], n) == d
    ensures forall i :: 0 <= i < buf.Length && i != n && i != n + 1 ==> buf[i] == old(buf[i])
  {
    buf[n] := d / 256;
    buf[n + 1] := d % 256;
  }

  /** memcpy() */
  method CopyCode(buf: array<byte>, to: nat, from: nat, len: nat)
    requires from + len <= to && to + len <= buf.Length
    modifies buf
    ensures Shifted(old(buf[..]), buf[..], to - from, from, from + len)
    ensures forall i :: 0 <= i < buf.Length && !(to <= i < to + len) ==> buf[i] == old(buf[i])
  {
    var k := 0;
    while k < len
      invariant 0 <= k <= len
      invariant forall i :: 0 <= i < buf.Length && !(to <= i < to + k) ==> buf[i] == old(buf[i])
      invariant forall i :: from <= i < from + k ==> buf[i + (to - from)] == old(buf[i])
    {
      buf[to + k] := buf[from + k];
      k := k + 1;
    }
  }

  /** memmove() to a higher place */
  method MoveCode(buf: array<byte>, from: nat, up: nat, len: nat)
    requires from + up + len <= buf.Length
    modifies buf
    ensures Shifted(old(buf[..]), buf[..], up, from, from + len)
    ensures forall i :: 0 <= i < buf.Length && !(from + up <= i < from + up + len) ==> buf[i] == old(buf[i])
  {
    var k := len;
    while k > 0
      invariant 0 <= k <= len
      invariant forall i :: 0 <= i < buf.Length && !(from + up + k <= i < from + up + len) ==> buf[i] == old(buf[i])
      invariant forall i :: from + k <= i < from + len ==> buf[i + up] == old(buf[i])
    {
      k := k - 1;
      buf[from + up + k] := buf[from + k];
    }
  }

  /** w agrees with v from lo up to hi. */
  ghost predicate Same(v: seq<byte>, w: seq<byte>, lo: nat, hi: nat) {
    lo <= hi && Shifted(v, w, 0, lo, hi)
  }

  // ---- Well-formed pieces --------------------------------------------------------------------------

  lemma {:induction false} AppendCopies(code: seq<byte>, pc: nat, g: Group, n: nat, tl: Items, caseless: bool)
    requires AtItems(code, pc, Copies(g, n, Nil), caseless) && AtItems(code, pc + ItemsLen(Copies(g, n, Nil)), tl, caseless)
    ensures AtItems(code, pc, Copies(g, n, tl), caseless)
    ensures ItemsLen(Copies(g, n, tl)) == ItemsLen(Copies(g, n, Nil)) + ItemsLen(tl)
    decreases n
  {
    hide AtNode, NodeLen;
    if n > 0 { AppendCopies(code, pc + NodeLen(Grp(g)), g, n - 1, tl, caseless); }
  }

  lemma {:induction false} CopiesSnoc(g: Group, n: nat)
    ensures Copies(g, n, Cons(Grp(g), Nil)) == Copies(g, n + 1, Nil)
  {
    if n > 0 { CopiesSnoc(g, n - 1); }
  }

  lemma {:induction false} CopiesLen(g: Group, n: nat, tl: Items)
    ensures ItemsLen(Copies(g, n, tl)) == n * GroupLen(g) + ItemsLen(tl)
  {
    if n > 0 {
      var len := GroupLen(g);
      assert NodeLen(Grp(g)) == len;
      hide GroupLen, NodeLen;
      CopiesLen(g, n - 1, tl);
      assert n * len == (n - 1) * len + len;
    }
  }

  /** The length of nested copies. */
  lemma {:induction false} NestedLen(lazy: bool, g: Group, k: nat)
    requires k >= 1
    ensures k == 1 ==> NodeLen(Nested(lazy, g, 1)) == 1 + GroupLen(g)
    ensures k > 1 ==> NodeLen(Nested(lazy, g, k)) == 7 + GroupLen(g) + NodeLen(Nested(lazy, g, k - 1))
  {
    hide GroupLen;
    if k > 1 { PairLen(g, Nested(lazy, g, k - 1)); }
  }

  lemma PairLen(g: Group, n: Node)
    ensures GroupLen(Coupled(g, n)) == 6 + GroupLen(g) + NodeLen(n)
  {
    var its := Cons(Grp(g), Cons(n, Nil));
    assert ItemsLen(Cons(n, Nil)) == NodeLen(n) + ItemsLen(Nil);
    assert ItemsLen(its) == NodeLen(Grp(g)) + ItemsLen(Cons(n, Nil));
  }

  /** A pair of a group and another item, from its parts. */
  lemma PairParts(code: seq<byte>, pc: nat, g: Group, n: Node, caseless: bool)
    requires pc + 6 + GroupLen(g) + NodeLen(n) <= |code|
    requires AtGroup(code, pc + 3, g, caseless) && AtNode(code, pc + 3 + GroupLen(g), n, caseless)
    requires var q := pc + 3 + GroupLen(g) + NodeLen(n);
             && code[pc] == OP_BRA && Get(code, pc + 1) == q - pc
             && code[q] == OP_KET && Get(code, q + 1) == q - pc
    ensures AtGroup(code, pc, Coupled(g, n), caseless)
  {
    hide AtNode, AtItems, AtGroup, AtAlts, GroupLen, NodeLen, ItemsLen;
    var its := Cons(Grp(g), Cons(n, Nil));
    OneItem(code, pc + 3 + GroupLen(g), n, caseless);
    GroupAt(code, pc + 3, g, Cons(n, Nil), caseless);
    AltsParts(code, pc, 3, Last(its), pc, OP_KET, caseless);
    PlainGroup(code, pc, Coupled(g, n), caseless);
  }

  lemma OneItem(code: seq<byte>, pc: nat, n: Node, caseless: bool)
    requires AtNode(code, pc, n, caseless) && pc + NodeLen(n) <= |code|
    ensures AtItems(code, pc, Cons(n, Nil), caseless) && ItemsLen(Cons(n, Nil)) == NodeLen(n)
  {
    hide AtNode, NodeLen;
    assert AtItems(code, pc + NodeLen(n), Nil, caseless);
  }

  lemma PlainGroup(code: seq<byte>, pc: nat, g: Group, caseless: bool)
    requires pc + 3 <= |code| && code[pc] == OP_BRA && g.cap == 0 && !g.s
    requires AtAlts(code, pc, 3, g.alts, pc, KetOp(g.ket), caseless)
    ensures AtGroup(code, pc, g, caseless)
  {
    hide AtAlts;
  }

  // ---- The chain of brackets that are still open -----------------------------------------------------

  /** d optional brackets are open. The link field of the innermost is at q; it holds the distance to
      the link field of the next one out, or zero. A copy of the group follows each. */
  ghost predicate Chain(code: seq<byte>, q: nat, d: nat, zop: byte, g: Group, caseless: bool)
    decreases d
  {
    && d >= 1
    && 2 <= q && q + 2 + GroupLen(g) <= |code|
    && code[q - 2] == zop
    && code[q - 1] == OP_BRA
    && AtGroup(code, q + 2, g, caseless)
    && Get(code, q) == (if d == 1 then 0 else 4 + GroupLen(g))
    && (d > 1 ==> 4 + GroupLen(g) <= q && Chain(code, q - 4 - GroupLen(g), d - 1, zop, g, caseless))
  }

  /** Where the outermost of the open brackets begins. */
  function Outermost(q: int, d: nat, len: nat): int
    requires d >= 1
    decreases d
  {
    if d == 1 then q - 2 else Outermost(q - 4 - len, d - 1, len)
  }

  lemma {:induction false} ChainFrame(v: seq<byte>, w: seq<byte>, q: nat, d: nat, zop: byte, g: Group, caseless: bool, z: nat)
    requires Chain(v, q, d, zop, g, caseless) && z <= Outermost(q, d, GroupLen(g))
    requires Same(v, w, z, q + 2 + GroupLen(g))
    ensures Chain(w, q, d, zop, g, caseless)
    decreases d
  {
    hide GroupLen, AtGroup, Shifted;
    OutermostBelow(q, d, GroupLen(g));
    ShiftedPart(v, w, 0, z, q + 2 + GroupLen(g), q + 2, q + 2 + GroupLen(g));
    ShiftedPart(v, w, 0, z, q + 2 + GroupLen(g), q - 2, q);
    ShiftedPart(v, w, 0, z, q + 2 + GroupLen(g), q - 1, q);
    MoveLink(v, w, 0, q, z, q + 2 + GroupLen(g));
    MoveGroup(v, w, 0, q + 2, g, caseless);
    if d > 1 {
      OutermostBelow(q - 4 - GroupLen(g), d - 1, GroupLen(g));
      ShiftedPart(v, w, 0, z, q + 2 + GroupLen(g), z, q - 2);
      ChainFrame(v, w, q - 4 - GroupLen(g), d - 1, zop, g, caseless, z);
    }
  }

  lemma {:induction false} OutermostBelow(q: int, d: nat, len: nat)
    requires d >= 1
    ensures Outermost(q, d, len) <= q - 2
    decreases d
  {
    if d > 1 { OutermostBelow(q - 4 - len, d - 1, len); }
  }

  /** An open bracket, started after the ones that are already open. */
  lemma OpenOne(v: seq<byte>, w: seq<byte>, q: nat, d: nat, at: nat, zop: byte, g: Group, caseless: bool, z: nat)
    requires d >= 1 ==> Chain(v, q, d, zop, g, caseless) && Outermost(q, d, GroupLen(g)) == z && at == q + 2 + GroupLen(g)
    requires d == 0 ==> at == z
    requires Same(v, w, z, at) && at + 4 + GroupLen(g) <= |w|
    requires w[at] == zop && w[at + 1] == OP_BRA && Get(w, at + 2) == (if d == 0 then 0 else at + 2 - q)
    requires AtGroup(w, at + 4, g, caseless)
    ensures Chain(w, at + 2, d + 1, zop, g, caseless) && Outermost(at + 2, d + 1, GroupLen(g)) == z
  {
    hide GroupLen, AtGroup, Shifted;
    if d >= 1 {
      ChainFrame(v, w, q, d, zop, g, caseless, z);
      assert at + 2 - 4 - GroupLen(g) == q;
    }
  }

  /** The innermost open bracket is closed. */
  lemma CloseOne(v: seq<byte>, w: seq<byte>, q: nat, d: nat, lazy: bool, g: Group, m: nat, end: nat, caseless: bool, z: nat)
    requires m >= 1 && Chain(v, q, d, ZeroOp(lazy), g, caseless) && Outermost(q, d, GroupLen(g)) == z
    requires AtNode(v, q + 2 + GroupLen(g), Nested(lazy, g, m), caseless)
    requires end == q + 2 + GroupLen(g) + NodeLen(Nested(lazy, g, m)) && end + 3 <= |w|
    requires Same(v, w, z, q) && Same(v, w, q + 2, end)
    requires w[end] == OP_KET && Get(w, end + 1) == end - (q - 1) == Get(w, q)
    ensures AtNode(w, q - 2, Nested(lazy, g, m + 1), caseless) && q - 2 + NodeLen(Nested(lazy, g, m + 1)) == end + 3
    ensures d > 1 ==> Chain(w, q - 4 - GroupLen(g), d - 1, ZeroOp(lazy), g, caseless)
  {
    hide GroupLen, AtGroup, Shifted, NodeLen, Nested, AtNode;
    var n := Nested(lazy, g, m);
    OutermostBelow(q, d, GroupLen(g));
    ShiftedPart(v, w, 0, z, q, q - 2, q);
    ShiftedPart(v, w, 0, z, q, q - 1, q);
    ShiftedPart(v, w, 0, q + 2, end, q + 2, q + 2 + GroupLen(g));
    ShiftedPart(v, w, 0, q + 2, end, q + 2 + GroupLen(g), end);
    MoveGroup(v, w, 0, q + 2, g, caseless);
    MoveNode(v, w, 0, q + 2 + GroupLen(g), n, caseless);
    PairParts(w, q - 1, g, n, caseless);
    NestedIsZero(w, q - 2, lazy, g, m, caseless);
    NestedLen(lazy, g, m + 1);
    if d > 1 {
      OutermostBelow(q - 4 - GroupLen(g), d - 1, GroupLen(g));
      ShiftedPart(v, w, 0, z, q, z, q - 2);
      ChainFrame(v, w, q - 4 - GroupLen(g), d - 1, ZeroOp(lazy), g, caseless, z);
    }
  }

  function ZeroOp(lazy: bool): byte {
    if lazy then OP_BRAMINZERO else OP_BRAZERO
  }

  lemma NestedIsZero(w: seq<byte>, p: nat, lazy: bool, g: Group, m: nat, caseless: bool)
    requires m >= 1 && p < |w| && w[p] == ZeroOp(lazy) && AtGroup(w, p + 1, Coupled(g, Nested(lazy, g, m)), caseless)
    ensures AtNode(w, p, Nested(lazy, g, m + 1), caseless)
  {
    hide AtGroup;
  }

  /** What the buffer holds when all copies have been written: d brackets are open, and the last copy
      is at start. */
  ghost predicate Opened(v: seq<byte>, q: nat, d: nat, start: nat, lazy: bool, g: Group, m: nat, z: nat, caseless: bool) {
    && m >= 1
    && AtNode(v, start, Nested(lazy, g, m), caseless)
    && (d == 0 ==> q == 0 && start == z)
    && (d >= 1 ==> Chain(v, q, d, ZeroOp(lazy), g, caseless) && Outermost(q, d, GroupLen(g)) == z && start == q + 2 + GroupLen(g))
  }

  /** Writes the start of an optional bracket, with a link to the one before. */
  method OpenOptional(buf: array<byte>, at: nat, bralink0: nat, lazy: bool)
    requires at + 4 <= buf.Length && (bralink0 == 0 || 0 <= at + 2 - bralink0 < 0x10000)
    modifies buf
    ensures buf[at] == ZeroOp(lazy) && buf[at + 1] == OP_BRA
    ensures Get(buf[..], at + 2) == if bralink0 == 0 then 0 else at + 2 - bralink0
    ensures forall i :: 0 <= i < buf.Length && !(at <= i < at + 4) ==> buf[i] == old(buf[i])
  {
    buf[at] := ZeroOp(lazy);
    buf[at + 1] := OP_BRA;
    Put(buf, at + 2, if bralink0 == 0 then 0 else at + 2 - bralink0);
  }

  /** Writes the start of an optional bracket and a copy of the group. */
  method OpenStep(buf: array<byte>, previous: nat, at: nat, len: nat, bralink0: nat, lazy: bool, ghost g: Group, ghost caseless: bool)
    returns (code: nat, bralink: nat)
    requires AtGroup(buf[..], previous, g, caseless) && len == GroupLen(g) && previous + len <= at && at + 4 + len <= buf.Length
    requires bralink0 == 0 || 0 <= at + 2 - bralink0 < 0x10000
    modifies buf
    ensures code == at + 4 + len && bralink == at + 2
    ensures buf[at] == ZeroOp(lazy) && buf[at + 1] == OP_BRA
    ensures Get(buf[..], at + 2) == if bralink0 == 0 then 0 else at + 2 - bralink0
    ensures AtGroup(buf[..], at + 4, g, caseless) && AtGroup(buf[..], previous, g, caseless)
    ensures Same(old(buf[..]), buf[..], 0, at)
  {
    hide AtGroup, GroupLen;
    ghost var v := buf[..];
    OpenOptional(buf, at, bralink0, lazy);
    bralink := at + 2;
    code := at + 2 + LINK_SIZE;
    ghost var u := buf[..];
    CopyCode(buf, code, previous, len);
    MoveGroup(v, u, 0, previous, g, caseless);
    MoveGroup(u, buf[..], code - previous, previous, g, caseless);
    MoveGroup(v, buf[..], 0, previous, g, caseless);
    MoveLink(u, buf[..], 0, bralink, bralink, bralink + 2);
    code := code + len;
  }

  /** Writes the last copy, which is optional. */
  method LastStep(buf: array<byte>, previous: nat, at: nat, len: nat, lazy: bool, ghost g: Group, ghost caseless: bool)
    returns (code: nat)
    requires AtGroup(buf[..], previous, g, caseless) && len == GroupLen(g) && previous + len <= at && at + 1 + len <= buf.Length
    modifies buf
    ensures code == at + 1 + len && AtNode(buf[..], at, Nested(lazy, g, 1), caseless)
    ensures Same(old(buf[..]), buf[..], 0, at)
  {
    hide AtGroup, GroupLen, Nested, AtNode;
    ghost var v := buf[..];
    code := at;
    buf[code] := ZeroOp(lazy);
    code := code + 1;
    ghost var u := buf[..];
    CopyCode(buf, code, previous, len);
    MoveGroup(v, u, 0, previous, g, caseless);
    MoveGroup(u, buf[..], code - previous, previous, g, caseless);
    LastNode(buf[..], at, lazy, g, caseless);
    code := code + len;
  }

  lemma LastNode(w: seq<byte>, at: nat, lazy: bool, g: Group, caseless: bool)
    requires at < |w| && w[at] == ZeroOp(lazy) && AtGroup(w, at + 1, g, caseless)
    ensures AtNode(w, at, Nested(lazy, g, 1), caseless)
  {
    hide AtGroup;
  }

  /** What the buffer holds while copies are being written. */
  ghost predicate Opening(v: seq<byte>, q: nat, d: nat, code: nat, lazy: bool, g: Group, z: nat, caseless: bool) {
    && z <= code
    && (d == 0 ==> q == 0 && code == z)
    && (d >= 1 ==> Chain(v, q, d, ZeroOp(lazy), g, caseless) && Outermost(q, d, GroupLen(g)) == z && code == q + 2 + GroupLen(g))
  }

  lemma OpenNext(v: seq<byte>, w: seq<byte>, q: nat, d: nat, code: nat, lazy: bool, g: Group, z: nat, caseless: bool)
    requires Opening(v, q, d, code, lazy, g, z, caseless) && Same(v, w, 0, code) && code + 4 + GroupLen(g) <= |w|
    requires w[code] == ZeroOp(lazy) && w[code + 1] == OP_BRA && Get(w, code + 2) == (if q == 0 then 0 else code + 2 - q)
    requires AtGroup(w, code + 4, g, caseless)
    ensures Opening(w, code + 2, d + 1, code + 4 + GroupLen(g), lazy, g, z, caseless)
  {
    hide GroupLen, AtGroup, Outermost;
    ShiftedPart(v, w, 0, 0, code, z, code);
    OpenOne(v, w, q, d, code, ZeroOp(lazy), g, caseless, z);
  }

  lemma OpenLast(v: seq<byte>, w: seq<byte>, q: nat, d: nat, code: nat, lazy: bool, g: Group, z: nat, caseless: bool)
    requires Opening(v, q, d, code, lazy, g, z, caseless) && Same(v, w, 0, code)
    requires AtNode(w, code, Nested(lazy, g, 1), caseless)
    ensures Opened(w, q, d, code, lazy, g, 1, z, caseless)
  {
    hide GroupLen, AtGroup, Outermost, AtNode, Nested;
    ShiftedPart(v, w, 0, 0, code, z, code);
    if d >= 1 { ChainFrame(v, w, q, d, ZeroOp(lazy), g, caseless, z); }
  }

  /** Writes repeatMax more copies, each but the last after the start of an optional bracket. The link
      field of the innermost open bracket is at bralink; 0 stands for none. */
  method OpenCopies(buf: array<byte>, previous: nat, code0: nat, len: nat, repeatMax: nat, bralink0: nat, lazy: bool,
                    ghost d0: nat, ghost g: Group, ghost z: nat, ghost caseless: bool)
    returns (code: nat, bralink: nat, ghost d: nat, ghost start: nat)
    requires len == GroupLen(g) && AtGroup(buf[..], previous, g, caseless) && previous + len <= code0 && repeatMax >= 1
    requires Opening(buf[..], bralink0, d0, code0, lazy, g, z, caseless)
    requires repeatMax + d0 > 1 ==> 4 + len < 0x10000
    requires code0 + NodeLen(Nested(lazy, g, repeatMax)) + 3 * d0 <= buf.Length
    modifies buf
    ensures d == d0 + repeatMax - 1 && Opened(buf[..], bralink, d, start, lazy, g, 1, z, caseless)
    ensures code == start + 1 + len && code + 3 * d == code0 + NodeLen(Nested(lazy, g, repeatMax)) + 3 * d0
    ensures forall i :: 0 <= i < code0 ==> buf[i] == old(buf[i])
  {
    hide GroupLen, AtGroup, NodeLen, Nested, Chain, Outermost, Opening, Opened;
    code, bralink, d := code0, bralink0, d0;
    ghost var end := code0 + NodeLen(Nested(lazy, g, repeatMax)) + 3 * d0;
    var i: nat := repeatMax - 1;
    while i != 0
      invariant i < repeatMax && d == d0 + repeatMax - 1 - i
      invariant code0 <= code && previous + len <= code
      invariant AtGroup(buf[..], previous, g, caseless) && Opening(buf[..], bralink, d, code, lazy, g, z, caseless)
      invariant code + NodeLen(Nested(lazy, g, i + 1)) + 3 * d == end
      invariant forall k :: 0 <= k < code0 ==> buf[k] == old(buf[k])
      decreases i
    {
      ghost var v, q := buf[..], bralink;
      NestedLen(lazy, g, i + 1);
      LinkDistance(v, bralink, d, code, lazy, g, z, caseless);
      code, bralink := OpenStep(buf, previous, code, len, bralink, lazy, g, caseless);
      OpenNext(v, buf[..], q, d, code - 4 - len, lazy, g, z, caseless);
      d := d + 1;
      i := i - 1;
    }
    NestedLen(lazy, g, 1);
    ghost var v := buf[..];
    start := code;
    code := LastStep(buf, previous, code, len, lazy, g, caseless);
    OpenLast(v, buf[..], bralink, d, start, lazy, g, z, caseless);
  }

  lemma LinkDistance(v: seq<byte>, q: nat, d: nat, code: nat, lazy: bool, g: Group, z: nat, caseless: bool)
    requires Opening(v, q, d, code, lazy, g, z, caseless)
    ensures q == 0 || code == q + 2 + GroupLen(g)
  {
  }

  /** Closes the bracket whose link field is at bralink0. */
  method CloseBracket(buf: array<byte>, code0: nat, bralink0: nat) returns (code: nat, bralink: nat)
    requires 2 <= bralink0 && bralink0 + 2 <= code0 && code0 + 3 <= buf.Length && code0 - bralink0 + 1 < 0x10000
    requires Get(buf[..], bralink0) <= bralink0
    modifies buf
    ensures code == code0 + 3 && buf[code0] == OP_KET
    ensures Get(buf[..], code0 + 1) == code0 - (bralink0 - 1) == Get(buf[..], bralink0)
    ensures var link := old(Get(buf[..], bralink0)); bralink == if link == 0 then 0 else bralink0 - link
    ensures forall i :: 0 <= i < buf.Length && !(code0 <= i < code0 + 3) && i != bralink0 && i != bralink0 + 1 ==> buf[i] == old(buf[i])
  {
    code := code0;
    var offset := code - bralink0 + 1;
    var bra := code - offset;
    var oldlinkoffset := Get(buf[..], bra + 1);
    bralink := if oldlinkoffset == 0 then 0 else bralink0 - oldlinkoffset;
    buf[code] := OP_KET;
    code := code + 1;
    Put(buf, code, offset);
    ghost var u := buf[..];
    code := code + LINK_SIZE;
    Put(buf, bra + 1, offset);
    MoveLink(u, buf[..], 0, code - 2, code - 2, code);
  }

  /** Chains back through the open brackets, fills in their lengths and writes their kets. */
  method CloseBrackets(buf: array<byte>, code0: nat, bralink0: nat, lazy: bool,
                       ghost d0: nat, ghost start0: nat, ghost g: Group, ghost z: nat, ghost caseless: bool)
    returns (code: nat)
    requires Opened(buf[..], bralink0, d0, start0, lazy, g, 1, z, caseless)
    requires code0 == start0 + 1 + GroupLen(g) && z <= start0 && code0 + 3 * d0 <= buf.Length && code0 + 3 * d0 - z < 0x10000
    modifies buf
    ensures code == code0 + 3 * d0 && AtNode(buf[..], z, Nested(lazy, g, d0 + 1), caseless)
    ensures code == z + NodeLen(Nested(lazy, g, d0 + 1))
    ensures forall i :: 0 <= i < z ==> buf[i] == old(buf[i])
  {
    hide GroupLen, AtGroup, NodeLen, Nested, Chain, Outermost, Opened, AtNode;
    code := code0;
    var bralink: nat := bralink0;
    ghost var d: nat, start: nat, m: nat := d0, start0, 1;
    NestedLen(lazy, g, 1);
    OpenedLinks(buf[..], bralink, d, start, lazy, g, m, z, caseless);
    while bralink != 0
      invariant Opened(buf[..], bralink, d, start, lazy, g, m, z, caseless)
      invariant m + d == d0 + 1 && code + 3 * d == code0 + 3 * d0 && z <= start
      invariant code == start + NodeLen(Nested(lazy, g, m))
      invariant bralink == 0 <==> d == 0
      invariant forall i :: 0 <= i < z ==> buf[i] == old(buf[i])
      decreases d
    {
      ghost var v, q := buf[..], bralink;
      OpenedLinks(v, q, d, start, lazy, g, m, z, caseless);
      code, bralink := CloseBracket(buf, code, bralink);
      CloseOpened(v, buf[..], q, d, start, lazy, g, m, code - 3, z, caseless);
      d, start, m := d - 1, q - 2, m + 1;
      OpenedLinks(buf[..], bralink, d, start, lazy, g, m, z, caseless);
    }
    OpenedAll(buf[..], start, lazy, g, m, z, caseless);
  }

  lemma OpenedAll(v: seq<byte>, start: nat, lazy: bool, g: Group, m: nat, z: nat, caseless: bool)
    requires Opened(v, 0, 0, start, lazy, g, m, z, caseless)
    ensures start == z && AtNode(v, z, Nested(lazy, g, m), caseless)
  {
  }

  lemma OpenedLinks(v: seq<byte>, q: nat, d: nat, start: nat, lazy: bool, g: Group, m: nat, z: nat, caseless: bool)
    requires Opened(v, q, d, start, lazy, g, m, z, caseless)
    ensures q == 0 <==> d == 0
    ensures d > 0 ==> q + 2 <= |v| && Get(v, q) == (if d == 1 then 0 else 4 + GroupLen(g)) && start == q + 2 + GroupLen(g)
    ensures d > 0 ==> z <= q - 2
    ensures d > 1 ==> z <= q - 4 - GroupLen(g) - 2
    ensures m >= 1
  {
    hide AtGroup, AtNode, GroupLen;
    if d >= 1 { OutermostBelow(q, d, GroupLen(g)); }
    if d >= 2 { OutermostBelow(q - 4 - GroupLen(g), d - 1, GroupLen(g)); }
  }

  lemma CloseOpened(v: seq<byte>, w: seq<byte>, q: nat, d: nat, start: nat, lazy: bool, g: Group, m: nat, end: nat, z: nat, caseless: bool)
    requires d >= 1 && Opened(v, q, d, start, lazy, g, m, z, caseless)
    requires end == start + NodeLen(Nested(lazy, g, m)) && end + 3 <= |w| == |v|
    requires forall i :: 0 <= i < end && i != q && i != q + 1 ==> w[i] == v[i]
    requires w[end] == OP_KET && Get(w, end + 1) == end - (q - 1) && q + 2 <= |w| && Get(w, q) == end - (q - 1)
    ensures q >= 2 && Opened(w, if d == 1 then 0 else q - 4 - GroupLen(g), d - 1, q - 2, lazy, g, m + 1, z, caseless)
    ensures q - 2 + NodeLen(Nested(lazy, g, m + 1)) == end + 3 && z <= q - 2
  {
    hide AtGroup, AtNode, GroupLen, NodeLen, Nested;
    OpenedLinks(v, q, d, start, lazy, g, m, z, caseless);
    CloseOne(v, w, q, d, lazy, g, m, end, caseless, z);
  }

  // ---- Copies, and the repeating ket -----------------------------------------------------------------

  lemma CopiesStep(g: Group, n: nat)
    ensures ItemsLen(Copies(g, n + 1, Nil)) == ItemsLen(Copies(g, n, Nil)) + GroupLen(g)
  {
    CopiesLen(g, n, Nil);
    CopiesLen(g, n + 1, Nil);
    assert (n + 1) * GroupLen(g) == n * GroupLen(g) + GroupLen(g);
  }

  /** One more copy after n copies. */
  lemma CopyAdded(v: seq<byte>, w: seq<byte>, pc: nat, g: Group, n: nat, code: nat, caseless: bool)
    requires AtItems(v, pc, Copies(g, n, Nil), caseless) && code == pc + ItemsLen(Copies(g, n, Nil)) <= |v|
    requires Same(v, w, pc, code) && AtGroup(w, code, g, caseless)
    ensures AtItems(w, pc, Copies(g, n + 1, Nil), caseless)
  {
    hide GroupLen, AtAlts, AtItems, ItemsLen;
    GroupStart(w, code, g, caseless);
    MoveItems(v, w, 0, pc, Copies(g, n, Nil), caseless);
    GroupAt(w, code, g, Nil, caseless);
    GroupFits(w, code, g, caseless);
    NoItems(w, code + GroupLen(g), caseless);
    AppendCopies(w, pc, g, n, Cons(Grp(g), Nil), caseless);
    CopiesSnoc(g, n);
  }

  lemma NoItems(code: seq<byte>, pc: nat, caseless: bool)
    requires pc <= |code|
    ensures AtItems(code, pc, Nil, caseless)
  {
  }

  lemma GroupStart(code: seq<byte>, pc: nat, g: Group, caseless: bool)
    requires AtGroup(code, pc, g, caseless)
    ensures pc < |code| && OP_BRA <= code[pc] <= OP_SCBRA
  {
  }

  lemma GroupFits(code: seq<byte>, pc: nat, g: Group, caseless: bool)
    requires AtGroup(code, pc, g, caseless)
    ensures pc + GroupLen(g) <= |code| && GroupLen(g) >= 6
    ensures var q := pc + GroupLen(g) - 1 - LINK_SIZE; code[q] == KetOp(g.ket) && Get(code, q + 1) == q - pc
  {
    hide AtAlts, AltsLen;
    KetByte(code, pc, HdrLen(g), g.alts, pc, KetOp(g.ket), caseless);
  }

  /** Writes copies until there are repeatMin of them. */
  method CopyGroup(buf: array<byte>, previous: nat, code0: nat, len: nat, repeatMin: nat, ghost g: Group, ghost caseless: bool)
    returns (code: nat)
    requires AtGroup(buf[..], previous, g, caseless) && len == GroupLen(g) && code0 == previous + len && repeatMin >= 1
    requires previous + ItemsLen(Copies(g, repeatMin, Nil)) <= buf.Length
    modifies buf
    ensures code == previous + ItemsLen(Copies(g, repeatMin, Nil))
    ensures AtItems(buf[..], previous, Copies(g, repeatMin, Nil), caseless)
    ensures AtItems(buf[..], previous, Copies(g, repeatMin - 1, Nil), caseless)
    ensures AtGroup(buf[..], previous, g, caseless) && code - len >= previous && AtGroup(buf[..], code - len, g, caseless)
    ensures forall i :: 0 <= i < previous ==> buf[i] == old(buf[i])
  {
    hide AtGroup, GroupLen, AtItems, ItemsLen, Copies;
    code := code0;
    FirstCopy(buf[..], previous, g, caseless);
    var i: nat := 1;
    while i < repeatMin
      invariant 1 <= i <= repeatMin && code == previous + ItemsLen(Copies(g, i, Nil)) && code >= previous + len
      invariant AtItems(buf[..], previous, Copies(g, i, Nil), caseless)
      invariant AtItems(buf[..], previous, Copies(g, i - 1, Nil), caseless)
      invariant AtGroup(buf[..], previous, g, caseless) && AtGroup(buf[..], code - len, g, caseless)
      invariant forall i :: 0 <= i < previous ==> buf[i] == old(buf[i])
    {
      CopiesStep(g, i);
      CopiesMono(g, i + 1, repeatMin);
      ghost var v := buf[..];
      CopyCode(buf, code, previous, len);
      MoveGroup(v, buf[..], 0, previous, g, caseless);
      MoveGroup(v, buf[..], code - previous, previous, g, caseless);
      CopyAdded(v, buf[..], previous, g, i, code, caseless);
      GroupStart(buf[..], code, g, caseless);
      MoveItems(v, buf[..], 0, previous, Copies(g, i, Nil), caseless);
      code := code + len;
      i := i + 1;
    }
  }

  lemma FirstCopy(code: seq<byte>, pc: nat, g: Group, caseless: bool)
    requires AtGroup(code, pc, g, caseless)
    ensures AtItems(code, pc, Copies(g, 1, Nil), caseless) && AtItems(code, pc, Copies(g, 0, Nil), caseless)
    ensures ItemsLen(Copies(g, 1, Nil)) == GroupLen(g)
  {
    hide AtGroup, GroupLen;
    GroupFits(code, pc, g, caseless);
    NoItems(code, pc, caseless);
    NoItems(code, pc + GroupLen(g), caseless);
    assert Copies(g, 1, Nil) == Cons(Grp(g), Copies(g, 0, Nil));
    GroupAt(code, pc, g, Nil, caseless);
  }

  lemma CopiesMono(g: Group, m: nat, n: nat)
    requires m <= n
    ensures ItemsLen(Copies(g, m, Nil)) <= ItemsLen(Copies(g, n, Nil))
  {
    CopiesLen(g, m, Nil);
    CopiesLen(g, n, Nil);
    assert m * GroupLen(g) <= n * GroupLen(g);
  }

  /** Makes the ket of a group a repeating one, and marks the group when it could match nothing. */
  method LoopGroup(buf: array<byte>, ketcode: nat, lazy: bool, ghost bra: nat, ghost g: Group, ghost caseless: bool)
    requires AtGroup(buf[..], bra, g, caseless) && ketcode + 1 + LINK_SIZE == bra + GroupLen(g) && !g.s && g.ket == Plain
    modifies buf
    ensures AtGroup(buf[..], bra, Looped(lazy, g), caseless)
    ensures forall i :: 0 <= i < buf.Length && i != bra && i != ketcode ==> buf[i] == old(buf[i])
  {
    hide AtGroup, GroupLen, AnyBranchEmpty;
    GroupFits(buf[..], bra, g, caseless);
    ghost var v := buf[..];
    var bracode := ketcode - Get(buf[..], ketcode + 1);
    buf[ketcode] := if lazy then OP_KETRMIN else OP_KETRMAX;
    LoopKet(v, buf[..], bra, ketcode, g, lazy, false, caseless);
    ghost var w := buf[..];
    var empty, _ := AnyBranchCouldBeEmpty(buf[..], bracode, ketcode, g.(ket := if lazy then RMin else RMax), caseless);
    if empty {
      GroupStart(v, bra, g, caseless);
      buf[bracode] := buf[bracode] + (OP_SBRA - OP_BRA);
    }
    LoopKet(v, buf[..], bra, ketcode, g, lazy, empty, caseless);
  }

  lemma LoopKet(v: seq<byte>, w: seq<byte>, bra: nat, ketcode: nat, g: Group, lazy: bool, s: bool, caseless: bool)
    requires AtGroup(v, bra, g, caseless) && ketcode + 1 + LINK_SIZE == bra + GroupLen(g) && !g.s && g.ket == Plain
    requires |v| == |w| && forall i :: 0 <= i < |v| && i != bra && i != ketcode ==> w[i] == v[i]
    requires ketcode < |w| && w[ketcode] == (if lazy then OP_KETRMIN else OP_KETRMAX)
    requires bra < |w| && w[bra] == v[bra] + (if s then OP_SBRA - OP_BRA else 0)
    ensures AtGroup(w, bra, g.(s := s, ket := if lazy then RMin else RMax), caseless)
    ensures GroupLen(g.(s := s, ket := if lazy then RMin else RMax)) == GroupLen(g)
  {
    hide AtAlts, AltsLen;
    var kop := if lazy then OP_KETRMIN else OP_KETRMAX;
    GroupFits(v, bra, g, caseless);
    AltsLenPositive(HdrLen(g), g.alts);
    MoveAlts(v, w, 0, bra, HdrLen(g), g.alts, bra, OP_KET, kop, caseless);
    if g.cap > 0 { MoveLink(v, w, 0, bra + 3, bra + 3, bra + 5); }
  }

  // ---- Repetition ------------------------------------------------------------------------------------

  method MoveUp(buf: array<byte>, previous: nat, up: nat, len: nat, ghost g: Group, ghost caseless: bool)
    requires AtGroup(buf[..], previous, g, caseless) && len == GroupLen(g) && previous + up + len <= buf.Length
    modifies buf
    ensures AtGroup(buf[..], previous + up, g, caseless)
    ensures forall i :: 0 <= i < previous ==> buf[i] == old(buf[i])
  {
    hide AtGroup, GroupLen;
    ghost var v := buf[..];
    MoveCode(buf, previous, up, len);
    MoveGroup(v, buf[..], up, previous, g, caseless);
  }

  /** Makes the group optional. */
  method MakeOptional(buf: array<byte>, previous: nat, len: nat, lazy: bool, ghost g: Group, ghost caseless: bool)
    returns (code: nat)
    requires AtGroup(buf[..], previous, g, caseless) && len == GroupLen(g) && previous + 1 + len <= buf.Length
    modifies buf
    ensures code == previous + 1 + len && buf[previous] == ZeroOp(lazy) && AtGroup(buf[..], previous + 1, g, caseless)
    ensures forall i :: 0 <= i < previous ==> buf[i] == old(buf[i])
  {
    hide AtGroup, GroupLen;
    MoveUp(buf, previous, 1, len, g, caseless);
    ghost var u := buf[..];
    code := previous + len + 1;
    buf[previous] := ZeroOp(lazy);
    MoveGroup(u, buf[..], 0, previous + 1, g, caseless);
  }

  /** Puts the group after the start of an optional bracket. */
  method MakeNested(buf: array<byte>, previous: nat, len: nat, lazy: bool, ghost g: Group, ghost caseless: bool)
    returns (code: nat, bralink: nat)
    requires AtGroup(buf[..], previous, g, caseless) && len == GroupLen(g) && previous + 4 + len <= buf.Length
    modifies buf
    ensures code == previous + 4 + len && bralink == previous + 2 && AtGroup(buf[..], previous + 4, g, caseless)
    ensures Opening(buf[..], bralink, 1, code, lazy, g, previous, caseless)
    ensures forall i :: 0 <= i < previous ==> buf[i] == old(buf[i])
  {
    hide AtGroup, GroupLen, Opening;
    MoveUp(buf, previous, 4, len, g, caseless);
    ghost var u := buf[..];
    code := previous + len + 2 + LINK_SIZE;
    buf[previous] := ZeroOp(lazy);
    buf[previous + 1] := OP_BRA;
    bralink := previous + 2;
    Put(buf, bralink, 0);
    MoveGroup(u, buf[..], 0, previous + 4, g, caseless);
    FirstOpen(buf[..], previous, lazy, g, caseless);
  }

  lemma FirstOpen(v: seq<byte>, z: nat, lazy: bool, g: Group, caseless: bool)
    requires AtGroup(v, z + 4, g, caseless) && z + 4 + GroupLen(g) <= |v|
    requires v[z] == ZeroOp(lazy) && v[z + 1] == OP_BRA && Get(v, z + 2) == 0
    ensures Opening(v, z + 2, 1, z + 4 + GroupLen(g), lazy, g, z, caseless)
  {
    hide AtGroup, GroupLen;
    assert Chain(v, z + 2, 1, ZeroOp(lazy), g, caseless);
  }

  lemma OpeningAt(v: seq<byte>, q: nat, d: nat, code: nat, lazy: bool, g: Group, z: nat, caseless: bool)
    requires Opening(v, q, d, code, lazy, g, z, caseless) && d <= 1
    ensures code == if d == 0 then z else z + 4 + GroupLen(g)
  {
    hide AtGroup, GroupLen;
  }

  /** Writes nested optional copies, from z on: repeatMax of them besides the d0 (none or one) whose
      bracket has been opened already. */
  method NestCopies(buf: array<byte>, previous: nat, code0: nat, len: nat, repeatMax: nat, bralink0: nat, lazy: bool,
                    ghost d0: nat, ghost g: Group, ghost z: nat, ghost caseless: bool) returns (code: nat)
    requires len == GroupLen(g) && AtGroup(buf[..], previous, g, caseless) && previous + len <= code0 && repeatMax >= 1
    requires Opening(buf[..], bralink0, d0, code0, lazy, g, z, caseless) && d0 <= 1
    requires z + NodeLen(Nested(lazy, g, d0 + repeatMax)) <= buf.Length && NodeLen(Nested(lazy, g, d0 + repeatMax)) < 0x10000
    modifies buf
    ensures code == z + NodeLen(Nested(lazy, g, d0 + repeatMax))
    ensures AtNode(buf[..], z, Nested(lazy, g, d0 + repeatMax), caseless)
    ensures forall i :: 0 <= i < z ==> buf[i] == old(buf[i])
  {
    hide GroupLen, AtGroup, NodeLen, Nested, Chain, Outermost, Opened, AtNode;
    NestedLen(lazy, g, d0 + repeatMax);
    NestedFits(lazy, g, d0 + repeatMax);
    OpeningAt(buf[..], bralink0, d0, code0, lazy, g, z, caseless);
    var bralink: nat;
    ghost var d: nat, start: nat;
    code, bralink, d, start := OpenCopies(buf, previous, code0, len, repeatMax, bralink0, lazy, d0, g, z, caseless);
    OpenedLinks(buf[..], bralink, d, start, lazy, g, 1, z, caseless);
    OpenedStart(buf[..], bralink, d, start, lazy, g, 1, z, caseless);
    code := CloseBrackets(buf, code, bralink, lazy, d, start, g, z, caseless);
  }

  lemma OpenedStart(v: seq<byte>, q: nat, d: nat, start: nat, lazy: bool, g: Group, m: nat, z: nat, caseless: bool)
    requires Opened(v, q, d, start, lazy, g, m, z, caseless)
    ensures z <= start
  {
    OpenedLinks(v, q, d, start, lazy, g, m, z, caseless);
  }

  lemma NestedFits(lazy: bool, g: Group, k: nat)
    requires k >= 1
    ensures NodeLen(Nested(lazy, g, k)) >= 1 + GroupLen(g)
    ensures k >= 2 ==> NodeLen(Nested(lazy, g, k)) >= 8 + 2 * GroupLen(g)
  {
    hide GroupLen;
    NestedLen(lazy, g, k);
    if k >= 2 { NestedLen(lazy, g, k - 1); }
    if k >= 3 { NestedFits(lazy, g, k - 1); }
  }

  /** Repeats a group whose minimum is zero. */
  method RepeatFromZero(buf: array<byte>, previous: nat, len: nat, repeatMax: int, lazy: bool,
                        ghost g: Group, ghost caseless: bool) returns (code: nat)
    requires AtGroup(buf[..], previous, g, caseless) && len == GroupLen(g) && g.ket == Plain && !g.s
    requires repeatMax == -1 || repeatMax >= 1
    requires var n := ItemsLen(Replicated(lazy, g, 0, repeatMax)); previous + n <= buf.Length && n < 0x10000
    modifies buf
    ensures code == previous + ItemsLen(Replicated(lazy, g, 0, repeatMax))
    ensures AtItems(buf[..], previous, Replicated(lazy, g, 0, repeatMax), caseless)
    ensures forall i :: 0 <= i < previous ==> buf[i] == old(buf[i])
  {
    hide GroupLen, AtGroup, NodeLen, Nested, Opening, AtNode, AtItems, ItemsLen;
    ghost var n := if repeatMax == -1 then Zero(lazy, Looped(lazy, g)) else Nested(lazy, g, repeatMax);
    SingleLen(n);
    if repeatMax <= 1 {
      ZeroLen(lazy, g, repeatMax);
      GroupFits(buf[..], previous, g, caseless);
      code := MakeOptional(buf, previous, len, lazy, g, caseless);
      if repeatMax == -1 { LoopGroup(buf, code - 1 - LINK_SIZE, lazy, previous + 1, g, caseless); }
      ZeroNode(buf[..], previous, lazy, g, repeatMax, caseless);
    } else {
      NestedFits(lazy, g, repeatMax);
      var bralink: nat;
      code, bralink := MakeNested(buf, previous, len, lazy, g, caseless);
      code := NestCopies(buf, previous + 4, code, len, repeatMax - 1, bralink, lazy, 1, g, previous, caseless);
    }
    OneItem(buf[..], previous, n, caseless);
  }

  lemma SingleLen(n: Node)
    ensures ItemsLen(Cons(n, Nil)) == NodeLen(n)
  {
  }

  lemma ZeroLen(lazy: bool, g: Group, repeatMax: int)
    requires repeatMax == -1 || repeatMax == 1
    ensures NodeLen(if repeatMax == -1 then Zero(lazy, Looped(lazy, g)) else Nested(lazy, g, repeatMax)) == 1 + GroupLen(g)
  {
  }

  lemma ZeroNode(code: seq<byte>, pc: nat, lazy: bool, g: Group, repeatMax: int, caseless: bool)
    requires repeatMax == -1 || repeatMax == 1
    requires pc < |code| && code[pc] == ZeroOp(lazy)
    requires AtGroup(code, pc + 1, if repeatMax == -1 then Looped(lazy, g) else g, caseless)
    ensures AtNode(code, pc, if repeatMax == -1 then Zero(lazy, Looped(lazy, g)) else Nested(lazy, g, repeatMax), caseless)
  {
    hide AtGroup, AnyBranchEmpty;
  }

  /** Repeats a group whose minimum is not zero. */
  method RepeatFromMin(buf: array<byte>, previous: nat, len: nat, repeatMin: nat, repeatMax: int, lazy: bool,
                       ghost g: Group, ghost caseless: bool) returns (code: nat)
    requires AtGroup(buf[..], previous, g, caseless) && len == GroupLen(g) && g.ket == Plain && !g.s
    requires repeatMin >= 1 && (repeatMax == -1 || repeatMin <= repeatMax)
    requires var n := ItemsLen(Replicated(lazy, g, repeatMin, repeatMax)); previous + n <= buf.Length && n < 0x10000
    modifies buf
    ensures code == previous + ItemsLen(Replicated(lazy, g, repeatMin, repeatMax))
    ensures AtItems(buf[..], previous, Replicated(lazy, g, repeatMin, repeatMax), caseless)
    ensures forall i :: 0 <= i < previous ==> buf[i] == old(buf[i])
  {
    hide GroupLen, AtGroup, NodeLen, Nested, AtNode, AtItems, ItemsLen, Copies;
    ReplicatedLen(lazy, g, repeatMin, repeatMax);
    code := CopyGroup(buf, previous, previous + len, len, repeatMin, g, caseless);
    ghost var v, z := buf[..], code;
    GroupFits(v, previous, g, caseless);
    if repeatMax > repeatMin {
      code := NestCopies(buf, previous, code, len, repeatMax - repeatMin, 0, lazy, 0, g, z, caseless);
      NestedStart(buf[..], z, lazy, g, repeatMax - repeatMin, caseless);
      MoveItems(v, buf[..], 0, previous, Copies(g, repeatMin, Nil), caseless);
      OneItem(buf[..], z, Nested(lazy, g, repeatMax - repeatMin), caseless);
      AppendCopies(buf[..], previous, g, repeatMin, Cons(Nested(lazy, g, repeatMax - repeatMin), Nil), caseless);
    } else if repeatMax == -1 {
      CopiesStep(g, repeatMin - 1);
      LoopGroup(buf, code - 1 - LINK_SIZE, lazy, code - len, g, caseless);
      LoopAppended(v, buf[..], previous, g, repeatMin - 1, code - len, lazy, caseless);
    }
  }

  lemma NestedStart(code: seq<byte>, pc: nat, lazy: bool, g: Group, k: nat, caseless: bool)
    requires k >= 1 && AtNode(code, pc, Nested(lazy, g, k), caseless)
    ensures pc < |code| && code[pc] == ZeroOp(lazy) && pc + NodeLen(Nested(lazy, g, k)) <= |code|
  {
    hide AtGroup, GroupLen;
    var n := Nested(lazy, g, k);
    GroupFits(code, pc + 1, n.g, caseless);
  }

  lemma ReplicatedLen(lazy: bool, g: Group, min: nat, max: int)
    requires min >= 1 && (max == -1 || min <= max)
    ensures ItemsLen(Replicated(lazy, g, min, max))
         == ItemsLen(Copies(g, min, Nil)) + (if max > min then NodeLen(Nested(lazy, g, max - min)) else 0)
  {
    hide GroupLen, NodeLen, Nested;
    CopiesLen(g, min, Nil);
    if max > min {
      SingleLen(Nested(lazy, g, max - min));
      CopiesLen(g, min, Cons(Nested(lazy, g, max - min), Nil));
    } else if max == -1 {
      LoopedLen(lazy, g);
      SingleLen(Grp(Looped(lazy, g)));
      CopiesLen(g, min - 1, Cons(Grp(Looped(lazy, g)), Nil));
      assert min * GroupLen(g) == (min - 1) * GroupLen(g) + GroupLen(g);
    }
  }

  lemma LoopedLen(lazy: bool, g: Group)
    ensures GroupLen(Looped(lazy, g)) == GroupLen(g) && NodeLen(Grp(Looped(lazy, g))) == GroupLen(g)
  {
  }

  lemma LoopAppended(v: seq<byte>, w: seq<byte>, pc: nat, g: Group, n: nat, at: nat, lazy: bool, caseless: bool)
    requires AtItems(v, pc, Copies(g, n, Nil), caseless) && at == pc + ItemsLen(Copies(g, n, Nil)) <= |v|
    requires Same(v, w, pc, at) && AtGroup(w, at, Looped(lazy, g), caseless)
    ensures AtItems(w, pc, Copies(g, n, Cons(Grp(Looped(lazy, g)), Nil)), caseless)
  {
    hide AtGroup, GroupLen, AtItems, ItemsLen, Copies, Looped;
    var l := Looped(lazy, g);
    GroupStart(w, at, l, caseless);
    GroupFits(w, at, l, caseless);
    MoveItems(v, w, 0, pc, Copies(g, n, Nil), caseless);
    NoItems(w, at + GroupLen(l), caseless);
    GroupAt(w, at, l, Nil, caseless);
    AppendCopies(w, pc, g, n, Cons(Grp(l), Nil), caseless);
  }

  /** Repeats the group whose code is from previous to code0: the code that results is well-formed and
      stands for the repeated group. */
  method RepeatGroup(buf: array<byte>, previous: nat, code0: nat, repeatMin: nat, repeatMax: int, lazy: bool,
                     ghost g: Group, ghost caseless: bool) returns (code: nat)
    requires AtGroup(buf[..], previous, g, caseless) && code0 == previous + GroupLen(g) && g.ket == Plain && !g.s
    requires repeatMax == -1 || (repeatMax >= 1 && repeatMin <= repeatMax)
    requires var n := ItemsLen(Replicated(lazy, g, repeatMin, repeatMax)); previous + n <= buf.Length && n < 0x10000
    modifies buf
    ensures code == previous + ItemsLen(Replicated(lazy, g, repeatMin, repeatMax))
    ensures AtItems(buf[..], previous, Replicated(lazy, g, repeatMin, repeatMax), caseless)
    ensures forall i :: 0 <= i < previous ==> buf[i] == old(buf[i])
  {
    var len := code0 - previous;
    if repeatMin == 0 {
      code := RepeatFromZero(buf, previous, len, repeatMax, lazy, g, caseless);
    } else {
      code := RepeatFromMin(buf, previous, len, repeatMin, repeatMax, lazy, g, caseless);
    }
  }
}

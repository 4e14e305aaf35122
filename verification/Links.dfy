/** The links of a group under construction: each OP_ALT points back to the branch before it, and the chain
    is reversed in place when the group is closed. */
module Links {
  import opened ByteCode
  import opened Backtracking
  import opened MatchSteps
  import opened CodeMoves
  import opened Replicate

  /** The code of v up to end, with a byte after it that is no quantifier. */
  function Ended(v: seq<byte>, end: nat): seq<byte>
    requires end <= |v|
  {
    v[..end] + [OP_END]
  }

  /** The items stand from pc to end. */
  ghost predicate Written(v: seq<byte>, pc: nat, end: nat, its: Items, caseless: bool) {
    pc + ItemsLen(its) == end <= |v| && AtItems(Ended(v, end), pc, its, caseless)
  }

  lemma WrittenFrame(v: seq<byte>, w: seq<byte>, pc: nat, end: nat, its: Items, caseless: bool)
    requires Written(v, pc, end, its, caseless) && Same(v, w, pc, end)
    ensures Written(w, pc, end, its, caseless)
  {
    hide AtItems, ItemsLen;
    MoveItems(Ended(v, end), Ended(w, end), 0, pc, its, caseless);
  }

  /** Items that stand in a longer stretch of code, before a byte that is no quantifier. */
  lemma WrittenWithin(v: seq<byte>, w: seq<byte>, pc: nat, end: nat, its: Items, caseless: bool)
    requires Written(v, pc, end, its, caseless) && Same(v, w, pc, end) && end < |w| && !IsQuantifier(w[end])
    ensures AtItems(w, pc, its, caseless)
  {
    hide AtItems, ItemsLen;
    MoveItems(Ended(v, end), w, 0, pc, its, caseless);
  }

  /** The branches bs stand one after the other: the header of the last one is at p and the group's at
      start; the links of the OP_ALTs lead back from p to start, where the link is still zero. */
  ghost predicate BackChain(v: seq<byte>, start: nat, h: nat, p: nat, bs: seq<Items>, end: nat, caseless: bool)
    decreases |bs|
  {
    && bs != []
    && 1 + LINK_SIZE <= h && start <= p && p + 1 + LINK_SIZE <= |v|
    && Written(v, p + Header(bs, h), end, bs[|bs| - 1], caseless)
    && (if |bs| == 1 then p == start && Get(v, p + 1) == 0
        else
          && v[p] == OP_ALT
          && 0 < Get(v, p + 1) <= p - start
          && BackChain(v, start, h, p - Get(v, p + 1), bs[..|bs| - 1], p, caseless))
  }

  /** The length of the header of the last of the branches. */
  function Header(bs: seq<Items>, h: nat): nat {
    if |bs| <= 1 then h else 1 + LINK_SIZE
  }

  lemma {:induction false} BackChainFrame(v: seq<byte>, w: seq<byte>, start: nat, h: nat, p: nat, bs: seq<Items>, end: nat, caseless: bool)
    requires BackChain(v, start, h, p, bs, end, caseless) && Same(v, w, start, end)
    ensures BackChain(w, start, h, p, bs, end, caseless)
    decreases |bs|
  {
    hide Written;
    ChainInside(v, start, h, p, bs, end, caseless);
    WrittenFrame(v, w, p + Header(bs, h), end, bs[|bs| - 1], caseless);
    MoveLink(v, w, 0, p + 1, p + 1, p + 3);
    if |bs| > 1 { BackChainFrame(v, w, start, h, p - Get(v, p + 1), bs[..|bs| - 1], p, caseless); }
  }

  lemma ChainInside(v: seq<byte>, start: nat, h: nat, p: nat, bs: seq<Items>, end: nat, caseless: bool)
    requires BackChain(v, start, h, p, bs, end, caseless)
    ensures bs != [] && start <= p && p + 3 <= p + Header(bs, h) <= end <= |v|
  {
  }

  /** One more branch, behind a new OP_ALT at q that points back to the header at p. */
  lemma ChainMore(v: seq<byte>, start: nat, h: nat, p: nat, bs: seq<Items>, q: nat, its: Items, end: nat, caseless: bool)
    requires BackChain(v, start, h, p, bs, q, caseless)
    requires q + 3 <= |v| && v[q] == OP_ALT && Get(v, q + 1) == q - p && Written(v, q + 3, end, its, caseless)
    ensures BackChain(v, start, h, q, bs + [its], end, caseless)
  {
    hide Written;
    ChainInside(v, start, h, p, bs, q, caseless);
    assert (bs + [its])[..|bs|] == bs;
  }

  lemma ChainFirst(v: seq<byte>, start: nat, h: nat, its: Items, end: nat, caseless: bool)
    requires 3 <= h && start + 3 <= |v| && Get(v, start + 1) == 0 && Written(v, start + h, end, its, caseless)
    ensures BackChain(v, start, h, start, [its], end, caseless)
  {
  }

  // ---- Reversal ------------------------------------------------------------------------------------------------

  function AltsOf(bs: seq<Items>): Alts
    requires bs != []
  {
    if |bs| == 1 then Last(bs[0]) else More(bs[0], AltsOf(bs[1..]))
  }

  /** The code up to end, closed with the ket of the group at start. */
  function WithKet(v: seq<byte>, start: nat, end: nat): seq<byte>
    requires start <= end <= |v| && end - start < 0x10000
  {
    v[..end] + [OP_KET, (end - start) / 256, (end - start) % 256]
  }

  /** Once the link of the branch at p is its length, the branches from it on are well-formed. */
  lemma Relinked(v: seq<byte>, w: seq<byte>, start: nat, p: nat, hd: nat, b: Items, done: seq<Items>, next: nat, end: nat, caseless: bool)
    requires start <= end <= |v| == |w| && end - start < 0x10000
    requires start <= p && 3 <= hd && p + hd <= next <= end && Written(v, p + hd, next, b, caseless)
    requires p + 3 <= end && Same(v, w, p + 3, end) && Get(w, p + 1) == next - p
    requires if done == [] then next == end else
               next + 3 <= end && v[next] == OP_ALT
               && AtAlts(WithKet(v, start, end), next, 3, AltsOf(done), start, OP_KET, caseless)
               && next + AltsLen(3, AltsOf(done)) == end + 3
    ensures AtAlts(WithKet(w, start, end), p, hd, AltsOf([b] + done), start, OP_KET, caseless)
    ensures p + AltsLen(hd, AltsOf([b] + done)) == end + 3
  {
    hide AtItems, AtAlts, Written, ItemsLen;
    var kv, kw := WithKet(v, start, end), WithKet(w, start, end);
    assert ([b] + done)[1..] == done;
    WrittenLen(v, p + hd, next, b, caseless);
    assert Get(kw, p + 1) == next - p;
    if done == [] {
      WrittenWithin(v, kw, p + hd, next, b, caseless);
      assert Get(kw, end + 1) == end - start;
    } else {
      assert kw[next] == OP_ALT;
      WrittenWithin(v, kw, p + hd, next, b, caseless);
      AltsLenPositive(3, AltsOf(done));
      KetByte(kv, next, 3, AltsOf(done), start, OP_KET, caseless);
      MoveAlts(kv, kw, 0, next, 3, AltsOf(done), start, OP_KET, OP_KET, caseless);
    }
    AltsParts(kw, p, hd, AltsOf([b] + done), start, OP_KET, caseless);
  }

  lemma WrittenLen(v: seq<byte>, pc: nat, end: nat, its: Items, caseless: bool)
    requires Written(v, pc, end, its, caseless)
    ensures pc + ItemsLen(its) == end
  {
  }

  /** i is a byte of the link of one of the headers, from the one at p back to the one at start. */
  ghost predicate OnChain(v: seq<byte>, start: nat, p: nat, i: int)
    decreases p
  {
    || i == p + 1
    || i == p + 2
    || (start < p && p + 3 <= |v| && 0 < Get(v, p + 1) <= p - start && OnChain(v, start, p - Get(v, p + 1), i))
  }

  /** The links of the branches from t on have been reversed; p is the header of the branch before them,
      and next is where that branch ends. */
  ghost predicate Halfway(v: seq<byte>, start: nat, h: nat, p: nat, bs: seq<Items>, t: nat, next: nat, end: nat, caseless: bool) {
    && 1 <= t <= |bs| && start <= p && p + 3 <= next <= end <= |v| && end - start < 0x10000
    && BackChain(v, start, h, p, bs[..t], next, caseless)
    && (if bs[t..] == [] then next == end else
          next + 3 <= end && v[next] == OP_ALT
          && AtAlts(WithKet(v, start, end), next, 3, AltsOf(bs[t..]), start, OP_KET, caseless)
          && next + AltsLen(3, AltsOf(bs[t..])) == end + 3)
  }

  /** One more link reversed. */
  lemma HalfwayStep(v: seq<byte>, w: seq<byte>, start: nat, h: nat, p: nat, bs: seq<Items>, t: nat, next: nat, end: nat, caseless: bool)
    requires Halfway(v, start, h, p, bs, t, next, end, caseless) && |w| == |v| && Get(w, p + 1) == next - p
    requires forall i :: 0 <= i < |v| && i != p + 1 && i != p + 2 ==> w[i] == v[i]
    ensures Get(v, p + 1) <= p - start
    ensures Get(v, p + 1) == 0 ==> AtAlts(WithKet(w, start, end), start, h, AltsOf(bs), start, OP_KET, caseless)
                                   && start + AltsLen(h, AltsOf(bs)) == end + 3
    ensures Get(v, p + 1) > 0 ==> Halfway(w, start, h, p - Get(v, p + 1), bs, t - 1, p, end, caseless)
  {
    hide AtAlts, Written, AltsLen, AltsOf, BackChain;
    var done := bs[t..];
    LastOfChain(v, start, h, p, bs[..t], next, caseless);
    assert bs[..t][..t - 1] == bs[..t - 1] && bs[t - 1..] == [bs[t - 1]] + done;
    Relinked(v, w, start, p, Header(bs[..t], h), bs[t - 1], done, next, end, caseless);
    if Get(v, p + 1) == 0 {
      assert bs[t - 1..] == bs;
    } else {
      BackChainFrame(v, w, start, h, p - Get(v, p + 1), bs[..t - 1], p, caseless);
      ChainInside(w, start, h, p - Get(v, p + 1), bs[..t - 1], p, caseless);
    }
  }

  /** Reverses the chain: the link of each branch becomes its length, so that the chain leads from the
      bracket through every branch in order to the ket. Nothing but the links changes. */
  method ReverseLinks(buf: array<byte>, start: nat, code: nat, lastBranch0: nat, ghost h: nat, ghost bs: seq<Items>, ghost caseless: bool)
    requires start <= code <= buf.Length && code - start < 0x10000
    requires BackChain(buf[..], start, h, lastBranch0, bs, code, caseless)
    modifies buf
    ensures AtAlts(WithKet(buf[..], start, code), start, h, AltsOf(bs), start, OP_KET, caseless)
    ensures start + AltsLen(h, AltsOf(bs)) == code + 3
    ensures forall i :: 0 <= i < buf.Length && !OnChain(old(buf[..]), start, lastBranch0, i) ==> buf[i] == old(buf[i])
  {
    hide AtAlts, AltsLen, AltsOf, BackChain, Halfway;
    var lastBranch: nat := lastBranch0;
    ghost var t: nat, next: nat, v0 := |bs|, code, buf[..];
    HalfwayStart(v0, start, h, lastBranch, bs, code, caseless);
    var branchLength: nat := code - lastBranch;
    while true
      invariant start <= lastBranch && lastBranch + 3 <= next <= code && branchLength == next - lastBranch && t >= 1
      invariant Halfway(buf[..], start, h, lastBranch, bs, t, next, code, caseless)
      invariant forall i :: 0 <= i < buf.Length && (i < next || !OnChain(v0, start, lastBranch0, i)) ==> buf[i] == v0[i]
      invariant forall i :: OnChain(v0, start, lastBranch, i) ==> OnChain(v0, start, lastBranch0, i)
      decreases t
    {
      ghost var v, p := buf[..], lastBranch;
      var prevLength := Get(buf[..], lastBranch + 1);
      Put(buf, lastBranch + 1, branchLength);
      HalfwayStep(v, buf[..], start, h, p, bs, t, next, code, caseless);
      branchLength := prevLength;
      lastBranch := lastBranch - branchLength;
      t, next := t - 1, p;
      if branchLength == 0 { break; }
      HalfwayInside(buf[..], start, h, lastBranch, bs, t, next, code, caseless);
      OnChainBack(v0, start, p);
    }
  }

  lemma HalfwayStart(v: seq<byte>, start: nat, h: nat, p: nat, bs: seq<Items>, end: nat, caseless: bool)
    requires BackChain(v, start, h, p, bs, end, caseless) && start <= end <= |v| && end - start < 0x10000
    ensures Halfway(v, start, h, p, bs, |bs|, end, end, caseless)
    ensures start <= p && p + 3 <= end && bs != []
  {
    hide BackChain;
    ChainInside(v, start, h, p, bs, end, caseless);
    assert bs[..|bs|] == bs && bs[|bs|..] == [];
  }

  lemma HalfwayInside(v: seq<byte>, start: nat, h: nat, p: nat, bs: seq<Items>, t: nat, next: nat, end: nat, caseless: bool)
    requires Halfway(v, start, h, p, bs, t, next, end, caseless)
    ensures t >= 1 && start <= p && p + 3 <= next <= end <= |v|
  {
  }

  lemma LastOfChain(v: seq<byte>, start: nat, h: nat, p: nat, bs: seq<Items>, end: nat, caseless: bool)
    requires BackChain(v, start, h, p, bs, end, caseless)
    ensures Written(v, p + Header(bs, h), end, bs[|bs| - 1], caseless) && 3 <= h && start <= p && p + 3 <= |v|
    ensures bs != [] && start <= p && p + 3 <= p + Header(bs, h) <= end <= |v|
    ensures |bs| == 1 <==> Get(v, p + 1) == 0
    ensures |bs| == 1 ==> p == start
    ensures |bs| > 1 ==> v[p] == OP_ALT && Get(v, p + 1) <= p - start
                         && BackChain(v, start, h, p - Get(v, p + 1), bs[..|bs| - 1], p, caseless)
  {
  }

  lemma OnChainBack(v: seq<byte>, start: nat, p: nat)
    requires start < p && p + 3 <= |v| && 0 < Get(v, p + 1) <= p - start
    ensures forall i :: OnChain(v, start, p - Get(v, p + 1), i) ==> OnChain(v, start, p, i)
  {
  }
}

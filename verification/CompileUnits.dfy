/** The part of compile_branch() that writes single items and their quantifiers, in the real compile phase. */
module CompileUnits {
  import opened ByteCode
  import opened Backtracking
  import opened MatchSteps
  import opened CodeMoves
  import opened Replicate
  import opened Syntax
  import opened Sizes
  import opened Links

  // ---- Items written one after the other -------------------------------------------------------------------

  lemma {:induction false} ItemsJoin(code: seq<byte>, pc: nat, xs: Items, ys: Items, caseless: bool)
    requires AtItems(code, pc, xs, caseless) && AtItems(code, pc + ItemsLen(xs), ys, caseless)
    ensures AtItems(code, pc, Append(xs, ys), caseless)
    decreases xs
  {
    hide AtNode, NodeLen;
    if xs.Cons? { ItemsJoin(code, pc + NodeLen(xs.hd), xs.tl, ys, caseless); }
  }

  /** More items, written behind those that stand there already. */
  lemma WrittenMore(v: seq<byte>, w: seq<byte>, pc: nat, mid: nat, end: nat, xs: Items, ys: Items, caseless: bool)
    requires Written(v, pc, mid, xs, caseless) && Same(v, w, pc, mid) && Written(w, mid, end, ys, caseless)
    ensures Written(w, pc, end, Append(xs, ys), caseless)
  {
    hide AtItems, ItemsLen;
    AppendLen(xs, ys);
    var u := Ended(w, end);
    NoLen();
    if ys.Cons? { DecodeNode(u, mid, ys, caseless); }
    FirstByte(u, mid, end, ys, caseless);
    WrittenWithin(v, u, pc, mid, xs, caseless);
    ItemsJoin(u, pc, xs, ys, caseless);
  }

  /** What stands first is no quantifier of a class. */
  lemma FirstByte(u: seq<byte>, mid: nat, end: nat, ys: Items, caseless: bool)
    requires mid + ItemsLen(ys) == end < |u| && u[end] == OP_END && AtItems(u, mid, ys, caseless)
    ensures mid < |u| && !IsQuantifier(u[mid])
  {
    if ys.Cons? { DecodeNode(u, mid, ys, caseless); }
  }

  lemma WrittenNone(v: seq<byte>, pc: nat, caseless: bool)
    requires pc <= |v|
    ensures Written(v, pc, pc, Nil, caseless)
  {
  }

  // ---- Single items --------------------------------------------------------------------------------------------

  /** The byte that stands for a unit after a repeat opcode. */
  function DataByte(u: Unit): byte
    requires !u.Class?
  {
    if u.Type? then u.t else u.c
  }

  function UnitOp(u: Unit): byte {
    match u
    case Chr(_) => OP_CHAR
    case ChrNC(_) => OP_CHARNC
    case NotChr(_) => OP_NOT
    case Type(t) => t
    case Class(op, _) => op
  }

  /** Writes a character, negated character, type or class. */
  method PutUnit(buf: array<byte>, code0: nat, u: Unit, ghost caseless: bool) returns (code: nat)
    requires UnitOk(u) && code0 + UnitLen(u) <= buf.Length
    modifies buf
    ensures code == code0 + UnitLen(u) && Written(buf[..], code0, code, Cons(One(u), Nil), caseless)
    ensures forall i :: 0 <= i < code0 ==> buf[i] == old(buf[i])
  {
    code := code0;
    buf[code] := UnitOp(u);
    code := code + 1;
    if u.Class? {
      PutMap(buf, code, u.bits);
      code := code + 32;
    } else if !u.Type? {
      buf[code] := DataByte(u);
      code := code + 1;
    }
    UnitWritten(buf[..], code0, u, caseless);
  }

  method PutMap(buf: array<byte>, code: nat, bits: seq<byte>)
    requires |bits| == 32 && code + 32 <= buf.Length
    modifies buf
    ensures buf[code..code + 32] == bits
    ensures forall i :: 0 <= i < buf.Length && !(code <= i < code + 32) ==> buf[i] == old(buf[i])
  {
    for i := 0 to 32
      invariant buf[code..code + i] == bits[..i]
      invariant forall k :: 0 <= k < buf.Length && !(code <= k < code + i) ==> buf[k] == old(buf[k])
    {
      buf[code + i] := bits[i];
      assert buf[code..code + (i + 1)] == buf[code..code + i] + [bits[i]];
    }
  }

  lemma UnitWritten(v: seq<byte>, pc: nat, u: Unit, caseless: bool)
    requires UnitOk(u) && pc + UnitLen(u) <= |v| && v[pc] == UnitOp(u)
    requires u.Class? ==> v[pc + 1..pc + 33] == u.bits
    requires !u.Class? && !u.Type? ==> v[pc + 1] == DataByte(u)
    ensures Written(v, pc, pc + UnitLen(u), Cons(One(u), Nil), caseless)
  {
    var end := pc + UnitLen(u);
    var w := Ended(v, end);
    if u.Class? { assert w[pc + 1..pc + 33] == u.bits; }
    assert AtUnit(w, pc, u);
    OneItem(w, pc, One(u), caseless);
  }

  /** Writes a repeat of a character, negated character or type. */
  method PutRepeat(buf: array<byte>, code0: nat, u: Unit, q: Quant, m: Mode, ghost caseless: bool) returns (code: nat)
    requires !u.Class? && RepOk(u, q, m, caseless) && code0 + RepLen(u, q) <= buf.Length
    modifies buf
    ensures code == code0 + RepLen(u, q) && Written(buf[..], code0, code, Cons(Rep(u, q, m), Nil), caseless)
    ensures forall i :: 0 <= i < code0 ==> buf[i] == old(buf[i])
  {
    code := code0;
    buf[code] := RepOp(u, q, m);
    code := code + 1;
    if q.Upto? || q.Exact? {
      Put(buf, code, q.n);
      code := code + 2;
    }
    buf[code] := DataByte(u);
    code := code + 1;
    RepeatWritten(buf[..], code0, u, q, m, caseless);
  }

  lemma RepeatWritten(v: seq<byte>, pc: nat, u: Unit, q: Quant, m: Mode, caseless: bool)
    requires !u.Class? && RepOk(u, q, m, caseless) && pc + RepLen(u, q) <= |v| && v[pc] == RepOp(u, q, m)
    requires q.Upto? || q.Exact? ==> Get(v, pc + 1) == q.n
    requires v[pc + RepLen(u, q) - 1] == DataByte(u)
    ensures Written(v, pc, pc + RepLen(u, q), Cons(Rep(u, q, m), Nil), caseless)
  {
    var w := Ended(v, pc + RepLen(u, q));
    assert AtRep(w, pc, u, q, m, caseless);
    OneItem(w, pc, Rep(u, q, m), caseless);
  }

  /** Writes the quantifier of a class, whose bit map stands before it. */
  method PutClassQuantifier(buf: array<byte>, previous: nat, code0: nat, u: Unit, min: nat, max: int, m: Mode, ghost caseless: bool)
    returns (code: nat)
    requires u.Class? && UnitOk(u) && m != Possessive && LimitsOk(min, max) && max != 0
    requires code0 == previous + 33 && previous + RepLen(u, ClassQuant(min, max)) <= buf.Length
    requires Written(buf[..], previous, code0, Cons(One(u), Nil), caseless)
    modifies buf
    ensures code == previous + RepLen(u, ClassQuant(min, max))
    ensures Written(buf[..], previous, code, Cons(Rep(u, ClassQuant(min, max), m), Nil), caseless)
    ensures forall i :: 0 <= i < previous ==> buf[i] == old(buf[i])
  {
    ClassBytes(buf[..], previous, u, caseless);
    ghost var v := buf[..];
    var lazy := if m.Lazy? then 1 else 0;
    code := code0;
    if min == 0 && max == -1 {
      buf[code] := OP_CRSTAR + lazy;
      code := code + 1;
    } else if min == 1 && max == -1 {
      buf[code] := OP_CRSTAR + 2 + lazy;
      code := code + 1;
    } else if min == 0 && max == 1 {
      buf[code] := OP_CRSTAR + 4 + lazy;
      code := code + 1;
    } else {
      buf[code] := OP_CRRANGE + lazy;
      Put(buf, code + 1, min);
      ghost var w := buf[..];
      Put(buf, code + 3, if max == -1 then 0 else max);
      MoveLink(w, buf[..], 0, code + 1, code + 1, code + 3);
      code := code + 5;
    }
    assert buf[previous + 1..previous + 33] == v[previous + 1..previous + 33];
    ClassQuantified(buf[..], previous, u, min, max, m, caseless);
  }

  lemma ClassBytes(v: seq<byte>, pc: nat, u: Unit, caseless: bool)
    requires u.Class? && pc + 33 <= |v| && Written(v, pc, pc + 33, Cons(One(u), Nil), caseless)
    ensures v[pc] == u.op && v[pc + 1..pc + 33] == u.bits
  {
    var w := Ended(v, pc + 33);
    ConsAt(w, pc, Cons(One(u), Nil), caseless);
    assert AtUnit(w, pc, u);
    assert w[pc + 1..pc + 33] == v[pc + 1..pc + 33];
  }

  lemma ClassQuantified(v: seq<byte>, pc: nat, u: Unit, min: nat, max: int, m: Mode, caseless: bool)
    requires u.Class? && UnitOk(u) && m != Possessive && LimitsOk(min, max) && max != 0
    requires pc + RepLen(u, ClassQuant(min, max)) <= |v| && v[pc] == u.op && v[pc + 1..pc + 33] == u.bits
    requires v[pc + 33] == RepOp(u, ClassQuant(min, max), m)
    requires var q := ClassQuant(min, max); q.Range? ==> Get(v, pc + 34) == q.lo && Get(v, pc + 36) == q.hi
    ensures Written(v, pc, pc + RepLen(u, ClassQuant(min, max)), Cons(Rep(u, ClassQuant(min, max), m), Nil), caseless)
  {
    var q := ClassQuant(min, max);
    var end := pc + RepLen(u, q);
    var w := Ended(v, end);
    assert w[pc + 1..pc + 33] == v[pc + 1..pc + 33];
    assert AtRep(w, pc, u, q, m, caseless);
    OneItem(w, pc, Rep(u, q, m), caseless);
  }

  /** Replaces a unit at previous by its repeat; with a maximum of zero the unit is dropped. */
  method QuantifyUnit(buf: array<byte>, previous: nat, code0: nat, u: Unit, min: nat, max: int, m: Mode, ghost caseless: bool)
    returns (code: nat)
    requires UnitFits(u, caseless) && LimitsOk(min, max) && (m == Possessive ==> !u.Class?)
    requires code0 == previous + UnitLen(u) && Written(buf[..], previous, code0, Cons(One(u), Nil), caseless)
    requires previous + ItemsLen(Quantified(u, min, max, m)) <= buf.Length
    modifies buf
    ensures code == previous + ItemsLen(Quantified(u, min, max, m))
    ensures Written(buf[..], previous, code, Quantified(u, min, max, m), caseless)
    ensures forall i :: 0 <= i < previous ==> buf[i] == old(buf[i])
  {
    hide Written, AtItems, ItemsLen;
    QuantifiedLen(u, min, max, m);
    code := previous;
    if max == 0 {
      WrittenNone(buf[..], previous, caseless);
    } else if u.Class? {
      code := PutClassQuantifier(buf, previous, code0, u, min, max, m, caseless);
    } else if min == 0 {
      code := PutRepeat(buf, code, u, if max == -1 then Star else if max == 1 then Query else Upto(max), m, caseless);
    } else if min == 1 {
      if max == -1 {
        code := PutRepeat(buf, code, u, Plus, m, caseless);
      } else {
        code := code0;
        if max != 1 {
          ghost var v := buf[..];
          code := PutRepeat(buf, code, u, Upto(max - 1), m, caseless);
          WrittenMore(v, buf[..], previous, code0, code, Cons(One(u), Nil), Cons(Rep(u, Upto(max - 1), m), Nil), caseless);
        }
      }
    } else {
      code := PutRepeat(buf, code, u, Exact(min), Greedy, caseless);
      if max != min {
        ghost var v, mid := buf[..], code;
        var q := if max == -1 then Star else if max - min == 1 then Query else Upto(max - min);
        code := PutRepeat(buf, code, u, q, m, caseless);
        WrittenMore(v, buf[..], previous, mid, code, Cons(Rep(u, Exact(min), Greedy), Nil), Cons(Rep(u, q, m), Nil), caseless);
      }
    }
  }

  lemma QuantifiedLen(u: Unit, min: nat, max: int, m: Mode)
    requires max == -1 || min <= max
    ensures max != 0 ==>
              var its := Quantified(u, min, max, m);
              its.Cons? && ItemsLen(its) == NodeLen(its.hd) + if its.tl.Cons? then NodeLen(its.tl.hd) else 0
    ensures ItemsLen(Nil) == 0
    ensures max == 0 ==> Quantified(u, min, max, m) == Nil
  {
    hide NodeLen;
    NoLen();
    if max != 0 {
      var its := Quantified(u, min, max, m);
      assert its.tl.Cons? ==> its.tl.tl.Nil? && ItemsLen(its.tl) == NodeLen(its.tl.hd) + ItemsLen(its.tl.tl);
    }
  }
}

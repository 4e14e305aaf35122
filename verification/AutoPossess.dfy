/** The comparison that check_auto_possessive() makes of a repeated item and the next one, and that making the
    repeat possessive changes nothing in the outcomes when the two have no byte in common. */
module AutoPossess {
  import opened ByteCode
  import opened Meaning
  import opened Outcomes
  import opened Backtracking
  import opened MatchSteps
  import opened DfaSteps

  // ---- The comparison of two items -------------------------------------------------------------------

  /** Whether the comparison finds that the next item v cannot match where the repeated item u does. */
  predicate Excludes(tb: Tables, caseless: bool, u: Unit, v: Unit)
    requires tb.Valid() && (v.Chr? || v.ChrNC? || v.Type?)
  {
    if v.Type? then
      match u
      case Chr(c) => CharExcludesType(tb, c, v.t)
      case ChrNC(c) => CharExcludesType(tb, c, v.t)
      case Type(t) => TypeExcludesType(t, v.t)
      case _ => false
    else
      match u
      case Chr(c) => c != v.c
      case ChrNC(c) => c != v.c && c != tb.fcc[v.c]
      case NotChr(c) => c == v.c || (caseless && c == tb.fcc[v.c])
      case Type(t) => TypeExcludesChar(tb, t, v.c)
      case Class(_, _) => false
  }

  predicate CharExcludesType(tb: Tables, c: byte, t: byte)
    requires tb.Valid()
  {
    if t == OP_DIGIT then c > 127 || !HasCtype(tb, c, CTYPE_DIGIT)
    else if t == OP_NOT_DIGIT then c <= 127 && HasCtype(tb, c, CTYPE_DIGIT)
    else if t == OP_WHITESPACE then c > 127 || !HasCtype(tb, c, CTYPE_SPACE)
    else if t == OP_NOT_WHITESPACE then c <= 127 && HasCtype(tb, c, CTYPE_SPACE)
    else if t == OP_WORDCHAR then c > 127 || !HasCtype(tb, c, CTYPE_WORD)
    else if t == OP_NOT_WORDCHAR then c <= 127 && HasCtype(tb, c, CTYPE_WORD)
    else false
  }

  predicate TypeExcludesChar(tb: Tables, t: byte, c: byte)
    requires tb.Valid()
  {
    CharExcludesType(tb, c, t)
  }

  predicate TypeExcludesType(t: byte, next: byte) {
    if t == OP_DIGIT then next == OP_NOT_DIGIT || next == OP_WHITESPACE || next == OP_NOT_WORDCHAR
    else if t == OP_NOT_DIGIT then next == OP_DIGIT
    else if t == OP_WHITESPACE then next == OP_NOT_WHITESPACE || next == OP_DIGIT || next == OP_WORDCHAR
    else if t == OP_NOT_WHITESPACE then next == OP_WHITESPACE
    else if t == OP_WORDCHAR then next == OP_NOT_WORDCHAR || next == OP_WHITESPACE
    else if t == OP_NOT_WORDCHAR then next == OP_WORDCHAR || next == OP_DIGIT
    else false
  }

  predicate SameClasses(tb: Tables, x: byte, y: byte) {
    && tb.Valid()
    && (HasCtype(tb, x, CTYPE_DIGIT) <==> HasCtype(tb, y, CTYPE_DIGIT))
    && (HasCtype(tb, x, CTYPE_SPACE) <==> HasCtype(tb, y, CTYPE_SPACE))
    && (HasCtype(tb, x, CTYPE_WORD) <==> HasCtype(tb, y, CTYPE_WORD))
  }

  /** Digits are word characters, spaces are not, no byte above 127 is any of these, and the other case of a
      character is of the same classes. */
  ghost predicate OrderlyTables(tb: Tables) {
    && CaseConsistent(tb)
    && (forall ch: byte :: HasCtype(tb, ch, CTYPE_DIGIT) ==> HasCtype(tb, ch, CTYPE_WORD))
    && (forall ch: byte :: HasCtype(tb, ch, CTYPE_WORD) ==> !HasCtype(tb, ch, CTYPE_SPACE))
    && (forall ch: byte :: ch > 127 ==> !HasCtype(tb, ch, CTYPE_WORD) && !HasCtype(tb, ch, CTYPE_SPACE))
    && (forall ch: byte :: SameClasses(tb, ch, tb.fcc[ch]))
  }

  /** What holds of the tables for the C locale: they are orderly, and there are digits, spaces and other word
      characters. */
  ghost predicate DefaultTables(tb: Tables) {
    && OrderlyTables(tb)
    && (exists ch: byte :: HasCtype(tb, ch, CTYPE_DIGIT))
    && (exists ch: byte :: HasCtype(tb, ch, CTYPE_SPACE))
    && (exists ch: byte :: HasCtype(tb, ch, CTYPE_WORD) && !HasCtype(tb, ch, CTYPE_DIGIT))
  }

  /** No byte is accepted by both. */
  ghost predicate Exclusive(tb: Tables, caseless: bool, u: Unit, v: Unit)
    requires tb.Valid() && UnitOk(u) && UnitOk(v)
  {
    forall ch: byte :: !(Accepts(tb, caseless, u, ch) && Accepts(tb, caseless, v, ch))
  }

  /** A literal or one of the six types, with the kind of literal that the caseless option asks for. */
  predicate Comparable(caseless: bool, v: Unit) {
    match v
    case Chr(_) => !caseless
    case ChrNC(_) => caseless
    case Type(t) => OP_NOT_DIGIT <= t <= OP_WORDCHAR
    case _ => false
  }

  /** The comparison is right: it finds exactly the pairs of items that have no byte in common. Of
      negated literals followed by a type it says nothing. */
  lemma ExcludesExactly(tb: Tables, caseless: bool, u: Unit, v: Unit)
    requires DefaultTables(tb) && Comparable(caseless, v) && (Comparable(caseless, u) || u.NotChr?)
    ensures Excludes(tb, caseless, u, v) ==> Exclusive(tb, caseless, u, v)
    ensures !(u.NotChr? && v.Type?) && Exclusive(tb, caseless, u, v) ==> Excludes(tb, caseless, u, v)
  {
    if Excludes(tb, caseless, u, v) {
      ExcludedApart(tb, caseless, u, v);
    } else if !(u.NotChr? && v.Type?) {
      var ch := Shared(tb, caseless, u, v);
    }
  }

  /** What the comparison finds is right for all items exactly when the tables are orderly. */
  ghost predicate NeverWrong(tb: Tables)
    requires tb.Valid()
  {
    forall caseless: bool, u: Unit, v: Unit :: Comparable(caseless, v) && (Comparable(caseless, u) || u.NotChr?) ==>
      !WrongAbout(tb, caseless, u, v)
  }

  ghost predicate WrongAbout(tb: Tables, caseless: bool, u: Unit, v: Unit)
    requires tb.Valid() && Comparable(caseless, v) && (Comparable(caseless, u) || u.NotChr?)
  {
    Excludes(tb, caseless, u, v) && !Exclusive(tb, caseless, u, v)
  }

  lemma TablesExactly(tb: Tables)
    requires CaseConsistent(tb)
    ensures NeverWrong(tb) <==> OrderlyTables(tb)
  {
    hide HasCtype;
    if OrderlyTables(tb) {
      forall caseless: bool, u: Unit, v: Unit | Comparable(caseless, v) && (Comparable(caseless, u) || u.NotChr?)
        ensures !WrongAbout(tb, caseless, u, v)
      {
        if Excludes(tb, caseless, u, v) { ExcludedApart(tb, caseless, u, v); }
      }
    }
    if NeverWrong(tb) {
      forall ch: byte
        ensures HasCtype(tb, ch, CTYPE_DIGIT) ==> HasCtype(tb, ch, CTYPE_WORD)
        ensures HasCtype(tb, ch, CTYPE_WORD) ==> !HasCtype(tb, ch, CTYPE_SPACE)
        ensures ch > 127 ==> !HasCtype(tb, ch, CTYPE_WORD) && !HasCtype(tb, ch, CTYPE_SPACE)
        ensures SameClasses(tb, ch, tb.fcc[ch])
      {
        OrderlyAt(tb, ch);
      }
    }
  }

  lemma OrderlyAt(tb: Tables, ch: byte)
    requires CaseConsistent(tb) && NeverWrong(tb)
    ensures HasCtype(tb, ch, CTYPE_DIGIT) ==> HasCtype(tb, ch, CTYPE_WORD)
    ensures HasCtype(tb, ch, CTYPE_WORD) ==> !HasCtype(tb, ch, CTYPE_SPACE)
    ensures ch > 127 ==> !HasCtype(tb, ch, CTYPE_WORD) && !HasCtype(tb, ch, CTYPE_SPACE)
    ensures SameClasses(tb, ch, tb.fcc[ch])
  {
    hide HasCtype;
    NotBoth(tb, false, Type(OP_DIGIT), Type(OP_NOT_WORDCHAR), ch);
    NotBoth(tb, false, Type(OP_WORDCHAR), Type(OP_WHITESPACE), ch);
    NotBoth(tb, false, Chr(ch), Type(OP_WORDCHAR), ch);
    NotBoth(tb, false, Chr(ch), Type(OP_WHITESPACE), ch);
    NotBoth(tb, false, Chr(ch), Type(OP_DIGIT), ch);
    SameAs(tb, ch, tb.fcc[ch]);
    OtherWay(tb, ch);
    SameAs(tb, tb.fcc[ch], ch);
  }

  lemma OtherWay(tb: Tables, ch: byte)
    requires CaseConsistent(tb)
    ensures tb.lcc[ch] == tb.lcc[tb.fcc[ch]]
  {
  }

  /** A class that ch has not, its other case has not either. */
  lemma SameAs(tb: Tables, ch: byte, other: byte)
    requires CaseConsistent(tb) && NeverWrong(tb) && tb.lcc[ch] == tb.lcc[other]
    ensures HasCtype(tb, other, CTYPE_DIGIT) ==> HasCtype(tb, ch, CTYPE_DIGIT)
    ensures HasCtype(tb, other, CTYPE_SPACE) ==> HasCtype(tb, ch, CTYPE_SPACE)
    ensures HasCtype(tb, other, CTYPE_WORD) ==> HasCtype(tb, ch, CTYPE_WORD)
  {
    hide HasCtype;
    NotBoth(tb, true, ChrNC(ch), Type(OP_DIGIT), other);
    NotBoth(tb, true, ChrNC(ch), Type(OP_WHITESPACE), other);
    NotBoth(tb, true, ChrNC(ch), Type(OP_WORDCHAR), other);
  }

  lemma NotBoth(tb: Tables, caseless: bool, u: Unit, v: Unit, ch: byte)
    requires tb.Valid() && NeverWrong(tb) && Comparable(caseless, v) && Comparable(caseless, u)
    ensures Excludes(tb, caseless, u, v) ==> !(Accepts(tb, caseless, u, ch) && Accepts(tb, caseless, v, ch))
  {
    assert !WrongAbout(tb, caseless, u, v);
  }

  lemma ExcludedApart(tb: Tables, caseless: bool, u: Unit, v: Unit)
    requires OrderlyTables(tb) && Comparable(caseless, v) && (Comparable(caseless, u) || u.NotChr?)
    requires Excludes(tb, caseless, u, v)
    ensures Exclusive(tb, caseless, u, v)
  {
    forall ch: byte ensures !(Accepts(tb, caseless, u, ch) && Accepts(tb, caseless, v, ch)) {
      Apart(tb, caseless, u, v, ch);
    }
  }

  lemma Apart(tb: Tables, caseless: bool, u: Unit, v: Unit, ch: byte)
    requires OrderlyTables(tb) && Comparable(caseless, v) && (Comparable(caseless, u) || u.NotChr?)
    requires Excludes(tb, caseless, u, v)
    ensures !(Accepts(tb, caseless, u, ch) && Accepts(tb, caseless, v, ch))
  {
    hide HasCtype;
    if u.ChrNC? { assert SameClasses(tb, u.c, tb.fcc[u.c]); }
    if v.ChrNC? { assert SameClasses(tb, v.c, tb.fcc[v.c]); }
  }

  lemma Shared(tb: Tables, caseless: bool, u: Unit, v: Unit) returns (ch: byte)
    requires DefaultTables(tb) && Comparable(caseless, v) && (Comparable(caseless, u) || u.NotChr?)
    requires !Excludes(tb, caseless, u, v) && !(u.NotChr? && v.Type?)
    ensures Accepts(tb, caseless, u, ch) && Accepts(tb, caseless, v, ch)
  {
    hide HasCtype;
    var d: byte :| HasCtype(tb, d, CTYPE_DIGIT);
    var s: byte :| HasCtype(tb, s, CTYPE_SPACE);
    var w: byte :| HasCtype(tb, w, CTYPE_WORD) && !HasCtype(tb, w, CTYPE_DIGIT);
    if !v.Type? {
      ch := v.c;
    } else if !u.Type? {
      ch := u.c;
    } else if TypeTest(tb, u.t, d) && TypeTest(tb, v.t, d) {
      ch := d;
    } else if TypeTest(tb, u.t, s) && TypeTest(tb, v.t, s) {
      ch := s;
    } else if TypeTest(tb, u.t, w) && TypeTest(tb, v.t, w) {
      ch := w;
    } else {
      ch := 128;
    }
  }

  // ---- Possessive and not, the outcomes are the same ---------------------------------------------------

  /** Item n has to match v first. */
  predicate StartsWith(n: Node, v: Unit) {
    n == One(v) || (n.Rep? && n.u == v && n.q.Min() > 0)
  }

  lemma NoStart(a: Attempt, n: Node, v: Unit, tl: Items, st: State)
    requires StartsWith(n, v) && !Test(a.c, v, st.pos)
    ensures ItemsOutcomes(a, Cons(n, tl), st) == []
  {
    hide Test;
    assert NodeOutcomes(a, n, st) == [];
  }

  /** Where the repeated item still matches, the next one does not. */
  lemma NoStartInside(a: Attempt, u: Unit, n: Node, v: Unit, tl: Items, st: State, k: nat, run: nat)
    requires a.c.Valid() && UnitOk(u) && UnitOk(v) && Exclusive(a.c.tb, a.c.caseless, u, v) && StartsWith(n, v)
    requires k < run && forall t: nat :: st.pos <= t < st.pos + run ==> Test(a.c, u, t)
    ensures ItemsOutcomes(a, Cons(n, tl), Advance(st, k)) == []
  {
    assert Test(a.c, u, st.pos + k);
    NoStart(a, n, v, tl, Advance(st, k));
  }

  lemma {:induction false} DownLast(a: Attempt, u: Unit, n: Node, v: Unit, tl: Items, st: State, hi: int, lo: nat, run: nat)
    requires a.c.Valid() && UnitOk(u) && UnitOk(v) && Exclusive(a.c.tb, a.c.caseless, u, v) && StartsWith(n, v)
    requires hi < run && forall t: nat :: st.pos <= t < st.pos + run ==> Test(a.c, u, t)
    ensures Then(a, Down(st, hi, lo), Cons(n, tl)) == []
    decreases hi - lo + 1
  {
    hide Test, Exclusive, StartsWith, ItemsOutcomes;
    if hi >= lo {
      NoStartInside(a, u, n, v, tl, st, hi, run);
      DownLast(a, u, n, v, tl, st, hi - 1, lo, run);
    }
  }

  lemma {:induction false} UpLast(a: Attempt, u: Unit, n: Node, v: Unit, tl: Items, st: State, lo: nat, run: nat)
    requires a.c.Valid() && UnitOk(u) && UnitOk(v) && Exclusive(a.c.tb, a.c.caseless, u, v) && StartsWith(n, v)
    requires lo <= run && forall t: nat :: st.pos <= t < st.pos + run ==> Test(a.c, u, t)
    ensures Then(a, Up(st, lo, run), Cons(n, tl)) == ItemsOutcomes(a, Cons(n, tl), Advance(st, run))
    decreases run - lo
  {
    hide Test, Exclusive, StartsWith, ItemsOutcomes;
    if lo < run {
      NoStartInside(a, u, n, v, tl, st, lo, run);
      UpLast(a, u, n, v, tl, st, lo + 1, run);
    } else {
      assert Up(st, lo + 1, run) == [];
      assert Up(st, lo, run) == [Advance(st, run)];
      ThenOne(a, Advance(st, run), Cons(n, tl));
    }
  }

  /** Making an unlimited repeat possessive, when what follows it excludes what it repeats, leaves all
      outcomes of the items as they are, and their order. */
  lemma PossessiveSame(a: Attempt, u: Unit, q: Quant, m: Mode, n: Node, v: Unit, tl: Items, st: State)
    requires a.c.Valid() && UnitOk(u) && UnitOk(v) && Exclusive(a.c.tb, a.c.caseless, u, v) && StartsWith(n, v)
    requires q.Star? || q.Plus?
    ensures ItemsOutcomes(a, Cons(Rep(u, q, m), Cons(n, tl)), st) == ItemsOutcomes(a, Cons(Rep(u, q, Possessive), Cons(n, tl)), st)
  {
    hide Test, Exclusive, StartsWith, ItemsOutcomes;
    RepItems(a, u, q, m, Cons(n, tl), st);
    RepItems(a, u, q, Possessive, Cons(n, tl), st);
    var run := RunLength(a.c, u, st.pos, q.Max());
    if run >= q.Min() {
      ThenOne(a, Advance(st, run), Cons(n, tl));
      match m
      case Possessive =>
      case Greedy => DownLast(a, u, n, v, tl, st, run - 1, q.Min(), run);
      case Lazy => UpLast(a, u, n, v, tl, st, q.Min(), run);
    }
  }

  lemma RepItems(a: Attempt, u: Unit, q: Quant, m: Mode, tl: Items, st: State)
    ensures ItemsOutcomes(a, Cons(Rep(u, q, m), tl), st) == Then(a, RepOutcomes(a, u, q, m, st), tl)
  {
    assert NodeOutcomes(a, Rep(u, q, m), st) == RepOutcomes(a, u, q, m, st);
  }
}

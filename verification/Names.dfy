/** The table of named groups: sorted insertion while compiling, lookup by binary search, and the scan
    that a condition on a name makes while matching. */
module Names {
  import opened ByteCode

  const PCRE_ERROR_NOSUBSTRING := -7

  datatype Entry = Entry(number: nat, name: seq<byte>)

  datatype Outcome = Accepted | ERR43 | ERR65

  // ---- Comparing names ---------------------------------------------------------------------------------

  /** The sign of a comparison of two strings, as strcmp() gives it. */
  function Compare(a: seq<byte>, b: seq<byte>): int {
    if a == [] && b == [] then 0
    else if a == [] then -1
    else if b == [] then 1
    else if a[0] != b[0] then (if a[0] < b[0] then -1 else 1)
    else Compare(a[1..], b[1..])
  }

  lemma {:induction false} CompareEqual(a: seq<byte>, b: seq<byte>)
    ensures Compare(a, b) == 0 <==> a == b
    ensures Compare(b, a) == -Compare(a, b)
    decreases |a|
  {
    if a != [] && b != [] {
      CompareEqual(a[1..], b[1..]);
      assert a == [a[0]] + a[1..] && b == [b[0]] + b[1..];
    }
  }

  /** The first place where the strings differ decides, and a string comes after all that it begins with. */
  lemma {:induction false} CompareMeans(a: seq<byte>, b: seq<byte>) returns (k: nat)
    ensures -1 <= Compare(a, b) <= 1
    ensures k <= |a| && k <= |b| && a[..k] == b[..k]
    ensures k == |a| == |b| || (k == |a| < |b|) || (k == |b| < |a|) || (k < |a| && k < |b| && a[k] != b[k])
    ensures Compare(a, b) < 0 <==> (k == |a| < |b|) || (k < |a| && k < |b| && a[k] < b[k])
    ensures Compare(a, b) > 0 <==> (k == |b| < |a|) || (k < |a| && k < |b| && b[k] < a[k])
    decreases |a|
  {
    k := 0;
    if a != [] && b != [] && a[0] == b[0] {
      k := CompareMeans(a[1..], b[1..]);
      assert a[..k + 1] == [a[0]] + a[1..][..k] && b[..k + 1] == [b[0]] + b[1..][..k];
      k := k + 1;
    }
  }

  lemma {:induction false} CompareTrans(a: seq<byte>, b: seq<byte>, c: seq<byte>)
    requires Compare(a, b) <= 0 && Compare(b, c) <= 0
    ensures Compare(a, c) <= 0
    ensures Compare(a, b) < 0 || Compare(b, c) < 0 ==> Compare(a, c) < 0
    decreases |a|
  {
    if a != [] && b != [] && c != [] && a[0] == b[0] == c[0] { CompareTrans(a[1..], b[1..], c[1..]); }
  }

  // ---- The table, as a sequence of entries ---------------------------------------------------------------

  ghost predicate Sorted(es: seq<Entry>) {
    forall i: nat, j: nat :: i < j < |es| ==> Compare(es[i].name, es[j].name) <= 0
  }

  /** Whether an entry is accepted, and if not, why: a name may stand for two numbers only with the
      option for duplicate names, and a new name may not stand for a number that has a name. */
  ghost function Verdict(es: seq<Entry>, e: Entry, dupnames: bool): Outcome {
    if !dupnames && exists f :: f in es && f.name == e.name && f.number != e.number then ERR43
    else if HasName(es, e.name) then Accepted
    else if exists f :: f in es && f.number == e.number then ERR65
    else Accepted
  }

  /** With the name a for group 1, a for 2 is refused with ERR43 unless duplicates are allowed, and b for 1 with ERR65. */
  lemma RefusedNames()
    ensures Verdict([Entry(1, [97])], Entry(2, [97]), false) == ERR43 && Verdict([Entry(1, [97])], Entry(2, [97]), true) == Accepted
    ensures Verdict([Entry(1, [97])], Entry(1, [98]), false) == ERR65 && Verdict([Entry(1, [97])], Entry(1, [97]), false) == Accepted
  {
    assert Entry(1, [97]) in [Entry(1, [97])];
  }

  ghost predicate HasName(es: seq<Entry>, name: seq<byte>) {
    exists f :: f in es && f.name == name
  }

  /** The place of a new entry: after all entries whose names are not later. */
  function Place(es: seq<Entry>, name: seq<byte>): (k: nat)
    ensures k <= |es|
  {
    if es == [] || Compare(name, es[0].name) < 0 then 0 else 1 + Place(es[1..], name)
  }

  lemma {:induction false} PlaceSplits(es: seq<Entry>, name: seq<byte>)
    requires Sorted(es)
    ensures Place(es, name) <= |es|
    ensures forall i: nat :: i < Place(es, name) ==> Compare(es[i].name, name) <= 0
    ensures forall i: nat :: Place(es, name) <= i < |es| ==> Compare(name, es[i].name) < 0
    decreases |es|
  {
    if es != [] {
      CompareEqual(name, es[0].name);
      if Compare(name, es[0].name) < 0 {
        forall i: nat | 0 < i < |es| ensures Compare(name, es[i].name) < 0 {
          CompareTrans(name, es[0].name, es[i].name);
        }
      } else {
        assert Sorted(es[1..]) by {
          forall i: nat, j: nat | i < j < |es| - 1 ensures Compare(es[1..][i].name, es[1..][j].name) <= 0 {
            assert Compare(es[i + 1].name, es[j + 1].name) <= 0;
          }
        }
        PlaceSplits(es[1..], name);
        forall i: nat | i < Place(es, name) ensures Compare(es[i].name, name) <= 0 {
          if i > 0 { assert es[i] == es[1..][i - 1]; }
        }
        forall i: nat | Place(es, name) <= i < |es| ensures Compare(name, es[i].name) < 0 {
          assert es[i] == es[1..][i - 1];
        }
      }
    }
  }

  function Inserted(es: seq<Entry>, e: Entry, k: nat): seq<Entry>
    requires k <= |es|
  {
    es[..k] + [e] + es[k..]
  }

  lemma InsertedAt(es: seq<Entry>, e: Entry, k: nat, i: nat)
    requires k <= |es| && i <= |es|
    ensures Inserted(es, e, k)[i] == if i < k then es[i] else if i == k then e else es[i - 1]
  {
  }

  /** Insertion at its place keeps the table sorted, so that equal names stay adjacent. */
  lemma InsertedSorted(es: seq<Entry>, e: Entry)
    requires Sorted(es)
    ensures Place(es, e.name) <= |es| && Sorted(Inserted(es, e, Place(es, e.name)))
  {
    hide Compare, Place;
    PlaceSplits(es, e.name);
    var k := Place(es, e.name);
    var r := Inserted(es, e, k);
    forall i: nat, j: nat | i < j < |r| ensures Compare(r[i].name, r[j].name) <= 0 {
      InsertedAt(es, e, k, i);
      InsertedAt(es, e, k, j);
    }
  }

  /** A stretch of entries of one name that cannot be widened holds all entries of the name. */
  lemma WholeRun(es: seq<Entry>, first: nat, last: nat)
    requires Sorted(es) && first <= last < |es|
    requires es[first].name == es[last].name
    requires first > 0 ==> es[first - 1].name != es[first].name
    requires last + 1 < |es| ==> es[last + 1].name != es[first].name
    ensures forall i: nat :: i < |es| && es[i].name == es[first].name ==> first <= i <= last
  {
    forall i: nat | i < |es| && !(first <= i <= last) ensures es[i].name != es[first].name {
      if es[i].name == es[first].name {
        if i < first { Adjacent(es, i, first - 1, first); } else { Adjacent(es, first, last + 1, i); }
      }
    }
  }

  /** Entries of one name are adjacent. */
  lemma Adjacent(es: seq<Entry>, i: nat, j: nat, k: nat)
    requires Sorted(es) && i <= j <= k < |es| && es[i].name == es[k].name
    ensures es[j].name == es[i].name
  {
    if i < j < k {
      CompareEqual(es[i].name, es[j].name);
      CompareEqual(es[j].name, es[k].name);
    }
  }

  // ---- One name for each number ------------------------------------------------------------------------

  /** What the scan for a condition relies on: a number has only one name. */
  ghost predicate OneName(es: seq<Entry>) {
    forall e, f :: e in es && f in es && e.number == f.number ==> e.name == f.name
  }

  /** Accepting an entry keeps to one name for each number, except when the name was there before and
      the number has another name: this case is not looked for. */
  lemma OneNameExactly(es: seq<Entry>, e: Entry, dupnames: bool, k: nat)
    requires OneName(es) && Verdict(es, e, dupnames) == Accepted && k <= |es|
    ensures OneName(Inserted(es, e, k)) <==> !(HasName(es, e.name) && exists f :: f in es && f.number == e.number && f.name != e.name)
  {
    var r := Inserted(es, e, k);
    assert forall f :: f in r <==> f in es || f == e by {
      assert es == es[..k] + es[k..];
    }
    if f :| f in es && f.number == e.number && f.name != e.name {
      assert e in r && f in r;
    }
  }

  /** a for 1, b for 2, and then a for 2, which a (?| group can bring about with duplicate names: each
      is accepted, and 2 has two names. */
  lemma TwoNames(a: seq<byte>, b: seq<byte>)
    requires Compare(a, b) < 0
    ensures Verdict([], Entry(1, a), true) == Accepted
    ensures Verdict([Entry(1, a)], Entry(2, b), true) == Accepted
    ensures Verdict([Entry(1, a), Entry(2, b)], Entry(2, a), true) == Accepted
    ensures Inserted([Entry(1, a), Entry(2, b)], Entry(2, a), Place([Entry(1, a), Entry(2, b)], a))
         == [Entry(1, a), Entry(2, a), Entry(2, b)]
    ensures !OneName([Entry(1, a), Entry(2, a), Entry(2, b)])
  {
    CompareEqual(a, a);
    CompareEqual(a, b);
    var es := [Entry(1, a), Entry(2, b)];
    assert es[1..] == [Entry(2, b)];
    assert Entry(1, a) in es;
    var r := [Entry(1, a), Entry(2, a), Entry(2, b)];
    assert r[1] in r && r[2] in r;
  }

  // ---- The rows of the table -----------------------------------------------------------------------------

  /** The bytes up to the first zero. */
  function CString(s: seq<byte>): (r: seq<byte>)
    ensures |r| <= |s|
  {
    if s == [] || s[0] == 0 then [] else [s[0]] + CString(s[1..])
  }

  /** A row holds the number in two bytes, then the name with a zero after it. */
  predicate RowOk(row: seq<byte>) {
    3 <= |row| && |CString(row[2..])| < |row| - 2
  }

  function RowEntry(row: seq<byte>): Entry
    requires RowOk(row)
  {
    Entry(Get(row, 0), CString(row[2..]))
  }

  ghost predicate NoZero(name: seq<byte>) {
    forall k :: 0 <= k < |name| ==> name[k] != 0
  }

  lemma {:induction false} CStringOf(name: seq<byte>, rest: seq<byte>)
    requires NoZero(name)
    ensures CString(name + rest) == name + CString(rest)
    decreases |name|
  {
    if name == [] {
      assert name + rest == rest && name + CString(rest) == CString(rest);
    } else {
      CStringOf(name[1..], rest);
      assert (name + rest)[1..] == name[1..] + rest;
      assert [name[0]] + (name[1..] + CString(rest)) == name + CString(rest);
    }
  }

  /** Comparing two strings with a common start compares what follows it. */
  lemma {:induction false} CompareAfter(p: seq<byte>, a: seq<byte>, b: seq<byte>)
    ensures Compare(p + a, p + b) == Compare(a, b)
    decreases |p|
  {
    if p == [] {
      assert p + a == a && p + b == b;
    } else {
      assert (p + a)[1..] == p[1..] + a && (p + b)[1..] == p[1..] + b;
      CompareAfter(p[1..], a, b);
    }
  }

  /** After i equal bytes, the comparison of a name with a row is that of what is left of both. */
  lemma ComparePart(name: seq<byte>, row: seq<byte>, i: nat)
    requires NoZero(name) && i <= |name| && i + 2 <= |row| && forall k :: 0 <= k < i ==> name[k] == row[2 + k]
    ensures Compare(name, CString(row[2..])) == Compare(name[i..], CString(row[2 + i..]))
    ensures |CString(row[2..])| == i + |CString(row[2 + i..])|
  {
    hide Compare, CString;
    var p := name[..i];
    assert row[2..] == p + row[2 + i..];
    assert NoZero(p);
    CStringOf(p, row[2 + i..]);
    assert name == p + name[i..];
    CompareAfter(p, name[i..], CString(row[2 + i..]));
  }

  /** memcmp() on the length of the name, and the test for a terminating zero after it. */
  method CompareName(name: seq<byte>, row: seq<byte>) returns (crc: int)
    requires NoZero(name) && |name| + 3 <= |row|
    ensures crc == Compare(name, CString(row[2..]))
  {
    var i := 0;
    while i < |name|
      invariant 0 <= i <= |name| && forall k :: 0 <= k < i ==> name[k] == row[2 + k]
    {
      if name[i] != row[2 + i] {
        ComparePart(name, row, i);
        return if name[i] < row[2 + i] then -1 else 1;
      }
      i := i + 1;
    }
    ComparePart(name, row, i);
    crc := if row[2 + |name|] == 0 then 0 else -1;
  }

  /** strcmp() of a name and a row. */
  method CompareString(name: seq<byte>, row: seq<byte>) returns (c: int)
    requires NoZero(name) && RowOk(row)
    ensures c == Compare(name, CString(row[2..]))
  {
    var i := 0;
    while true
      invariant 0 <= i <= |name| && i + 2 < |row| && forall k :: 0 <= k < i ==> name[k] == row[2 + k]
      decreases |name| - i
    {
      ComparePart(name, row, i);
      var c1 := if i < |name| then name[i] else 0;
      var c2 := row[2 + i];
      if c1 != c2 { return if c1 < c2 then -1 else 1; }
      if c1 == 0 { return 0; }
      ComparePart(name, row, i + 1);
      i := i + 1;
    }
  }

  class NameTable {
    const entrySize: nat
    const rows: array<seq<byte>>
    var namesFound: nat

    constructor (entrySize: nat, count: nat)
      requires entrySize >= 3
      ensures Valid() && Entries() == [] && fresh(rows)
      ensures this.entrySize == entrySize && rows.Length == count
    {
      this.entrySize := entrySize;
      rows := new seq<byte>[count](_ => seq(entrySize, _ => 0));
      namesFound := 0;
    }

    ghost predicate Rows()
      reads this, rows
    {
      && entrySize >= 3
      && namesFound <= rows.Length
      && (forall i :: 0 <= i < rows.Length ==> |rows[i]| == entrySize)
      && (forall i :: 0 <= i < namesFound ==> RowOk(rows[i]))
    }

    ghost function Entries(): (es: seq<Entry>)
      requires Rows()
      reads this, rows
      ensures |es| == namesFound && forall i :: 0 <= i < namesFound ==> es[i] == RowEntry(rows[i])
    {
      seq(namesFound, i requires 0 <= i < namesFound && Rows() reads this, rows => RowEntry(rows[i]))
    }

    ghost predicate Valid()
      reads this, rows
    {
      Rows() && Sorted(Entries())
    }

    /** Looks for the place of a new name, for a duplicate of it on the way, and for the error of a
        name that stands for two numbers. */
    method FindPlace(name: seq<byte>, number: nat, dupnames: bool) returns (outcome: Outcome, slot: nat, dupname: bool)
      requires Valid() && NoZero(name) && |name| + 3 <= entrySize
      ensures outcome == ERR43 <==> Verdict(Entries(), Entry(number, name), dupnames) == ERR43
      ensures outcome == ERR43 || outcome == Accepted
      ensures outcome == Accepted ==> slot == Place(Entries(), name) && (dupname <==> HasName(Entries(), name))
    {
      hide Compare, CString, Verdict, HasName, Sorted, Place, RowOk;
      ghost var es := Entries();
      PlaceSplits(es, name);
      dupname, slot := false, 0;
      while slot < namesFound
        invariant slot <= Place(es, name) <= namesFound
        invariant Looked(es, Entry(number, name), dupnames, slot, dupname)
      {
        var crc := CompareName(name, rows[slot]);
        assert crc == Compare(name, es[slot].name);
        CompareEqual(name, es[slot].name);
        if crc == 0 {
          if Get(rows[slot], 0) != number && !dupnames {
            TwoNumbers(es, Entry(number, name), slot);
            return ERR43, slot, dupname;
          }
          dupname := true;
        }
        if crc < 0 { break; }
        slot := slot + 1;
      }
      outcome := Accepted;
      LookedAll(es, Entry(number, name), dupnames, slot, dupname);
    }

    /** memmove() of the rows from slot on to the next higher place. */
    method MakeSpace(slot: nat)
      requires Rows() && slot <= namesFound < rows.Length
      modifies rows
      ensures forall i :: 0 <= i < rows.Length && !(slot < i <= namesFound) ==> rows[i] == old(rows[i])
      ensures forall i :: slot < i <= namesFound ==> rows[i] == old(rows[i - 1])
      ensures forall i :: 0 <= i < rows.Length ==> |rows[i]| == entrySize
    {
      var k := namesFound;
      while k > slot
        invariant slot <= k <= namesFound
        invariant forall i :: 0 <= i < rows.Length ==> |rows[i]| == entrySize
        invariant forall i :: 0 <= i < rows.Length && !(k < i <= namesFound) ==> rows[i] == old(rows[i])
        invariant forall i :: k < i <= namesFound ==> rows[i] == old(rows[i - 1])
      {
        rows[k] := rows[k - 1];
        k := k - 1;
      }
    }

    /** Whether any row but the one at slot has the number. */
    method NumberTaken(slot: nat, number: nat, ghost es: seq<Entry>) returns (taken: bool)
      requires slot <= namesFound < rows.Length && |es| == namesFound
      requires forall i :: 0 <= i < rows.Length ==> |rows[i]| == entrySize && entrySize >= 3
      requires forall i: nat :: i < slot ==> Get(rows[i], 0) == es[i].number
      requires forall i: nat :: slot < i <= namesFound ==> Get(rows[i], 0) == es[i - 1].number
      ensures taken <==> exists f :: f in es && f.number == number
    {
      var i, cslot := 0, 0;
      while i < namesFound
        invariant 0 <= i <= namesFound && cslot == (if i < slot then i else if cslot == slot then i else i + 1)
        invariant cslot <= slot ==> i == cslot
        invariant forall j: nat :: j < i ==> es[j].number != number
        decreases namesFound + 1 - cslot
      {
        if cslot != slot {
          if Get(rows[cslot], 0) == number {
            assert es[i] in es;
            return true;
          }
        } else {
          i := i - 1;
        }
        i := i + 1;
        cslot := cslot + 1;
      }
      taken := false;
    }

    /** Adds a name to the table, in its place. */
    method Insert(name: seq<byte>, number: nat, dupnames: bool) returns (outcome: Outcome)
      requires Valid() && NoZero(name) && |name| + 3 <= entrySize && number < 0x10000 && namesFound < rows.Length
      modifies this`namesFound, rows
      ensures var e := Entry(number, name);
              && outcome == Verdict(old(Entries()), e, dupnames)
              && (outcome == Accepted ==> Valid() && Entries() == Inserted(old(Entries()), e, Place(old(Entries()), name)))
    {
      hide Compare, CString, Sorted, Place, RowOk, Verdict, HasName, Inserted;
      ghost var es, e := Entries(), Entry(number, name);
      var slot: nat, dupname: bool;
      outcome, slot, dupname := FindPlace(name, number, dupnames);
      if outcome == ERR43 { return; }
      MakeSpace(slot);
      if !dupname {
        RowNumbers(old(rows[..]), rows[..], es, slot, namesFound);
        var taken := NumberTaken(slot, number, es);
        TakenVerdict(es, e, dupnames, taken);
        if taken { return ERR65; }
      } else {
        DuplicateVerdict(es, e, dupnames);
      }
      WriteRow(name, number, slot, es);
      InsertedSorted(es, e);
    }

    /** Fills in the row at slot, after space has been made for it. */
    method WriteRow(name: seq<byte>, number: nat, slot: nat, ghost es: seq<Entry>)
      requires NoZero(name) && 3 <= |name| + 3 <= entrySize && number < 0x10000
      requires slot <= namesFound < rows.Length && |es| == namesFound
      requires forall i :: 0 <= i < rows.Length ==> |rows[i]| == entrySize
      requires forall i :: 0 <= i < slot ==> RowOk(rows[i]) && RowEntry(rows[i]) == es[i]
      requires forall i :: slot < i <= namesFound ==> RowOk(rows[i]) && RowEntry(rows[i]) == es[i - 1]
      modifies this`namesFound, rows
      ensures Rows() && Entries() == Inserted(es, Entry(number, name), slot)
    {
      hide CString, RowOk;
      var row := rows[slot];
      rows[slot] := [number / 256, number % 256] + name + [0] + row[3 + |name|..];
      RowWritten(name, number, row);
      namesFound := namesFound + 1;
      ghost var e := Entry(number, name);
      forall i | 0 <= i < namesFound ensures RowOk(rows[i]) && RowEntry(rows[i]) == Inserted(es, e, slot)[i] {
      }
      assert Entries() == Inserted(es, e, slot);
    }

    /** Binary search. */
    method GetStringNumber(name: seq<byte>) returns (rc: int)
      requires Valid() && NoZero(name)
      ensures rc == -7 || exists e :: e in Entries() && e.name == name && e.number == rc
      ensures rc == -7 <==> !HasName(Entries(), name)
    {
      var found, entry := Search(name);
      if !found { return PCRE_ERROR_NOSUBSTRING; }
      assert Entries()[entry] in Entries();
      rc := Get(rows[entry], 0);
    }

    /** The search itself, as it is made both for a number and for the run of a name. */
    method Search(name: seq<byte>) returns (found: bool, entry: nat)
      requires Valid() && NoZero(name)
      ensures found <==> HasName(Entries(), name)
      ensures found ==> entry < namesFound && Entries()[entry].name == name
    {
      hide Compare, CString, RowOk;
      ghost var es := Entries();
      var bot, top := 0, namesFound;
      found, entry := false, 0;
      while top > bot
        invariant 0 <= bot <= top <= namesFound
        invariant forall i: nat :: i < bot ==> Compare(name, es[i].name) > 0
        invariant forall i: nat :: top <= i < namesFound ==> Compare(name, es[i].name) < 0
      {
        var mid: nat := (top + bot) / 2;
        var c := CompareString(name, rows[mid]);
        assert c == Compare(name, es[mid].name);
        CompareEqual(name, es[mid].name);
        if c == 0 {
          assert es[mid] in es;
          return true, mid;
        }
        if c > 0 {
          Beyond(es, name, mid);
          bot := mid + 1;
        } else {
          AllBelow(es, name, mid);
          top := mid;
        }
      }
      forall i: nat | i < |es| ensures es[i].name != name {
        CompareEqual(name, es[i].name);
      }
    }

    /** Widens the entry that the search finds to the whole run of its name. */
    method GetStringtableEntries(name: seq<byte>) returns (rc: int, first: nat, last: nat)
      requires Valid() && NoZero(name)
      ensures rc == -7 || rc == entrySize
      ensures rc == -7 <==> !HasName(Entries(), name)
      ensures rc == entrySize ==> first <= last < namesFound
      ensures rc == entrySize ==> forall i: nat :: i < namesFound ==> (Entries()[i].name == name <==> first <= i <= last)
    {
      hide Compare, CString, RowOk, Sorted;
      ghost var es := Entries();
      first, last := 0, 0;
      var found, entry := Search(name);
      if !found { return PCRE_ERROR_NOSUBSTRING, first, last; }
      first, last := entry, entry;
      while first > 0
        invariant first <= entry && forall i: nat :: first <= i <= entry ==> es[i].name == name
        invariant first < namesFound
      {
        var c := CompareString(name, rows[first - 1]);
        CompareEqual(name, es[first - 1].name);
        if c != 0 { break; }
        first := first - 1;
      }
      while last < namesFound - 1
        invariant entry <= last < namesFound && forall i: nat :: entry <= i <= last ==> es[i].name == name
      {
        var c := CompareString(name, rows[last + 1]);
        CompareEqual(name, es[last + 1].name);
        if c != 0 { break; }
        last := last + 1;
      }
      WholeRun(es, first, last);
      rc := entrySize;
    }

    /** The number of the first group of a name that is set, or of the first one if none is set. */
    method GetFirstSet(name: seq<byte>, dupnames: bool, ovector: array<int>) returns (rc: int)
      requires Valid() && NoZero(name)
      requires forall e :: e in Entries() ==> 2 * e.number < ovector.Length
      ensures rc == -7 <==> !HasName(Entries(), name)
      ensures rc != -7 ==> exists e :: e in Entries() && e.name == name && e.number == rc
      ensures rc != -7 && dupnames ==>
                exists k: nat :: Chosen(Entries(), name, ovector[..], k) && Entries()[k].number == rc
    {
      hide Compare, CString, RowOk, Sorted;
      if !dupnames {
        rc := GetStringNumber(name);
        return;
      }
      var first: nat, last: nat;
      rc, first, last := GetStringtableEntries(name);
      if rc <= 0 { return; }
      rc := FirstOfRun(name, first, last, ovector);
    }

    /** Goes through the run of a name. */
    method FirstOfRun(name: seq<byte>, first: nat, last: nat, ovector: array<int>) returns (rc: int)
      requires Rows() && first <= last < namesFound
      requires forall i: nat :: i < namesFound ==> (Entries()[i].name == name <==> first <= i <= last)
      requires forall e :: e in Entries() ==> 2 * e.number < ovector.Length
      ensures rc >= 0 && exists k: nat :: Chosen(Entries(), name, ovector[..], k) && Entries()[k].number == rc
    {
      hide CString, RowOk;
      ghost var es := Entries();
      var entry := first;
      while entry <= last
        invariant first <= entry <= last + 1
        invariant forall i: nat :: first <= i < entry ==> !StartSet(ovector[..], es[i].number)
      {
        assert es[entry] in es;
        var n := Get(rows[entry], 0);
        if ovector[2 * n] >= 0 {
          assert Chosen(es, name, ovector[..], entry);
          return n;
        }
        entry := entry + 1;
      }
      assert Chosen(es, name, ovector[..], first);
      return Get(rows[first], 0);
    }

    /** The test of a condition on a group that was referred to by name: when the group itself is not
        set, the other groups of the name are tested, going down and up from the first row that has the
        number. */
    method NameCondition(refno: nat, offsetTop: nat, ov: seq<int>) returns (condition: bool)
      requires Valid() && offsetTop <= |ov|
      ensures condition <==> Condition(Entries(), refno, offsetTop, ov)
    {
      hide Compare, CString, RowOk;
      ghost var es := Entries();
      condition := 2 * refno < offsetTop && ov[2 * refno] >= 0;
      if condition { return; }
      var i := 0;
      while i < namesFound
        invariant i <= namesFound && forall j: nat :: j < i ==> es[j].number != refno
      {
        if Get(rows[i], 0) == refno { break; }
        i := i + 1;
      }
      if i >= namesFound { return; }
      condition := ScanRun(i, offsetTop, ov);
      assert FirstNumbered(es, refno, i);
    }

    /** Whether any entry with the name of the one at slot stands for a group that is set. */
    method ScanRun(slot: nat, offsetTop: nat, ov: seq<int>) returns (condition: bool)
      requires Valid() && offsetTop <= |ov| && slot < namesFound && !IsSet(ov, offsetTop, Entries()[slot].number)
      ensures condition <==> exists j: nat :: j < namesFound && Entries()[j].name == Entries()[slot].name
                                              && IsSet(ov, offsetTop, Entries()[j].number)
    {
      hide Compare, CString, RowOk, Sorted;
      ghost var es := Entries();
      var name := CString(rows[slot][2..]);
      NameHasNoZero(rows[slot][2..]);
      var slotB := slot;
      while slotB > 0
        invariant slotB <= slot
        invariant forall j: nat :: slotB <= j <= slot ==> es[j].name == name && !IsSet(ov, offsetTop, es[j].number)
      {
        slotB := slotB - 1;
        var c := CompareString(name, rows[slotB]);
        CompareEqual(name, es[slotB].name);
        if c != 0 { slotB := slotB + 1; break; }
        var offset := 2 * Get(rows[slotB], 0);
        if offset < offsetTop && ov[offset] >= 0 { return true; }
      }
      ghost var first := slotB;
      slotB := slot;
      var i := slot + 1;
      while i < namesFound
        invariant slot < i <= namesFound && slotB == i - 1
        invariant forall j: nat :: slot <= j < i ==> es[j].name == name && !IsSet(ov, offsetTop, es[j].number)
      {
        slotB := slotB + 1;
        var c := CompareString(name, rows[slotB]);
        CompareEqual(name, es[slotB].name);
        if c != 0 { break; }
        var offset := 2 * Get(rows[slotB], 0);
        if offset < offsetTop && ov[offset] >= 0 { return true; }
        i := i + 1;
      }
      WholeRun(es, first, i - 1);
      condition := false;
    }
  }

  predicate StartSet(ov: seq<int>, number: nat) {
    2 * number < |ov| && ov[2 * number] >= 0
  }

  /** k is the first entry of the name whose group is set, or the first entry of the name when no group of
      the name is set. */
  ghost predicate Chosen(es: seq<Entry>, name: seq<byte>, ov: seq<int>, k: nat) {
    && k < |es| && es[k].name == name
    && (forall i: nat :: i < k && es[i].name == name ==> !StartSet(ov, es[i].number))
    && (!StartSet(ov, es[k].number) ==>
          && (forall i: nat :: i < |es| && es[i].name == name ==> !StartSet(ov, es[i].number))
          && (forall i: nat :: i < k ==> es[i].name != name))
  }

  predicate IsSet(ov: seq<int>, offsetTop: nat, number: nat)
    requires offsetTop <= |ov|
  {
    2 * number < offsetTop && ov[2 * number] >= 0
  }

  /** The condition holds when the group is set, or another group with the name of the first entry that
      has its number. */
  ghost predicate Condition(es: seq<Entry>, refno: nat, offsetTop: nat, ov: seq<int>)
    requires offsetTop <= |ov|
  {
    || IsSet(ov, offsetTop, refno)
    || (exists k: nat, j: nat :: FirstNumbered(es, refno, k) && j < |es| && es[j].name == es[k].name
                                 && IsSet(ov, offsetTop, es[j].number))
  }

  /** When a number has only one name, a condition on a name tests all the groups of that name. */
  lemma ConditionOnName(es: seq<Entry>, e: Entry, offsetTop: nat, ov: seq<int>)
    requires offsetTop <= |ov| && OneName(es) && e in es
    ensures Condition(es, e.number, offsetTop, ov) <==> exists f :: f in es && f.name == e.name && IsSet(ov, offsetTop, f.number)
  {
    var i: nat :| i < |es| && es[i] == e;
    var k := FirstWith(es, e.number, i);
    assert es[k] in es;
    if f :| f in es && f.name == e.name && IsSet(ov, offsetTop, f.number) {
      var j: nat :| j < |es| && es[j] == f;
      assert FirstNumbered(es, e.number, k) && es[j].name == es[k].name;
    }
    if k': nat, j: nat :| FirstNumbered(es, e.number, k') && j < |es| && es[j].name == es[k'].name && IsSet(ov, offsetTop, es[j].number) {
      assert es[k'] in es && es[j] in es;
    }
  }

  lemma {:induction false} FirstWith(es: seq<Entry>, number: nat, i: nat) returns (k: nat)
    requires i < |es| && es[i].number == number
    ensures FirstNumbered(es, number, k)
    decreases i
  {
    if j: nat :| j < i && es[j].number == number {
      k := FirstWith(es, number, j);
    } else {
      k := i;
    }
  }

  /** k is the first entry with the number. */
  ghost predicate FirstNumbered(es: seq<Entry>, number: nat, k: nat) {
    k < |es| && es[k].number == number && forall j: nat :: j < k ==> es[j].number != number
  }

  lemma {:induction false} NameHasNoZero(s: seq<byte>)
    ensures NoZero(CString(s))
  {
    if s != [] && s[0] != 0 {
      NameHasNoZero(s[1..]);
      forall k | 0 <= k < |CString(s)| ensures CString(s)[k] != 0 {
        if k > 0 { assert CString(s)[k] == CString(s[1..])[k - 1]; }
      }
    }
  }

  lemma Beyond(es: seq<Entry>, name: seq<byte>, mid: nat)
    requires Sorted(es) && mid < |es| && Compare(name, es[mid].name) > 0
    ensures forall i: nat :: i <= mid ==> Compare(name, es[i].name) > 0
  {
    forall i: nat | i <= mid ensures Compare(name, es[i].name) > 0 {
      CompareEqual(name, es[mid].name);
      CompareEqual(name, es[i].name);
      if i < mid { CompareTrans(es[i].name, es[mid].name, name); }
    }
  }

  lemma AllBelow(es: seq<Entry>, name: seq<byte>, mid: nat)
    requires Sorted(es) && mid < |es| && Compare(name, es[mid].name) < 0
    ensures forall i: nat :: mid <= i < |es| ==> Compare(name, es[i].name) < 0
  {
    forall i: nat | mid <= i < |es| ensures Compare(name, es[i].name) < 0 {
      if mid < i { CompareTrans(name, es[mid].name, es[i].name); }
    }
  }

  lemma RowNumbers(before: seq<seq<byte>>, after: seq<seq<byte>>, es: seq<Entry>, slot: nat, n: nat)
    requires slot <= n < |before| == |after| && |es| == n
    requires forall i :: 0 <= i < n ==> RowOk(before[i]) && es[i] == RowEntry(before[i])
    requires forall i :: 0 <= i < |before| && !(slot < i <= n) ==> after[i] == before[i]
    requires forall i :: slot < i <= n ==> after[i] == before[i - 1]
    ensures forall i: nat :: i < slot ==> |after[i]| >= 3 && Get(after[i], 0) == es[i].number
    ensures forall i: nat :: slot < i <= n ==> |after[i]| >= 3 && Get(after[i], 0) == es[i - 1].number
  {
  }

  lemma TakenVerdict(es: seq<Entry>, e: Entry, dupnames: bool, taken: bool)
    requires Verdict(es, e, dupnames) != ERR43 && !HasName(es, e.name)
    requires taken <==> exists f :: f in es && f.number == e.number
    ensures Verdict(es, e, dupnames) == if taken then ERR65 else Accepted
  {
  }

  lemma DuplicateVerdict(es: seq<Entry>, e: Entry, dupnames: bool)
    requires Verdict(es, e, dupnames) != ERR43 && HasName(es, e.name)
    ensures Verdict(es, e, dupnames) == Accepted
  {
  }

  lemma RowWritten(name: seq<byte>, number: nat, row: seq<byte>)
    requires NoZero(name) && |name| + 3 <= |row| && number < 0x10000
    ensures var r := [number / 256, number % 256] + name + [0] + row[3 + |name|..];
            |r| == |row| && RowOk(r) && RowEntry(r) == Entry(number, name)
  {
    var r: seq<byte> := [number / 256, number % 256] + name + [0] + row[3 + |name|..];
    assert r[2..] == name + ([0] + row[3 + |name|..]);
    CStringOf(name, [0] + row[3 + |name|..]);
    assert CString([0] + row[3 + |name|..]) == [];
  }

  /** The entries before slot have been compared with a new entry. */
  ghost predicate Looked(es: seq<Entry>, e: Entry, dupnames: bool, slot: nat, dupname: bool) {
    && slot <= |es|
    && (dupname <==> exists j: nat :: j < slot && es[j].name == e.name)
    && (forall j: nat :: j < slot && es[j].name == e.name ==> es[j].number == e.number || dupnames)
  }

  lemma TwoNumbers(es: seq<Entry>, e: Entry, slot: nat)
    requires slot < |es| && es[slot].name == e.name && es[slot].number != e.number
    ensures Verdict(es, e, false) == ERR43
  {
    assert es[slot] in es;
  }

  lemma LookedAll(es: seq<Entry>, e: Entry, dupnames: bool, slot: nat, dupname: bool)
    requires Looked(es, e, dupnames, slot, dupname)
    requires forall j: nat :: slot <= j < |es| ==> Compare(e.name, es[j].name) < 0
    ensures Verdict(es, e, dupnames) != ERR43
    ensures dupname <==> HasName(es, e.name)
  {
    hide Compare;
    forall j: nat | slot <= j < |es| ensures es[j].name != e.name {
      CompareEqual(e.name, es[j].name);
    }
    if dupname {
      var j: nat :| j < slot && es[j].name == e.name;
      assert es[j] in es;
    }
  }
}

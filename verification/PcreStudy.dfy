/** pcre_study(): the facts that studying a pattern adds, and that they hold of every match. */
module PcreStudy {
  import opened Common
  import opened ByteCode
  import opened Meaning
  import opened Lengths
  import opened Backtracking
  import opened MatchSteps
  import opened DfaSteps
  import opened DfaMeaning
  import opened FullCode
  import opened Study
  import opened StartBits
  import opened Exec

  /** The facts hold for every subject that the pattern is matched against with these tables. */
  ghost predicate HoldsAlways(f: Facts, tb: Tables, caseless: bool, g: Group) {
    forall s: seq<byte> :: FactsSound(f, Context(s, tb, caseless), g)
  }

  lemma FactsFor(f: Facts, tb: Tables, caseless: bool, g: Group, text: seq<byte>)
    requires HoldsAlways(f, tb, caseless, g)
    ensures FactsSound(f, Context(text, tb, caseless), g)
  {
  }

  lemma LengthIsSound(c: Context, g: Group)
    ensures LengthSound(c, g, MinAlts(g.alts))
  {
    forall i: nat, j: nat | i <= |c.s| && DGroup(c, g, i, j) ensures j >= i + MinAlts(g.alts) {
      MinGroupBound(c, g, i, j);
    }
  }

  /** A scan that ends with SSB_DONE has a bit for the first byte of every match. */
  lemma MapIsSound(c: Context, g: Group, bits: seq<bv8>, blank: seq<bv8>)
    requires c.Valid() && ScannableGroup(g, c.caseless) && Reports(GroupStarts(c.tb, c.caseless, g), SSB_DONE, blank, bits)
    ensures MapSound(c, g, bits)
  {
    forall i: nat, j: nat | i <= |c.s| && DGroup(c, g, i, j) ensures i < |c.s| && Has(bits, c.s[i]) {
      EmbeddedMeans(c, false, g, i, j);
      GroupScannable(g, c.caseless);
      BracketBegins(c, EmbedGroup(g), i, j);
    }
  }

  /** Adds the least length of a match to what compilation found out, and the map of first bytes when
      the pattern is not anchored, has no known first byte and is not tied to the starts of lines. */
  method PcreStudy(code: seq<byte>, tb: Tables, cbits: seq<bv8>, caseless: bool, anchored: bool, f0: Facts, ghost g: Group)
    returns (f: Facts)
    requires AtPattern(code, g, caseless) && ScannableGroup(g, caseless) && TablesAgree(tb, cbits)
    requires f0.startBits.None? && f0.minLength.None? && HoldsAlways(f0, tb, caseless, g)
    ensures HoldsAlways(f, tb, caseless, g)
    ensures f.minLength == Some(MinAlts(g.alts))
    ensures f.startBits.Some? <==>
              !anchored && f0.firstByte.None? && !f0.startline
              && GroupStarts(tb, caseless, g).Found? && GroupStarts(tb, caseless, g).must
    ensures f.startBits.Some? ==>
              |f.startBits.value| == 32
              && forall ch: byte :: Has(f.startBits.value, ch) <==> ch in GroupStarts(tb, caseless, g).bytes
    ensures f == f0.(startBits := f.startBits, minLength := f.minLength)
  {
    hide AtPattern, FactsSound, TablesAgree, GroupStarts, BodyStarts, BracketStarts, AtBracket, DGroup;
    PatternHere(code, g, caseless);
    GroupEmbeds(code, 0, g, caseless);
    AltsMin(g.alts);
    TablesValid(tb, cbits);
    BodyOfGroup(tb, caseless, g);
    GroupScannable(g, caseless);
    f := f0;
    if !anchored && f0.firstByte.None? && !f0.startline {
      var startBits := new bv8[32](_ => 0);
      ghost var blank := startBits[..];
      var result := SetStartBits(code, 0, startBits, tb, cbits, caseless, EmbedGroup(g));
      if result == SSB_DONE {
        f := f.(startBits := Some(startBits[..]));
        BlankAdded(blank, startBits[..], GroupStarts(tb, caseless, g).bytes);
        forall s: seq<byte> ensures MapSound(Context(s, tb, caseless), g, startBits[..]) {
          MapIsSound(Context(s, tb, caseless), g, startBits[..], blank);
        }
      }
    }
    var min := FindMinlength(code, 0, EmbedGroup(g), caseless);
    f := f.(minLength := Some(min));
    StudyAdds(f0, f, tb, caseless, g);
  }

  lemma BlankAdded(blank: seq<bv8>, bits: seq<bv8>, bytes: iset<byte>)
    requires Added(blank, bits, bytes) && forall k :: 0 <= k < 32 ==> blank[k] == 0
    ensures |bits| == 32 && forall ch: byte :: Has(bits, ch) <==> ch in bytes
  {
    forall ch: byte ensures !Has(blank, ch) {
      OrBit(0, 0, ch % 8);
    }
  }

  lemma StudyAdds(f0: Facts, f: Facts, tb: Tables, caseless: bool, g: Group)
    requires HoldsAlways(f0, tb, caseless, g) && f0.startBits.None?
    requires f == f0.(startBits := f.startBits, minLength := Some(MinAlts(g.alts)))
    requires f.startBits.Some? ==> forall s: seq<byte> :: MapSound(Context(s, tb, caseless), g, f.startBits.value)
    ensures HoldsAlways(f, tb, caseless, g)
  {
    forall s: seq<byte> ensures FactsSound(f, Context(s, tb, caseless), g) {
      assert FactsSound(f0, Context(s, tb, caseless), g);
      LengthIsSound(Context(s, tb, caseless), g);
    }
  }

  lemma TablesValid(tb: Tables, cbits: seq<bv8>)
    requires TablesAgree(tb, cbits)
    ensures CaseConsistent(tb) && tb.Valid()
  {
  }

  lemma PatternHere(code: seq<byte>, g: Group, caseless: bool)
    requires AtPattern(code, g, caseless)
    ensures AtGroup(code, 0, g, caseless)
  {
    PatternItems(code, g, caseless);
  }
}

/**
 * Worked parses. Two inputs that differ by one space: a region name written
 * flush against "{" in the first group is dropped, because the end test of
 * the region loop (GFW.cxx:198) compares a position in the group text with a
 * position in the whole string; with a space before "{" the name is kept.
 * Then a group with an overlap region and a pinned bin, and a string with no
 * "{" at all.
 */
module ParserCases {
  import opened Optional
  import opened GfwStrings
  import opened GfwTypes
  import opened Parser

  /** A string with no separator to normalise is left as it is. */
  lemma NormalizeUnchanged(s: string)
    requires ',' !in s && ';' !in s
    requires forall k :: 0 <= k < |s| - 1 ==>
      !(s[k] == ' ' && s[k + 1] == ' ') && !(s[k] == '|' && s[k + 1] == ' ') && !(s[k] == ' ' && s[k + 1] == '(')
    ensures Normalize(s) == s
  {
    AbsentPattern(s, ",", ',');
    AbsentPattern(s, ";", ';');
    forall k | 0 <= k <= |s|
      ensures !MatchAt(s, "  ", k) && !MatchAt(s, "| ", k) && !MatchAt(s, " (", k)
    {
      if k + 2 <= |s| {
        assert s[k..k + 2] == [s[k], s[k + 1]];
      }
    }
  }

  /** The tokens of "2 -2". */
  lemma TokensTwoMinusTwo()
    ensures Tokenize("2 -2", 0, " ") == Token(true, "2", 2)
    ensures Tokenize("2 -2", 2, " ") == Token(true, "-2", 5)
    ensures Tokenize("2 -2", 5, " ") == Token(false, "", -1)
  {
    assert "2 -2"[0..1] == "2";
    IndexOfChar("2 -2", ' ', 0, 1);
    assert Index("2 -2", " ", 2) == -1 by {
      forall k | 2 <= k <= 4 ensures !MatchAt("2 -2", " ", k) {
        if k < 4 {
          assert "2 -2"[k..k + 1] == [("2 -2")[k]];
        }
      }
    }
  }

  /** The harmonic list "2 -2" reads as [2, -2]. */
  lemma HarmonicsTwoMinusTwo()
    ensures ParseHars("2 -2", 0, []) == Some([2, -2])
  {
    TokensTwoMinusTwo();
    StoiRoundTrip(2);
    StoiRoundTrip(-2);
    assert IntToString(2) == "2";
    assert IntToString(-2) == "-2";
    assert ParseHars("2 -2", 5, [2, -2]) == Some([2, -2]);
    assert [2] + [-2] == [2, -2];
    assert [] + [2] == [2];
    assert ParseHars("2 -2", 2, [2]) == ParseHars("2 -2", 5, [2] + [-2]);
    assert ParseHars("2 -2", 0, []) == ParseHars("2 -2", 2, [] + [2]);
  }

  /** The first group closed on the default config. */
  lemma CloseFirstGroup(regs: seq<int>, ovl: int, hars: seq<int>, ptbin: int)
    ensures CloseGroup(OpenGroup(DefaultConfig), (regs, ovl), hars, ptbin)
         == CorrConfig([regs], [hars], [ovl], [ptbin], false, "")
  {
    assert ([] + [[]])[0 := regs] == [regs];
    assert ([] + [[]])[0 := hars] == [hars];
    assert ([] + [-1])[0 := ovl] == [ovl];
  }

  /** One turn of the group loop: the group read from position szend is closed, and the loop goes on after its "}". */
  lemma NextGroup(regions: seq<Region>, s: string, szend: int, cfg: CorrConfig, head: string, ptdif: bool,
                  group: Token, config1: string, ts: string, szend1: int, ptbin: int,
                  regs: seq<int>, ovl: int, hs: Token, hars: seq<int>)
    requires |cfg.Regs| == |cfg.Hars| == |cfg.Overlap|
    requires group.ok && Tokenize(s, szend, "{") == group
    requires GroupHeader(s, group.subs, group.spos) == Header(ptbin, ts, szend1, config1)
    requires ParseRegions(regions, ts, 0, szend1, [], -1) == (regs, ovl)
    requires Tokenize(config1, szend1, "}") == hs && ParseHars(hs.subs, 0, []) == Some(hars)
    ensures ParseGroups(regions, s, szend, cfg, head, ptdif)
         == ParseGroups(regions, config1, hs.spos, CloseGroup(OpenGroup(cfg), (regs, ovl), hars, ptbin), head, ptdif)
  { }

  /**
   * A normalised string holding one group: the parse is that group closed on
   * the default config, with the label and flag copied.
   */
  lemma OneGroupConfig(regions: seq<Region>, s: string, head: string, ptdif: bool,
                       group: Token, config1: string, ts: string, szend1: int, ptbin: int,
                       regs: seq<int>, ovl: int, hs: Token, hars: seq<int>)
    requires Normalize(s) == s && group.ok && Tokenize(s, 0, "{") == group
    requires GroupHeader(s, group.subs, group.spos) == Header(ptbin, ts, szend1, config1)
    requires ParseRegions(regions, ts, 0, szend1, [], -1) == (regs, ovl)
    requires Tokenize(config1, szend1, "}") == hs && ParseHars(hs.subs, 0, []) == Some(hars)
    requires !Tokenize(config1, hs.spos, "{").ok
    ensures ParseConfig(regions, s, head, ptdif)
         == Some(CorrConfig([regs], [hars], [ovl], [ptbin], ptdif, head))
  {
    var next := CloseGroup(OpenGroup(DefaultConfig), (regs, ovl), hars, ptbin);
    CloseFirstGroup(regs, ovl, hars, ptbin);
    assert ParseConfig(regions, s, head, ptdif) == ParseGroups(regions, s, 0, DefaultConfig, head, ptdif);
    NextGroup(regions, s, 0, DefaultConfig, head, ptdif, group, config1, ts, szend1, ptbin, regs, ovl, hs, hars);
    assert ParseGroups(regions, config1, hs.spos, next, head, ptdif) == Some(next.(Head := head, pTDif := ptdif));
  }

  /** "A{2 -2}" needs no normalising. */
  lemma FlushNormal()
    ensures Normalize("A{2 -2}") == "A{2 -2}"
  {
    NormalizeUnchanged("A{2 -2}");
  }

  /** The first group text of "A{2 -2}" is "A" and its harmonics are "2 -2". */
  lemma FlushTokens()
    ensures Tokenize("A{2 -2}", 0, "{") == Token(true, "A", 2)
    ensures Tokenize("A{2 -2}", 2, "}") == Token(true, "2 -2", 7)
  {
    var s := "A{2 -2}";
    IndexOfChar(s, '{', 0, 1);
    IndexOfChar(s, '}', 2, 6);
    assert s[2..6] == "2 -2";
  }

  /**
   * The group text "A" has no bin; its one name token ends at position 2,
   * which is not below the group's end position 2 in the whole string.
   */
  lemma FlushGroup(regions: seq<Region>, config: string)
    requires |regions| == 1 && regions[0].rName == "A"
    ensures GroupHeader(config, "A", 2) == Header(-1, "A", 2, config)
    ensures ParseRegions(regions, "A", 0, 2, [], -1) == ([], -1)
  {
    AbsentPattern("A", "(", '(');
    AbsentPattern("A", " ", ' ');
    assert Tokenize("A", 0, " ") == Token(true, "A", 2);
  }

  /** "A{2 -2}": the group keeps its harmonics but loses its region. */
  lemma FlushNameDropped(regions: seq<Region>)
    requires |regions| == 1 && regions[0].rName == "A"
    ensures ParseConfig(regions, "A{2 -2}", "", false)
         == Some(CorrConfig([[]], [[2, -2]], [-1], [-1], false, ""))
  {
    var s := "A{2 -2}";
    FlushNormal();
    FlushTokens();
    FlushGroup(regions, s);
    HarmonicsTwoMinusTwo();
    OneGroupConfig(regions, s, "", false, Token(true, "A", 2), s, "A", 2, -1, [], -1, Token(true, "2 -2", 7), [2, -2]);
  }

  /** "A {2 -2}" needs no normalising. */
  lemma KeptNormal()
    ensures Normalize("A {2 -2}") == "A {2 -2}"
  {
    NormalizeUnchanged("A {2 -2}");
  }

  /** The group text of "A {2 -2}" is "A " and its harmonics are "2 -2"; no group follows. */
  lemma KeptTokens()
    ensures Tokenize("A {2 -2}", 0, "{") == Token(true, "A ", 3)
    ensures Tokenize("A {2 -2}", 3, "}") == Token(true, "2 -2", 8)
    ensures Tokenize("A {2 -2}", 8, "{") == Token(false, "", -1)
  {
    var s := "A {2 -2}";
    IndexOfChar(s, '{', 0, 2);
    IndexOfChar(s, '}', 3, 7);
    assert s[3..7] == "2 -2";
  }

  /** The name token "A" ends at position 2 of the group text, below the group's end 3: it is kept. */
  lemma KeptGroup(regions: seq<Region>, config: string)
    requires |regions| == 1 && regions[0].rName == "A"
    ensures GroupHeader(config, "A ", 3) == Header(-1, "A ", 3, config)
    ensures ParseRegions(regions, "A ", 0, 3, [], -1) == ([0], -1)
  {
    AbsentPattern("A ", "(", '(');
    AbsentPattern("A", "|", '|');
    IndexOfChar("A ", ' ', 0, 1);
    assert Tokenize("A ", 0, " ") == Token(true, "A", 2);
    assert FindRegionByName(regions, "A") == 0;
    assert [] + [0] == [0];
    assert ParseRegions(regions, "A ", 0, 3, [], -1) == ParseRegions(regions, "A ", 2, 3, [] + [0], -1);
    assert ParseRegions(regions, "A ", 2, 3, [0], -1) == ([0], -1);
  }

  /** "A {2 -2}": with a space before "{", the group keeps its region. */
  lemma SpacedNameKept(regions: seq<Region>)
    requires |regions| == 1 && regions[0].rName == "A"
    ensures ParseConfig(regions, "A {2 -2}", "", false)
         == Some(CorrConfig([[0]], [[2, -2]], [-1], [-1], false, ""))
  {
    var s := "A {2 -2}";
    KeptNormal();
    KeptTokens();
    KeptGroup(regions, s);
    HarmonicsTwoMinusTwo();
    OneGroupConfig(regions, s, "", false, Token(true, "A ", 3), s, "A ", 3, -1, [0], -1, Token(true, "2 -2", 8), [2, -2]);
  }

  /** "A B |A(3) {2 -2}" needs no normalising. */
  lemma PinnedNormal()
    ensures Normalize("A B |A(3) {2 -2}") == "A B |A(3) {2 -2}"
  {
    NormalizeUnchanged("A B |A(3) {2 -2}");
  }

  /** Its group text runs up to "{". */
  lemma PinnedGroupText()
    ensures Tokenize("A B |A(3) {2 -2}", 0, "{") == Token(true, "A B |A(3) ", 11)
  {
    IndexOfChar("A B |A(3) {2 -2}", '{', 0, 10);
  }

  /** In the group text, "(3) " is cut out and the bin 3 is read; the end moves back by 3. */
  lemma PinnedGroupCut()
    ensures Contains("A B |A(3) ", "(")
    ensures CutGroupText("A B |A(3) ") == (Some(3), Some("A B |A"), 3)
  {
    var ts := "A B |A(3) ";
    IndexOfChar(ts, '(', 0, 6);
    IndexOfChar(ts, ')', 7, 8);
    assert Tokenize(ts, 7, ")") == Token(true, "3", 9);
    StoiRoundTrip(3);
    assert IntToString(3) == "3";
    assert ts[..6] + ts[10..] == "A B |A";
  }

  /** In the whole string, "(3)" is cut out. */
  lemma PinnedConfigCut()
    ensures CutConfig("A B |A(3) {2 -2}") == Some("A B |A {2 -2}")
  {
    var config := "A B |A(3) {2 -2}";
    PinnedConfigMarks();
    assert config[..6] + config[9..] == "A B |A {2 -2}";
  }

  /** Its first "(" is at 6 and its first ")" at 8. */
  lemma PinnedConfigMarks()
    ensures Index("A B |A(3) {2 -2}", "(", 0) == 6 && Index("A B |A(3) {2 -2}", ")", 0) == 8
  {
    var config := "A B |A(3) {2 -2}";
    assert config[..8] == "A B |A(3";
    IndexOfChar(config, '(', 0, 6);
    IndexOfChar(config, ')', 0, 8);
  }

  /** The group header: bin 3, the group text "A B |A", which now ends before position 8 of the cut string. */
  lemma PinnedHeader()
    ensures GroupHeader("A B |A(3) {2 -2}", "A B |A(3) ", 11) == Header(3, "A B |A", 8, "A B |A {2 -2}")
  {
    var config, ts := "A B |A(3) {2 -2}", "A B |A(3) ";
    IndexOfChar(ts, ')', 0, 8);
    PinnedCutBin();
    assert Contains(ts, "(") && Contains(ts, ")");
    assert GroupHeader(config, ts, 11) == CutBin(config, ts, 11);
  }

  /** The cut itself, from the two halves above. */
  lemma PinnedCutBin()
    ensures Contains("A B |A(3) ", "(")
    ensures CutBin("A B |A(3) {2 -2}", "A B |A(3) ", 11) == Header(3, "A B |A", 8, "A B |A {2 -2}")
  {
    PinnedGroupCut();
    PinnedConfigCut();
  }

  /** "A B |A" from 0: "A" is appended. */
  lemma PinnedFirstName(regions: seq<Region>)
    requires |regions| == 2 && regions[0].rName == "A" && regions[1].rName == "B"
    ensures ParseRegions(regions, "A B |A", 0, 8, [], -1) == ParseRegions(regions, "A B |A", 2, 8, [0], -1)
  {
    var none: seq<int> := [];
    assert FindRegionByName(regions, "A") == 0;
    WordToken("", "A", "B |A");
    assert "" + "A" + " " + "B |A" == "A B |A";
    NameTokenAppends(regions, "A B |A", 0, 8, none, -1);
    assert none + [0] == [0];
  }

  /** "A B |A" from 2: "B" is appended. */
  lemma PinnedSecondName(regions: seq<Region>)
    requires |regions| == 2 && regions[0].rName == "A" && regions[1].rName == "B"
    ensures ParseRegions(regions, "A B |A", 2, 8, [0], -1) == ParseRegions(regions, "A B |A", 4, 8, [0, 1], -1)
  {
    assert FindRegionByName(regions, "B") == 1;
    WordToken("A ", "B", "|A");
    assert "A " + "B" + " " + "|A" == "A B |A";
    NameTokenAppends(regions, "A B |A", 2, 8, [0], -1);
    assert [0] + [1] == [0, 1];
  }

  /** "A B |A" from 4: "|A" makes A the overlap, and the text ends. */
  lemma PinnedOverlap(regions: seq<Region>)
    requires |regions| == 2 && regions[0].rName == "A" && regions[1].rName == "B"
    ensures ParseRegions(regions, "A B |A", 4, 8, [0, 1], -1) == ([0, 1], 0)
  {
    assert FindRegionByName(regions, "A") == 0;
    LastWordToken("A B ", "|A");
    assert "A B " + "|A" == "A B |A";
    OverlapTokenSets(regions, "A B |A", 4, 8, [0, 1], -1, "A");
  }

  /** "A" and "B" are the group's regions and "|A" makes A its overlap. */
  lemma PinnedRegions(regions: seq<Region>)
    requires |regions| == 2 && regions[0].rName == "A" && regions[1].rName == "B"
    ensures ParseRegions(regions, "A B |A", 0, 8, [], -1) == ([0, 1], 0)
  {
    PinnedFirstName(regions);
    PinnedSecondName(regions);
    PinnedOverlap(regions);
  }

  /** After the cut the harmonics run from position 8 to "}", and no group follows. */
  lemma PinnedHarmonicsText()
    ensures Tokenize("A B |A {2 -2}", 8, "}") == Token(true, "2 -2", 13)
    ensures !Tokenize("A B |A {2 -2}", 13, "{").ok
  {
    IndexOfChar("A B |A {2 -2}", '}', 8, 12);
    assert "A B |A {2 -2}"[8..12] == "2 -2";
  }

  /** "A B |A(3) {2 -2}": regions A and B, harmonics 2 and -2, overlap A, bin 3. */
  lemma OverlapAndPinnedBin(regions: seq<Region>)
    requires |regions| == 2 && regions[0].rName == "A" && regions[1].rName == "B"
    ensures ParseConfig(regions, "A B |A(3) {2 -2}", "", false)
         == Some(CorrConfig([[0, 1]], [[2, -2]], [0], [3], false, ""))
  {
    var s, cut := "A B |A(3) {2 -2}", "A B |A {2 -2}";
    PinnedNormal();
    PinnedGroupText();
    PinnedHeader();
    PinnedRegions(regions);
    PinnedHarmonicsText();
    HarmonicsTwoMinusTwo();
    OneGroupConfig(regions, s, "", false, Token(true, "A B |A(3) ", 11), cut, "A B |A", 8, 3, [0, 1], 0, Token(true, "2 -2", 13), [2, -2]);
  }

  /** "A" has no "{", so the whole of it is the group text, and its one name ends at the group's end. */
  lemma NoBraceTokens()
    ensures Tokenize("A", 0, "{") == Token(true, "A", 2)
    ensures Tokenize("A", 0, " ") == Token(true, "A", 2)
    ensures GroupHeader("A", "A", 2) == Header(-1, "A", 2, "A")
  {
    AbsentPattern("A", "{", '{');
    AbsentPattern("A", "(", '(');
    AbsentPattern("A", " ", ' ');
  }

  /** So the group has no region and, with no "}" to read to, no harmonics. */
  lemma NoBraceGroup(regions: seq<Region>)
    ensures ParseRegions(regions, "A", 0, 2, [], -1) == ([], -1)
    ensures ParseHars(Tokenize("A", 2, "}").subs, 0, []) == Some([])
  {
    NoBraceTokens();
  }

  /**
   * "A": without "{" the whole text is one group with no harmonics; its one
   * name ends at the group's end, so the group has no region either, and the
   * label and flag are copied. Only the empty string gives the default
   * configuration.
   */
  lemma NoBraceOneGroup(regions: seq<Region>)
    ensures ParseConfig(regions, "A", "h", true) == Some(CorrConfig([[]], [[]], [-1], [-1], true, "h"))
  {
    var none: seq<int> := [];
    NormalizeUnchanged("A");
    NoBraceTokens();
    NoBraceGroup(regions);
    OneGroupConfig(regions, "A", "h", true, Token(true, "A", 2), "A", "A", 2, -1, none, -1, Tokenize("A", 2, "}"), none);
  }

  /** "A {2}B{2}" needs no normalising. */
  lemma LaterNormal()
    ensures Normalize("A {2}B{2}") == "A {2}B{2}"
  {
    NormalizeUnchanged("A {2}B{2}");
  }

  /** The two group texts "A " and "B", each with the harmonics "2"; nothing follows. */
  lemma LaterTokens()
    ensures Tokenize("A {2}B{2}", 0, "{") == Token(true, "A ", 3)
    ensures Tokenize("A {2}B{2}", 3, "}") == Token(true, "2", 5)
    ensures Tokenize("A {2}B{2}", 5, "{") == Token(true, "B", 7)
    ensures Tokenize("A {2}B{2}", 7, "}") == Token(true, "2", 9)
    ensures !Tokenize("A {2}B{2}", 9, "{").ok
  {
    var s := "A {2}B{2}";
    assert s[0..2] == "A " && s[3..4] == "2" && s[5..6] == "B" && s[7..8] == "2";
    IndexOfChar(s, '{', 0, 2);
    IndexOfChar(s, '}', 3, 4);
    IndexOfChar(s, '{', 5, 6);
    IndexOfChar(s, '}', 7, 8);
  }

  /** The harmonic list "2" reads as [2]. */
  lemma HarmonicsTwo()
    ensures ParseHars("2", 0, []) == Some([2])
  {
    var none: seq<int> := [];
    AbsentPattern("2", " ", ' ');
    assert Tokenize("2", 0, " ") == Token(true, "2", 2);
    StoiRoundTrip(2);
    assert IntToString(2) == "2";
    assert none + [2] == [2];
    assert ParseHars("2", 0, none) == ParseHars("2", 2, none + [2]);
  }

  /** The first group: "A " has no bin and reads as region 0. */
  lemma LaterFirstGroup(regions: seq<Region>)
    requires |regions| == 2 && regions[0].rName == "A" && regions[1].rName == "B"
    ensures GroupHeader("A {2}B{2}", "A ", 3) == Header(-1, "A ", 3, "A {2}B{2}")
    ensures ParseRegions(regions, "A ", 0, 3, [], -1) == ([0], -1)
  {
    var none: seq<int> := [];
    AbsentPattern("A ", "(", '(');
    AbsentPattern("A", "|", '|');
    assert "A "[0..1] == "A";
    IndexOfChar("A ", ' ', 0, 1);
    assert Tokenize("A ", 0, " ") == Token(true, "A", 2);
    assert FindRegionByName(regions, "A") == 0;
    assert none + [0] == [0];
    assert ParseRegions(regions, "A ", 0, 3, none, -1) == ParseRegions(regions, "A ", 2, 3, none + [0], -1);
  }

  /**
   * The second group: "B" is flush against "{", but its token ends at
   * position 2 of the group text, below the group's end 7 in the whole
   * string, so it is kept.
   */
  lemma LaterSecondGroup(regions: seq<Region>)
    requires |regions| == 2 && regions[0].rName == "A" && regions[1].rName == "B"
    ensures GroupHeader("A {2}B{2}", "B", 7) == Header(-1, "B", 7, "A {2}B{2}")
    ensures ParseRegions(regions, "B", 0, 7, [], -1) == ([1], -1)
  {
    var none: seq<int> := [];
    AbsentPattern("B", "(", '(');
    AbsentPattern("B", "|", '|');
    AbsentPattern("B", " ", ' ');
    assert Tokenize("B", 0, " ") == Token(true, "B", 2);
    assert FindRegionByName(regions, "B") == 1;
    assert none + [1] == [1];
    assert ParseRegions(regions, "B", 0, 7, none, -1) == ParseRegions(regions, "B", 2, 7, none + [1], -1);
  }

  /** Both groups closed on the default config. */
  lemma CloseTwoGroups()
    ensures var first := CloseGroup(OpenGroup(DefaultConfig), ([0], -1), [2], -1);
      first == CorrConfig([[0]], [[2]], [-1], [-1], false, "")
      && CloseGroup(OpenGroup(first), ([1], -1), [2], -1)
         == CorrConfig([[0], [1]], [[2], [2]], [-1, -1], [-1, -1], false, "")
  {
    CloseFirstGroup([0], -1, [2], -1);
    assert ([[0]] + [[]])[1 := [1]] == [[0], [1]];
    assert ([[2]] + [[]])[1 := [2]] == [[2], [2]];
    assert ([-1] + [-1])[1 := -1] == [-1, -1];
    assert [-1] + [-1] == [-1, -1];
  }

  /**
   * "A {2}B{2}": a name flush against "{" is lost only in the first group.
   * Here the second group's "B" is flush and still read as region 1.
   */
  lemma LaterFlushNameKept(regions: seq<Region>)
    requires |regions| == 2 && regions[0].rName == "A" && regions[1].rName == "B"
    ensures ParseConfig(regions, "A {2}B{2}", "", false)
         == Some(CorrConfig([[0], [1]], [[2], [2]], [-1, -1], [-1, -1], false, ""))
  {
    var s := "A {2}B{2}";
    LaterNormal();
    LaterTokens();
    LaterFirstGroup(regions);
    LaterSecondGroup(regions);
    HarmonicsTwo();
    CloseTwoGroups();
    var first := CloseGroup(OpenGroup(DefaultConfig), ([0], -1), [2], -1);
    var second := CloseGroup(OpenGroup(first), ([1], -1), [2], -1);
    assert ParseConfig(regions, s, "", false) == ParseGroups(regions, s, 0, DefaultConfig, "", false);
    NextGroup(regions, s, 0, DefaultConfig, "", false, Token(true, "A ", 3), s, "A ", 3, -1, [0], -1, Token(true, "2", 5), [2]);
    NextGroup(regions, s, 5, first, "", false, Token(true, "B", 7), s, "B", 7, -1, [1], -1, Token(true, "2", 9), [2]);
  }
}

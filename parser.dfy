/**
 * `GetCorrelatorConfig` (GFW.cxx:151-221): compiles a correlator string such
 * as "A B |A(3) {2 -2}" (regions A and B, overlap region A, pinned bin 3,
 * harmonics 2 and -2) into a `CorrConfig`.
 *
 * `ParseConfig` is the functional definition, one function per loop of the
 * source; `GetCorrelatorConfig` is the source's loop nest and is proved to
 * compute `ParseConfig`. `None` stands for the parse throwing: `std::stoi`
 * meeting a token without digits or out of `int` range, or an `erase` at a
 * position that does not exist.
 */
module Parser {
  import opened Optional
  import opened GfwStrings
  import opened GfwTypes

  /**
   * The optional "(bin)" of a group: absent, unclosed, throwing, or read,
   * with the group text `ts`, the position `szend` and the whole `config`
   * as they are after the bin has been cut out.
   */
  datatype Header =
    | MissingClose
    | Throws
    | Header(ptbin: int, ts: string, szend: int, config: string)

  /** GFW.cxx:179-193, for a group text `ts` that ends just before position szend - 1 of `config`. */
  function GroupHeader(config: string, ts: string, szend: int): (h: Header)
    ensures h.Header? ==> |h.config| <= |config| && h.szend >= szend - (|ts| + 1)
    ensures h.Header? && !Contains(ts, "(") ==> h == Header(-1, ts, szend, config)
    ensures Contains(ts, "(") && !Contains(ts, ")") <==> h.MissingClose?
  {
    if !Contains(ts, "(") then Header(-1, ts, szend, config)
    else if !Contains(ts, ")") then MissingClose
    else
      CutBinBounds(config, ts, szend);
      CutBin(config, ts, szend)
  }

  /**
   * GFW.cxx:183-188 on the group text: the bin read by `stoi` between the
   * first "(" and the next ")", the text with the bin erased, and how far
   * the end position moves back.
   */
  function CutGroupText(ts: string): (Option<int>, Option<string>, int)
    requires Contains(ts, "(")
  {
    var sz2 := Index(ts, "(", 0);
    CutAt(ts, sz2, Tokenize(ts, sz2 + 1, ")"))
  }

  /** The same, given the position sz2 of "(" and the token that follows it. */
  function CutAt(ts: string, sz2: int, tk: Token): (Option<int>, Option<string>, int) {
    (Stoi(tk.subs), Erase(ts, sz2, tk.spos - sz2 + 1), tk.spos - sz2)
  }

  /** GFW.cxx:190-192: the whole string loses its first "(" through its first ")". */
  function CutConfig(config: string): Option<string> {
    var open := Index(config, "(", 0);
    var close := Index(config, ")", 0);
    Erase(config, open, close - open + 1)
  }

  /** GFW.cxx:183-192: the bin read between "(" and ")", then cut out of the group text and of the string. */
  function CutBin(config: string, ts: string, szend: int): (h: Header)
    requires Contains(ts, "(")
  {
    var cut := CutGroupText(ts);
    var config' := CutConfig(config);
    if cut.0.None? || cut.1.None? || config'.None? then Throws
    else Header(cut.0.value, cut.1.value, szend - cut.2, config'.value)
  }

  /** Cutting the bin out never lengthens the string and moves the group end back by at most the group text. */
  lemma CutBinBounds(config: string, ts: string, szend: int)
    requires Contains(ts, "(")
    ensures var h := CutBin(config, ts, szend);
      !h.MissingClose? && (h.Header? ==> |h.config| <= |config| && h.szend >= szend - (|ts| + 1))
  {
  }

  /**
   * What cutting a pinned bin does, with p the first "(" of the group text
   * and e the first ")" after it (or the end): the bin is `stoi` of the text
   * between them; the group text loses "(", the bin, ")" and the character
   * after ")"; the end position moves back by the length of "(bin)"; the
   * whole string loses its first "(" through its first ")". The cut throws
   * exactly when `stoi` does or the whole string has no "(".
   */
  lemma CutBinContents(config: string, ts: string, szend: int)
    requires Contains(ts, "(")
    ensures var p := Index(ts, "(", 0);
      var q := Index(ts, ")", p + 1);
      var e := if q >= 0 then q else |ts|;
      var open := Index(config, "(", 0);
      var close := Index(config, ")", 0);
      var h := CutBin(config, ts, szend);
      && 0 <= p < e <= |ts|
      && (h.Throws? <==> Stoi(ts[p + 1..e]).None? || open < 0)
      && (h.Header? ==>
            && Stoi(ts[p + 1..e]) == Some(h.ptbin)
            && h.ts == ts[..p] + (if e + 2 <= |ts| then ts[e + 2..] else "")
            && h.szend == szend - (e + 1 - p)
            && h.config == (if open <= close then config[..open] + config[close + 1..]
                            else if close == open - 1 then config
                            else config[..open]))
  {
    GroupTextCut(ts);
    ConfigCut(config);
  }

  /** CutBinContents for the group text. */
  lemma GroupTextCut(ts: string)
    requires Contains(ts, "(")
    ensures var p := Index(ts, "(", 0);
      var q := Index(ts, ")", p + 1);
      var e := if q >= 0 then q else |ts|;
      var cut := CutGroupText(ts);
      && 0 <= p < e <= |ts|
      && cut.0 == Stoi(ts[p + 1..e])
      && cut.1 == (if p + 1 < |ts| then Some(ts[..p] + (if e + 2 <= |ts| then ts[e + 2..] else "")) else cut.1)
      && cut.1.Some?
      && (p + 1 < |ts| ==> cut.2 == e + 1 - p)
      && (p + 1 == |ts| ==> cut.0.None?)
  {
    var p := Index(ts, "(", 0);
    var e := BinEnd(ts);
    if p + 1 < |ts| {
      BinErased(ts, p, e);
    } else {
      assert ts[p + 1..e] == "";
    }
  }

  /** The bin text of a group: from just after its first "(" to the next ")" or the end. */
  lemma BinEnd(ts: string) returns (e: int)
    requires Contains(ts, "(")
    ensures var p := Index(ts, "(", 0);
      var q := Index(ts, ")", p + 1);
      var tk := Tokenize(ts, p + 1, ")");
      && e == (if q >= 0 then q else |ts|)
      && 0 <= p < e <= |ts|
      && tk.subs == ts[p + 1..e]
      && tk.spos == (if p + 1 < |ts| then e + 1 else -1)
  {
    var p := Index(ts, "(", 0);
    var q := Index(ts, ")", p + 1);
    e := if q >= 0 then q else |ts|;
    if p + 1 == |ts| {
      assert !MatchAt(ts, ")", p + 1);
    }
  }

  /** Erasing "(bin)" from the group text also takes the character after ")". */
  lemma BinErased(ts: string, p: int, e: int)
    requires 0 <= p < e <= |ts|
    ensures Erase(ts, p, (e + 1) - p + 1) == Some(ts[..p] + (if e + 2 <= |ts| then ts[e + 2..] else ""))
  {
    if e + 2 > |ts| {
      assert ts[..p] + "" == ts[..p];
    }
  }

  /** Erasing from the first "(" through the first ")" of the whole string. */
  lemma ConfigCut(config: string)
    ensures var open := Index(config, "(", 0);
      var close := Index(config, ")", 0);
      var r := Erase(config, open, close - open + 1);
      && (r.None? <==> open < 0)
      && (r.Some? ==> r.value == (if open <= close then config[..open] + config[close + 1..]
                                 else if close == open - 1 then config
                                 else config[..open]))
  {
    var open := Index(config, "(", 0);
    var close := Index(config, ")", 0);
    if open >= 0 {
      assert open < |config|;
      if close == open - 1 {
        assert config[..open] + config[open..] == config;
      }
    }
  }

  /**
   * The region loop (GFW.cxx:195-210) from token position sz1 of `ts`, with
   * the group's regions and overlap so far. A token is used only while the
   * position after it is below `szend`, a position in the whole string.
   */
  function ParseRegions(regions: seq<Region>, ts: string, sz1: int, szend: int,
                        regs: seq<int>, ovl: int): (r: (seq<int>, int))
    ensures regs <= r.0
    ensures forall k :: |regs| <= k < |r.0| ==> 0 <= r.0[k] < |regions|
    ensures r.1 == ovl || 0 <= r.1 < |regions|
    decreases if sz1 < 0 then 0 else |ts| + 1 - sz1
  {
    var tk := Tokenize(ts, sz1, " ");
    if !tk.ok || tk.spos >= szend then (regs, ovl)
    else
      var isOverlap := Contains(tk.subs, "|");
      // an overlap token loses its first character, whatever it is
      var name := if isOverlap then tk.subs[1..] else tk.subs;
      var ind := FindRegionByName(regions, name);
      if name == " " || name == "" then ParseRegions(regions, ts, tk.spos, szend, regs, ovl)
      else if ind < 0 then (regs, ovl)   // unknown name: the rest of this group's names is skipped
      else if !isOverlap then ParseRegions(regions, ts, tk.spos, szend, regs + [ind], ovl)
      else ParseRegions(regions, ts, tk.spos, szend, regs, ind)
  }

  /** The harmonics loop (GFW.cxx:213-215): every space-separated token goes through `stoi`. */
  function ParseHars(harstr: string, pos: int, acc: seq<int>): (r: Option<seq<int>>)
    ensures r.Some? ==> acc <= r.value
    ensures r.Some? ==> forall k :: |acc| <= k < |r.value| ==> IntMin <= r.value[k] <= IntMax
    decreases if pos < 0 then 0 else |harstr| + 1 - pos
  {
    var tk := Tokenize(harstr, pos, " ");
    if !tk.ok then Some(acc)
    else
      match Stoi(tk.subs)
      case None => None
      case Some(v) => ParseHars(harstr, tk.spos, acc + [v])
  }

  /** A token "|name" of a group whose name is registered sets the group's overlap to that region. */
  lemma OverlapTokenSets(regions: seq<Region>, ts: string, sz1: int, szend: int,
                         regs: seq<int>, ovl: int, name: string)
    requires var tk := Tokenize(ts, sz1, " ");
      tk.ok && tk.spos < szend && tk.subs == "|" + name
    requires name != "" && name != " " && FindRegionByName(regions, name) >= 0
    ensures var tk := Tokenize(ts, sz1, " ");
      ParseRegions(regions, ts, sz1, szend, regs, ovl)
      == ParseRegions(regions, ts, tk.spos, szend, regs, FindRegionByName(regions, name))
  {
    assert MatchAt("|" + name, "|", 0);
  }

  /** A registered name without "|" appends its region index to the group. */
  lemma NameTokenAppends(regions: seq<Region>, ts: string, sz1: int, szend: int,
                         regs: seq<int>, ovl: int)
    requires var tk := Tokenize(ts, sz1, " ");
      tk.ok && tk.spos < szend && '|' !in tk.subs && tk.subs != "" && tk.subs != " "
      && FindRegionByName(regions, tk.subs) >= 0
    ensures var tk := Tokenize(ts, sz1, " ");
      ParseRegions(regions, ts, sz1, szend, regs, ovl)
      == ParseRegions(regions, ts, tk.spos, szend, regs + [FindRegionByName(regions, tk.subs)], ovl)
  {
    AbsentPattern(Tokenize(ts, sz1, " ").subs, "|", '|');
  }

  /** A name no region carries ends the group's names: the regions and overlap read so far are the result. */
  lemma UnknownNameStops(regions: seq<Region>, ts: string, sz1: int, szend: int,
                         regs: seq<int>, ovl: int)
    requires var tk := Tokenize(ts, sz1, " ");
      var name := if Contains(tk.subs, "|") then tk.subs[1..] else tk.subs;
      tk.ok && tk.spos < szend && name != "" && name != " " && FindRegionByName(regions, name) < 0
    ensures ParseRegions(regions, ts, sz1, szend, regs, ovl) == (regs, ovl)
  {
  }

  /** Each word followed by one space: the text of a group "A B C " before its "{". */
  function Words(ws: seq<string>): string {
    if |ws| == 0 then "" else ws[0] + " " + Words(ws[1..])
  }

  /** The region index of each name. */
  function Indices(regions: seq<Region>, ns: seq<string>): (r: seq<int>)
    ensures |r| == |ns| && forall i :: 0 <= i < |ns| ==> r[i] == FindRegionByName(regions, ns[i])
  {
    seq(|ns|, i requires 0 <= i < |ns| => FindRegionByName(regions, ns[i]))
  }

  /** A name that is registered and holds no space and no "|". */
  predicate PlainName(regions: seq<Region>, n: string) {
    n != "" && ' ' !in n && '|' !in n && FindRegionByName(regions, n) >= 0
  }

  /**
   * Registered names, each followed by a space, are read in order as their
   * region indices, as long as the group ends after the last space.
   */
  lemma {:induction false} NamesFrom(regions: seq<Region>, pre: string, ns: seq<string>, szend: int,
                                     regs: seq<int>, ovl: int)
    requires forall i :: 0 <= i < |ns| ==> PlainName(regions, ns[i])
    requires szend > |pre + Words(ns)|
    ensures ParseRegions(regions, pre + Words(ns), |pre|, szend, regs, ovl) == (regs + Indices(regions, ns), ovl)
    decreases |ns|
  {
    if |ns| == 0 {
      assert pre + Words(ns) == pre;
      assert regs + Indices(regions, ns) == regs;
    } else {
      var pre' := pre + ns[0] + " ";
      NameNext(regions, pre, ns, szend, regs, ovl);
      NamesFrom(regions, pre', ns[1..], szend, regs + [FindRegionByName(regions, ns[0])], ovl);
      IndicesFirst(regions, ns, regs);
    }
  }

  /** The first of the names is read and the loop goes on after its space. */
  lemma NameNext(regions: seq<Region>, pre: string, ns: seq<string>, szend: int, regs: seq<int>, ovl: int)
    requires |ns| >= 1 && PlainName(regions, ns[0])
    requires szend > |pre + Words(ns)|
    ensures var pre' := pre + ns[0] + " ";
      && pre + Words(ns) == pre' + Words(ns[1..])
      && ParseRegions(regions, pre + Words(ns), |pre|, szend, regs, ovl)
         == ParseRegions(regions, pre' + Words(ns[1..]), |pre'|, szend, regs + [FindRegionByName(regions, ns[0])], ovl)
  {
    var s := pre + Words(ns);
    var n, rest := ns[0], Words(ns[1..]);
    assert Words(ns) == n + " " + rest;
    AppendAssoc(pre, n + " ", rest);
    AppendAssoc(pre, n, " ");
    var pre' := pre + n + " ";
    assert s == pre' + rest;
    WordToken(pre, n, rest);
    assert Tokenize(s, |pre|, " ") == Token(true, n, |pre'|);
    NameTokenAppends(regions, s, |pre|, szend, regs, ovl);
    assert ParseRegions(regions, s, |pre|, szend, regs, ovl)
        == ParseRegions(regions, s, |pre'|, szend, regs + [FindRegionByName(regions, n)], ovl);
  }

  lemma IndicesFirst(regions: seq<Region>, ns: seq<string>, regs: seq<int>)
    requires |ns| >= 1
    ensures regs + [FindRegionByName(regions, ns[0])] + Indices(regions, ns[1..]) == regs + Indices(regions, ns)
  {
    assert Indices(regions, ns) == [FindRegionByName(regions, ns[0])] + Indices(regions, ns[1..]);
  }

  /** The first group "A B C {...}" of a string: its names are read as their region indices, with no overlap. */
  lemma NamesRead(regions: seq<Region>, ns: seq<string>)
    requires forall i :: 0 <= i < |ns| ==> PlainName(regions, ns[i])
    ensures ParseRegions(regions, Words(ns), 0, |Words(ns)| + 1, [], -1) == (Indices(regions, ns), -1)
  {
    var none: seq<int> := [];
    var s := Words(ns);
    assert "" + s == s;
    assert none + Indices(regions, ns) == Indices(regions, ns);
    assert ParseRegions(regions, "" + s, |""|, |s| + 1, none, -1) == (none + Indices(regions, ns), -1) by {
      NamesFrom(regions, "", ns, |s| + 1, none, -1);
    }
  }

  /**
   * A later group's text starts just after the previous "}", often with a
   * space: the empty first token is skipped and the names are read as in
   * the first group, whatever the group's end position beyond them.
   */
  lemma LaterNamesRead(regions: seq<Region>, ns: seq<string>, szend: int)
    requires forall i :: 0 <= i < |ns| ==> PlainName(regions, ns[i])
    requires szend > |Words(ns)| + 1
    ensures ParseRegions(regions, " " + Words(ns), 0, szend, [], -1) == (Indices(regions, ns), -1)
  {
    var none: seq<int> := [];
    var s := " " + Words(ns);
    IndexOfChar(s, ' ', 0, 0);
    assert Tokenize(s, 0, " ") == Token(true, "", 1);
    assert ParseRegions(regions, s, 0, szend, none, -1) == ParseRegions(regions, s, 1, szend, none, -1);
    assert none + Indices(regions, ns) == Indices(regions, ns);
    NamesFrom(regions, " ", ns, szend, none, -1);
  }

  /** Integers written in decimal, separated by single spaces. */
  function SpacedInts(hs: seq<int>): string {
    if |hs| == 0 then ""
    else if |hs| == 1 then IntToString(hs[0])
    else IntToString(hs[0]) + " " + SpacedInts(hs[1..])
  }

  /** A word without spaces followed by a space is one token, and the next one starts after the space. */
  lemma WordToken(pre: string, w: string, rest: string)
    requires ' ' !in w
    ensures var s := pre + w + " " + rest;
      Tokenize(s, |pre|, " ") == Token(true, w, |pre| + |w| + 1)
  {
    var s := pre + w + " " + rest;
    assert s[|pre|..|pre| + |w|] == w;
    assert s[|pre| + |w|] == ' ';
    IndexOfChar(s, ' ', |pre|, |pre| + |w|);
  }

  /** A non-empty word without spaces at the end of the text is the last token. */
  lemma LastWordToken(pre: string, w: string)
    requires ' ' !in w && w != ""
    ensures var s := pre + w;
      Tokenize(s, |pre|, " ") == Token(true, w, |s| + 1)
  {
    var s := pre + w;
    forall k | |pre| <= k < |s|
      ensures s[k] != ' '
    {
      assert s[k] == w[k - |pre|];
    }
    CharAbsentFrom(s, ' ', |pre|);
    assert s[|pre|..|s|] == w;
  }

  /** A harmonic token spelling h in decimal appends h. */
  lemma HarToken(s: string, pos: int, acc: seq<int>, h: int, next: int)
    requires IntMin <= h <= IntMax
    requires Tokenize(s, pos, " ") == Token(true, IntToString(h), next)
    ensures ParseHars(s, pos, acc) == ParseHars(s, next, acc + [h])
  {
    StoiRoundTrip(h);
  }

  /** The last harmonic of the text. */
  lemma HarsLast(pre: string, h: int, acc: seq<int>)
    requires IntMin <= h <= IntMax
    ensures ParseHars(pre + SpacedInts([h]), |pre|, acc) == Some(acc + [h])
  {
    var w := IntToString(h);
    var s := pre + w;
    assert SpacedInts([h]) == w;
    IntToStringNoSpace(h);
    LastWordToken(pre, w);
    HarToken(s, |pre|, acc, h, |s| + 1);
  }

  /** A harmonic followed by a space and more harmonics. */
  lemma HarsNext(pre: string, hs: seq<int>, acc: seq<int>)
    requires |hs| >= 2 && IntMin <= hs[0] <= IntMax
    ensures var pre' := pre + IntToString(hs[0]) + " ";
      ParseHars(pre + SpacedInts(hs), |pre|, acc) == ParseHars(pre' + SpacedInts(hs[1..]), |pre'|, acc + [hs[0]])
  {
    var w := IntToString(hs[0]);
    var rest := SpacedInts(hs[1..]);
    var s := pre + SpacedInts(hs);
    var pre' := pre + w + " ";
    SpacedIntsFirst(pre, hs);
    assert ParseHars(s, |pre|, acc) == ParseHars(s, |pre'|, acc + [hs[0]]) by {
      IntToStringNoSpace(hs[0]);
      WordToken(pre, w, rest);
      HarToken(s, |pre|, acc, hs[0], |pre'|);
    }
  }

  lemma SpacedIntsFirst(pre: string, hs: seq<int>)
    requires |hs| >= 2
    ensures pre + SpacedInts(hs) == pre + IntToString(hs[0]) + " " + SpacedInts(hs[1..])
  {
    var w, rest := IntToString(hs[0]), SpacedInts(hs[1..]);
    assert SpacedInts(hs) == w + " " + rest;
    AppendAssoc(pre, w + " ", rest);
    AppendAssoc(pre, w, " ");
  }

  lemma AppendAssoc<T>(a: seq<T>, b: seq<T>, c: seq<T>)
    ensures a + (b + c) == a + b + c
  {
  }

  /** Harmonics written in decimal and separated by spaces read back as the same list. */
  lemma {:induction false} HarsFrom(pre: string, hs: seq<int>, acc: seq<int>)
    requires forall k :: 0 <= k < |hs| ==> IntMin <= hs[k] <= IntMax
    ensures ParseHars(pre + SpacedInts(hs), |pre|, acc) == Some(acc + hs)
    decreases |hs|
  {
    if |hs| == 0 {
      HarsNone(pre, hs, acc);
    } else if |hs| == 1 {
      assert hs == [hs[0]];
      HarsLast(pre, hs[0], acc);
    } else {
      var pre' := pre + IntToString(hs[0]) + " ";
      HarsNext(pre, hs, acc);
      HarsFrom(pre', hs[1..], acc + [hs[0]]);
      AppendFirst(acc, hs);
    }
  }

  lemma AppendFirst<T>(acc: seq<T>, xs: seq<T>)
    requires |xs| >= 1
    ensures acc + [xs[0]] + xs[1..] == acc + xs
  {
  }

  /** No harmonic left: the list read so far. */
  lemma HarsNone(pre: string, hs: seq<int>, acc: seq<int>)
    requires |hs| == 0
    ensures ParseHars(pre + SpacedInts(hs), |pre|, acc) == Some(acc + hs)
  {
    assert pre + SpacedInts(hs) == pre;
    assert acc + hs == acc;
  }

  /** The harmonics text of a group, such as "2 -2", reads back as the list it spells. */
  lemma HarmonicsRoundTrip(hs: seq<int>)
    requires forall k :: 0 <= k < |hs| ==> IntMin <= hs[k] <= IntMax
    ensures ParseHars(SpacedInts(hs), 0, []) == Some(hs)
  {
    var empty: seq<int> := [];
    assert "" + SpacedInts(hs) == SpacedInts(hs);
    assert empty + hs == hs;
    HarsFrom("", hs, empty);
  }

  /** The config with one more, empty, group: no regions, no harmonics, no overlap. */
  function OpenGroup(cfg: CorrConfig): CorrConfig {
    cfg.(Regs := cfg.Regs + [[]], Hars := cfg.Hars + [[]], Overlap := cfg.Overlap + [-1])
  }

  /** The finished group: its regions, harmonics, overlap and bin written into the last entries. */
  function CloseGroup(cfg: CorrConfig, group: (seq<int>, int), hars: seq<int>, ptbin: int): CorrConfig
    requires |cfg.Regs| == |cfg.Hars| == |cfg.Overlap| >= 1
  {
    var last := |cfg.Regs| - 1;
    cfg.(Regs := cfg.Regs[last := group.0], Hars := cfg.Hars[last := hars],
         Overlap := cfg.Overlap[last := group.1], ptInd := cfg.ptInd + [ptbin])
  }

  /** The group loop (GFW.cxx:173-216) from position szend of the normalised string. */
  function ParseGroups(regions: seq<Region>, config: string, szend: int, cfg: CorrConfig,
                       head: string, ptdif: bool): Option<CorrConfig>
    requires |cfg.Regs| == |cfg.Hars| == |cfg.Overlap|
    decreases if szend < 0 then 0 else |config| + 1 - szend
  {
    var tk := Tokenize(config, szend, "{");
    if !tk.ok then Some(cfg.(Head := head, pTDif := ptdif))
    else
      var withGroup := OpenGroup(cfg);
      match GroupHeader(config, tk.subs, tk.spos)
      case MissingClose => Some(withGroup)   // returned as it is: ptInd one short, no label
      case Throws => None
      case Header(ptbin, ts, szend1, config1) =>
        var group := ParseRegions(regions, ts, 0, szend1, [], -1);
        var hs := Tokenize(config1, szend1, "}");
        match ParseHars(hs.subs, 0, [])
        case None => None
        case Some(hars) => ParseGroups(regions, config1, hs.spos, CloseGroup(withGroup, group, hars, ptbin), head, ptdif)
  }

  /** `GetCorrelatorConfig(config, head, ptdif)`: normalise, then read the groups. */
  function ParseConfig(regions: seq<Region>, config: string, head: string, ptdif: bool): Option<CorrConfig> {
    var normal := Normalize(config);
    if !Tokenize(normal, 0, "{").ok then Some(DefaultConfig)
    else ParseGroups(regions, normal, 0, DefaultConfig, head, ptdif)
  }

  /** The structure every parse result has, stated over the regions it was parsed against. */
  predicate Indexed(regions: seq<Region>, cfg: CorrConfig) {
    && |cfg.Regs| == |cfg.Hars| == |cfg.Overlap|
    && (forall i, j :: 0 <= i < |cfg.Regs| && 0 <= j < |cfg.Regs[i]| ==> 0 <= cfg.Regs[i][j] < |regions|)
    && (forall i :: 0 <= i < |cfg.Overlap| ==> -1 <= cfg.Overlap[i] < |regions|)
    && (forall i, j :: 0 <= i < |cfg.Hars| && 0 <= j < |cfg.Hars[i]| ==> IntMin <= cfg.Hars[i][j] <= IntMax)
  }

  /**
   * What a parse returns: the per-group lists in lockstep; region and overlap
   * indices that exist; harmonics in `int` range; and either the label and
   * flag copied with one pinned bin per group, or an early return (empty
   * input, or a "(" without ")") with the default label and flag, where the
   * group cut short has no bin entry.
   */
  lemma ParseConfigShape(regions: seq<Region>, config: string, head: string, ptdif: bool)
    requires ParseConfig(regions, config, head, ptdif).Some?
    ensures var r := ParseConfig(regions, config, head, ptdif).value;
      && Indexed(regions, r)
      && ((|r.ptInd| == |r.Regs| && r.Head == head && r.pTDif == ptdif)
          || r == DefaultConfig
          || (|r.ptInd| + 1 == |r.Regs| && r.Head == "" && !r.pTDif))
  {
    var normal := Normalize(config);
    if Tokenize(normal, 0, "{").ok {
      GroupsShape(regions, normal, 0, DefaultConfig, head, ptdif);
    }
  }

  lemma {:induction false} GroupsShape(regions: seq<Region>, config: string, szend: int, cfg: CorrConfig,
                                       head: string, ptdif: bool)
    requires Indexed(regions, cfg) && |cfg.ptInd| == |cfg.Regs|
    requires cfg.Head == "" && !cfg.pTDif
    requires ParseGroups(regions, config, szend, cfg, head, ptdif).Some?
    ensures var r := ParseGroups(regions, config, szend, cfg, head, ptdif).value;
      && Indexed(regions, r)
      && ((|r.ptInd| == |r.Regs| && r.Head == head && r.pTDif == ptdif)
          || (|r.ptInd| + 1 == |r.Regs| && r.Head == "" && !r.pTDif))
    decreases if szend < 0 then 0 else |config| + 1 - szend
  {
    var tk := Tokenize(config, szend, "{");
    if tk.ok && GroupHeader(config, tk.subs, tk.spos).Header? {
      var config1, szend1, next := GroupStep(regions, config, szend, cfg, head, ptdif);
      GroupsShape(regions, config1, szend1, next, head, ptdif);
    }
  }

  /** One group read with its header: the parse goes on from a shorter rest, with the group closed. */
  lemma GroupStep(regions: seq<Region>, config: string, szend: int, cfg: CorrConfig, head: string, ptdif: bool)
    returns (config1: string, szend1: int, next: CorrConfig)
    requires Indexed(regions, cfg) && |cfg.ptInd| == |cfg.Regs|
    requires ParseGroups(regions, config, szend, cfg, head, ptdif).Some?
    requires var tk := Tokenize(config, szend, "{");
      tk.ok && GroupHeader(config, tk.subs, tk.spos).Header?
    ensures Indexed(regions, next) && |next.ptInd| == |next.Regs| && next.Head == cfg.Head && next.pTDif == cfg.pTDif
    ensures ParseGroups(regions, config, szend, cfg, head, ptdif) == ParseGroups(regions, config1, szend1, next, head, ptdif)
    ensures (if szend1 < 0 then 0 else |config1| + 1 - szend1) < (if szend < 0 then 0 else |config| + 1 - szend)
  {
    var tk := Tokenize(config, szend, "{");
    var withGroup := OpenGroup(cfg);
    var h := GroupHeader(config, tk.subs, tk.spos);
    config1 := h.config;
    var group := ParseRegions(regions, h.ts, 0, h.szend, [], -1);
    var hs := Tokenize(config1, h.szend, "}");
    var hars := ParseHars(hs.subs, 0, []).value;
    szend1 := hs.spos;
    next := CloseGroup(withGroup, group, hars, h.ptbin);
    assert ParseGroups(regions, config, szend, cfg, head, ptdif)
        == ParseGroups(regions, config1, szend1, next, head, ptdif);
    CloseGroupIndexed(regions, cfg, group, hars, h.ptbin);
  }

  lemma CloseGroupIndexed(regions: seq<Region>, cfg: CorrConfig, group: (seq<int>, int), hars: seq<int>, ptbin: int)
    requires Indexed(regions, cfg)
    requires forall k :: 0 <= k < |group.0| ==> 0 <= group.0[k] < |regions|
    requires -1 <= group.1 < |regions|
    requires forall k :: 0 <= k < |hars| ==> IntMin <= hars[k] <= IntMax
    ensures Indexed(regions, CloseGroup(OpenGroup(cfg), group, hars, ptbin))
  {
  }

  /**
   * The empty string has no group: the default config, label not copied.
   * Any other string has at least one group, even without "{".
   */
  lemma ParseEmpty(regions: seq<Region>, head: string, ptdif: bool)
    ensures ParseConfig(regions, "", head, ptdif) == Some(DefaultConfig)
  {
  }

  /**
   * GFW.cxx:179-193: reads the "(bin)" of a group, if any, and cuts it out of
   * the group text, of the end position and of the whole string.
   */
  method ReadPinnedBin(config: string, ts: string, szend: int) returns (h: Header)
    ensures h == GroupHeader(config, ts, szend)
  {
    var ptbin := -1;
    if Contains(ts, "(") {
      if !Contains(ts, ")") {
        return MissingClose;
      }
      h := CutPinnedBin(config, ts, szend);
      return;
    }
    return Header(ptbin, ts, szend, config);
  }

  /**
   * GFW.cxx:183-192: the bin is read between "(" and the next ")" and cut out
   * of the group text (together with the character after ")"), out of the
   * end position, and out of the whole string at its first "(" and ")".
   */
  method CutPinnedBin(config: string, ts: string, szend: int) returns (h: Header)
    requires Contains(ts, "(")
    ensures h == CutBin(config, ts, szend)
  {
    var ptbin, cut, shift := EraseGroupBin(ts);
    if ptbin.None? || cut.None? {
      return Throws;
    }
    var szend' := szend - shift;
    var config' := EraseConfigBin(config);
    if config'.None? {
      return Throws;
    }
    return Header(ptbin.value, cut.value, szend', config'.value);
  }

  /** GFW.cxx:183-188: `stoi` of the bin text, the group text with the bin erased, and the shift of the end. */
  method EraseGroupBin(ts: string) returns (ptbin: Option<int>, cut: Option<string>, shift: int)
    requires Contains(ts, "(")
    ensures (ptbin, cut, shift) == CutGroupText(ts)
  {
    var sz2 := Index(ts, "(", 0);
    var sz1 := sz2 + 1;
    var tk := Tokenize(ts, sz1, ")");
    var ts2 := tk.subs;
    sz1 := tk.spos;
    ptbin := Stoi(ts2);
    cut := Erase(ts, sz2, sz1 - sz2 + 1);
    shift := sz1 - sz2;
    CutAtParts(ts, sz2, tk, ptbin, cut, shift);
    assert CutGroupText(ts) == CutAt(ts, sz2, tk);
  }

  /** The three parts of CutAt, each computed on its own. */
  lemma CutAtParts(ts: string, sz2: int, tk: Token, ptbin: Option<int>, cut: Option<string>, shift: int)
    requires ptbin == Stoi(tk.subs) && cut == Erase(ts, sz2, tk.spos - sz2 + 1) && shift == tk.spos - sz2
    ensures (ptbin, cut, shift) == CutAt(ts, sz2, tk)
  { }

  /** GFW.cxx:190-192. */
  method EraseConfigBin(config: string) returns (r: Option<string>)
    ensures r == CutConfig(config)
  {
    var sz2 := Index(config, "(", 0);
    var sz1 := Index(config, ")", 0);
    r := Erase(config, sz2, sz1 - sz2 + 1);
  }

  /** GFW.cxx:195-210: the region and overlap indices named in a group text. */
  method ReadRegions(regions: seq<Region>, ts: string, szend: int) returns (regs: seq<int>, ovl: int)
    ensures (regs, ovl) == ParseRegions(regions, ts, 0, szend, [], -1)
  {
    regs, ovl := [], -1;
    var sz1 := 0;
    while true
      invariant ParseRegions(regions, ts, sz1, szend, regs, ovl) == ParseRegions(regions, ts, 0, szend, [], -1)
      decreases if sz1 < 0 then 0 else |ts| + 1 - sz1
    {
      var tk := Tokenize(ts, sz1, " ");
      if !tk.ok {
        break;
      }
      sz1 := tk.spos;
      var ts2 := tk.subs;
      if sz1 >= szend {
        break;
      }
      var isOverlap := Contains(ts2, "|");
      if isOverlap {
        ts2 := ts2[1..];
      }
      var ind := FindRegionByName(regions, ts2);
      if ts2 == " " || ts2 == "" {
        continue;
      }
      if ind < 0 {
        break;
      }
      if !isOverlap {
        regs := regs + [ind];
      } else {
        ovl := ind;
      }
    }
  }

  /** GFW.cxx:211-215: the harmonics of a group, each token read by `stoi`. */
  method ReadHarmonics(harstr: string) returns (r: Option<seq<int>>)
    ensures r == ParseHars(harstr, 0, [])
  {
    var hars := [];
    var dummys := 0;
    while true
      invariant ParseHars(harstr, dummys, hars) == ParseHars(harstr, 0, [])
      decreases if dummys < 0 then 0 else |harstr| + 1 - dummys
    {
      var tk := Tokenize(harstr, dummys, " ");
      if !tk.ok {
        break;
      }
      dummys := tk.spos;
      var value := Stoi(tk.subs);
      if value.None? {
        return None;
      }
      hars := hars + [value.value];
    }
    return Some(hars);
  }

  /**
   * `GetCorrelatorConfig(config, head, ptdif)` with the loops of the source;
   * `regions` is the registry's `fRegions`.
   */
  method GetCorrelatorConfig(regions: seq<Region>, text: string, head: string := "", ptdif: bool := false)
    returns (r: Option<CorrConfig>)
    ensures r == ParseConfig(regions, text, head, ptdif)
  {
    var config := NormalizeLoop(text);
    var ReturnConfig := DefaultConfig;
    var szend := 0;
    var first := Tokenize(config, szend, "{");
    if !first.ok {
      return Some(ReturnConfig);
    }
    szend := 0;
    var counter := 0;
    while true
      invariant counter == |ReturnConfig.Regs| == |ReturnConfig.Hars| == |ReturnConfig.Overlap|
      invariant ParseGroups(regions, config, szend, ReturnConfig, head, ptdif) == ParseConfig(regions, text, head, ptdif)
      decreases if szend < 0 then 0 else |config| + 1 - szend
    {
      var tk := Tokenize(config, szend, "{");
      if !tk.ok {
        break;
      }
      counter := counter + 1;
      ReturnConfig := OpenGroup(ReturnConfig);
      var h := ReadPinnedBin(config, tk.subs, tk.spos);
      if h.MissingClose? {
        return Some(ReturnConfig);
      } else if h.Throws? {
        return None;
      }
      var regs, ovl := ReadRegions(regions, h.ts, h.szend);
      var harmonics := Tokenize(h.config, h.szend, "}");
      var hars := ReadHarmonics(harmonics.subs);
      if hars.None? {
        return None;
      }
      ReturnConfig := CloseGroup(ReturnConfig, (regs, ovl), hars.value, h.ptbin);
      config, szend := h.config, harmonics.spos;
    }
    ReturnConfig := ReturnConfig.(Head := head, pTDif := ptdif);
    return Some(ReturnConfig);
  }
}

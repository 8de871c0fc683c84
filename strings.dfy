/**
 * The string helpers of GFW.cxx (`s_index`, `s_contains`, `s_replace`,
 * `s_replace_all`, `s_tokenize`), together with the two library calls the
 * parser relies on: `std::stoi` and `std::string::erase`.
 *
 * Positions are `int`, as in the source; `-1` plays the part of
 * `std::string::npos` once it has been narrowed to `int`.
 */
module GfwStrings {
  import opened Optional

  /** `pat` occurs in `s` starting at position i. */
  predicate MatchAt(s: string, pat: string, i: int) {
    0 <= i && i + |pat| <= |s| && s[i..i + |pat|] == pat
  }

  /** The first occurrence of `pat` at a position in [i, |s|], or -1. */
  function IndexFrom(s: string, pat: string, i: nat): (r: int)
    requires i <= |s|
    ensures r == -1 || (i <= r <= |s| && MatchAt(s, pat, r))
    ensures forall k :: i <= k <= |s| && (r == -1 || k < r) ==> !MatchAt(s, pat, k)
    decreases |s| - i
  {
    if MatchAt(s, pat, i) then i
    else if i == |s| then -1
    else IndexFrom(s, pat, i + 1)
  }

  /**
   * `s_index(instr, pattern, spos)`, i.e. `instr.find(pattern, spos)` narrowed
   * to `int`: a start beyond the end (a negative `int` becomes a huge
   * unsigned one) finds nothing.
   */
  function Index(s: string, pat: string, spos: int): (r: int)
    ensures r == -1 || (0 <= spos <= r <= |s| && MatchAt(s, pat, r))
    ensures r == -1 && spos >= 0 ==> forall k :: spos <= k <= |s| ==> !MatchAt(s, pat, k)
    ensures r != -1 ==> forall k :: spos <= k < r ==> !MatchAt(s, pat, k)
  {
    if spos < 0 || spos > |s| then -1 else IndexFrom(s, pat, spos)
  }

  /** `s_contains(instr, pattern)`: `s_index` from position 0 finds something. */
  function Contains(s: string, pat: string): (r: bool)
    ensures r <==> exists k :: 0 <= k <= |s| && MatchAt(s, pat, k)
  {
    Index(s, pat, 0) > -1
  }

  /**
   * `s_replace(instr, pattern1, pattern2, spos)`: the first occurrence of
   * `p1` at or after `spos`, if any, is replaced by `p2`.
   */
  function Replace(s: string, p1: string, p2: string, spos: int): (r: string)
    ensures Index(s, p1, spos) < 0 ==> r == s
    ensures var lpos := Index(s, p1, spos);
      lpos >= 0 ==> |r| == |s| - |p1| + |p2| && r[..lpos] == s[..lpos]
                    && r[lpos..lpos + |p2|] == p2 && r[lpos + |p2|..] == s[lpos + |p1|..]
  {
    var lpos := Index(s, p1, spos);
    if lpos < 0 then s else s[..lpos] + p2 + s[lpos + |p1|..]
  }

  /**
   * The pattern pairs for which `s_replace_all` is known to stop: the
   * replacement is shorter, or both are single, different characters.
   * Every pair the parser uses is of one of these kinds.
   */
  predicate Terminates(p1: string, p2: string) {
    |p2| < |p1| || (|p1| == 1 && |p2| == 1 && p1 != p2)
  }

  /**
   * The loop of `s_replace_all` from a state where the next occurrence is at
   * `lpos` (or there is none): replace there, then search again from `lpos`.
   */
  function ReplaceAllFrom(s: string, p1: string, p2: string, lpos: int): string
    requires Terminates(p1, p2)
    requires lpos == -1 || MatchAt(s, p1, lpos)
    decreases |s|, if lpos < 0 then 0 else |s| + 1 - lpos
  {
    if lpos < 0 then s
    else
      var s' := Replace(s, p1, p2, lpos);
      var next := Index(s', p1, lpos);
      ReplaceAllFrom(s', p1, p2, next)
  }

  /** `s_replace_all(instr, pattern1, pattern2)`. */
  function ReplaceAll(s: string, p1: string, p2: string): string
    requires Terminates(p1, p2)
  {
    ReplaceAllFrom(s, p1, p2, Index(s, p1, 0))
  }

  /** `s_replace_all` as the source writes it: a search-and-replace loop on the string. */
  method ReplaceAllLoop(instr: string, p1: string, p2: string) returns (r: string)
    requires Terminates(p1, p2)
    ensures r == ReplaceAll(instr, p1, p2)
  {
    r := instr;
    var lpos := Index(r, p1, 0);
    while lpos > -1
      invariant lpos == -1 || MatchAt(r, p1, lpos)
      invariant ReplaceAllFrom(r, p1, p2, lpos) == ReplaceAll(instr, p1, p2)
      decreases |r|, if lpos < 0 then 0 else |r| + 1 - lpos
    {
      var s' := Replace(r, p1, p2, lpos);
      var next := Index(s', p1, lpos);
      assert ReplaceAllFrom(r, p1, p2, lpos) == ReplaceAllFrom(s', p1, p2, next);
      r, lpos := s', next;
    }
  }

  /** Every character is replaced by b where it is a, and kept elsewhere. */
  function SubstChar(s: string, a: char, b: char): (r: string)
    ensures |r| == |s|
  {
    seq(|s|, k requires 0 <= k < |s| => if s[k] == a then b else s[k])
  }

  /**
   * With one-character patterns, `s_replace_all` is a character substitution:
   * every occurrence of the first character becomes the second, nothing else
   * changes.
   */
  lemma ReplaceAllIsSubstitution(s: string, a: char, b: char)
    requires a != b
    ensures ReplaceAll(s, [a], [b]) == SubstChar(s, a, b)
  {
    var lpos := Index(s, [a], 0);
    forall k | 0 <= k < |s| && (lpos == -1 || k < lpos)
      ensures s[k] != a
    {
      assert !MatchAt(s, [a], k);
      assert s[k..k + 1] == [s[k]];
    }
    SubstitutionFrom(s, a, b, lpos);
  }

  lemma {:induction false} SubstitutionFrom(s: string, a: char, b: char, lpos: int)
    requires a != b
    requires lpos == -1 || MatchAt(s, [a], lpos)
    requires lpos == -1 ==> a !in s
    requires lpos >= 0 ==> a !in s[..lpos]
    ensures ReplaceAllFrom(s, [a], [b], lpos) == SubstChar(s, a, b)
    decreases if lpos < 0 then 0 else |s| + 1 - lpos
  {
    if lpos < 0 {
      assert forall k :: 0 <= k < |s| ==> s[k] != a;
    } else {
      ReplaceOneChar(s, a, b, lpos);
      var s' := s[lpos := b];
      NextAfterReplace(s, a, b, lpos);
      SubstitutionFrom(s', a, b, Index(s', [a], lpos));
    }
  }

  /** Replacing the matched character at lpos writes b there, which the substitution would write anyway. */
  lemma ReplaceOneChar(s: string, a: char, b: char, lpos: int)
    requires MatchAt(s, [a], lpos) && Index(s, [a], lpos) == lpos
    ensures lpos < |s| && s[lpos] == a
    ensures Replace(s, [a], [b], lpos) == s[lpos := b]
    ensures SubstChar(s[lpos := b], a, b) == SubstChar(s, a, b)
  {
    assert s[lpos..lpos + 1] == [a];
  }

  /** After the character at lpos is replaced, the next search finds the first later a, if any. */
  lemma NextAfterReplace(s: string, a: char, b: char, lpos: int)
    requires a != b && 0 <= lpos < |s| && s[lpos] == a && a !in s[..lpos]
    ensures var s' := s[lpos := b];
      var next := Index(s', [a], lpos);
      (next == -1 || next > lpos) &&
      (next == -1 ==> a !in s') && (next >= 0 ==> a !in s'[..next])
  {
    var s' := s[lpos := b];
    var next := Index(s', [a], lpos);
    var hi := if next == -1 then |s'| else next;
    assert s'[lpos..lpos + 1] == [b];
    forall k | 0 <= k < hi
      ensures s'[k] != a
    {
      if k >= lpos {
        assert !MatchAt(s', [a], k);
        assert s'[k..k + 1] == [s'[k]];
      } else {
        assert s'[k] == s[..lpos][k];
      }
    }
    assert s'[..hi] == s'[..hi];
    assert forall c :: c in s'[..hi] ==> c != a;
  }

  /** A pattern holding a character the string lacks does not occur in it. */
  lemma AbsentPattern(s: string, pat: string, c: char)
    requires c in pat && c !in s
    ensures !Contains(s, pat)
  {
    forall k | 0 <= k <= |s|
      ensures !MatchAt(s, pat, k)
    {
      if k + |pat| <= |s| {
        var w := s[k..k + |pat|];
        assert forall j :: 0 <= j < |w| ==> w[j] == s[k + j];
        assert c !in w;
      }
    }
  }

  /** The first position at or after spos holding the character c. */
  lemma IndexOfChar(s: string, c: char, spos: int, r: int)
    requires 0 <= spos <= r < |s| && s[r] == c
    requires c !in s[spos..r]
    ensures Index(s, [c], spos) == r
  {
    assert s[r..r + 1] == [c];
    assert MatchAt(s, [c], r);
    forall k | spos <= k < r
      ensures !MatchAt(s, [c], k)
    {
      assert s[k] == s[spos..r][k - spos];
      assert s[k..k + 1] == [s[k]];
    }
    var x := Index(s, [c], spos);
    assert x != -1;
    assert x <= r;
  }

  /** No position at or after spos holds the character c. */
  lemma CharAbsentFrom(s: string, c: char, spos: int)
    requires 0 <= spos <= |s|
    requires forall k :: spos <= k < |s| ==> s[k] != c
    ensures Index(s, [c], spos) == -1
  {
    forall k | spos <= k <= |s|
      ensures !MatchAt(s, [c], k)
    {
      if k < |s| {
        assert s[k..k + 1] == [s[k]];
      }
    }
  }

  /** Every character of the result comes from the input or from the replacement. */
  lemma ReplaceAllCharacters(s: string, p1: string, p2: string, c: char)
    requires Terminates(p1, p2)
    requires c !in s && c !in p2
    ensures c !in ReplaceAll(s, p1, p2)
  {
    CharactersFrom(s, p1, p2, Index(s, p1, 0), c);
  }

  lemma {:induction false} CharactersFrom(s: string, p1: string, p2: string, lpos: int, c: char)
    requires Terminates(p1, p2)
    requires lpos == -1 || MatchAt(s, p1, lpos)
    requires c !in s && c !in p2
    ensures c !in ReplaceAllFrom(s, p1, p2, lpos)
    decreases |s|, if lpos < 0 then 0 else |s| + 1 - lpos
  {
    if lpos >= 0 {
      var s' := Replace(s, p1, p2, lpos);
      var next := Index(s', p1, lpos);
      assert s' == s[..lpos] + p2 + s[lpos + |p1|..];
      assert c !in s[..lpos] && c !in s[lpos + |p1|..];
      CharactersFrom(s', p1, p2, next, c);
    }
  }

  /**
   * `s_replace_all` never lengthens the string, and with a shorter
   * replacement it shortens every string that holds the pattern.
   */
  lemma ReplaceAllLength(s: string, p1: string, p2: string)
    requires Terminates(p1, p2)
    ensures |ReplaceAll(s, p1, p2)| <= |s|
    ensures |p2| < |p1| && Contains(s, p1) ==> |ReplaceAll(s, p1, p2)| < |s|
  {
    LengthFrom(s, p1, p2, Index(s, p1, 0));
  }

  lemma {:induction false} LengthFrom(s: string, p1: string, p2: string, lpos: int)
    requires Terminates(p1, p2)
    requires lpos == -1 || MatchAt(s, p1, lpos)
    ensures |ReplaceAllFrom(s, p1, p2, lpos)| <= |s|
    ensures |p2| < |p1| && lpos >= 0 ==> |ReplaceAllFrom(s, p1, p2, lpos)| < |s|
    decreases |s|, if lpos < 0 then 0 else |s| + 1 - lpos
  {
    if lpos >= 0 {
      var s' := Replace(s, p1, p2, lpos);
      var next := Index(s', p1, lpos);
      LengthFrom(s', p1, p2, next);
    }
  }

  /**
   * `while (s_index(config, p1) > -1) s_replace_all(config, p1, p2);` for a
   * shorter replacement: the result no longer holds the pattern.
   */
  function ReplaceUntilGone(s: string, p1: string, p2: string): (r: string)
    requires |p2| < |p1|
    ensures !Contains(r, p1)
    ensures |r| <= |s|
    decreases |s|
  {
    if !Contains(s, p1) then s
    else
      ReplaceAllLength(s, p1, p2);
      ReplaceUntilGone(ReplaceAll(s, p1, p2), p1, p2)
  }

  /** The normalisation that opens `GetCorrelatorConfig` (GFW.cxx:153-159). */
  function Normalize(config: string): (r: string)
    ensures |r| <= |config|
    ensures !Contains(r, "  ")
  {
    var c1 := ReplaceAll(config, ",", " ");
    var c2 := ReplaceAll(c1, ";", " ");
    var c3 := ReplaceAll(c2, "| ", "|");
    ReplaceAllLength(config, ",", " ");
    ReplaceAllLength(c1, ";", " ");
    ReplaceAllLength(c2, "| ", "|");
    ReplaceUntilGone(ReplaceUntilGone(c3, " (", "("), "  ", " ")
  }

  /** After normalisation no comma and no semicolon is left: both read as spaces. */
  lemma NormalizeSeparators(config: string)
    ensures ',' !in Normalize(config) && ';' !in Normalize(config)
  {
    var c1 := ReplaceAll(config, ",", " ");
    ReplaceAllIsSubstitution(config, ',', ' ');
    assert ',' !in c1 by {
      forall k | 0 <= k < |c1| ensures c1[k] != ',' {
        assert c1[k] == SubstChar(config, ',', ' ')[k];
      }
    }
    var c2 := ReplaceAll(c1, ";", " ");
    ReplaceAllIsSubstitution(c1, ';', ' ');
    assert ',' !in c2 && ';' !in c2 by {
      forall k | 0 <= k < |c2| ensures c2[k] != ',' && c2[k] != ';' {
        assert c2[k] == SubstChar(c1, ';', ' ')[k];
      }
    }
    var c3 := ReplaceAll(c2, "| ", "|");
    ReplaceAllCharacters(c2, "| ", "|", ',');
    ReplaceAllCharacters(c2, "| ", "|", ';');
    var c4 := ReplaceUntilGone(c3, " (", "(");
    UntilGoneCharacters(c3, " (", "(", ',');
    UntilGoneCharacters(c3, " (", "(", ';');
    UntilGoneCharacters(c4, "  ", " ", ',');
    UntilGoneCharacters(c4, "  ", " ", ';');
  }

  lemma {:induction false} UntilGoneCharacters(s: string, p1: string, p2: string, c: char)
    requires |p2| < |p1|
    requires c !in s && c !in p2
    ensures c !in ReplaceUntilGone(s, p1, p2)
    decreases |s|
  {
    if Contains(s, p1) {
      ReplaceAllLength(s, p1, p2);
      ReplaceAllCharacters(s, p1, p2, c);
      UntilGoneCharacters(ReplaceAll(s, p1, p2), p1, p2, c);
    }
  }

  /**
   * After normalisation no "(" has a space before it and no "|" a space
   * after it: a pinned bin sits flush against the name before it, and an
   * overlap marker against its region name.
   */
  lemma NormalizeFlush(config: string)
    ensures !Contains(Normalize(config), " (") && !Contains(Normalize(config), "| ")
  {
    var c1 := ReplaceAll(config, ",", " ");
    var c2 := ReplaceAll(c1, ";", " ");
    var c3 := ReplaceAll(c2, "| ", "|");
    DropSecondFrom(c2, '|', ' ', 0);
    NoPairContains(c3, '|', ' ');
    var c4 := ReplaceUntilGone(c3, " (", "(");
    UntilGoneKeepsNoPair(c3, ' ', '(', '|', ' ');
    NoPairContains(c4, ' ', '(');
    var c5 := ReplaceUntilGone(c4, "  ", " ");
    UntilGoneKeepsNoPair(c4, ' ', ' ', '|', ' ');
    UntilGoneKeepsNoPair(c4, ' ', ' ', ' ', '(');
    NoPairContains(c5, '|', ' ');
    NoPairContains(c5, ' ', '(');
    assert Normalize(config) == c5;
  }

  /** No character x in s is directly followed by y. */
  predicate NoPair(s: string, x: char, y: char) {
    forall k :: 0 <= k < |s| - 1 ==> !(s[k] == x && s[k + 1] == y)
  }

  lemma NoPairContains(s: string, x: char, y: char)
    ensures NoPair(s, x, y) <==> !Contains(s, [x, y])
  {
    if NoPair(s, x, y) {
      forall k | 0 <= k <= |s|
        ensures !MatchAt(s, [x, y], k)
      {
        if k + 2 <= |s| {
          assert s[k..k + 2] == [s[k], s[k + 1]];
        }
      }
    } else {
      var k :| 0 <= k < |s| - 1 && s[k] == x && s[k + 1] == y;
      assert s[k..k + 2] == [x, y];
      assert MatchAt(s, [x, y], k);
    }
  }

  /**
   * `s_replace_all(s, "ab", "a")` with a != b leaves no "ab": the search
   * restarts at the "a" just written, which cannot begin a match.
   */
  lemma {:induction false} DropSecondFrom(s: string, a: char, b: char, m: int)
    requires a != b && 0 <= m <= |s|
    requires forall k :: 0 <= k < m ==> !MatchAt(s, [a, b], k)
    ensures !Contains(ReplaceAllFrom(s, [a, b], [a], Index(s, [a, b], m)), [a, b])
    decreases |s|
  {
    var lpos := Index(s, [a, b], m);
    if lpos >= 0 {
      var s' := Replace(s, [a, b], [a], lpos);
      assert s' == s[..lpos] + [a] + s[lpos + 2..];
      forall k | 0 <= k < lpos
        ensures !MatchAt(s', [a, b], k)
      {
        if k + 1 < lpos {
          assert s'[k..k + 2] == s[k..k + 2];
          assert !MatchAt(s, [a, b], k);
        } else {
          assert s'[k + 1] == a;
          assert k + 2 > |s'| || s'[k..k + 2][1] == a;
        }
      }
      DropSecondFrom(s', a, b, lpos);
    }
  }

  /**
   * Replacing "ab" by "b" creates no adjacent pair "xy" that was not there,
   * unless y is b and a differs from b: the only new neighbours are the
   * character before the match and b.
   */
  lemma ReplacePairKeepsNoPair(s: string, a: char, b: char, lpos: int, x: char, y: char)
    requires MatchAt(s, [a, b], lpos) && NoPair(s, x, y) && (y != b || a == b)
    ensures NoPair(Replace(s, [a, b], [b], lpos), x, y)
  {
    assert s[lpos..lpos + 2] == [a, b];
    var r := s[..lpos] + [b] + s[lpos + 2..];
    assert Replace(s, [a, b], [b], lpos) == r;
    forall k | 0 <= k < |r| - 1
      ensures !(r[k] == x && r[k + 1] == y)
    {
      if k + 1 < lpos {
        assert r[k] == s[k] && r[k + 1] == s[k + 1];
      } else if k + 1 == lpos {
        assert r[k] == s[k] && r[k + 1] == b && s[k + 1] == a;
      } else {
        assert r[k] == s[k + 1] && r[k + 1] == s[k + 2];
      }
    }
  }

  lemma {:induction false} AllKeepsNoPair(s: string, a: char, b: char, lpos: int, x: char, y: char)
    requires lpos == -1 || MatchAt(s, [a, b], lpos)
    requires NoPair(s, x, y) && (y != b || a == b)
    ensures NoPair(ReplaceAllFrom(s, [a, b], [b], lpos), x, y)
    decreases |s|
  {
    if lpos >= 0 {
      var s' := Replace(s, [a, b], [b], lpos);
      ReplacePairKeepsNoPair(s, a, b, lpos, x, y);
      AllKeepsNoPair(s', a, b, Index(s', [a, b], lpos), x, y);
    }
  }

  /** Replacing "ab" by "b" until none is left creates no pair "xy" (y != b, or a == b). */
  lemma {:induction false} UntilGoneKeepsNoPair(s: string, a: char, b: char, x: char, y: char)
    requires NoPair(s, x, y) && (y != b || a == b)
    ensures NoPair(ReplaceUntilGone(s, [a, b], [b]), x, y)
    decreases |s|
  {
    if Contains(s, [a, b]) {
      ReplaceAllLength(s, [a, b], [b]);
      AllKeepsNoPair(s, a, b, Index(s, [a, b], 0), x, y);
      UntilGoneKeepsNoPair(ReplaceAll(s, [a, b], [b]), a, b, x, y);
    }
  }

  /** The normalisation of `GetCorrelatorConfig`, with the source's loops. */
  method NormalizeLoop(config: string) returns (r: string)
    ensures r == Normalize(config)
  {
    r := ReplaceAllLoop(config, ",", " ");
    r := ReplaceAllLoop(r, ";", " ");
    r := ReplaceAllLoop(r, "| ", "|");
    ghost var c3 := r;
    while Index(r, " (", 0) > -1
      invariant ReplaceUntilGone(r, " (", "(") == ReplaceUntilGone(c3, " (", "(")
      decreases |r|
    {
      ReplaceAllLength(r, " (", "(");
      r := ReplaceAllLoop(r, " (", "(");
    }
    ghost var c4 := r;
    while Index(r, "  ", 0) > -1
      invariant ReplaceUntilGone(r, "  ", " ") == ReplaceUntilGone(c4, "  ", " ")
      decreases |r|
    {
      ReplaceAllLength(r, "  ", " ");
      r := ReplaceAllLoop(r, "  ", " ");
    }
  }

  /** What `s_tokenize` leaves in its by-reference arguments, and what it returns. */
  datatype Token = Token(ok: bool, subs: string, spos: int)

  /**
   * `s_tokenize(instr, subs, spos, delim)`: from an in-range start, the text
   * up to the next delimiter (or to the end), with `spos` moved past that
   * delimiter; from a start out of range, failure with `spos = -1`.
   */
  function Tokenize(instr: string, spos: int, delim: string): (r: Token)
    ensures r.ok <==> 0 <= spos < |instr|
    ensures !r.ok ==> r.spos == -1 && r.subs == ""
    ensures r.ok ==> spos < r.spos <= |instr| + 1 && r.subs == instr[spos..r.spos - 1]
    ensures r.ok ==> r.spos - 1 == |instr| || MatchAt(instr, delim, r.spos - 1)
    ensures r.ok ==> forall k :: spos <= k < r.spos - 1 ==> !MatchAt(instr, delim, k)
  {
    if spos < 0 || spos >= |instr| then Token(false, "", -1)
    else
      var found := Index(instr, delim, spos);
      var lpos := if found < 0 then |instr| else found;
      Token(true, instr[spos..lpos], lpos + 1)
  }

  /**
   * `s.erase(pos, count)` with `int` arguments: a negative position is out of
   * range (the call throws, here `None`), and a negative count, once
   * converted to an unsigned size, erases to the end.
   */
  function Erase(s: string, pos: int, count: int): (r: Option<string>)
    ensures r.None? <==> pos < 0 || pos > |s|
    ensures r.Some? ==> pos <= |r.value| <= |s| && r.value[..pos] == s[..pos]
    ensures r.Some? && 0 <= count <= |s| - pos ==> r.value == s[..pos] + s[pos + count..]
    ensures r.Some? && (count < 0 || count > |s| - pos) ==> r.value == s[..pos]
  {
    if pos < 0 || pos > |s| then None
    else if count < 0 || count > |s| - pos then Some(s[..pos])
    else Some(s[..pos] + s[pos + count..])
  }

  // ---------------------------------------------------------------- std::stoi

  const IntMin: int := -0x8000_0000
  const IntMax: int := 0x7fff_ffff

  /** `isspace` in the C locale. */
  predicate IsSpace(c: char) {
    c == ' ' || ('\t' <= c <= '\r')
  }

  predicate IsDigit(c: char) {
    '0' <= c <= '9'
  }

  /** The number of characters from position i on that satisfy the test. */
  function SpaceRun(s: string, i: nat): (n: nat)
    requires i <= |s|
    ensures i + n <= |s|
    ensures forall k :: i <= k < i + n ==> IsSpace(s[k])
    ensures i + n == |s| || !IsSpace(s[i + n])
    decreases |s| - i
  {
    if i < |s| && IsSpace(s[i]) then 1 + SpaceRun(s, i + 1) else 0
  }

  function DigitRun(s: string, i: nat): (n: nat)
    requires i <= |s|
    ensures i + n <= |s|
    ensures forall k :: i <= k < i + n ==> IsDigit(s[k])
    ensures i + n == |s| || !IsDigit(s[i + n])
    decreases |s| - i
  {
    if i < |s| && IsDigit(s[i]) then 1 + DigitRun(s, i + 1) else 0
  }

  /** The value of a string of decimal digits, most significant first. */
  function DigitsValue(ds: string): nat
    decreases |ds|
  {
    if |ds| == 0 then 0
    else
      var d := ds[|ds| - 1] as int - '0' as int;
      DigitsValue(ds[..|ds| - 1]) * 10 + (if 0 <= d <= 9 then d else 0)
  }

  /**
   * `std::stoi(s)`: optional leading white space, an optional sign and at
   * least one decimal digit; anything after the digits is ignored. No digit,
   * or a value outside the 32-bit `int` range, makes `stoi` throw: `None`.
   */
  function Stoi(s: string): (r: Option<int>)
    ensures r.Some? ==> IntMin <= r.value <= IntMax
  {
    var i := SpaceRun(s, 0);
    var neg := i < |s| && s[i] == '-';
    var j := if i < |s| && (s[i] == '-' || s[i] == '+') then i + 1 else i;
    var n := DigitRun(s, j);
    if n == 0 then None
    else
      var v: int := DigitsValue(s[j..j + n]);
      var value := if neg then -v else v;
      if IntMin <= value <= IntMax then Some(value) else None
  }

  /** The decimal spelling of a natural number, without leading zeros. */
  function NatToString(n: nat): (r: string)
    ensures |r| >= 1 && forall k :: 0 <= k < |r| ==> IsDigit(r[k])
    ensures DigitsValue(r) == n
    decreases n
  {
    var d := ['0' + (n % 10) as char];
    if n < 10 then d
    else
      var r := NatToString(n / 10) + d;
      assert r[..|r| - 1] == NatToString(n / 10);
      r
  }

  /** The usual decimal spelling of an integer, with a leading '-' when it is negative. */
  function IntToString(x: int): string {
    if x < 0 then "-" + NatToString(-x) else NatToString(x)
  }

  /** A decimal spelling holds no space. */
  lemma IntToStringNoSpace(x: int)
    ensures ' ' !in IntToString(x) && |IntToString(x)| >= 1
  {
    var s := IntToString(x);
    var digits := NatToString(if x < 0 then -x else x);
    forall k | 0 <= k < |s|
      ensures s[k] != ' '
    {
      if x < 0 && k >= 1 {
        assert s[k] == digits[k - 1];
      }
    }
  }

  /** `stoi` reads back every 32-bit integer from its decimal spelling. */
  lemma StoiRoundTrip(x: int)
    requires IntMin <= x <= IntMax
    ensures Stoi(IntToString(x)) == Some(x)
  {
    var s := IntToString(x);
    var digits := NatToString(if x < 0 then -x else x);
    var j := if x < 0 then 1 else 0;
    assert s[j..] == digits;
    assert !IsSpace(s[0]);
    assert SpaceRun(s, 0) == 0;
    DigitRunToEnd(s, j);
    assert s[j..j + |digits|] == digits;
  }

  lemma {:induction false} DigitRunToEnd(s: string, j: nat)
    requires j <= |s|
    requires forall k :: j <= k < |s| ==> IsDigit(s[k])
    ensures DigitRun(s, j) == |s| - j
    decreases |s| - j
  {
    if j < |s| {
      DigitRunToEnd(s, j + 1);
    }
  }
}

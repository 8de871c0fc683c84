/**
 * The recursive correlator of GFW.cxx (`TwoRec` and both `RecursiveCorr`
 * overloads): a multi-particle correlator is computed from the power sums
 * of a POI, a REF and an optional overlap accumulator.
 *
 * `Correlator` is the functional definition of the recursion;
 * `RecursiveCorr` is the in-place algorithm of the source, which shortens,
 * edits and restores the caller's harmonic and power lists, and is proved to
 * return `Correlator` of its input and to leave the lists as it found them.
 */
module GfwCorrelator {
  import opened ComplexNum
  import opened Accumulator
  import opened Optional

  /** Two-particle term: POI(n1,p1) * REF(n2,p2) minus the overlap term when there is one. */
  function TwoRec(n1: int, n2: int, p1: int, p2: int, ptbin: int,
                  r1: Cumulant, r2: Cumulant, r3: Option<Cumulant>): Complex
  {
    var part1 := Vec(r1, n1, p1, ptbin);
    var part2 := Vec(r2, n2, p2, ptbin);
    var part3 := if r3.Some? then Vec(r3.value, n1 + n2, p1 + p2, ptbin) else Zero;
    Sub(Mul(part1, part2), part3)
  }

  /** Position j of the shortened list is folded into the next subtraction term. */
  predicate Skips(hars: seq<int>, pows: seq<int>, j: int)
    requires |hars| == |pows|
  {
    2 < j < |hars| && hars[j] == hars[j - 1] && pows[j] == pows[j - 1]
  }

  /** The value `RecursiveCorr(qpoi, qref, qol, ptbin, hars, pows)` returns. */
  function Correlator(qpoi: Cumulant, qref: Cumulant, qol: Option<Cumulant>, ptbin: int,
                      hars: seq<int>, pows: seq<int>): Complex
    requires |hars| == |pows| >= 1
    decreases |hars|, |hars|
  {
    // a POI entry whose power is not one is read from the overlap, if there is one
    var poi := if pows[0] != 1 && qol.Some? then qol.value else qpoi;
    if |hars| < 2 then Vec(poi, hars[0], pows[0], ptbin)
    else if |hars| < 3 then TwoRec(hars[0], hars[1], pows[0], pows[1], ptbin, poi, qref, qol)
    else
      var k := |hars| - 1;
      // the last factor is read with the accumulator's default bin, not ptbin
      var head := Mul(Correlator(poi, qref, qol, ptbin, hars[..k], pows[..k]),
                      VecDefaultBin(qref, hars[k], pows[k]));
      SubtractTerms(poi, qref, qol, ptbin, hars[..k], pows[..k], hars[k], pows[k], k, 1, head)
  }

  /** The correlator of the shortened list with the removed entry (harlast, powlast) merged into position j. */
  function Term(qpoi: Cumulant, qref: Cumulant, qol: Option<Cumulant>, ptbin: int,
                hars: seq<int>, pows: seq<int>, harlast: int, powlast: int, j: nat): Complex
    requires |hars| == |pows| && j < |hars|
    decreases |hars| + 1, 0
  {
    Correlator(qpoi, qref, qol, ptbin, hars[j := hars[j] + harlast], pows[j := pows[j] + powlast])
  }

  /**
   * The subtraction loop, over positions rem-1 down to 0, with the degeneracy
   * counter `deg`. The counter is one whenever at most two positions remain,
   * in particular when the loop ends.
   */
  function SubtractTerms(qpoi: Cumulant, qref: Cumulant, qol: Option<Cumulant>, ptbin: int,
                         hars: seq<int>, pows: seq<int>, harlast: int, powlast: int,
                         rem: nat, deg: int, acc: Complex): Complex
    requires |hars| == |pows| && rem <= |hars|
    requires deg >= 1 && (rem <= 2 ==> deg == 1)
    decreases |hars| + 1, rem
  {
    if rem == 0 then acc
    else
      var j := rem - 1;
      if Skips(hars, pows, j) then
        SubtractTerms(qpoi, qref, qol, ptbin, hars, pows, harlast, powlast, j, deg + 1, acc)
      else
        var t := Term(qpoi, qref, qol, ptbin, hars, pows, harlast, powlast, j);
        var scaled := if deg > 1 then Scale(t, deg) else t;
        SubtractTerms(qpoi, qref, qol, ptbin, hars, pows, harlast, powlast, j, 1, Sub(acc, scaled))
  }

  /** The general step of the recursion, for three entries or more. */
  lemma CorrelatorStep(qpoi: Cumulant, qref: Cumulant, qol: Option<Cumulant>, ptbin: int,
                       hars: seq<int>, pows: seq<int>)
    requires |hars| == |pows| >= 3
    ensures var poi := if pows[0] != 1 && qol.Some? then qol.value else qpoi;
      var k := |hars| - 1;
      Correlator(qpoi, qref, qol, ptbin, hars, pows)
      == SubtractTerms(poi, qref, qol, ptbin, hars[..k], pows[..k], hars[k], pows[k], k, 1,
                       Mul(Correlator(poi, qref, qol, ptbin, hars[..k], pows[..k]),
                           VecDefaultBin(qref, hars[k], pows[k])))
  {
  }

  /** One step of the subtraction loop. */
  lemma SubtractTermsStep(qpoi: Cumulant, qref: Cumulant, qol: Option<Cumulant>, ptbin: int,
                          hars: seq<int>, pows: seq<int>, harlast: int, powlast: int,
                          rem: nat, deg: int, acc: Complex)
    requires |hars| == |pows| && 1 <= rem <= |hars|
    requires deg >= 1 && (rem <= 2 ==> deg == 1)
    ensures Skips(hars, pows, rem - 1) ==>
      SubtractTerms(qpoi, qref, qol, ptbin, hars, pows, harlast, powlast, rem, deg, acc)
      == SubtractTerms(qpoi, qref, qol, ptbin, hars, pows, harlast, powlast, rem - 1, deg + 1, acc)
    ensures !Skips(hars, pows, rem - 1) ==>
      var t := Term(qpoi, qref, qol, ptbin, hars, pows, harlast, powlast, rem - 1);
      SubtractTerms(qpoi, qref, qol, ptbin, hars, pows, harlast, powlast, rem, deg, acc)
      == SubtractTerms(qpoi, qref, qol, ptbin, hars, pows, harlast, powlast, rem - 1, 1,
                       Sub(acc, if deg > 1 then Scale(t, deg) else t))
  {
  }

  /** A step of the subtraction loop that computes its term. */
  lemma SubtractTermsComputed(qpoi: Cumulant, qref: Cumulant, qol: Option<Cumulant>, ptbin: int,
                              hars: seq<int>, pows: seq<int>, harlast: int, powlast: int,
                              j: nat, deg: int, acc: Complex, t: Complex)
    requires |hars| == |pows| && j < |hars|
    requires deg >= 1 && (j <= 1 ==> deg == 1)
    requires !Skips(hars, pows, j)
    requires t == Correlator(qpoi, qref, qol, ptbin, hars[j := hars[j] + harlast], pows[j := pows[j] + powlast])
    ensures SubtractTerms(qpoi, qref, qol, ptbin, hars, pows, harlast, powlast, j + 1, deg, acc)
      == SubtractTerms(qpoi, qref, qol, ptbin, hars, pows, harlast, powlast, j, 1,
                       Sub(acc, if deg > 1 then Scale(t, deg) else t))
  {
  }

  /** The subtraction loop without degeneracy collapsing: every position is computed. */
  function NaiveSubtractTerms(qpoi: Cumulant, qref: Cumulant, qol: Option<Cumulant>, ptbin: int,
                              hars: seq<int>, pows: seq<int>, harlast: int, powlast: int,
                              rem: nat, acc: Complex): Complex
    requires |hars| == |pows| && rem <= |hars|
  {
    if rem == 0 then acc
    else
      var t := Term(qpoi, qref, qol, ptbin, hars, pows, harlast, powlast, rem - 1);
      NaiveSubtractTerms(qpoi, qref, qol, ptbin, hars, pows, harlast, powlast, rem - 1, Sub(acc, t))
  }

  lemma UpdateUndone(s: seq<int>, i: nat, d: int)
    requires i < |s|
    ensures var m := s[i := s[i] + d]; m[i := m[i] - d] == s
  {
  }

  function Ones(n: nat): (r: seq<int>)
    ensures |r| == n && forall i :: 0 <= i < n ==> r[i] == 1
  {
    seq(n, _ => 1)
  }

  /** A list the source edits and restores in place (`vector<int>&`). */
  class IntVector {
    var elems: seq<int>

    constructor (s: seq<int>)
      ensures elems == s
    {
      elems := s;
    }
  }

  /**
   * `RecursiveCorr(qpoi, qref, qol, ptbin, hars, pows)`: erases the last entry of
   * both lists, recurses, merges the removed entry into each remaining position
   * in turn (recursing on each), and restores both lists before returning.
   */
  method RecursiveCorr(qpoi: Cumulant, qref: Cumulant, qol: Option<Cumulant>, ptbin: int,
                       hars: IntVector, pows: IntVector) returns (r: Complex)
    requires hars != pows
    requires |hars.elems| == |pows.elems| >= 1
    modifies hars, pows
    ensures hars.elems == old(hars.elems) && pows.elems == old(pows.elems)
    ensures r == Correlator(qpoi, qref, qol, ptbin, old(hars.elems), old(pows.elems))
    decreases |hars.elems|, 1
  {
    var poi := qpoi;
    if pows.elems[0] != 1 && qol.Some? {
      poi := qol.value;
    }
    if |hars.elems| < 2 {
      return Vec(poi, hars.elems[0], pows.elems[0], ptbin);
    }
    if |hars.elems| < 3 {
      return TwoRec(hars.elems[0], hars.elems[1], pows.elems[0], pows.elems[1], ptbin, poi, qref, qol);
    }
    var harlast := hars.elems[|hars.elems| - 1];
    var powlast := pows.elems[|pows.elems| - 1];
    hars.elems := hars.elems[..|hars.elems| - 1];
    pows.elems := pows.elems[..|pows.elems| - 1];
    var formula := RecursiveCorr(poi, qref, qol, ptbin, hars, pows);
    formula := Mul(formula, VecDefaultBin(qref, harlast, powlast));
    formula := SubtractLoop(poi, qref, qol, ptbin, hars, pows, harlast, powlast, formula);
    hars.elems := hars.elems + [harlast];
    pows.elems := pows.elems + [powlast];
    r := formula;
    CorrelatorStep(qpoi, qref, qol, ptbin, old(hars.elems), old(pows.elems));
  }

  /**
   * The loop of `RecursiveCorr` over positions |hars|-1 down to 0 of the
   * shortened lists, starting from `formula`.
   */
  method SubtractLoop(poi: Cumulant, qref: Cumulant, qol: Option<Cumulant>, ptbin: int,
                      hars: IntVector, pows: IntVector, harlast: int, powlast: int,
                      formula0: Complex) returns (formula: Complex)
    requires hars != pows
    requires |hars.elems| == |pows.elems| >= 2
    modifies hars, pows
    ensures hars.elems == old(hars.elems) && pows.elems == old(pows.elems)
    ensures formula == SubtractTerms(poi, qref, qol, ptbin, old(hars.elems), old(pows.elems),
                                     harlast, powlast, |old(hars.elems)|, 1, formula0)
    decreases |hars.elems| + 1, 0
  {
    ghost var h, p := hars.elems, pows.elems;
    formula := formula0;
    var degeneracy := 1;
    var harSize := |hars.elems|;
    var i := harSize - 1;
    while i >= 0
      invariant -1 <= i < harSize
      invariant hars.elems == h && pows.elems == p
      invariant degeneracy >= 1 && (i <= 1 ==> degeneracy == 1)
      invariant SubtractTerms(poi, qref, qol, ptbin, h, p, harlast, powlast, i + 1, degeneracy, formula)
             == SubtractTerms(poi, qref, qol, ptbin, h, p, harlast, powlast, harSize, 1, formula0)
      decreases i
    {
      if i > 2 && hars.elems[i] == hars.elems[i - 1] && pows.elems[i] == pows.elems[i - 1] {
        SubtractTermsStep(poi, qref, qol, ptbin, h, p, harlast, powlast, i + 1, degeneracy, formula);
        degeneracy := degeneracy + 1;
      } else {
        var subtractVal := MergedTerm(poi, qref, qol, ptbin, hars, pows, harlast, powlast, i);
        SubtractTermsComputed(poi, qref, qol, ptbin, h, p, harlast, powlast, i, degeneracy, formula, subtractVal);
        if degeneracy > 1 {
          subtractVal := Scale(subtractVal, degeneracy);
          degeneracy := 1;
        }
        formula := Sub(formula, subtractVal);
      }
      i := i - 1;
    }
  }

  /**
   * One step of the loop of `RecursiveCorr`: adds the removed entry into
   * position i of both lists, recurses, and subtracts it back out.
   */
  method MergedTerm(poi: Cumulant, qref: Cumulant, qol: Option<Cumulant>, ptbin: int,
                    hars: IntVector, pows: IntVector, harlast: int, powlast: int, i: nat) returns (t: Complex)
    requires hars != pows
    requires i < |hars.elems| == |pows.elems|
    modifies hars, pows
    ensures hars.elems == old(hars.elems) && pows.elems == old(pows.elems)
    ensures t == Term(poi, qref, qol, ptbin, old(hars.elems), old(pows.elems), harlast, powlast, i)
    decreases |hars.elems|, 2
  {
    ghost var h, p := hars.elems, pows.elems;
    hars.elems := hars.elems[i := hars.elems[i] + harlast];
    pows.elems := pows.elems[i := pows.elems[i] + powlast];
    t := RecursiveCorr(poi, qref, qol, ptbin, hars, pows);
    UpdateUndone(h, i, harlast);
    UpdateUndone(p, i, powlast);
    hars.elems := hars.elems[i := hars.elems[i] - harlast];
    pows.elems := pows.elems[i := pows.elems[i] - powlast];
  }

  /** `RecursiveCorr(qpoi, qref, qol, ptbin, hars)`: every power is one. */
  method RecursiveCorrUnitPowers(qpoi: Cumulant, qref: Cumulant, qol: Option<Cumulant>, ptbin: int,
                                 hars: IntVector) returns (r: Complex)
    requires |hars.elems| >= 1
    modifies hars
    ensures hars.elems == old(hars.elems)
    ensures r == Correlator(qpoi, qref, qol, ptbin, old(hars.elems), Ones(|old(hars.elems)|))
  {
    var pows := new IntVector([]);
    var i := 0;
    while i < |hars.elems|
      invariant 0 <= i <= |hars.elems|
      invariant hars.elems == old(hars.elems)
      invariant pows.elems == Ones(i)
    {
      pows.elems := pows.elems + [1];
      i := i + 1;
    }
    r := RecursiveCorr(qpoi, qref, qol, ptbin, hars, pows);
  }

  /** One entry: the POI value, read from the overlap when the power is not one and there is an overlap. */
  lemma CorrelatorSingle(qpoi: Cumulant, qref: Cumulant, qol: Option<Cumulant>, ptbin: int,
                         hars: seq<int>, pows: seq<int>)
    requires |hars| == |pows| == 1
    ensures Correlator(qpoi, qref, qol, ptbin, hars, pows)
         == Vec(if pows[0] != 1 && qol.Some? then qol.value else qpoi, hars[0], pows[0], ptbin)
  {
  }

  /** Two entries: POI times REF, less the overlap at the summed harmonic and power. */
  lemma CorrelatorPair(qpoi: Cumulant, qref: Cumulant, qol: Option<Cumulant>, ptbin: int,
                       hars: seq<int>, pows: seq<int>)
    requires |hars| == |pows| == 2
    ensures var poi := if pows[0] != 1 && qol.Some? then qol.value else qpoi;
      Correlator(qpoi, qref, qol, ptbin, hars, pows)
      == Sub(Mul(Vec(poi, hars[0], pows[0], ptbin), Vec(qref, hars[1], pows[1], ptbin)),
             if qol.Some? then Vec(qol.value, hars[0] + hars[1], pows[0] + pows[1], ptbin) else Zero)
  {
  }

  /**
   * Degeneracy collapsing computes the plain sum of all subtraction terms
   * whenever each skipped position's term equals its lower neighbour's term
   * (the two merged lists differ only by exchanging two equal neighbours).
   */
  lemma {:induction false} CollapseSound(qpoi: Cumulant, qref: Cumulant, qol: Option<Cumulant>, ptbin: int,
                                         hars: seq<int>, pows: seq<int>, harlast: int, powlast: int,
                                         rem: nat, deg: int, acc: Complex)
    requires |hars| == |pows| && rem <= |hars|
    requires deg >= 1 && (rem <= 2 ==> deg == 1)
    requires forall j :: 0 < j < rem && Skips(hars, pows, j) ==>
      Term(qpoi, qref, qol, ptbin, hars, pows, harlast, powlast, j)
      == Term(qpoi, qref, qol, ptbin, hars, pows, harlast, powlast, j - 1)
    ensures SubtractTerms(qpoi, qref, qol, ptbin, hars, pows, harlast, powlast, rem, deg, acc)
      == NaiveSubtractTerms(qpoi, qref, qol, ptbin, hars, pows, harlast, powlast, rem,
           if rem == 0 then acc
           else Sub(acc, Scale(Term(qpoi, qref, qol, ptbin, hars, pows, harlast, powlast, rem - 1), deg - 1)))
    decreases rem, 1
  {
    if rem > 0 {
      var j := rem - 1;
      var t := Term(qpoi, qref, qol, ptbin, hars, pows, harlast, powlast, j);
      if Skips(hars, pows, j) {
        CollapseSkipped(qpoi, qref, qol, ptbin, hars, pows, harlast, powlast, rem, deg, acc);
      } else {
        CollapseComputed(qpoi, qref, qol, ptbin, hars, pows, harlast, powlast, rem, deg, acc);
      }
    }
  }

  /** CollapseSound at a skipped position. */
  lemma {:induction false} CollapseSkipped(qpoi: Cumulant, qref: Cumulant, qol: Option<Cumulant>, ptbin: int,
                                           hars: seq<int>, pows: seq<int>, harlast: int, powlast: int,
                                           rem: nat, deg: int, acc: Complex)
    requires |hars| == |pows| && 0 < rem <= |hars|
    requires deg >= 1 && Skips(hars, pows, rem - 1)
    requires forall j :: 0 < j < rem && Skips(hars, pows, j) ==>
      Term(qpoi, qref, qol, ptbin, hars, pows, harlast, powlast, j)
      == Term(qpoi, qref, qol, ptbin, hars, pows, harlast, powlast, j - 1)
    ensures SubtractTerms(qpoi, qref, qol, ptbin, hars, pows, harlast, powlast, rem, deg, acc)
      == NaiveSubtractTerms(qpoi, qref, qol, ptbin, hars, pows, harlast, powlast, rem,
           Sub(acc, Scale(Term(qpoi, qref, qol, ptbin, hars, pows, harlast, powlast, rem - 1), deg - 1)))
    decreases rem, 0
  {
    var j := rem - 1;
    var t := Term(qpoi, qref, qol, ptbin, hars, pows, harlast, powlast, j);
    CollapseSound(qpoi, qref, qol, ptbin, hars, pows, harlast, powlast, j, deg + 1, acc);
    SubScaled(acc, t, deg);
  }

  /** CollapseSound at a computed position. */
  lemma {:induction false} CollapseComputed(qpoi: Cumulant, qref: Cumulant, qol: Option<Cumulant>, ptbin: int,
                                            hars: seq<int>, pows: seq<int>, harlast: int, powlast: int,
                                            rem: nat, deg: int, acc: Complex)
    requires |hars| == |pows| && 0 < rem <= |hars|
    requires deg >= 1 && (rem <= 2 ==> deg == 1) && !Skips(hars, pows, rem - 1)
    requires forall j :: 0 < j < rem && Skips(hars, pows, j) ==>
      Term(qpoi, qref, qol, ptbin, hars, pows, harlast, powlast, j)
      == Term(qpoi, qref, qol, ptbin, hars, pows, harlast, powlast, j - 1)
    ensures SubtractTerms(qpoi, qref, qol, ptbin, hars, pows, harlast, powlast, rem, deg, acc)
      == NaiveSubtractTerms(qpoi, qref, qol, ptbin, hars, pows, harlast, powlast, rem,
           Sub(acc, Scale(Term(qpoi, qref, qol, ptbin, hars, pows, harlast, powlast, rem - 1), deg - 1)))
    decreases rem, 0
  {
    var j := rem - 1;
    var t := Term(qpoi, qref, qol, ptbin, hars, pows, harlast, powlast, j);
    var scaled := if deg > 1 then Scale(t, deg) else t;
    ScaleOne(t);
    SubScaled(acc, t, deg);
    CollapseSound(qpoi, qref, qol, ptbin, hars, pows, harlast, powlast, j, 1, Sub(acc, scaled));
    if j > 0 {
      SubScaledZero(Sub(acc, scaled), Term(qpoi, qref, qol, ptbin, hars, pows, harlast, powlast, j - 1));
    }
  }

  /**
   * For three entries or more, the correlator equals the un-collapsed
   * recursion step whenever exchanging equal neighbours of the shortened
   * list does not change the merged terms.
   */
  lemma CorrelatorUncollapsed(qpoi: Cumulant, qref: Cumulant, qol: Option<Cumulant>, ptbin: int,
                              hars: seq<int>, pows: seq<int>)
    requires |hars| == |pows| >= 3
    requires var poi := if pows[0] != 1 && qol.Some? then qol.value else qpoi;
      var k := |hars| - 1;
      forall j :: 0 < j < k && Skips(hars[..k], pows[..k], j) ==>
        Term(poi, qref, qol, ptbin, hars[..k], pows[..k], hars[k], pows[k], j)
        == Term(poi, qref, qol, ptbin, hars[..k], pows[..k], hars[k], pows[k], j - 1)
    ensures var poi := if pows[0] != 1 && qol.Some? then qol.value else qpoi;
      var k := |hars| - 1;
      Correlator(qpoi, qref, qol, ptbin, hars, pows)
      == NaiveSubtractTerms(poi, qref, qol, ptbin, hars[..k], pows[..k], hars[k], pows[k], k,
           Mul(Correlator(poi, qref, qol, ptbin, hars[..k], pows[..k]), VecDefaultBin(qref, hars[k], pows[k])))
  {
    var poi := if pows[0] != 1 && qol.Some? then qol.value else qpoi;
    var k := |hars| - 1;
    var head := Mul(Correlator(poi, qref, qol, ptbin, hars[..k], pows[..k]), VecDefaultBin(qref, hars[k], pows[k]));
    CorrelatorStep(qpoi, qref, qol, ptbin, hars, pows);
    CollapseSound(poi, qref, qol, ptbin, hars[..k], pows[..k], hars[k], pows[k], k, 1, head);
    var t := Term(poi, qref, qol, ptbin, hars[..k], pows[..k], hars[k], pows[k], k - 1);
    assert Sub(head, Scale(t, 0)) == head;
  }

  /** n (n-1) ... (n-k+1): the number of ordered k-tuples of distinct items out of n. */
  function Falling(n: real, k: nat): real {
    if k == 0 then 1.0 else Falling(n, k - 1) * (n - (k - 1) as real)
  }

  /** An accumulator whose every power sum is n: unit weights and harmonic zero over n particles. */
  ghost predicate Uniform(q: Cumulant, n: real) {
    forall h, p, b :: q.vec(h, p, b) == Complex(n, 0.0)
  }

  /**
   * With one region as POI, REF and overlap and every power sum equal to the
   * particle count n, the correlator is n (n-1) ... (n-k+1): the number of
   * ordered k-tuples of distinct particles, whatever the harmonics and powers.
   */
  lemma {:induction false} CountingCorrelator(q: Cumulant, n: real, ptbin: int, hars: seq<int>, pows: seq<int>)
    requires Uniform(q, n)
    requires |hars| == |pows| >= 1
    ensures Correlator(q, q, Some(q), ptbin, hars, pows) == Complex(Falling(n, |hars|), 0.0)
    decreases |hars|, |hars|
  {
    if |hars| == 1 {
      assert Falling(n, 1) == n;
    } else if |hars| == 2 {
      assert Falling(n, 1) == n;
      assert Falling(n, 2) == n * (n - 1.0);
      MulReal(n, n);
      SubRealFactor(n, n, 1.0);
    } else {
      var k := |hars| - 1;
      var f := Falling(n, k);
      CountingCorrelator(q, n, ptbin, hars[..k], pows[..k]);
      var head := Mul(Correlator(q, q, Some(q), ptbin, hars[..k], pows[..k]), VecDefaultBin(q, hars[k], pows[k]));
      MulReal(f, n);
      assert head == Complex(f * n, 0.0);
      CountingSubtract(q, n, ptbin, hars[..k], pows[..k], hars[k], pows[k], k, 1, head);
      CorrelatorStep(q, q, Some(q), ptbin, hars, pows);
      ScaleReal(f, k);
      SubRealFactor(f, n, k as real);
      assert Falling(n, |hars|) == f * (n - k as real);
    }
  }

  /** Every subtraction term of the counting correlator is the same falling factorial. */
  lemma {:induction false} CountingSubtract(q: Cumulant, n: real, ptbin: int, hars: seq<int>, pows: seq<int>,
                                            harlast: int, powlast: int, rem: nat, deg: int, acc: Complex)
    requires Uniform(q, n)
    requires |hars| == |pows| && rem <= |hars|
    requires deg >= 1 && (rem <= 2 ==> deg == 1)
    ensures SubtractTerms(q, q, Some(q), ptbin, hars, pows, harlast, powlast, rem, deg, acc)
      == if rem == 0 then acc else Sub(acc, Scale(Complex(Falling(n, |hars|), 0.0), rem + deg - 1))
    decreases |hars| + 1, rem
  {
    if rem > 0 {
      var j := rem - 1;
      var t := Complex(Falling(n, |hars|), 0.0);
      CountingCorrelator(q, n, ptbin, hars[j := hars[j] + harlast], pows[j := pows[j] + powlast]);
      assert Term(q, q, Some(q), ptbin, hars, pows, harlast, powlast, j) == t;
      SubtractTermsStep(q, q, Some(q), ptbin, hars, pows, harlast, powlast, rem, deg, acc);
      if Skips(hars, pows, j) {
        CountingSubtract(q, n, ptbin, hars, pows, harlast, powlast, j, deg + 1, acc);
      } else {
        var scaled := if deg > 1 then Scale(t, deg) else t;
        ScaleOne(t);
        assert scaled == Scale(t, deg);
        CountingSubtract(q, n, ptbin, hars, pows, harlast, powlast, j, 1, Sub(acc, scaled));
        if j > 0 {
          SubScaledTwice(acc, t, deg, j);
        }
      }
    }
  }
}

/**
 * Evaluation of a compiled correlator description (`GFW::Calculate` with a
 * `CorrConfig`) and the two direct `Calculate` wrappers.
 *
 * The accumulators of the registry are passed in as the sequence `qs`
 * (index i is the accumulator of region i). A `vector::at` out of range or
 * an access to the first power of an empty harmonic list throws in the
 * source; here it makes the result `None`.
 */
module Evaluate {
  import opened ComplexNum
  import opened Accumulator
  import opened Optional
  import opened GfwTypes
  import opened GfwCorrelator

  /** What one subevent contributes: an exception, an early (0,0) for the whole product, or a factor. */
  datatype Outcome = Thrown | Short | Factor(c: Complex)

  /** n zeros: the harmonics of a subevent after `SetHarmsToZero`. */
  function Zeros(n: nat): (r: seq<int>)
    ensures |r| == n && forall i :: 0 <= i < n ==> r[i] == 0
  {
    seq(n, _ => 0)
  }

  /**
   * Subevent i of `Calculate(corconf, ptbin, SetHarmsToZero, DisableOverlap)`,
   * with every check in the order the source makes it.
   */
  function SubeventOutcome(qs: seq<Cumulant>, conf: CorrConfig, i: nat, ptbin: int,
                           zeroHars: bool, noOverlap: bool): Outcome
    requires i < |conf.Regs|
  {
    var regs := conf.Regs[i];
    if |regs| == 0 then Short
    else if i >= |conf.ptInd| then Thrown
    else
      // a pinned bin wins over the caller's bin
      var bin := if conf.ptInd[i] < 0 then ptbin else conf.ptInd[i];
      var poi := regs[0];
      var ref := if |regs| > 1 then regs[1] else regs[0];
      if i >= |conf.Overlap| then Thrown
      else if !(0 <= ref < |qs|) || !(0 <= poi < |qs|) then Thrown
      else if !qs[ref].filled(bin) || !qs[poi].filled(bin) then Short
      else if i >= |conf.Hars| then Thrown
      else
        // one particle fewer is needed when POI and REF differ
        var need := if poi != ref then |conf.Hars[i]| - 1 else |conf.Hars[i]|;
        if qs[ref].count < need then Short
        else
          var ovl := conf.Overlap[i];
          if ovl > -1 && !noOverlap && ovl >= |qs| then Thrown
          else
            var qovl := if ovl > -1 then (if noOverlap then None else Some(qs[ovl]))
                        else if ref == poi then Some(qs[ref])
                        else None;
            if |conf.Hars[i]| == 0 then Thrown
            else
              var hars := if zeroHars then Zeros(|conf.Hars[i]|) else conf.Hars[i];
              Factor(Correlator(qs[poi], qs[ref], qovl, bin, hars, Ones(|hars|)))
  }

  /** The product loop from subevent i on, with the running product `acc`. */
  function EvaluateFrom(qs: seq<Cumulant>, conf: CorrConfig, ptbin: int, zeroHars: bool, noOverlap: bool,
                        i: nat, acc: Complex): Option<Complex>
    requires i <= |conf.Regs|
    decreases |conf.Regs| - i
  {
    if i == |conf.Regs| then Some(acc)
    else match SubeventOutcome(qs, conf, i, ptbin, zeroHars, noOverlap)
      case Thrown => None
      case Short => Some(Zero)
      case Factor(c) => EvaluateFrom(qs, conf, ptbin, zeroHars, noOverlap, i + 1, Mul(acc, c))
  }

  /** The value `Calculate(corconf, ptbin, SetHarmsToZero, DisableOverlap)` returns, or None if it throws. */
  function Evaluate(qs: seq<Cumulant>, conf: CorrConfig, ptbin: int, zeroHars: bool, noOverlap: bool): Option<Complex> {
    if |conf.Regs| == 0 then Some(Zero)
    else EvaluateFrom(qs, conf, ptbin, zeroHars, noOverlap, 0, One)
  }

  /** (1,0) times c0 times c1 ..., multiplied from the left as the source does. */
  function Product(cs: seq<Complex>): Complex {
    if |cs| == 0 then One else Mul(Product(cs[..|cs| - 1]), cs[|cs| - 1])
  }

  /**
   * `Calculate(corconf, ptbin, SetHarmsToZero, DisableOverlap)`: loops over the
   * subevents, returns (0,0) at the first short-circuit, zeroes the harmonics
   * of its own copy when asked, and multiplies the subevent correlators.
   */
  method Calculate(qs: seq<Cumulant>, corconf: CorrConfig, ptbin: int,
                   setHarmsToZero: bool, disableOverlap: bool) returns (r: Option<Complex>)
    ensures r == Evaluate(qs, corconf, ptbin, setHarmsToZero, disableOverlap)
  {
    if |corconf.Regs| == 0 {
      return Some(Zero);
    }
    var retval := One;
    var i := 0;
    while i < |corconf.Regs|
      invariant 0 <= i <= |corconf.Regs|
      invariant EvaluateFrom(qs, corconf, ptbin, setHarmsToZero, disableOverlap, i, retval)
             == Evaluate(qs, corconf, ptbin, setHarmsToZero, disableOverlap)
    {
      if |corconf.Regs[i]| == 0 {
        return Some(Zero);
      }
      if i >= |corconf.ptInd| {
        return None;
      }
      var ptInd := corconf.ptInd[i];
      if ptInd < 0 {
        ptInd := ptbin;
      }
      var poi := corconf.Regs[i][0];
      var ref := if |corconf.Regs[i]| > 1 then corconf.Regs[i][1] else corconf.Regs[i][0];
      if i >= |corconf.Overlap| {
        return None;
      }
      var ovl := corconf.Overlap[i];
      if !(0 <= ref < |qs|) || !(0 <= poi < |qs|) {
        return None;
      }
      var qref := qs[ref];
      var qpoi := qs[poi];
      if !qref.filled(ptInd) {
        return Some(Zero);
      }
      if !qpoi.filled(ptInd) {
        return Some(Zero);
      }
      var qovl: Option<Cumulant> := None;
      if i >= |corconf.Hars| {
        return None;
      }
      var sz1 := |corconf.Hars[i]|;
      if poi != ref {
        sz1 := sz1 - 1;
      }
      if qref.count < sz1 {
        return Some(Zero);
      }
      if ovl > -1 {
        if !disableOverlap {
          if ovl >= |qs| {
            return None;
          }
          qovl := Some(qs[ovl]);
        }
      } else if ref == poi {
        qovl := Some(qref);
      }
      var hars := new IntVector(corconf.Hars[i]);
      if setHarmsToZero {
        ZeroAll(hars);
      }
      if |hars.elems| == 0 {
        return None;
      }
      var c := RecursiveCorrUnitPowers(qpoi, qref, qovl, ptInd, hars);
      retval := Mul(retval, c);
      i := i + 1;
    }
    return Some(retval);
  }

  /** The `SetHarmsToZero` loop: every harmonic of the list becomes zero. */
  method ZeroAll(hars: IntVector)
    modifies hars
    ensures hars.elems == Zeros(|old(hars.elems)|)
  {
    var j := 0;
    while j < |hars.elems|
      invariant 0 <= j <= |hars.elems| == |old(hars.elems)|
      invariant forall k :: 0 <= k < j ==> hars.elems[k] == 0
    {
      hars.elems := hars.elems[j := 0];
      j := j + 1;
    }
  }

  /**
   * `Calculate(poi, ref, hars, ptbin)`: the POI doubles as the overlap. Throws
   * when an index is out of range or the harmonic list is empty.
   */
  method CalculatePair(qs: seq<Cumulant>, poi: int, ref: int, hars: seq<int>, ptbin: int := 0)
    returns (r: Option<Complex>)
    ensures r.Some? <==> 0 <= ref < |qs| && 0 <= poi < |qs| && |hars| >= 1
    ensures r.Some? ==> r.value == Correlator(qs[poi], qs[ref], Some(qs[poi]), ptbin, hars, Ones(|hars|))
  {
    if !(0 <= ref < |qs|) || !(0 <= poi < |qs|) || |hars| == 0 {
      return None;
    }
    var qref := qs[ref];
    var qpoi := qs[poi];
    var qovl := Some(qpoi);
    var h := new IntVector(hars);
    var c := RecursiveCorrUnitPowers(qpoi, qref, qovl, ptbin, h);
    return Some(c);
  }

  /** `Calculate(poi, hars)`: one region as POI, REF and overlap, in bin 0. */
  method CalculateIntegrated(qs: seq<Cumulant>, poi: int, hars: seq<int>) returns (r: Option<Complex>)
    ensures r.Some? <==> 0 <= poi < |qs| && |hars| >= 1
    ensures r.Some? ==> r.value == Correlator(qs[poi], qs[poi], Some(qs[poi]), 0, hars, Ones(|hars|))
  {
    if !(0 <= poi < |qs|) || |hars| == 0 {
      return None;
    }
    var qpoi := qs[poi];
    var h := new IntVector(hars);
    var c := RecursiveCorrUnitPowers(qpoi, qpoi, Some(qpoi), 0, h);
    return Some(c);
  }

  // ---------------------------------------------------------------------------
  // Properties of the evaluation
  // ---------------------------------------------------------------------------

  /** Once a subevent short-circuits, the result is (0,0) whatever the product so far. */
  lemma {:induction false} ShortCircuitFrom(qs: seq<Cumulant>, conf: CorrConfig, ptbin: int, z: bool, d: bool,
                                            i: nat, j: nat, acc: Complex)
    requires i <= j < |conf.Regs|
    requires forall k :: i <= k < j ==> SubeventOutcome(qs, conf, k, ptbin, z, d).Factor?
    requires SubeventOutcome(qs, conf, j, ptbin, z, d) == Short
    ensures EvaluateFrom(qs, conf, ptbin, z, d, i, acc) == Some(Zero)
    decreases j - i
  {
    if i < j {
      var c := SubeventOutcome(qs, conf, i, ptbin, z, d).c;
      ShortCircuitFrom(qs, conf, ptbin, z, d, i + 1, j, Mul(acc, c));
    }
  }

  /**
   * The short-circuits: when every earlier subevent yields a factor and
   * subevent j has no region, an unfilled REF or POI bin, or too few REF
   * particles, `Calculate` returns exactly (0,0).
   */
  lemma ShortCircuit(qs: seq<Cumulant>, conf: CorrConfig, ptbin: int, z: bool, d: bool, j: nat)
    requires j < |conf.Regs|
    requires forall k :: 0 <= k < j ==> SubeventOutcome(qs, conf, k, ptbin, z, d).Factor?
    requires SubeventOutcome(qs, conf, j, ptbin, z, d) == Short
    ensures Evaluate(qs, conf, ptbin, z, d) == Some(Zero)
  {
    ShortCircuitFrom(qs, conf, ptbin, z, d, 0, j, One);
  }

  /**
   * When the subevent's lists are readable, it short-circuits exactly when it
   * has no region, the REF or POI bin (the pinned one if any) is unfilled, or
   * REF holds fewer particles than harmonics (one fewer when POI and REF differ).
   */
  lemma ShortCases(qs: seq<Cumulant>, conf: CorrConfig, i: nat, ptbin: int, z: bool, d: bool)
    requires i < |conf.Regs| && i < |conf.ptInd| && i < |conf.Overlap| && i < |conf.Hars|
    requires forall k :: 0 <= k < |conf.Regs[i]| ==> 0 <= conf.Regs[i][k] < |qs|
    ensures var regs := conf.Regs[i];
      SubeventOutcome(qs, conf, i, ptbin, z, d) == Short <==>
        |regs| == 0 ||
        (var bin := if conf.ptInd[i] >= 0 then conf.ptInd[i] else ptbin;
         var ref := if |regs| >= 2 then regs[1] else regs[0];
         !qs[ref].filled(bin) || !qs[regs[0]].filled(bin) ||
         qs[ref].count + (if ref == regs[0] then 0 else 1) < |conf.Hars[i]|)
  {
  }

  /** A thrown exception ends the evaluation. */
  lemma {:induction false} ThrowFrom(qs: seq<Cumulant>, conf: CorrConfig, ptbin: int, z: bool, d: bool,
                                     i: nat, j: nat, acc: Complex)
    requires i <= j < |conf.Regs|
    requires forall k :: i <= k < j ==> SubeventOutcome(qs, conf, k, ptbin, z, d).Factor?
    requires SubeventOutcome(qs, conf, j, ptbin, z, d) == Thrown
    ensures EvaluateFrom(qs, conf, ptbin, z, d, i, acc) == None
    decreases j - i
  {
    if i < j {
      var c := SubeventOutcome(qs, conf, i, ptbin, z, d).c;
      ThrowFrom(qs, conf, ptbin, z, d, i + 1, j, Mul(acc, c));
    }
  }

  /** The loop from subevent i multiplies the remaining factors onto `Product(cs[..i])`. */
  lemma {:induction false} ProductFrom(qs: seq<Cumulant>, conf: CorrConfig, ptbin: int, z: bool, d: bool,
                                       cs: seq<Complex>, i: nat)
    requires i <= |conf.Regs| == |cs|
    requires forall k :: 0 <= k < |cs| ==> SubeventOutcome(qs, conf, k, ptbin, z, d) == Factor(cs[k])
    ensures EvaluateFrom(qs, conf, ptbin, z, d, i, Product(cs[..i])) == Some(Product(cs))
    decreases |cs| - i
  {
    if i == |cs| {
      assert cs[..i] == cs;
    } else {
      assert cs[..i + 1][..i] == cs[..i];
      assert Product(cs[..i + 1]) == Mul(Product(cs[..i]), cs[i]);
      ProductFrom(qs, conf, ptbin, z, d, cs, i + 1);
    }
  }

  /**
   * When every subevent yields a factor, `Calculate` returns (1,0) times the
   * product of the subevent correlators; an empty description gives (0,0),
   * not the empty product.
   */
  lemma EvaluateIsProduct(qs: seq<Cumulant>, conf: CorrConfig, ptbin: int, z: bool, d: bool, cs: seq<Complex>)
    requires |conf.Regs| == |cs| >= 1
    requires forall k :: 0 <= k < |cs| ==> SubeventOutcome(qs, conf, k, ptbin, z, d) == Factor(cs[k])
    ensures Evaluate(qs, conf, ptbin, z, d) == Some(Product(cs))
  {
    assert cs[..0] == [];
    ProductFrom(qs, conf, ptbin, z, d, cs, 0);
  }

  /** Two evaluations whose subevents all agree give the same result. */
  lemma {:induction false} SameOutcomes(qs: seq<Cumulant>, c1: CorrConfig, p1: int, z1: bool, d1: bool,
                                        c2: CorrConfig, p2: int, z2: bool, d2: bool, i: nat, acc: Complex)
    requires |c1.Regs| == |c2.Regs| && i <= |c1.Regs|
    requires forall k :: i <= k < |c1.Regs| ==>
      SubeventOutcome(qs, c1, k, p1, z1, d1) == SubeventOutcome(qs, c2, k, p2, z2, d2)
    ensures EvaluateFrom(qs, c1, p1, z1, d1, i, acc) == EvaluateFrom(qs, c2, p2, z2, d2, i, acc)
    decreases |c1.Regs| - i
  {
    if i < |c1.Regs| {
      match SubeventOutcome(qs, c1, i, p1, z1, d1)
      case Thrown =>
      case Short =>
      case Factor(c) =>
        SameOutcomes(qs, c1, p1, z1, d1, c2, p2, z2, d2, i + 1, Mul(acc, c));
    }
  }

  /**
   * With `SetHarmsToZero`, the result depends on the harmonics only through
   * how many each subevent has.
   */
  lemma ZeroedHarmonicsCountOnly(qs: seq<Cumulant>, c1: CorrConfig, c2: CorrConfig, ptbin: int, d: bool)
    requires c1.Regs == c2.Regs && c1.Overlap == c2.Overlap && c1.ptInd == c2.ptInd
    requires |c1.Hars| == |c2.Hars|
    requires forall k :: 0 <= k < |c1.Hars| ==> |c1.Hars[k]| == |c2.Hars[k]|
    ensures Evaluate(qs, c1, ptbin, true, d) == Evaluate(qs, c2, ptbin, true, d)
  {
    if |c1.Regs| > 0 {
      SameOutcomes(qs, c1, ptbin, true, d, c2, ptbin, true, d, 0, One);
    }
  }

  /** `DisableOverlap` changes nothing when no subevent names an overlap region. */
  lemma DisableOverlapUnused(qs: seq<Cumulant>, conf: CorrConfig, ptbin: int, z: bool)
    requires forall k :: 0 <= k < |conf.Overlap| ==> conf.Overlap[k] == -1
    ensures Evaluate(qs, conf, ptbin, z, true) == Evaluate(qs, conf, ptbin, z, false)
  {
    if |conf.Regs| > 0 {
      SameOutcomes(qs, conf, ptbin, z, true, conf, ptbin, z, false, 0, One);
    }
  }

  /** When every subevent pins its bin, the caller's bin is ignored. */
  lemma PinnedBinsIgnoreCaller(qs: seq<Cumulant>, conf: CorrConfig, p1: int, p2: int, z: bool, d: bool)
    requires |conf.ptInd| >= |conf.Regs|
    requires forall k :: 0 <= k < |conf.ptInd| ==> conf.ptInd[k] >= 0
    ensures Evaluate(qs, conf, p1, z, d) == Evaluate(qs, conf, p2, z, d)
  {
    if |conf.Regs| > 0 {
      SameOutcomes(qs, conf, p1, z, d, conf, p2, z, d, 0, One);
    }
  }

  /**
   * A single subevent on one region with no overlap entry uses the region
   * itself as overlap; on an accumulator whose every power sum is the
   * particle count n it evaluates to n (n-1) ... (n-k+1) for k harmonics.
   */
  lemma SelfCorrelationCounts(q: Cumulant, n: real, hars: seq<int>, ptbin: int)
    requires Uniform(q, n)
    requires |hars| >= 1 && q.filled(ptbin) && q.count >= |hars|
    ensures Evaluate([q], CorrConfig([[0]], [hars], [-1], [-1], false, ""), ptbin, false, false)
         == Some(Complex(Falling(n, |hars|), 0.0))
  {
    var conf := CorrConfig([[0]], [hars], [-1], [-1], false, "");
    CountingCorrelator(q, n, ptbin, hars, Ones(|hars|));
    var c := Complex(Falling(n, |hars|), 0.0);
    assert SubeventOutcome([q], conf, 0, ptbin, false, false) == Factor(c);
    assert EvaluateFrom([q], conf, ptbin, false, false, 1, Mul(One, c)) == Some(Mul(One, c));
    MulOneLeft(c);
  }

  /**
   * The two-harmonic pair correlator of `Calculate(poi, ref, hars, ptbin)`:
   * POI times REF less POI at the summed harmonic with power two.
   */
  lemma PairTwoHarmonics(qpoi: Cumulant, qref: Cumulant, ptbin: int, h0: int, h1: int)
    ensures Correlator(qpoi, qref, Some(qpoi), ptbin, [h0, h1], Ones(2))
         == Sub(Mul(Vec(qpoi, h0, 1, ptbin), Vec(qref, h1, 1, ptbin)), Vec(qpoi, h0 + h1, 2, ptbin))
  {
    CorrelatorPair(qpoi, qref, Some(qpoi), ptbin, [h0, h1], Ones(2));
  }
}

/**
 * The region registry of `GFW`: the list of kinematic regions, the
 * accumulators created for them, and the routing of particles to them.
 *
 * An accumulator is represented by the allocation `CreateRegions` requested
 * for it; the calls the registry makes into accumulators (`FillArray`,
 * `ResetQs`) are recorded in the ghost `log`, in order.
 */
module Registry {
  import opened GfwTypes
  import opened Accumulator

  /** The validation shared by both public `AddRegion` overloads. */
  predicate Accepts(name: string, etaMin: real, etaMax: real, npt: int) {
    npt >= 1 && etaMin < etaMax && name != ""
  }

  /** The region the scalar-power `AddRegion` builds: no power list, `Npar` powers for every harmonic. */
  function UniformRegion(name: string, nhar: int, npar: int, etaMin: real, etaMax: real,
                         npt: int, mask: bv32): Region
  {
    Region(nhar, npar, npt, [], etaMin, etaMax, mask, name, false)
  }

  /** The region the power-list `AddRegion` builds: the first `nhar` powers, `Npar` zero. */
  function PowersRegion(name: string, nhar: int, powers: seq<int>, etaMin: real, etaMax: real,
                        npt: int, mask: bv32): Region
    requires nhar <= |powers|
  {
    Region(nhar, 0, npt, if nhar <= 0 then [] else powers[..nhar], etaMin, etaMax, mask, name, false)
  }

  /** The accumulator `CreateRegions` allocates for a region: per-harmonic powers iff it has a power list. */
  function AllocationFor(r: Region): Allocation {
    if |r.NparVec| > 0 then VarPower(r.Nhar, r.NparVec, r.NpT)
    else UniformPower(r.Nhar, r.Npar, r.NpT)
  }

  /** One allocation per region, in region order. */
  function Allocations(rs: seq<Region>): (r: seq<Allocation>)
    ensures |r| == |rs| && forall i :: 0 <= i < |rs| ==> r[i] == AllocationFor(rs[i])
  {
    seq(|rs|, i requires 0 <= i < |rs| => AllocationFor(rs[i]))
  }

  /** A particle at `eta` with bits `mask` goes to a region iff strictly inside its window and sharing a bit. */
  predicate Routes(r: Region, eta: real, mask: bv32) {
    r.EtaMin < eta && r.EtaMax > eta && r.BitMask & mask != 0
  }

  /**
   * The calls the `Fill` loop makes from region i on, with `n` accumulators;
   * the flag says whether it stopped at a routed region with no accumulator
   * (`fCumulants.at(i)` throws).
   */
  function FillCallsFrom(regs: seq<Region>, n: nat, eta: real, mask: bv32, ptin: int,
                         phi: real, weight: real, secondWeight: real, i: nat): (r: (seq<AccumulatorCall>, bool))
    requires i <= |regs|
    ensures r.1 <==> exists k :: i <= k < |regs| && n <= k && Routes(regs[k], eta, mask)
    ensures forall c :: c in r.0 ==>
      c.FillArray? && c == FillArray(c.index, ptin, phi, weight, secondWeight) &&
      i <= c.index < |regs| && c.index < n && Routes(regs[c.index], eta, mask)
    ensures !r.1 ==> forall k :: i <= k < |regs| && Routes(regs[k], eta, mask) ==>
      FillArray(k, ptin, phi, weight, secondWeight) in r.0
    decreases |regs| - i
  {
    if i == |regs| then ([], false)
    else if Routes(regs[i], eta, mask) then
      if i >= n then ([], true)
      else
        var rest := FillCallsFrom(regs, n, eta, mask, ptin, phi, weight, secondWeight, i + 1);
        ([FillArray(i, ptin, phi, weight, secondWeight)] + rest.0, rest.1)
    else FillCallsFrom(regs, n, eta, mask, ptin, phi, weight, secondWeight, i + 1)
  }

  /** One `ResetQs` per accumulator, in order. */
  function ResetCalls(n: nat): (r: seq<AccumulatorCall>)
    ensures |r| == n && forall i :: 0 <= i < n ==> r[i] == ResetQs(i)
  {
    seq(n, i requires 0 <= i < n => ResetQs(i))
  }

  /** The registry part of `GFW`. */
  class GFW {
    var regions: seq<Region>
    var cumulants: seq<Allocation>
    var initialized: bool
    ghost var log: seq<AccumulatorCall>

    /** The flag is set exactly when accumulators exist. */
    ghost predicate Valid()
      reads this
    {
      initialized <==> |cumulants| > 0
    }

    /** `GFW()`: no region, no accumulator, not initialised. */
    constructor ()
      ensures Valid()
      ensures regions == [] && cumulants == [] && !initialized && log == []
    {
      regions := [];
      cumulants := [];
      initialized := false;
      log := [];
    }

    /** The protected `AddRegion(Region)`: appends with no validation. */
    method AddRegion(r: Region)
      modifies this
      ensures regions == old(regions) + [r]
      ensures cumulants == old(cumulants) && initialized == old(initialized) && log == old(log)
    {
      regions := regions + [r];
    }

    /**
     * `AddRegion(name, nhar, npar, etaMin, etaMax, npt, mask)`: appends one
     * region if the validation passes, else leaves the registry unchanged.
     */
    method AddRegionUniform(name: string, nhar: int, npar: int, etaMin: real, etaMax: real,
                            npt: int, mask: bv32)
      requires Valid()
      modifies this
      ensures Valid()
      ensures regions == old(regions) + (if Accepts(name, etaMin, etaMax, npt)
                                         then [UniformRegion(name, nhar, npar, etaMin, etaMax, npt, mask)]
                                         else [])
      ensures cumulants == old(cumulants) && initialized == old(initialized) && log == old(log)
    {
      if npt < 1 {
        return;
      }
      if etaMin >= etaMax {
        return;
      }
      if name == "" {
        return;
      }
      var region := DefaultRegion;
      region := region.(Nhar := nhar, Npar := npar, NparVec := [], EtaMin := etaMin, EtaMax := etaMax,
                        NpT := npt, rName := name, BitMask := mask);
      AddRegion(region);
    }

    /**
     * `AddRegion(name, nhar, powers, etaMin, etaMax, npt, mask)`: as above,
     * copying the first `nhar` entries of the power array.
     */
    method AddRegionPowers(name: string, nhar: int, powers: array<int>, etaMin: real, etaMax: real,
                           npt: int, mask: bv32)
      requires Valid()
      requires Accepts(name, etaMin, etaMax, npt) ==> nhar <= powers.Length
      modifies this
      ensures Valid()
      ensures Accepts(name, etaMin, etaMax, npt) ==>
        regions == old(regions) + [PowersRegion(name, nhar, powers[..], etaMin, etaMax, npt, mask)]
      ensures !Accepts(name, etaMin, etaMax, npt) ==> regions == old(regions)
      ensures cumulants == old(cumulants) && initialized == old(initialized) && log == old(log)
    {
      if npt < 1 {
        return;
      }
      if etaMin >= etaMax {
        return;
      }
      if name == "" {
        return;
      }
      var vec: seq<int> := [];
      var i := 0;
      while i < nhar
        invariant 0 <= i <= (if nhar < 0 then 0 else nhar) <= powers.Length
        invariant vec == powers[..i]
      {
        vec := vec + [powers[i]];
        i := i + 1;
      }
      var region := DefaultRegion;
      region := region.(Nhar := nhar, Npar := 0, NparVec := vec, EtaMin := etaMin, EtaMax := etaMax,
                        NpT := npt, rName := name, BitMask := mask);
      AddRegion(region);
    }

    /**
     * `CreateRegions()`: with no region, returns 0 and changes nothing;
     * otherwise appends one accumulator per region (to those already there),
     * sets the flag and returns the number of regions.
     */
    method CreateRegions() returns (n: int)
      requires Valid()
      modifies this
      ensures Valid()
      ensures regions == old(regions) && log == old(log)
      ensures |regions| == 0 ==> n == 0 && cumulants == old(cumulants) && initialized == old(initialized)
      ensures |regions| > 0 ==> n == |regions| && cumulants == old(cumulants) + Allocations(regions) && initialized
    {
      if |regions| < 1 {
        return 0;
      }
      var nRegions := 0;
      while nRegions < |regions|
        invariant 0 <= nRegions <= |regions| && regions == old(regions) && log == old(log)
        invariant initialized == old(initialized)
        invariant cumulants == old(cumulants) + Allocations(regions[..nRegions])
      {
        assert regions[..nRegions + 1] == regions[..nRegions] + [regions[nRegions]];
        cumulants := cumulants + [AllocationFor(regions[nRegions])];
        nRegions := nRegions + 1;
      }
      assert regions[..nRegions] == regions;
      if nRegions > 0 {
        initialized := true;
      }
      return nRegions;
    }

    /**
     * `Fill(eta, ptin, phi, weight, mask, secondWeight)`: creates the
     * accumulators on first use, then feeds the particle to every routed
     * region in order. `thrown` is set when a routed region has no
     * accumulator, where the source throws from `fCumulants.at(i)`.
     */
    method Fill(eta: real, ptin: int, phi: real, weight: real, mask: bv32, secondWeight: real := -1.0)
      returns (thrown: bool)
      requires Valid()
      modifies this
      ensures Valid()
      ensures regions == old(regions)
      ensures old(initialized) ==> cumulants == old(cumulants) && initialized
      ensures !old(initialized) ==>
        cumulants == old(cumulants) + Allocations(regions) && initialized == (|regions| > 0)
      ensures var calls := FillCallsFrom(regions, |cumulants|, eta, mask, ptin, phi, weight, secondWeight, 0);
        if initialized then log == old(log) + calls.0 && thrown == calls.1
        else log == old(log) && !thrown
    {
      if !initialized {
        var _ := CreateRegions();
      }
      if !initialized {
        return false;
      }
      ghost var log0 := log;
      ghost var all := FillCallsFrom(regions, |cumulants|, eta, mask, ptin, phi, weight, secondWeight, 0);
      var i := 0;
      while i < |regions|
        invariant 0 <= i <= |regions|
        invariant initialized && Valid()
        invariant regions == old(regions)
        invariant !old(initialized) ==> cumulants == old(cumulants) + Allocations(regions)
        invariant old(initialized) ==> cumulants == old(cumulants)
        invariant var rest := FillCallsFrom(regions, |cumulants|, eta, mask, ptin, phi, weight, secondWeight, i);
          log + rest.0 == log0 + all.0 && rest.1 == all.1
      {
        if regions[i].EtaMin < eta && regions[i].EtaMax > eta && regions[i].BitMask & mask != 0 {
          if i >= |cumulants| {
            return true;
          }
          log := log + [FillArray(i, ptin, phi, weight, secondWeight)];
        }
        i := i + 1;
      }
      return false;
    }

    /** `Clear()`: resets every accumulator, in order, and changes nothing else. */
    method Clear()
      modifies this
      ensures regions == old(regions) && cumulants == old(cumulants) && initialized == old(initialized)
      ensures log == old(log) + ResetCalls(|cumulants|)
    {
      var i := 0;
      while i < |cumulants|
        invariant 0 <= i <= |cumulants|
        invariant regions == old(regions) && cumulants == old(cumulants) && initialized == old(initialized)
        invariant log == old(log) + ResetCalls(i)
      {
        log := log + [ResetQs(i)];
        i := i + 1;
      }
    }
  }

  // ---------------------------------------------------------------------------
  // Properties of the registry
  // ---------------------------------------------------------------------------

  /**
   * With an accumulator for every region, `Fill` never throws, feeds region k
   * iff the particle is strictly inside its eta window and shares a mask bit,
   * and passes the particle's values through unchanged.
   */
  lemma FillFeedsRoutedRegions(regs: seq<Region>, n: nat, eta: real, mask: bv32, ptin: int,
                               phi: real, weight: real, secondWeight: real)
    requires n >= |regs|
    ensures var calls := FillCallsFrom(regs, n, eta, mask, ptin, phi, weight, secondWeight, 0);
      !calls.1 &&
      (forall k :: 0 <= k < |regs| ==>
        (FillArray(k, ptin, phi, weight, secondWeight) in calls.0 <==> Routes(regs[k], eta, mask))) &&
      (forall c :: c in calls.0 ==> c.FillArray? && c.index < |regs| && Routes(regs[c.index], eta, mask))
  {
  }

  /** Calls into strictly increasing accumulator indices. */
  predicate Increasing(calls: seq<AccumulatorCall>) {
    forall a, b :: 0 <= a < b < |calls| ==> calls[a].index < calls[b].index
  }

  /** Each region is fed at most once per particle, in increasing region order. */
  lemma {:induction false} FillOrdered(regs: seq<Region>, n: nat, eta: real, mask: bv32, ptin: int,
                                       phi: real, weight: real, secondWeight: real, i: nat)
    requires i <= |regs|
    ensures Increasing(FillCallsFrom(regs, n, eta, mask, ptin, phi, weight, secondWeight, i).0)
    decreases |regs| - i
  {
    if i < |regs| {
      FillOrdered(regs, n, eta, mask, ptin, phi, weight, secondWeight, i + 1);
      var rest := FillCallsFrom(regs, n, eta, mask, ptin, phi, weight, secondWeight, i + 1).0;
      if Routes(regs[i], eta, mask) && i < n {
        var calls := [FillArray(i, ptin, phi, weight, secondWeight)] + rest;
        assert FillCallsFrom(regs, n, eta, mask, ptin, phi, weight, secondWeight, i).0 == calls;
        forall a, b | 0 <= a < b < |calls|
          ensures calls[a].index < calls[b].index
        {
          assert calls[b] == rest[b - 1];
          assert rest[b - 1] in rest;
          if a > 0 {
            assert calls[a] == rest[a - 1];
            assert rest[a - 1].index < rest[b - 1].index;
          }
        }
      }
    }
  }

  /** A particle on a window's edge is not fed to that region: both bounds are exclusive. */
  lemma WindowEdgesExcluded(r: Region, mask: bv32)
    ensures !Routes(r, r.EtaMin, mask) && !Routes(r, r.EtaMax, mask)
  {
  }

  /** A particle with no mask bit in common with any region is fed nowhere. */
  lemma {:induction false} DisjointMaskFeedsNothing(regs: seq<Region>, n: nat, eta: real, mask: bv32, ptin: int,
                                                    phi: real, weight: real, secondWeight: real, i: nat)
    requires i <= |regs|
    requires forall k :: i <= k < |regs| ==> regs[k].BitMask & mask == 0
    ensures FillCallsFrom(regs, n, eta, mask, ptin, phi, weight, secondWeight, i) == ([], false)
    decreases |regs| - i
  {
    if i < |regs| {
      DisjointMaskFeedsNothing(regs, n, eta, mask, ptin, phi, weight, secondWeight, i + 1);
    }
  }

  /**
   * What `CreateRegions` allocates for a region added through each public
   * overload: the scalar overload gives `Npar` powers for every harmonic; the
   * power-list overload gives its powers, except that with no harmonic the
   * list stays empty and the region falls back to a uniform allocation with
   * zero powers.
   */
  lemma AllocationOfAddedRegions(name: string, nhar: int, npar: int, powers: seq<int>,
                                 etaMin: real, etaMax: real, npt: int, mask: bv32)
    requires nhar <= |powers|
    ensures AllocationFor(UniformRegion(name, nhar, npar, etaMin, etaMax, npt, mask))
         == UniformPower(nhar, npar, npt)
    ensures AllocationFor(PowersRegion(name, nhar, powers, etaMin, etaMax, npt, mask))
         == if nhar >= 1 then VarPower(nhar, powers[..nhar], npt) else UniformPower(nhar, 0, npt)
  {
  }

  /** Every region a public overload adds can be found by its name, unless an earlier region has it. */
  lemma AddedRegionFound(regs: seq<Region>, r: Region)
    requires r.rName != ""
    requires forall j :: 0 <= j < |regs| ==> regs[j].rName != r.rName
    ensures FindRegionByName(regs + [r], r.rName) == |regs|
  {
    var all := regs + [r];
    assert all[|regs|].rName == r.rName;
    assert forall j :: 0 <= j < |regs| ==> all[j] == regs[j];
  }
}

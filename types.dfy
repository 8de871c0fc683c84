/**
 * The value types of GFW.h: a kinematic `Region` and the compiled correlator
 * description `CorrConfig`, with their defaults, the region ordering and the
 * search of a region by name.
 */
module GfwTypes {

  /**
   * `GFW::Region`. `Npar` is the field GFW.cxx writes although GFW.h does not
   * declare it. Eta bounds are `real` (no NaN); `BitMask` is the 32-bit `int`
   * of the source as a bit vector.
   */
  datatype Region = Region(
    Nhar: int,
    Npar: int,
    NpT: int,
    NparVec: seq<int>,
    EtaMin: real,
    EtaMax: real,
    BitMask: bv32,
    rName: string,
    powsDefined: bool)

  /**
   * A default-constructed `Region`: eta bounds -999, mask 1, no name, no
   * powers. `Nhar`, `Npar` and `NpT` are left indeterminate by the source;
   * here they are 0, and every constructor of the registry overwrites them.
   */
  const DefaultRegion: Region := Region(0, 0, 0, [], -999.0, -999.0, 1, "", false)

  /** `Region::operator<`: regions are ordered by their lower eta bound only. */
  predicate RegionLess(a: Region, b: Region) {
    a.EtaMin < b.EtaMin
  }

  /**
   * The ordering is a strict weak order: irreflexive, asymmetric,
   * transitive, and with transitive incomparability. Two regions are
   * incomparable exactly when their lower bounds are equal, whatever their
   * names, masks or upper bounds.
   */
  lemma RegionLessIsStrictWeakOrder(a: Region, b: Region, c: Region)
    ensures !RegionLess(a, a)
    ensures RegionLess(a, b) ==> !RegionLess(b, a)
    ensures RegionLess(a, b) && RegionLess(b, c) ==> RegionLess(a, c)
    ensures a.EtaMin == b.EtaMin <==> !RegionLess(a, b) && !RegionLess(b, a)
    ensures !RegionLess(a, b) && !RegionLess(b, a) && !RegionLess(b, c) && !RegionLess(c, b)
            ==> !RegionLess(a, c) && !RegionLess(c, a)
  {
  }

  /**
   * `GFW::CorrConfig`: per subevent the region indices (POI, then REF if
   * any), the harmonics, the overlap region (-1 for none) and the pinned
   * pT bin (-1 for none); plus a label and the pT-differential flag.
   */
  datatype CorrConfig = CorrConfig(
    Regs: seq<seq<int>>,
    Hars: seq<seq<int>>,
    Overlap: seq<int>,
    ptInd: seq<int>,
    pTDif: bool,
    Head: string)

  /** A default-constructed `CorrConfig`: no subevent, no label, not differential. */
  const DefaultConfig: CorrConfig := CorrConfig([], [], [], [], false, "")

  /** `FindRegionByName`, scanning from index i. */
  function FindRegionFrom(regions: seq<Region>, name: string, i: nat): (r: int)
    requires i <= |regions|
    ensures r == -1 || (i <= r < |regions| && regions[r].rName == name)
    ensures forall j :: i <= j < |regions| && (r == -1 || j < r) ==> regions[j].rName != name
    decreases |regions| - i
  {
    if i == |regions| then -1
    else if regions[i].rName == name then i
    else FindRegionFrom(regions, name, i + 1)
  }

  /** `FindRegionByName(refName)`: the first region carrying the name, or -1. */
  function FindRegionByName(regions: seq<Region>, name: string): (r: int)
    ensures -1 <= r < |regions|
    ensures r >= 0 ==> regions[r].rName == name && forall j :: 0 <= j < r ==> regions[j].rName != name
    ensures r == -1 <==> forall j :: 0 <= j < |regions| ==> regions[j].rName != name
  {
    FindRegionFrom(regions, name, 0)
  }
}

/**
 * The per-region power-sum accumulator (`GFWCumulant`) is not part of this
 * model. What the engine reads from it is captured as a value whose queries
 * are arbitrary functions; what the registry does to it is captured by the
 * allocation it requested and by a log of the calls it made.
 */
module Accumulator {
  import opened ComplexNum

  /**
   * The answers one accumulator gives to the queries the engine makes:
   * `Vec(n, p, ptbin)`, the bin `Vec(n, p)` uses when no bin is passed,
   * `IsPtBinFilled(ptbin)` and `GetN()` (which takes no bin).
   */
  datatype Cumulant = Cumulant(
    vec: (int, int, int) -> Complex,
    defaultPtBin: int,
    filled: int -> bool,
    count: int)

  /** `q->Vec(n, p, ptbin)` */
  function Vec(q: Cumulant, n: int, p: int, ptbin: int): Complex {
    q.vec(n, p, ptbin)
  }

  /** `q->Vec(n, p)`, with the accumulator's own default bin. */
  function VecDefaultBin(q: Cumulant, n: int, p: int): Complex {
    q.vec(n, p, q.defaultPtBin)
  }

  /** How an accumulator was allocated by `CreateRegions`. */
  datatype Allocation =
    | VarPower(nhar: int, powers: seq<int>, npt: int)   // CreateComplexVectorArrayVarPower
    | UniformPower(nhar: int, npar: int, npt: int)      // CreateComplexVectorArray

  /** A call the registry makes into accumulator number `index`. */
  datatype AccumulatorCall =
    | FillArray(index: nat, ptin: int, phi: real, weight: real, secondWeight: real)
    | ResetQs(index: nat)
}

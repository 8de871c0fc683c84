# GFW: generic-framework flow correlators, modelled in Dafny

`GFW` steers the computation of multi-particle azimuthal correlations. It keeps
four things:

- **A region registry.** Each region is a named pseudorapidity window with a
  bit mask. It gets one Q-vector accumulator (`GFWCumulant`), which is
  allocated lazily.
- **A particle router.** `Fill` hands each particle to the accumulator of every
  region whose open eta window contains the particle and whose mask shares a
  bit with the particle's mask.
- **A parser for correlator strings.** `GetCorrelatorConfig` turns text such as
  `"A {2 -2} B {2 -2}"` (two subevents) or `"A B |A(3) {2 -2}"` (regions A and B,
  overlap region A, pinned bin 3) into a
  `CorrConfig`. That holds, per subevent:
  - region indices (POI first, then REF);
  - harmonics;
  - an overlap region;
  - a pinned pT bin.
- **An evaluator.** `Calculate` multiplies, subevent by subevent, the value of
  the recursive correlator `RecursiveCorr`. The correlator combines the power
  sums of a POI, a REF and an optional overlap accumulator. It subtracts every
  autocorrelation term and folds degenerate terms together.

## Modules

| module | contents |
|---|---|
| `Optional` | `Option`; `None` is a throw of `std::out_of_range` or `std::invalid_argument` in the string functions and the parser (`Evaluate` reports a throw as `Outcome.Thrown`, and `Fill` as a `thrown` flag) |
| `ComplexNum` | complex numbers over exact reals, with the algebra the proofs need |
| `Accumulator` | what the registry and the correlator see of a `GFWCumulant`: its queries (`Vec`, `IsPtBinFilled`, `GetN`, the default bin of the two-argument `Vec`), its allocation record, and the calls made into it |
| `GfwTypes` | `Region`, `CorrConfig`, their defaults, `Region::operator<`, `FindRegionByName` |
| `GfwStrings` | `s_index`, `s_contains`, `s_replace`, `s_replace_all`, `s_tokenize`, `string::erase` and `std::stoi` |
| `GfwCorrelator` | `TwoRec` and the functional definition `Correlator`, plus both `RecursiveCorr` overloads as in-place methods over mutable integer lists |
| `Evaluate` | the three `Calculate` overloads |
| `Parser` | `GetCorrelatorConfig` as a function, plus the method that follows the source's loops |
| `ParserCases` | worked parses that pin down the parser's behaviour on concrete strings |
| `Registry` | `class GFW`: `AddRegion` (three forms), `CreateRegions`, `Fill`, `Clear` |

Accumulator queries are modelled as abstract functions carried in a
`Cumulant` value. The registry records the calls it makes into its
accumulators (`FillArray`, `ResetQs`) in a ghost log, so its contracts can say
which region received which particle.

## Model

| member | source | states |
|---|---|---|
| GfwTypes.RegionLessIsStrictWeakOrder | GFW.h:29-31 | regions are ordered by lower eta bound alone, a strict weak order: irreflexive, asymmetric, transitive, and incomparability is transitive; two regions are incomparable exactly when their lower bounds are equal, whatever else differs |
| GfwTypes.FindRegionByName | GFW.cxx:272-275 | result is -1 exactly when no region has the name; otherwise it is the index of the first region carrying it |
| GfwTypes.FindRegionFrom | GFW.cxx:273 | the scan from index i returns a matching index ≥ i with no match between i and it, or -1 when none remains |
| Registry.GFW.constructor | GFW.cxx:10-13 | a new registry has no regions, no accumulators and is not initialised |
| Registry.GFW.AddRegion | GFW.h:63 | the region is appended to the region list; accumulators, initialisation and accumulator calls are unchanged |
| Registry.GFW.AddRegionUniform | GFW.cxx:20-43 | appends the uniform-power region exactly when npt ≥ 1, etaMin < etaMax and the name is non-empty; otherwise nothing changes |
| Registry.GFW.AddRegionPowers | GFW.cxx:44-68 | same validation; an accepted region copies the first nhar entries of the caller's power array, with Npar 0 |
| Registry.GFW.CreateRegions | GFW.cxx:69-87 | no regions: returns 0 and changes nothing; otherwise appends one allocation per region in order (variable powers iff the power list is non-empty), returns the region count and sets the initialised flag |
| Registry.GFW.Fill | GFW.cxx:88-95 | lazily creates the accumulators once; an uninitialised registry logs nothing; otherwise logs exactly FillCallsFrom's calls and reports a throw when a routed region has no accumulator |
| Registry.GFW.Clear | GFW.cxx:148-150 | resets every accumulator once, in order, and changes nothing else |
| Registry.Allocations | GFW.cxx:75-84 | one allocation per region, the i-th being the allocation of region i |
| Registry.FillCallsFrom | GFW.cxx:91-94 | every call is a FillArray with the particle's values into a routed region that has an accumulator; the throw flag holds iff a routed region lies at or beyond the accumulator count; without a throw every routed region is fed |
| Registry.FillFeedsRoutedRegions | GFW.cxx:91-94 | with an accumulator per region, region k is fed iff the particle is strictly inside its eta window and the masks share a bit, and nothing throws |
| Registry.FillOrdered | GFW.cxx:91-94 | each region is fed at most once per particle, in increasing region order |
| Registry.WindowEdgesExcluded | GFW.cxx:92 | a particle exactly on either eta edge of a region is never routed to it |
| Registry.DisjointMaskFeedsNothing | GFW.cxx:92 | a particle whose mask shares no bit with any region's mask feeds nothing and cannot throw |
| Registry.AllocationOfAddedRegions | GFW.cxx:77-81 | a uniform-power region is allocated with its scalar power; a power-list region is allocated with its first nhar powers, falling back to the uniform form with zero powers when nhar < 1 |
| Registry.AddedRegionFound | GFW.cxx:272-275 | a region added under a fresh name is found by that name at its own index |
| Registry.ResetCalls | GFW.cxx:149 | one ResetQs per accumulator, in index order |
| GfwCorrelator.IntVector.constructor | GFW.cxx:104-106 | the mutable list starts with the given elements |
| GfwCorrelator.RecursiveCorr | GFW.cxx:110-147 | returns Correlator of the lists it was given, and leaves both lists exactly as it found them although it shortens and edits them on the way |
| GfwCorrelator.SubtractLoop | GFW.cxx:120-143 | the subtraction loop returns SubtractTerms from the full list with degeneracy one, and restores both lists |
| GfwCorrelator.MergedTerm | GFW.cxx:131-141 | merging the removed entry into position i, recursing and subtracting it back yields that term and restores both lists |
| GfwCorrelator.RecursiveCorrUnitPowers | GFW.cxx:103-108 | the harmonics-only overload equals the correlator with every power one, and leaves the harmonics unchanged |
| GfwCorrelator.CorrelatorSingle | GFW.cxx:111-113 | unfolds one step of the definition — one harmonic: the POI power sum, read from the overlap when the power is not one and an overlap exists |
| GfwCorrelator.CorrelatorPair | GFW.cxx:96-102 | unfolds one step of the definition — two harmonics: POI(n1,p1)·REF(n2,p2) minus overlap(n1+n2,p1+p2), or minus nothing without an overlap (TwoRec) |
| GfwCorrelator.CorrelatorStep | GFW.cxx:115-146 | unfolds one step of the definition — three or more: the shortened correlator times the last REF power sum at the default bin, minus the merged terms |
| GfwCorrelator.SubtractTermsStep | GFW.cxx:122-141 | unfolds one step of the definition — a skipped position raises the degeneracy; a computed one subtracts its term scaled by the degeneracy, which then resets to one |
| GfwCorrelator.SubtractTermsComputed | GFW.cxx:131-141 | unfolds one step of the definition — a computed step subtracts the correlator of the merged lists |
| GfwCorrelator.CollapseSound | GFW.cxx:122-143 | degeneracy folding equals the sum of every merged term whenever each folded term equals its lower neighbour's |
| GfwCorrelator.CorrelatorUncollapsed | GFW.cxx:115-146 | under that condition, the correlator is the plain recursion that subtracts every merged term |
| GfwCorrelator.CountingCorrelator | GFW.cxx:110-147 | with one region as POI, REF and overlap, and every power sum equal to the multiplicity n, the correlator is n(n-1)…(n-k+1), the number of ordered k-tuples of distinct particles |
| GfwCorrelator.CountingSubtract | GFW.cxx:120-143 | in that case every subtraction term is the same falling factorial, subtracted once per position |
| Evaluate.Calculate | GFW.cxx:234-266 | the loop returns Evaluate of its arguments: (0,0) for no subevents or at the first short-circuit, a throw on a bad index, otherwise the product of the subevent correlators |
| Evaluate.ZeroAll | GFW.cxx:262 | every harmonic of the subevent becomes zero and the count is kept |
| Evaluate.CalculatePair | GFW.cxx:223-228 | defined iff both indices are valid and the harmonics are non-empty; then the unit-power correlator with the POI as its own overlap |
| Evaluate.CalculateIntegrated | GFW.cxx:268-271 | defined iff the index is valid and the harmonics are non-empty; then the unit-power correlator with one region in all three roles at bin 0 |
| Evaluate.ShortCases | GFW.cxx:240-257 | a subevent short-circuits iff it has no regions, its bin is not filled in REF or POI, or REF has fewer particles than the harmonics it must carry (one fewer when POI ≠ REF) |
| Evaluate.ShortCircuit | GFW.cxx:240-257 | once a subevent short-circuits after only valid ones, the whole result is (0,0) |
| Evaluate.ShortCircuitFrom | GFW.cxx:239-264 | the same, for the loop from any subevent on |
| Evaluate.ThrowFrom | GFW.cxx:241-263 | a bad index met before any short-circuit makes the whole call throw |
| Evaluate.EvaluateIsProduct | GFW.cxx:237-265 | when every subevent yields a factor, the result is the product of the factors in order |
| Evaluate.ProductFrom | GFW.cxx:239-264 | the loop keeps the running product of the factors seen so far |
| Evaluate.SameOutcomes | GFW.cxx:239-264 | two calls whose subevents yield the same outcomes give the same result |
| Evaluate.ZeroedHarmonicsCountOnly | GFW.cxx:262-263 | with harmonics zeroed, only the number of harmonics per subevent matters, not their values |
| Evaluate.DisableOverlapUnused | GFW.cxx:259-261 | without explicit overlaps, DisableOverlap has no effect |
| Evaluate.PinnedBinsIgnoreCaller | GFW.cxx:241-242 | when every subevent pins its own pT bin, the caller's bin has no effect |
| Evaluate.SelfCorrelationCounts | GFW.cxx:245-263 | a one-region subevent with uniform power sums n evaluates to n(n-1)…(n-k+1) |
| Evaluate.PairTwoHarmonics | GFW.cxx:223-228 | the two-harmonic pair correlator is POI(h0)·REF(h1) minus POI(h0+h1, power 2) |
| Evaluate.Zeros | GFW.cxx:262 | n zeros |
| Parser.GetCorrelatorConfig | GFW.cxx:151-221 | the loop-by-loop parse returns ParseConfig of its text |
| Parser.ParseConfigShape | GFW.cxx:165-220 | per-subevent lists in lockstep; region and overlap indices that exist; harmonics in int range; either label, flag and one bin per group, or the default config, or a cut-short parse with the default label |
| Parser.GroupsShape | GFW.cxx:173-216 | the group loop keeps that shape |
| Parser.CloseGroupIndexed | GFW.cxx:175-215 | a finished group with valid indices keeps the shape |
| Parser.ParseEmpty | GFW.cxx:167-170 | the empty string yields the default config, with the label not copied |
| Parser.GroupHeader | GFW.cxx:179-193 | a "(" without ")" is the early return; without "(" the group text, position and config are untouched and no bin is pinned; the config never grows and the end position moves back by at most the group's length |
| Parser.CutBinBounds | GFW.cxx:183-192 | cutting a pinned bin never reports a missing ")", never grows the config, and moves the end position back by at most the group's length |
| Parser.CutBinContents | GFW.cxx:183-192 | the bin is `stoi` of the text between the group's first "(" and the next ")"; the group text loses "(", the bin, ")" and one more character; the end moves back by the length of "(bin)"; the whole string loses its first "(" through its first ")"; the cut throws exactly when `stoi` does or the string has no "(" |
| Parser.ReadPinnedBin | GFW.cxx:179-193 | the early return when ")" is missing, otherwise the cut below; together they compute GroupHeader |
| Parser.CutPinnedBin | GFW.cxx:183-192 | the cut statements compute CutBin |
| Parser.EraseGroupBin | GFW.cxx:183-188 | `s_index`, `s_tokenize`, `stoi` and `erase` on the group text compute CutGroupText |
| Parser.EraseConfigBin | GFW.cxx:190-192 | the `erase` on the whole string computes CutConfig |
| Parser.NameTokenAppends | GFW.cxx:199-208 | a registered name token without "|" appends its registry index and the loop goes on after it |
| Parser.OverlapTokenSets | GFW.cxx:199-209 | a token of the overlap marker followed by a registered name sets the overlap to that name's index and the loop goes on after it |
| Parser.UnknownNameStops | GFW.cxx:199-206 | a token whose name is not registered ends the region loop with the indices and overlap read so far |
| Parser.NamesFrom | GFW.cxx:197-210 | a run of registered space-separated names, each followed by a space, appends their registry indices in order |
| Parser.NamesRead | GFW.cxx:197-210 | round trip: writing registered names one after another with spaces and parsing them gives back their indices, with no overlap |
| Parser.LaterNamesRead | GFW.cxx:197-210 | the same for a group text that starts with a space, as later groups do: the empty first token is skipped, and any group end beyond the names keeps them all |
| Parser.HarsFrom | GFW.cxx:211-215 | space-separated harmonics written after any prefix are read back and appended in order |
| Parser.HarmonicsRoundTrip | GFW.cxx:211-215 | round trip: any list of 32-bit harmonics written with spaces is read back unchanged |
| Parser.ParseRegions | GFW.cxx:195-210 | region indices are only appended to, and every one appended exists in the registry; the overlap is unchanged or an existing region |
| Parser.ReadRegions | GFW.cxx:195-210 | the region loop computes ParseRegions from the start of the group |
| Parser.ParseHars | GFW.cxx:211-215 | harmonics are only appended to, and each appended one is a 32-bit int |
| Parser.ReadHarmonics | GFW.cxx:211-215 | the harmonics loop computes ParseHars |
| ParserCases.FlushNameDropped | GFW.cxx:197-198 | in "A{2 -2}" the name flush against "{" is dropped: the group has no region |
| ParserCases.SpacedNameKept | GFW.cxx:197-198 | in "A {2 -2}" the spaced name is kept: region 0, harmonics 2 and -2, no overlap, no bin |
| ParserCases.OverlapAndPinnedBin | GFW.cxx:173-216 | with regions A and B, the text "A B", space, overlap marker, "A(3) {2 -2}" gives regions [0, 1], harmonics [2, -2], overlap 0 and bin 3 |
| ParserCases.PinnedHeader | GFW.cxx:179-193 | in that string the group header reads bin 3 and cuts "(3)" and the space after it out of the group text, which now ends before position 8 of the whole string with "(3)" cut out |
| ParserCases.PinnedRegions | GFW.cxx:195-210 | the group text "A B", space, overlap marker, "A" reads as regions [0, 1] with overlap 0 |
| ParserCases.NextGroup | GFW.cxx:173-216 | one turn of the group loop: when the group text, its bin, its regions and its harmonics are read, the loop goes on after "}" with that group appended |
| ParserCases.OneGroupConfig | GFW.cxx:151-216 | a normalised string with one group and no "{" after it parses to that group alone, with the label and flag copied |
| ParserCases.LaterFlushNameKept | GFW.cxx:173-216 | with regions A and B, "A {2}B{2}" gives regions [[0], [1]] and harmonics [[2], [2]]: the name "B", flush against "{" in the second group, is kept |
| ParserCases.NoBraceOneGroup | GFW.cxx:173-216 | "A", which has no "{", gives one group with no region, no harmonics, no overlap and no bin, and copies the label and flag |
| ParserCases.HarmonicsTwoMinusTwo | GFW.cxx:211-215 | "2 -2" reads as the harmonics 2, -2 |
| ParserCases.NormalizeUnchanged | GFW.cxx:152-159 | text with no separator, double space, overlap marker before a space, or space before "(" is left as is |
| GfwStrings.IndexFrom | GFW.cxx:277-279 | the first match at or after i, or -1 when none |
| GfwStrings.Index | GFW.cxx:277-279 | `find` from spos: the first match at or after spos, or -1 (also for a negative start) |
| GfwStrings.Contains | GFW.cxx:280-282 | true iff the pattern occurs somewhere |
| GfwStrings.Replace | GFW.cxx:283-287 | no match from spos: unchanged; otherwise the first match is replaced and the text around it is kept |
| GfwStrings.ReplaceAllLoop | GFW.cxx:288-291 | the replace-all loop computes ReplaceAll |
| GfwStrings.ReplaceAllIsSubstitution | GFW.cxx:153-154 | replacing one character by another everywhere is a character-by-character substitution |
| GfwStrings.ReplaceAllCharacters | GFW.cxx:288-291 | a character in neither the text nor the replacement does not appear in the result |
| GfwStrings.ReplaceAllLength | GFW.cxx:288-291 | replace-all never lengthens the text, and shortens it when a shorter replacement applies |
| GfwStrings.ReplaceUntilGone | GFW.cxx:157-159 | repeating replace-all while the pattern occurs ends with no occurrence and no growth |
| GfwStrings.Normalize | GFW.cxx:152-159 | the normalised text is no longer than the input and has no double space |
| GfwStrings.NormalizeSeparators | GFW.cxx:153-154 | the normalised text has no "," and no ";" |
| GfwStrings.NormalizeFlush | GFW.cxx:155-159 | the normalised text has no space before "(" and none after the overlap marker, so a pinned bin sits flush against its name and the marker against its region; the later double-space step cannot bring either back |
| GfwStrings.NormalizeLoop | GFW.cxx:152-159 | the statement sequence with its while loops computes Normalize |
| GfwStrings.Tokenize | GFW.cxx:292-299 | succeeds iff the start is inside the text; the token runs to the first delimiter or to the end, and the new start is just past it; failure gives -1 and "" |
| GfwStrings.Erase | GFW.cxx:187-192 | `string::erase` throws iff the position is past the end; otherwise it removes the counted characters, or everything from the position when the count overruns |
| GfwStrings.Stoi | GFW.cxx:186 | a successful read is a 32-bit int |
| GfwStrings.StoiRoundTrip | GFW.cxx:215 | every 32-bit int reads back from its decimal spelling |

## Left out

- `GFWCumulant` internals (Q-vector arrays, `FillArray`, `ResetQs`, allocation) are not part of this model. Its queries are parameters, and the calls into it are a ghost log.
- `complex<double>` is replaced by complex numbers over exact reals, so rounding is not modelled. Eta values are reals with no NaN, so the `etaMin >= etaMax` guard cannot be bypassed by a NaN as it can in the source.
- `printf` diagnostics are left out. The destructor, and the leak of each `new GFWCumulant` that `CreateRegions` copies into the list, concern memory only.
- Registry.GFW.AddRegionPowers: reading past the caller's array is undefined behaviour in the source. The model instead requires the array to hold nhar entries when the region is accepted.
- The `Nhar`, `Npar` and `NpT` fields of a default-constructed `Region` are indeterminate in the source. Here they are 0, and every path through the registry overwrites them.
- GfwStrings.ReplaceAll: it is defined only for pattern pairs whose loop terminates. These are a shorter replacement, or one character replaced by a different one, which covers every call in the parser. The source may loop forever on other pairs, for example an empty pattern, a pattern replaced by itself, or "a" replaced by "ba". Pairs outside these two classes on which the source does stop (two different patterns of equal length, or "a" replaced by "bc") are not modelled either.
- GfwCorrelator.CollapseSound: degeneracy folding is proved to compute the plain sum only under the hypothesis that exchanging equal neighbours leaves the merged term unchanged. Full permutation symmetry of the correlator is not proved.
- GfwCorrelator.CorrelatorUncollapsed: rests on the same hypothesis as CollapseSound, so it too does not state the plain recursion for every input.
- The registry state is passed as values: regions to `GetCorrelatorConfig`, accumulators to `Calculate`. These are not read from the `GFW` object.
- Members declared only in the header are not part of this model:
  - the `vector<int>` and harmonics-free `AddRegion` forms;
  - `GetCumulant`, `GetRegion`, `GetHarmonicsSingleConfig` and `InitializePowerArrays`.
- AliGFW.h and Test.C are not part of this model.
- C++ `int` width is not modelled in the correlator and registry arithmetic: harmonic and power sums (n1+n2, p1+p2 at GFW.cxx:99, the merged entries at GFW.cxx:131-132), the degeneracy counter (GFW.cxx:127, 138) and region counts are unbounded integers, so an overflow the source would hit is not represented. Parsed harmonics and bins are checked to be 32-bit ints.
- GFW.h declares a three-argument `Calculate(corconf, ptbin, SetHarmsToZero)`. GFW.cxx defines a four-argument one with `DisableOverlap`, and the model follows the definition.
- GFW.h's `Region` has no `Npar` field, but GFW.cxx writes one. The model gives `Region` an `Npar` field.
- The parser's handling of the string format includes:
  - **In the first group, a name written flush against "{" is lost.** The region loop stops when its token start reaches the group end, and that compares a position in the group text with a position in the whole string. In the first group the two coincide, so in "A{2 -2}" the group has no region (ParserCases.FlushNameDropped), while a space before "{" keeps the last name (ParserCases.SpacedNameKept). A later group's end lies beyond its whole text, so there a flush name is kept: in "A {2}B{2}" the second group has region B (ParserCases.LaterFlushNameKept).
  - **An unknown region name stops only that group's region loop.** The harmonics are still read and later groups are still parsed.
  - **The parser does not enforce one or two regions per subevent.** `Calculate` reads only the first two.
- Further behaviour that follows from the code:
  - The overlap token loses its first character whatever it is.
  - Cutting a pinned bin erases one character more than "(bin)" from the group text, the one after ")" (GFW.cxx:187). With a space there, as in "A B |A(3) {2 -2}", nothing is lost; "A(3)B {2}" loses the B.
  - Text without "{" is one group that runs to the end of the text, with no harmonics; only the empty string gives the default configuration (ParserCases.NoBraceOneGroup).
  - The config-wide erase uses the first "(" and ")" of the whole string.
  - An early return leaves the label empty and the pT-differential flag false.
  - A configuration with no subevents evaluates to (0,0), not (1,0).

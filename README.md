# SiEIC analysis tools — a Dafny model

The SiEIC repository ships three small Go programs that read simulated
detector events and histogram them:

- `trackEff` compares the reconstructed tracks with the charged
  generator-level (truth) particles they come from.
  - It matches each track greedily to the angularly closest remaining truth
    particle.
  - It histograms eta, pT and the matching angle.
  - With `-n`, it derives a track/truth ratio histogram.
- `PFODist` compares the eta distributions of particle-flow objects (PFOs)
  with those of the truth particles.
  - Both sides are split into charged, neutral and electron samples.
  - The species comes from the particle code.
- `clusterDist` histograms the eta of the calorimeter clusters.
  - Each cluster counts 1, or with `-e` counts its energy.

All three share one skeleton:
- A `drawFileSet` function admits the input files to at most `nThreads`
  concurrent `analyzeFile` workers.
- Each worker sends one result per selected object and then one completion
  token.
- A `select` loop routes every result into histograms until every admitted
  worker has reported completion.

This project models these parts in Dafny and proves what they promise:
- the file-admission scheduler and the coordinator loop;
- the per-event selection, classification and greedy matching;
- the routing of results into histograms;
- the ratio derivation.

Modules:
- `Util`: `Option`, a duplicate-free predicate, and the Go slice splice
  `append(s[:m], s[m+1:]...)`.
- `Histogram`: a histogram as its shape plus the append-only sequence of its
  `(value, weight)` fills. Routing is a fold, and one generic lemma says
  which fills a histogram ends up with.
- `Scheduling`: the scheduler counters as a class (`Scheduler`) with `Start`
  and `OnDone` methods. `Coordinate` is the `select` loop, run over a
  nondeterministic, finite sequence of arrivals. An arrival is either a
  result or a `done` token.
- `TrackMatch`: the truth selection, the candidate pool, the minimum-angle
  scan and the greedy matching, as a specification function `MatchAll` and
  the in-place loop `MatchTracks` proved equal to it.
- `TrackEff`, `PfoDist` and `ClusterDist`: one module per tool. Each has its
  `analyzeFile` (loops proved against a specification of what is sent), its
  routing, and its `drawFileSet` built on `Coordinate`.

The model follows the code on three points:
- The ratio skips a bin unless the truth value is *positive*
  (`trueY > 0`, tools/trackEff.go:231), not merely non-zero.
- trackEff counts every `done` token. PFODist and clusterDist count only a
  `true` one. All workers send `true`, so the two agree on what is actually
  sent.
- PFODist declares `truthChargedMinPT` but never uses it. Truth particles
  there are selected on generator status alone.

## Model

| member | source | states |
|---|---|---|
| `Util.RemoveAt` | tools/trackEff.go:326 | splicing element m out of the pool shortens it by exactly one |
| `Util.RemoveAtKeepsOrder` | tools/trackEff.go:326 | after the splice, elements before m keep their index and those after m move down by one, so relative order is kept |
| `Util.RemoveAtDistinct` | tools/trackEff.go:326 | splicing a duplicate-free pool leaves it duplicate-free, and removes exactly the chosen candidate |
| `Histogram.H1D.Fill` | tools/trackEff.go:159-164 | a fill keeps the bin count and range, and appends exactly one entry `(x, w)` after the existing ones |
| `Histogram.NewH1D` | tools/trackEff.go:131-135 | a new histogram has the requested bin count and range and no fills |
| `Histogram.TotalWeightAppend` | tools/clusterDist.go:128 | the total filled weight is additive over consecutive fills |
| `Histogram.FillAddsWeight` | tools/clusterDist.go:128 | one fill adds exactly its weight to the histogram's total |
| `Histogram.FoldRouteSnoc` | tools/trackEff.go:156-164 | routing one more result applies one more routing step to the histograms |
| `Histogram.FoldFillsSelected` | tools/trackEff.go:156-164 | if each routing step adds to a histogram exactly the entry its selector picks, then after any sequence of results that histogram holds exactly the selected entries, in arrival order, with its shape unchanged |
| `Histogram.CollectSplit` | tools/PFODist.go:140-144 | when every selected result goes to exactly one of two histograms, the two together receive exactly the selected entries (as a multiset) |
| `Scheduling.DeliveredAppend` | tools/trackEff.go:156-164 | the results the loop receives from consecutive arrival streams are those of each stream, in order |
| `Scheduling.CountDoneAppend` | tools/trackEff.go:165-166 | the completion count is additive over consecutive arrival streams |
| `Scheduling.SendsOnlyDeliver` | tools/trackEff.go:291-294 | a stream of result sends delivers exactly those results and no completion |
| `Scheduling.ArrivalStep` | tools/trackEff.go:157-172 | one more arrival adds its result to the delivered results, or one to the completion count when it is a counted token |
| `Scheduling.WorkerStreamCounts` | tools/trackEff.go:331 | a worker's lifetime stream (its results, then `done <- true`) is counted as exactly one completion under either counting rule, and delivers exactly its results |
| `Scheduling.NFilesToAnalyze` | tools/trackEff.go:141-144 | `nFilesToAnalyze` is at most the number of inputs and at most `maxFiles`, and equals one of them |
| `Scheduling.InitialSubmissions` | tools/trackEff.go:149-154 | the start-up count is at most the (non-negative) file count and thread count, and equals one of them |
| `Scheduling.Scheduler.constructor` | tools/trackEff.go:141-147 | the counters start at zero with the capped file count and no file started |
| `Scheduling.Scheduler.Start` | tools/trackEff.go:149-154 | the start-up loop submits exactly `max(0, min(nFilesToAnalyze, nThreads))` files, files 0, 1, … in index order, and establishes the loop invariant `Valid` |
| `Scheduling.Scheduler.OnDone` | tools/trackEff.go:165-171 | a counted completion increments `nDone`, admits the next unsubmitted file exactly when one remains (and no other), never increases the in-flight count, and keeps `Valid`: `nDone ≤ nSubmitted ≤ nFilesToAnalyze`, in-flight ≤ `nThreads`, started = the first `nSubmitted` inputs |
| `Scheduling.AllFilesStarted` | tools/trackEff.go:149-173 | when the loop has ended (`nDone == nSubmitted`) with `nThreads ≥ 1`, every file below the cap was started exactly once, in index order |
| `Scheduling.Coordinate` | tools/trackEff.go:141-173 | the coordinator loop: the histograms are the fold of the routing over exactly the results received. The started files are a prefix of the inputs, between the start-up count and the cap. The loop stopped with `nDone == nSubmitted` iff the counted tokens equal the started files, and otherwise ran out of arrivals with fewer tokens. When it finished with `nThreads ≥ 1`, every file below the cap was started. As many counted tokens as capped files always finish it |
| `TrackMatch.Selected` | tools/trackEff.go:275-283 | the truth selection: GenStatus 1, non-zero charge, pT above `truthMinPT`; `PoolExact` proves the pool holds exactly the particles it accepts |
| `TrackMatch.Pool` | tools/trackEff.go:273-296 | the candidate pool of one event; characterised by `PoolSound`, `PoolComplete`, `PoolOrdered` and `PoolExact`, and built in place by `TrackEff.BuildPool` |
| `TrackMatch.PoolSound` | tools/trackEff.go:273-296 | every pool candidate comes from a particle with GenStatus 1, non-zero charge and pT above 0.5, and carries that particle's index and kinematics |
| `TrackMatch.PoolComplete` | tools/trackEff.go:273-296 | every particle that passes the selection has a pool candidate |
| `TrackMatch.PoolOrdered` | tools/trackEff.go:273-296 | the pool is in collection order, so no particle enters it twice |
| `TrackMatch.PoolExact` | tools/trackEff.go:273-296 | a particle enters the pool iff it passes the selection, exactly once, in collection order, and the pool is duplicate-free and no longer than the collection |
| `TrackMatch.AnglesAt` | tools/trackEff.go:311-312 | the i-th computed angle is `acos(dot(track, candidate i))` |
| `TrackMatch.ArgMin` | tools/trackEff.go:309-317 | the scan yields -1 exactly for an empty sequence, and an index into it otherwise |
| `TrackMatch.ArgMinIsFirstMinimum` | tools/trackEff.go:309-317 | the index found attains the minimum, and every earlier value is strictly larger (ties go to the lowest index) |
| `TrackMatch.ArgMinUnique` | tools/trackEff.go:309-317 | those two properties determine the index: any index that has them is the one found |
| `TrackMatch.FindClosest` | tools/trackEff.go:309-317 | the minimum-angle loop returns -1 exactly for an empty pool; otherwise the first index attaining the strict minimum angle, and that angle |
| `TrackMatch.Choice` | tools/trackEff.go:319 | a track's choice, when it has one, is a valid pool index |
| `TrackMatch.ChoiceExact` | tools/trackEff.go:309-319 | a track takes the first closest candidate when its angle is below `maxAngle` (0.01). It takes none exactly when no candidate is within the cutoff, in particular when the pool is empty |
| `TrackMatch.RemoveAtMultiset` | tools/trackEff.go:326 | the splice removes exactly one occurrence of the chosen candidate |
| `TrackMatch.MatchAll` | tools/trackEff.go:298-328 | the greedy matcher over one event's tracks; characterised by `MatchAllConserves`, `MatchAllResults`, `MatchAllOneToOne` and `UnambiguousTracksAllMatch`, and computed in place by `MatchTracks` |
| `TrackMatch.MatchAllConserves` | tools/trackEff.go:298-328 | per event, matched candidates plus the final pool are exactly the initial pool (as a multiset), with one result per matched candidate and at most one per track |
| `TrackMatch.MatchAllResults` | tools/trackEff.go:319-325 | each track result carries the eta and pT of the candidate it took and an angle below `maxAngle` |
| `TrackMatch.MatchAllOneToOne` | tools/trackEff.go:319-327 | over a duplicate-free pool, no candidate is matched twice, matched candidates come from the pool and leave it, and the final pool is a duplicate-free part of the initial one |
| `TrackMatch.ClosestIsChoice` | tools/trackEff.go:309-319 | the guard `minIndex >= 0 && minAngle < maxAngle` decides the match exactly as the specified choice does, with the same candidate |
| `TrackMatch.MatchAllStep` | tools/trackEff.go:298-328 | handling one track either leaves the pool for the next tracks unchanged (no match), or emits one result and continues with the chosen candidate spliced out |
| `TrackMatch.MatchTracks` | tools/trackEff.go:298-328 | the in-place track loop, splicing the pool slice, emits exactly the results of the greedy matching and leaves exactly its final pool |
| `TrackMatch.FirstTrackTakesSoleCandidate` | tools/trackEff.go:319-327 | with one candidate close to two tracks, the first track takes it and the second finds the pool empty |
| `TrackMatch.GreedyIsOrderDependent` | tools/trackEff.go:298-328 | the assignment depends on track order and is not maximal: one order matches one track, the other order matches both |
| `TrackMatch.UnambiguousRest` | tools/trackEff.go:319-327 | when the first track takes its own candidate, the remaining tracks stay unambiguous over the remaining pool |
| `TrackMatch.UnambiguousFirstChoice` | tools/trackEff.go:309-319 | when only its partner is within the cutoff, a track takes its partner |
| `TrackMatch.UnambiguousStep` | tools/trackEff.go:298-328 | one matching step under unambiguity: the first track takes its partner and the rest is matched over the pool without it |
| `TrackMatch.UnambiguousTracksAllMatch` | tools/trackEff.go:298-328 | when every track has exactly one candidate within the cutoff and no two share one, every track is matched, to its own candidate, in order |
| `TrackEff.EventMatchesOneToOne` | tools/trackEff.go:273-328 | per event there are at most as many track results as tracks and as candidates, no truth particle is matched twice, and each matched one passed the truth selection |
| `TrackEff.BuildPool` | tools/trackEff.go:273-296 | the truth loop builds exactly the specified pool, fresh for the event, and sends one TrueResult per candidate as it is appended |
| `TrackEff.AnalyzeEvent` | tools/trackEff.go:266-328 | one event sends its TrueResults, then the results of the greedy matching |
| `TrackEff.AnalyzeFile` | tools/trackEff.go:258-332 | a worker sends the results of its events in order and then exactly one completion |
| `TrackEff.Route` | tools/trackEff.go:157-164 | one result case of the select loop; `RouteAll` states which histograms it fills |
| `TrackEff.RouteAll` | tools/trackEff.go:158-164 | each TrueResult fills exactly the true-eta and true-pT histograms, and each TrackResult exactly the track-eta, min-angle and track-pT ones, all with weight 1 and shapes unchanged |
| `TrackEff.DrawFileSet` | tools/trackEff.go:130-173 | trackEff's loop, counting every token: each histogram holds exactly the weight-1 fills of the results addressed to it, plus the scheduler guarantees of `Coordinate` |
| `TrackEff.PlottedPairSameShape` | tools/trackEff.go:188-214 | the truth and track histograms compared on the plot (eta, or pT with `-p`) have the same bin count and range |
| `TrackEff.RatioFills` | tools/trackEff.go:228-234 | the fills the ratio loop makes; characterised by `RatioFillsExact` and `RatioFillsIndexed` |
| `TrackEff.RatioFillsExact` | tools/trackEff.go:228-234 | a ratio fill exists for a bin iff its truth value is positive, every fill is `trackY/trueY` at the centre of some positive bin, and there are no more fills than bins |
| `TrackEff.PositiveBins` | tools/trackEff.go:228-231 | the bins the ratio loop fills: exactly those with a positive truth value, each once, in increasing bin order |
| `TrackEff.RatioFillsIndexed` | tools/trackEff.go:228-234 | the ratio fills correspond one to one, in order, to the positive bins: the k-th fill is `trackY/trueY` at the centre of the k-th positive bin, so each bin gets at most one fill |
| `TrackEff.Normalize` | tools/trackEff.go:226-234 | the normalisation loop yields a histogram shaped like the truth histogram, holding exactly the ratio fills |
| `TrackEff.RatioStageAsWritten` | tools/trackEff.go:175-234 | as written, the plotting stage aborts exactly when it is not the minimum-angle plot and no truth histogram exists, and draws a ratio exactly with `-n` and truth |
| `TrackEff.DirectoryModeAborts` | tools/trackEff.go:226 | directory mode without `-a` and `-n` aborts as written at the end of the first directory's `drawFileSet`, and draws no ratio when corrected |
| `TrackEff.RatioStage` | tools/trackEff.go:226-234 | corrected: it aborts only when `-n` asks for a ratio without a truth histogram |
| `TrackEff.RatioStageOnlyRemovesAborts` | tools/trackEff.go:188-234 | the correction changes nothing when truth is drawn, and otherwise only removes aborts |
| `TrackEff.FinishRatio` | tools/trackEff.go:226-248 | with the corrected creation, a ratio histogram exists exactly when it is drawn, and it is the one `Normalize` derives |
| `PfoDist.Neg32` | tools/PFODist.go:255-258 | Go's `int32` negation is two's-complement: the result is the unique `int32` that adds to the operand to 0 modulo 2^32, so the most negative code is its own negation |
| `PfoDist.AbsCode` | tools/PFODist.go:255-258 | the absolute code is the code or its negation, and is non-negative except for the most negative code |
| `PfoDist.Classify` | tools/PFODist.go:260-274 | the switch agrees with the particle-code table (11 electron, 111 and 211 pion, 2212 proton, 22 photon, 2112 neutron) and gives `OTHER` to every other code |
| `PfoDist.TypeOf` | tools/PFODist.go:255-274 | the type given to a particle code; `TypeOfExact` and `TypeOfIgnoresSign` characterise it |
| `PfoDist.TypeOfExact` | tools/PFODist.go:255-274 | each species is recognised by exactly its code and its negation; `OTHER` exactly when neither the code nor its negation is in the table |
| `PfoDist.TypeOfIgnoresSign` | tools/PFODist.go:255-274 | the classification does not depend on the sign of the code |
| `PfoDist.TruthResultsAppend` | tools/PFODist.go:247-277 | truth results are per particle: a collection's results are those of its parts, in order |
| `PfoDist.TruthResults` | tools/PFODist.go:247-277 | the truth results of one event; `TruthResultsExact` characterises them and `SendTruth` computes them in a loop |
| `PfoDist.TruthResultsExact` | tools/PFODist.go:247-277 | a truth particle emits a result iff its GenStatus is 1, with no charge or pT cut. Each result is one such particle's charge, eta and type, with weight 1 |
| `PfoDist.PfoResultsExact` | tools/PFODist.go:279-305 | every PFO, unfiltered, sends exactly one result after the truth results, with its charge, eta, the type its code classifies to by the same table, and weight 1 |
| `PfoDist.SendTruth` | tools/PFODist.go:247-277 | the truth loop sends exactly the specified truth results, in order |
| `PfoDist.SendPfos` | tools/PFODist.go:279-305 | the PFO loop sends exactly one result per PFO, in order |
| `PfoDist.AnalyzeFile` | tools/PFODist.go:234-309 | a worker sends the results of its events in order and then exactly one `true` completion |
| `PfoDist.Route` | tools/PFODist.go:139-158 | one result case of the select loop; `RouteStep` and `RouteAll` state which histograms it fills |
| `PfoDist.Takes` | tools/PFODist.go:139-158 | which histogram a result goes to: its own side, charged or neutral by charge, and electron for an electron; `ChargedNeutralPartition` proves charged and neutral split each side |
| `PfoDist.RouteStep` | tools/PFODist.go:139-158 | one routing step fills a histogram exactly when it takes the result: the charged or the neutral one of the result's own side by charge, and that side's electron one for an electron |
| `PfoDist.RouteAll` | tools/PFODist.go:137-158 | after any sequence of results each histogram holds exactly the results it takes, in order, at their eta with their weight |
| `PfoDist.ChargedNeutralPartition` | tools/PFODist.go:140-154 | on each side, the charged and neutral histograms together hold exactly that side's results: each result fills exactly one of them |
| `PfoDist.DrawFileSet` | tools/PFODist.go:110-169 | PFODist's loop, counting only `true` tokens: each histogram holds exactly its routed fills, plus the scheduler guarantees of `Coordinate` |
| `ClusterDist.SendClusters` | tools/clusterDist.go:166-176 | one event sends one result per cluster, in collection order, weighted 1 or by energy |
| `ClusterDist.AnalyzeFile` | tools/clusterDist.go:154-180 | a worker sends one result per cluster of every event, in order, then exactly one `true` completion |
| `ClusterDist.CollectEveryResult` | tools/clusterDist.go:127-128 | every result is exactly one fill at its eta with its weight, so the total filled weight is the total weight sent |
| `ClusterDist.Weight` | tools/clusterDist.go:169-172 | a cluster's weight, 1 or its energy with `-e`; `TotalEnergyOfClusters` gives the totals |
| `ClusterDist.TotalEnergyOfClusters` | tools/clusterDist.go:169-172 | without `-e` the total weight is the number of clusters; with `-e` it is their total energy |
| `ClusterDist.Route` | tools/clusterDist.go:128 | one result fills the histogram at its eta with its weight; `RouteAll` and `CollectEveryResult` state the fills |
| `ClusterDist.RouteAll` | tools/clusterDist.go:125-128 | after any sequence of results the histogram has its shape and exactly their fills, in order |
| `ClusterDist.DrawFileSet` | tools/clusterDist.go:104-139 | clusterDist's loop, counting only `true` tokens: one fill per received result, total weight equal to the weight received, plus the scheduler guarantees of `Coordinate` |

## Findings

| source | as written | input that shows it | evidently intended | confidence | as-written member | corrected member |
|---|---|---|---|---|---|---|
| tools/trackEff.go:226 | outside the minimum-angle plot, `normHist` is always built from `hTrue.Hist`, and `hTrue` stays nil when truth is not drawn (directory mode) | `trackEff -d dirA dirB` without `-a` or `-n`: the first directory's `drawFileSet` (called with `drawTruth=false`, tools/trackEff.go:105) dereferences a nil `hTrue` after its files were analysed, so the run aborts and the second directory is never analysed | build the ratio histogram only under `-n` (inside `if *normalize`) | high, not executed | `TrackEff.RatioStageAsWritten`, `TrackEff.DirectoryModeAborts` | `TrackEff.RatioStage`, `TrackEff.FinishRatio` |

## Left out

- Goroutines, channels, `select` and `time.Sleep` are left out. The workers'
  output is an input sequence of arrivals, and the loop takes them one at a
  time.
- Scheduling.Coordinate: the arrivals are finite, so the model also covers
  the case where they run out before `nDone == nSubmitted`, where the real
  loop would block. The contract reports which case happened.
  - The model does not prove that the arrivals a real run produces are an
    interleaving of the workers' streams.
  - `WorkerStreamCounts` states what each stream contributes.
- float64 rounding is not modelled. `dotProduct` (`Dot`), the quotient
  `trackY/trueY` of the ratio, the comparison against `maxAngle = 0.01` and
  the histogram weights are exact real arithmetic, so results that depend on
  rounding (an angle within one ulp of the cutoff, say) may differ.
- Floating-point geometry is not modelled: `normalizeVector`,
  `normalizeVector32`, `normalizePos`, `dotProduct32`, `math.Atanh`,
  `math.Atan`, `math.Sqrt`, `cos`/`sin`, and `phiFromVector` (which no tool
  uses).
  - Eta, pT, unit directions and cluster positions are given as reals.
  - `acos` is a function parameter.
  - `float32` fields are real numbers, so widening to `float64` is not
    modelled.
- NaN angles are out of scope. The scan's start value `+Inf` is modelled as
  "no candidate yet" (`minIndex < 0`). The two agree whenever every angle is
  a number below `+Inf`, which holds for the values `acos` returns.
- LCIO reading is not modelled: opening a file, iterating events, fetching
  collections, and the panics when a collection is missing. An input file is
  a sequence of already-decoded events.
  - The fatal exit on an unreadable file (trackEff, PFODist) and the panic
    (clusterDist) are not modelled.
- hbook binning, `XY`, and hplot rendering, legends, colours and `Save` are
  not modelled.
  - A histogram is its shape plus its fills.
  - For the ratio, the truth bins (centre, value) and the track bin values
    are inputs of equal length.
  - TrackEff.PlottedPairSameShape states only the shape agreement that the
    bin-by-bin comparison relies on.
- Flag parsing, `ioutil.ReadDir`, and the per-directory loop of `main` are
  not modelled. `maxFiles`, `nThreads`, `-e`, `-n`, `-a` and `-p` are plain
  parameters, and `maxFiles`/`nThreads` may be any integer.
- TrackEff.FinishRatio: with `-n` and no truth histogram it reports `Panics`
  instead of modelling a Go panic.
- geom/config/ddsim-steering.py is not part of this model: it is simulation
  configuration with no logic of these tools.
- Integers are unbounded, except particle codes. Those are 32-bit, and the
  wrap of their negation is modelled (`Neg32`). `nSubmitted` and `nDone`
  cannot overflow, because they never exceed the number of input files.

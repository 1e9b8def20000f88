/** clusterDist: the eta distribution of the reconstructed calorimeter
    clusters, optionally weighted by cluster energy. A worker per file sends
    one result per cluster; the coordinator fills a single histogram. */
module ClusterDist {
  import opened Util
  import opened Histogram
  import opened Scheduling

  const MinEta: real := -5.0
  const MaxEta: real := 5.0
  const NEtaBins: int := 50

  /** A reconstructed cluster; `eta` is derived from its position. */
  datatype Cluster = Cluster(eta: real, energy: real)

  /** The clusters of one event, in collection order. */
  datatype Event = Event(clusters: seq<Cluster>)

  /** `clusterResult`: the field `Energy` holds the fill weight. */
  datatype ClusterResult = ClusterResult(eta: real, energy: real)

  /** The weight of a cluster: 1 unless `-e` asks for energy weighting. */
  function Weight(energyWeighted: bool, c: Cluster): real {
    if energyWeighted then c.energy else 1.0
  }

  function ResultOf(energyWeighted: bool, c: Cluster): ClusterResult {
    ClusterResult(c.eta, Weight(energyWeighted, c))
  }

  /** All clusters of a file, event after event. */
  function AllClusters(events: seq<Event>): seq<Cluster> {
    if events == [] then [] else AllClusters(events[..|events| - 1]) + events[|events| - 1].clusters
  }

  /** What a file sends: one result per cluster, in order. */
  function FileResults(events: seq<Event>, energyWeighted: bool): seq<ClusterResult> {
    Map(c => ResultOf(energyWeighted, c), AllClusters(events))
  }

  /** The cluster loop of one event. */
  method SendClusters(cs: seq<Cluster>, energyWeighted: bool) returns (sent: seq<ClusterResult>)
    ensures sent == Map(c => ResultOf(energyWeighted, c), cs)
  {
    sent := [];
    for j := 0 to |cs|
      invariant sent == Map(c => ResultOf(energyWeighted, c), cs[..j])
    {
      assert cs[..j + 1][..j] == cs[..j];
      var cluster := cs[j];
      var energy := 1.0;
      if energyWeighted {
        energy := cluster.energy;
      }
      sent := sent + [ClusterResult(cluster.eta, energy)];
    }
    assert cs[..|cs|] == cs;
  }

  /** `analyzeFile`: every cluster of every event, then one `done <- true`. */
  method AnalyzeFile(events: seq<Event>, energyWeighted: bool) returns (out: seq<Arrival<ClusterResult>>)
    ensures out == Sends(FileResults(events, energyWeighted)) + [Done(true)]
    ensures Delivered(out) == FileResults(events, energyWeighted)
    ensures CountDone(out, true) == 1
  {
    var sent := [];
    for i := 0 to |events|
      invariant sent == FileResults(events[..i], energyWeighted)
    {
      assert events[..i + 1][..i] == events[..i];
      var results := SendClusters(events[i].clusters, energyWeighted);
      MapAppend(c => ResultOf(energyWeighted, c), AllClusters(events[..i]), events[i].clusters);
      sent := sent + results;
    }
    assert events[..|events|] == events;
    out := Sends(sent) + [Done(true)];
    WorkerStreamCounts(sent, true);
  }

  /** The one result case of the select loop. */
  function Route(h: H1D, r: ClusterResult): H1D {
    h.Fill(r.eta, r.energy)
  }

  function FillOf(r: ClusterResult): Option<Entry> {
    Some(Entry(r.eta, r.energy))
  }

  /** Sum of the weights carried by a sequence of results. */
  function TotalEnergy(rs: seq<ClusterResult>): real {
    if rs == [] then 0.0 else TotalEnergy(rs[..|rs| - 1]) + rs[|rs| - 1].energy
  }

  /** Every result is one fill of the histogram: there are as many fills as
      results, each at the result's eta with its weight, so the total filled
      weight is the total weight sent. */
  lemma {:induction false} CollectEveryResult(rs: seq<ClusterResult>)
    ensures |Collect(rs, FillOf)| == |rs|
    ensures forall i :: 0 <= i < |rs| ==> Collect(rs, FillOf)[i] == Entry(rs[i].eta, rs[i].energy)
    ensures TotalWeight(Collect(rs, FillOf)) == TotalEnergy(rs)
    decreases |rs|
  {
    if rs != [] {
      var front := rs[..|rs| - 1];
      CollectEveryResult(front);
      var c := Collect(rs, FillOf);
      assert c == Collect(front, FillOf) + [Entry(rs[|rs| - 1].eta, rs[|rs| - 1].energy)];
      assert c[..|c| - 1] == Collect(front, FillOf);
    }
  }

  /** Without `-e` every cluster weighs 1, so the total weight is the number
      of clusters; with `-e` it is their total energy. */
  lemma {:induction false} TotalEnergyOfClusters(cs: seq<Cluster>, energyWeighted: bool)
    ensures !energyWeighted ==> TotalEnergy(Map(c => ResultOf(energyWeighted, c), cs)) == |cs| as real
    ensures energyWeighted ==> TotalEnergy(Map(c => ResultOf(energyWeighted, c), cs)) == SumEnergy(cs)
    decreases |cs|
  {
    if cs != [] {
      var front := cs[..|cs| - 1];
      var f := c => ResultOf(energyWeighted, c);
      TotalEnergyOfClusters(front, energyWeighted);
      assert Map(f, cs)[..|cs| - 1] == Map(f, front);
    }
  }

  /** Sum of the clusters' own energies. */
  function SumEnergy(cs: seq<Cluster>): real {
    if cs == [] then 0.0 else SumEnergy(cs[..|cs| - 1]) + cs[|cs| - 1].energy
  }

  /** After routing a sequence of results the histogram has kept its shape
      and received exactly their fills, in order. */
  lemma RouteAll(h: H1D, rs: seq<ClusterResult>)
    ensures FoldRoute(Route, h, rs) == h.(fills := h.fills + Collect(rs, FillOf))
  {
    forall g, r
      ensures Route(g, r) == g.(fills := g.fills + Opt(FillOf(r)))
    {
    }
    FoldFillsSelected(Route, (g: H1D) => g, FillOf, h, rs);
  }

  /** `drawFileSet` up to the plotting: the coordinator loop, counting only
      `true` completion tokens; every received result is one fill. */
  method DrawFileSet(inputFiles: seq<string>, maxFiles: int, nThreads: int, arrivals: seq<Arrival<ClusterResult>>)
    returns (hist: H1D, started: seq<string>, consumed: nat, finished: bool)
    ensures consumed <= |arrivals|
    ensures |started| <= Max(NFilesToAnalyze(|inputFiles|, maxFiles), 0)
    ensures hist.SameShape(NewH1D(NEtaBins, MinEta, MaxEta))
    ensures var rs := Delivered(arrivals[..consumed]);
      && |hist.fills| == |rs|
      && (forall i :: 0 <= i < |rs| ==> hist.fills[i] == Entry(rs[i].eta, rs[i].energy))
      && TotalWeight(hist.fills) == TotalEnergy(rs)
    ensures started == inputFiles[..|started|]
    ensures finished <==> CountDone(arrivals[..consumed], true) == |started|
    ensures finished && nThreads >= 1 ==> |started| == Max(NFilesToAnalyze(|inputFiles|, maxFiles), 0)
    ensures CountDone(arrivals, true) >= Max(NFilesToAnalyze(|inputFiles|, maxFiles), 0) ==> finished
    ensures |started| >= InitialSubmissions(NFilesToAnalyze(|inputFiles|, maxFiles), nThreads)
    ensures !finished ==> consumed == |arrivals| && CountDone(arrivals, true) < |started|
    ensures finished && consumed > 0 ==> Counts(arrivals[consumed - 1], true)
  {
    var h0 := NewH1D(NEtaBins, MinEta, MaxEta);
    hist, started, consumed, finished := Coordinate(inputFiles, maxFiles, nThreads, true, arrivals, h0, Route);
    var rs := Delivered(arrivals[..consumed]);
    RouteAll(h0, rs);
    assert hist.fills == Collect(rs, FillOf);
    CollectEveryResult(rs);
  }
}

/** trackEff: compares reconstructed tracks with the charged truth particles
    they come from. A worker per file runs the truth selection and the
    matcher of module TrackMatch on every event and sends TrueResults and
    TrackResults; the coordinator fills eta, pT and minimum-angle
    histograms, and can derive a track/truth ratio per bin. */
module TrackEff {
  import opened Util
  import opened Histogram
  import opened Scheduling
  import opened TrackMatch

  const MinEta: real := -5.0
  const MaxEta: real := 5.0
  const MinP_T: real := 0.5
  const MaxP_T: real := 5.0
  const NEtaBins: int := 50
  const NAngleBins: int := 50
  const NP_TBins: int := 50

  datatype Event = Event(particles: seq<McParticle>, tracks: seq<Track>)

  datatype TrueResult = TrueResult(eta: real, pT: real)

  /** A value sent on `trueResults` or on `trackResults`. */
  datatype Output = TrueOut(t: TrueResult) | TrackOut(k: TrackResult)

  // ----- One event, one file -----

  function TrueOf(r: TruthRelation): Output {
    TrueOut(TrueResult(r.eta, r.pT))
  }

  function TrackOutOf(k: TrackResult): Output {
    TrackOut(k)
  }

  /** What one event sends: a TrueResult per pool candidate, then a
      TrackResult per matched track. */
  function EventOutputs(e: Event, acos: real -> real): seq<Output> {
    var pool := Pool(e.particles);
    Map(TrueOf, pool) + Map(TrackOutOf, MatchAll(pool, e.tracks, acos).results)
  }

  function EventsOutputs(events: seq<Event>, acos: real -> real): seq<Output> {
    if events == [] then []
    else EventsOutputs(events[..|events| - 1], acos) + EventOutputs(events[|events| - 1], acos)
  }

  /** Per event: each selected particle sends one TrueResult and no other
      particle does; there are at most as many track results as tracks and
      as candidates; and no truth particle is matched by two tracks. */
  lemma EventMatchesOneToOne(e: Event, acos: real -> real)
    ensures var pool := Pool(e.particles);
            var st := MatchAll(pool, e.tracks, acos);
      && |st.results| <= |e.tracks| && |st.results| <= |pool|
      && Distinct(st.matched)
      && (forall x :: x in st.matched ==> x.truth < |e.particles| && Selected(e.particles[x.truth]))
  {
    var pool := Pool(e.particles);
    PoolExact(e.particles);
    MatchAllConserves(pool, e.tracks, acos);
    MatchAllResults(pool, e.tracks, acos);
    MatchAllOneToOne(pool, e.tracks, acos);
    var st := MatchAll(pool, e.tracks, acos);
    assert |multiset(st.matched)| <= |multiset(pool)|;
    forall x | x in st.matched
      ensures x.truth < |e.particles| && Selected(e.particles[x.truth])
    {
      var k :| 0 <= k < |pool| && pool[k] == x;
    }
  }

  /** The truth loop: build the pool, sending a TrueResult for each
      candidate as it is appended. */
  method BuildPool(ps: seq<McParticle>) returns (pool: seq<TruthRelation>, sent: seq<Output>)
    ensures pool == Pool(ps)
    ensures sent == Map(TrueOf, pool)
  {
    pool := [];
    sent := [];
    for i := 0 to |ps|
      invariant pool == Pool(ps[..i])
      invariant sent == Map(TrueOf, pool)
    {
      assert ps[..i + 1][..i] == ps[..i];
      var truth := ps[i];
      if truth.genStatus != 1 || truth.charge == 0.0 {
        continue;
      }
      if truth.pT > TruthMinPT {
        var r := RelationOf(i, truth);
        assert (pool + [r])[..|pool|] == pool;
        pool := pool + [r];
        sent := sent + [TrueOf(r)];
      }
    }
    assert ps[..|ps|] == ps;
  }

  /** `analyzeFile`'s work on one event. */
  method AnalyzeEvent(e: Event, acos: real -> real) returns (sent: seq<Output>)
    ensures sent == EventOutputs(e, acos)
  {
    var pool, trues := BuildPool(e.particles);
    var rest, results := MatchTracks(pool, e.tracks, acos);
    sent := trues + Map(TrackOutOf, results);
  }

  /** `analyzeFile`: the events in order, then one `done <- true`. */
  method AnalyzeFile(events: seq<Event>, acos: real -> real) returns (out: seq<Arrival<Output>>)
    ensures out == Sends(EventsOutputs(events, acos)) + [Done(true)]
    ensures Delivered(out) == EventsOutputs(events, acos)
    ensures CountDone(out, false) == 1
  {
    var sent := [];
    for i := 0 to |events|
      invariant sent == EventsOutputs(events[..i], acos)
    {
      assert events[..i + 1][..i] == events[..i];
      var o := AnalyzeEvent(events[i], acos);
      sent := sent + o;
    }
    assert events[..|events|] == events;
    out := Sends(sent) + [Done(true)];
    WorkerStreamCounts(sent, false);
  }

  // ----- Routing into histograms -----

  datatype Hists = Hists(trueEta: H1D, trackEta: H1D, minAngle: H1D, trueP_T: H1D, trackP_T: H1D)

  function NewHists(): Hists {
    Hists(NewH1D(NEtaBins, MinEta, MaxEta), NewH1D(NEtaBins, MinEta, MaxEta),
          NewH1D(NAngleBins, 0.0, MaxAngle),
          NewH1D(NP_TBins, MinP_T, MaxP_T), NewH1D(NP_TBins, MinP_T, MaxP_T))
  }

  /** One case of the select loop. */
  function Route(h: Hists, o: Output): Hists {
    match o
    case TrueOut(t) =>
      h.(trueEta := h.trueEta.Fill(t.eta, 1.0), trueP_T := h.trueP_T.Fill(t.pT, 1.0))
    case TrackOut(k) =>
      h.(trackEta := h.trackEta.Fill(k.eta, 1.0), minAngle := h.minAngle.Fill(k.minAngle, 1.0),
         trackP_T := h.trackP_T.Fill(k.pT, 1.0))
  }

  /** The five histograms, by name. */
  datatype Which = TrueEta | TrueP_T | TrackEta | MinAngle | TrackP_T

  function HistOf(w: Which, h: Hists): H1D {
    match w
    case TrueEta => h.trueEta
    case TrueP_T => h.trueP_T
    case TrackEta => h.trackEta
    case MinAngle => h.minAngle
    case TrackP_T => h.trackP_T
  }

  /** The entry a result adds to histogram `w`, if any: truth results fill
      true-eta and true-pT, track results fill track-eta, min-angle and
      track-pT, always with weight 1. */
  function FillOf(w: Which, o: Output): Option<Entry> {
    match w
    case TrueEta => if o.TrueOut? then Some(Entry(o.t.eta, 1.0)) else None
    case TrueP_T => if o.TrueOut? then Some(Entry(o.t.pT, 1.0)) else None
    case TrackEta => if o.TrackOut? then Some(Entry(o.k.eta, 1.0)) else None
    case MinAngle => if o.TrackOut? then Some(Entry(o.k.minAngle, 1.0)) else None
    case TrackP_T => if o.TrackOut? then Some(Entry(o.k.pT, 1.0)) else None
  }

  /** After routing a sequence of results, histogram `w` has kept its shape
      and received, in order, exactly the entries of the results addressed
      to it. */
  lemma RouteAll(w: Which, h: Hists, rs: seq<Output>)
    ensures HistOf(w, FoldRoute(Route, h, rs)) == HistOf(w, h).(fills := HistOf(w, h).fills + Collect(rs, o => FillOf(w, o)))
  {
    FoldFillsSelected(Route, (g: Hists) => HistOf(w, g), o => FillOf(w, o), h, rs);
  }

  /** `drawFileSet` up to the plotting: the coordinator loop over the
      arrivals, counting every `done` token. */
  method DrawFileSet(inputFiles: seq<string>, maxFiles: int, nThreads: int, arrivals: seq<Arrival<Output>>)
    returns (hists: Hists, started: seq<string>, consumed: nat, finished: bool)
    ensures consumed <= |arrivals|
    ensures |started| <= Max(NFilesToAnalyze(|inputFiles|, maxFiles), 0)
    ensures forall w :: HistOf(w, hists) == HistOf(w, NewHists()).(fills := Collect(Delivered(arrivals[..consumed]), o => FillOf(w, o)))
    ensures started == inputFiles[..|started|]
    ensures finished <==> CountDone(arrivals[..consumed], false) == |started|
    ensures finished && nThreads >= 1 ==> |started| == Max(NFilesToAnalyze(|inputFiles|, maxFiles), 0)
    ensures CountDone(arrivals, false) >= Max(NFilesToAnalyze(|inputFiles|, maxFiles), 0) ==> finished
    ensures |started| >= InitialSubmissions(NFilesToAnalyze(|inputFiles|, maxFiles), nThreads)
    ensures !finished ==> consumed == |arrivals| && CountDone(arrivals, false) < |started|
    ensures finished && consumed > 0 ==> Counts(arrivals[consumed - 1], false)
  {
    hists, started, consumed, finished := Coordinate(inputFiles, maxFiles, nThreads, false, arrivals, NewHists(), Route);
    forall w {
      RouteAll(w, NewHists(), Delivered(arrivals[..consumed]));
    }
  }

  /** The histograms compared on the plot: eta, or pT with `-p`. */
  function PlottedPair(h: Hists, vsP_T: bool): (H1D, H1D) {
    if vsP_T then (h.trueP_T, h.trackP_T) else (h.trueEta, h.trackEta)
  }

  /** The truth and track histograms that are compared bin by bin always have
      the same bin count and range. */
  lemma PlottedPairSameShape(rs: seq<Output>, vsP_T: bool)
    ensures var p := PlottedPair(FoldRoute(Route, NewHists(), rs), vsP_T);
      p.0.SameShape(p.1) && p.0.nBins == (if vsP_T then NP_TBins else NEtaBins)
  {
    if vsP_T {
      RouteAll(TrueP_T, NewHists(), rs);
      RouteAll(TrackP_T, NewHists(), rs);
    } else {
      RouteAll(TrueEta, NewHists(), rs);
      RouteAll(TrackEta, NewHists(), rs);
    }
  }

  // ----- The ratio histogram -----

  /** `XY(i)` of a truth-histogram bin: its centre and its value. */
  datatype Bin = Bin(x: real, y: real)

  /** The fills of the ratio histogram: one per bin with a positive truth
      value, at the bin centre, weighted track/truth. */
  function RatioFills(trueBins: seq<Bin>, trackY: seq<real>): seq<Entry>
    requires |trackY| >= |trueBins|
  {
    if trueBins == [] then []
    else
      var n := |trueBins| - 1;
      RatioFills(trueBins[..n], trackY)
      + (if trueBins[n].y > 0.0 then [Entry(trueBins[n].x, trackY[n] / trueBins[n].y)] else [])
  }

  /** A ratio fill exists for a bin iff its truth value is positive, and it
      is the track/truth quotient at that bin's centre; there is at most one
      per bin. */
  lemma {:induction false} RatioFillsExact(trueBins: seq<Bin>, trackY: seq<real>)
    requires |trackY| >= |trueBins|
    ensures |RatioFills(trueBins, trackY)| <= |trueBins|
    ensures forall i :: 0 <= i < |trueBins| && trueBins[i].y > 0.0 ==>
              Entry(trueBins[i].x, trackY[i] / trueBins[i].y) in RatioFills(trueBins, trackY)
    ensures forall e :: e in RatioFills(trueBins, trackY) ==>
              exists i :: 0 <= i < |trueBins| && trueBins[i].y > 0.0 && e == Entry(trueBins[i].x, trackY[i] / trueBins[i].y)
    decreases |trueBins|
  {
    if trueBins != [] {
      var n := |trueBins| - 1;
      var front := trueBins[..n];
      RatioFillsExact(front, trackY);
      forall i | 0 <= i < n ensures front[i] == trueBins[i] { }
    }
  }

  /** The indices of the bins with a positive truth value, in increasing
      order. */
  function PositiveBins(trueBins: seq<Bin>): (idx: seq<nat>)
    ensures forall k :: 0 <= k < |idx| ==> idx[k] < |trueBins| && trueBins[idx[k]].y > 0.0
    ensures forall k, l :: 0 <= k < l < |idx| ==> idx[k] < idx[l]
    ensures forall i :: 0 <= i < |trueBins| && trueBins[i].y > 0.0 ==> i in idx
  {
    if trueBins == [] then []
    else
      var n := |trueBins| - 1;
      assert forall i :: 0 <= i < n ==> trueBins[..n][i] == trueBins[i];
      PositiveBins(trueBins[..n]) + (if trueBins[n].y > 0.0 then [n] else [])
  }

  /** The k-th ratio fill belongs to the k-th bin with a positive truth
      value: fills and positive bins correspond one to one, in bin order. */
  lemma {:induction false} RatioFillsIndexed(trueBins: seq<Bin>, trackY: seq<real>)
    requires |trackY| >= |trueBins|
    ensures var r := RatioFills(trueBins, trackY);
            var idx := PositiveBins(trueBins);
            && |r| == |idx|
            && forall k :: 0 <= k < |idx| ==>
                 r[k] == Entry(trueBins[idx[k]].x, trackY[idx[k]] / trueBins[idx[k]].y)
    decreases |trueBins|
  {
    if trueBins != [] {
      var n := |trueBins| - 1;
      var front := trueBins[..n];
      RatioFillsIndexed(front, trackY);
      var r, r' := RatioFills(trueBins, trackY), RatioFills(front, trackY);
      var idx, idx' := PositiveBins(trueBins), PositiveBins(front);
      forall k | 0 <= k < |idx'|
        ensures r[k] == r'[k] && idx[k] == idx'[k] && trueBins[idx[k]] == front[idx'[k]]
      {
      }
    }
  }

  /** The normalisation step: a histogram shaped like the truth histogram,
      filled bin by bin where the truth value is positive. */
  method Normalize(hTrue: H1D, trueBins: seq<Bin>, trackY: seq<real>) returns (normHist: H1D)
    requires hTrue.nBins == |trueBins| && |trackY| == |trueBins|
    ensures normHist.SameShape(hTrue)
    ensures normHist.fills == RatioFills(trueBins, trackY)
  {
    normHist := NewH1D(hTrue.nBins, hTrue.xMin, hTrue.xMax);
    for i := 0 to normHist.nBins
      invariant normHist.SameShape(hTrue)
      invariant normHist.fills == RatioFills(trueBins[..i], trackY)
    {
      assert trueBins[..i + 1][..i] == trueBins[..i];
      var trueX, trueY := trueBins[i].x, trueBins[i].y;
      var trackYi := trackY[i];
      if trueY > 0.0 {
        normHist := normHist.Fill(trueX, trackYi / trueY);
      }
    }
    assert trueBins[..|trueBins|] == trueBins;
  }

  // ----- After the loop: which ratio work the plotting stage does -----

  /** How the plotting stage of `drawFileSet` ends, as far as the ratio is
      concerned: it aborts on a nil truth histogram, draws no ratio, or
      derives and draws the ratio histogram. */
  datatype RatioOutcome = Panics | NoRatio | RatioDrawn

  /** The stage as written: outside the minimum-angle plot, the ratio
      histogram is created from the truth histogram whether or not `-n` was
      given, and the truth histogram only exists when truth is drawn (it is
      not in directory mode). */
  function RatioStageAsWritten(doMinAnglePlot: bool, normalize: bool, drawTruth: bool): (o: RatioOutcome)
    ensures o == Panics <==> !doMinAnglePlot && !drawTruth
    ensures o == RatioDrawn <==> !doMinAnglePlot && drawTruth && normalize
  {
    if doMinAnglePlot then NoRatio
    else if !drawTruth then Panics
    else if normalize then RatioDrawn
    else NoRatio
  }

  /** Directory mode without `-a` and without `-n` (`trackEff -d dirA dirB`)
      aborts at the end of the first directory's `drawFileSet`, after its
      files were analysed and before the next directory is read, although it
      asks for no ratio. */
  lemma DirectoryModeAborts()
    ensures RatioStageAsWritten(false, false, false) == Panics
    ensures RatioStage(false, false, false) == NoRatio
  {
  }

  /** The stage as evidently intended: the ratio histogram is created only
      when `-n` asks for it. */
  function RatioStage(doMinAnglePlot: bool, normalize: bool, drawTruth: bool): (o: RatioOutcome)
    ensures o == Panics <==> !doMinAnglePlot && normalize && !drawTruth
    ensures o == RatioDrawn <==> !doMinAnglePlot && normalize && drawTruth
  {
    if doMinAnglePlot || !normalize then NoRatio
    else if !drawTruth then Panics
    else RatioDrawn
  }

  /** The correction changes nothing when truth is drawn, and only removes
      aborts otherwise. */
  lemma RatioStageOnlyRemovesAborts(doMinAnglePlot: bool, normalize: bool, drawTruth: bool)
    ensures drawTruth ==> RatioStage(doMinAnglePlot, normalize, drawTruth) == RatioStageAsWritten(doMinAnglePlot, normalize, drawTruth)
    ensures RatioStage(doMinAnglePlot, normalize, drawTruth) == Panics ==> RatioStageAsWritten(doMinAnglePlot, normalize, drawTruth) == Panics
  {
  }

  /** The plotting stage's ratio work, with the corrected creation of the
      ratio histogram: with `-n` and a truth histogram present, the ratio
      histogram is the one `Normalize` derives. */
  method FinishRatio(doMinAnglePlot: bool, normalize: bool, hTrue: Option<H1D>, trueBins: seq<Bin>, trackY: seq<real>)
    returns (o: RatioOutcome, normHist: Option<H1D>)
    requires hTrue.Some? ==> hTrue.value.nBins == |trueBins| && |trackY| == |trueBins|
    ensures o == RatioStage(doMinAnglePlot, normalize, hTrue.Some?)
    ensures normHist.Some? <==> o == RatioDrawn
    ensures normHist.Some? ==> normHist.value.SameShape(hTrue.value) && normHist.value.fills == RatioFills(trueBins, trackY)
  {
    normHist := None;
    if doMinAnglePlot || !normalize {
      o := NoRatio;
    } else if hTrue.None? {
      o := Panics;
    } else {
      var h := Normalize(hTrue.value, trueBins, trackY);
      normHist := Some(h);
      o := RatioDrawn;
    }
  }
}

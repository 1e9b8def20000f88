/** PFODist: compares the eta distributions of the particle-flow objects
    (PFOs) of a reconstruction with those of the generator-level truth
    particles, split into charged, neutral and electron samples. A worker per
    file classifies every final-state truth particle and every PFO by its
    particle code and sends one result for each; the coordinator routes each
    result into the charged or neutral histogram of its side, and also into
    the electron histogram of its side when it is an electron. */
module PfoDist {
  import opened Util
  import opened Histogram
  import opened Scheduling

  const MinEta: real := -5.0
  const MaxEta: real := 5.0
  const NEtaBins: int := 50
  /** Declared by the tool but never used: truth particles are not cut on pT. */
  const TruthChargedMinPT: real := 0.5

  /** Particle codes are 32-bit signed integers. */
  newtype int32 = x: int | -0x8000_0000 <= x < 0x8000_0000

  const MinInt32: int32 := -0x8000_0000

  /** Go's unary minus on an `int32`: two's-complement, so the most negative
      value is its own negation. */
  function Neg32(x: int32): (r: int32)
    ensures (r as int + x as int) % 0x1_0000_0000 == 0
  {
    if x == MinInt32 then x else -x
  }

  /** `absPDG := code; if absPDG < 0 { absPDG = -absPDG }`. */
  function AbsCode(code: int32): (a: int32)
    ensures a as int == code as int || a as int == -(code as int)
    ensures a >= 0 <==> code != MinInt32
  {
    if code < 0 then Neg32(code) else code
  }

  datatype ParticleType = Elec | Pion | Proton | Photon | Neutron | Other

  /** The species the tool distinguishes, by absolute particle code in the
      Monte Carlo particle numbering scheme of the Particle Data Group
      (Review of Particle Physics): electron 11, neutral pion 111, charged
      pion 211, proton 2212, photon 22, neutron 2112. */
  const CodeTable: map<int, ParticleType> :=
    map[11 := Elec, 111 := Pion, 211 := Pion, 2212 := Proton, 22 := Photon, 2112 := Neutron]

  /** The `switch absPDG` of the tool, with `case 111: fallthrough`. */
  function Classify(absCode: int32): (t: ParticleType)
    ensures absCode as int in CodeTable ==> t == CodeTable[absCode as int]
    ensures absCode as int !in CodeTable ==> t == Other
  {
    if absCode == 11 then Elec
    else if absCode == 111 || absCode == 211 then Pion
    else if absCode == 2212 then Proton
    else if absCode == 22 then Photon
    else if absCode == 2112 then Neutron
    else Other
  }

  /** The type the tool gives a particle code. */
  function TypeOf(code: int32): ParticleType {
    Classify(AbsCode(code))
  }

  /** Each species is recognised by exactly its code and the code of its
      antiparticle; every other code, the most negative one included, is
      `Other`. */
  lemma TypeOfExact(code: int32)
    ensures TypeOf(code) == Elec <==> code == 11 || code == -11
    ensures TypeOf(code) == Pion <==> code == 111 || code == -111 || code == 211 || code == -211
    ensures TypeOf(code) == Proton <==> code == 2212 || code == -2212
    ensures TypeOf(code) == Photon <==> code == 22 || code == -22
    ensures TypeOf(code) == Neutron <==> code == 2112 || code == -2112
    ensures TypeOf(code) == Other <==> (code as int !in CodeTable && -(code as int) !in CodeTable)
  {
    var a := AbsCode(code);
    assert a as int == code as int || a as int == -(code as int);
    if code == MinInt32 {
      assert a == MinInt32;
    }
  }

  /** The classification does not depend on the sign of the code. */
  lemma TypeOfIgnoresSign(code: int32)
    ensures TypeOf(Neg32(code)) == TypeOf(code)
  {
    TypeOfExact(code);
    TypeOfExact(Neg32(code));
  }

  // ----- What one file sends -----

  /** A generator-level particle; `eta` is derived from the momentum. */
  datatype McParticle = McParticle(genStatus: int32, charge: real, pdg: int32, eta: real)

  /** A reconstructed particle; `eta` is derived from the momentum. */
  datatype Pfo = Pfo(charge: real, pfoType: int32, eta: real)

  datatype Event = Event(particles: seq<McParticle>, pfos: seq<Pfo>)

  datatype Result = Result(charge: real, eta: real, ptype: ParticleType, weight: real)

  /** A value sent on `trueOut` or on `pfoOut`. */
  datatype Output = TrueOut(r: Result) | PfoOut(r: Result)

  function TruthResultOf(p: McParticle): Result {
    Result(p.charge, p.eta, TypeOf(p.pdg), 1.0)
  }

  function PfoResultOf(f: Pfo): Result {
    Result(f.charge, f.eta, TypeOf(f.pfoType), 1.0)
  }

  /** The truth results of a collection: one per final-state particle. */
  function TruthResults(ps: seq<McParticle>): seq<Result> {
    if ps == [] then []
    else
      var p := ps[|ps| - 1];
      TruthResults(ps[..|ps| - 1]) + (if p.genStatus == 1 then [TruthResultOf(p)] else [])
  }

  /** Truth results are per particle: a collection's results are those of its
      parts, in order. */
  lemma {:induction false} TruthResultsAppend(a: seq<McParticle>, b: seq<McParticle>)
    ensures TruthResults(a + b) == TruthResults(a) + TruthResults(b)
    decreases |b|
  {
    if b == [] {
      assert a + b == a;
    } else {
      assert (a + b)[..|a + b| - 1] == a + b[..|b| - 1];
      TruthResultsAppend(a, b[..|b| - 1]);
    }
  }

  /** A particle emits a result iff its generator status is 1, with no charge
      or pT cut; every result is one such particle's charge, eta and type,
      with weight 1. */
  lemma {:induction false} TruthResultsExact(ps: seq<McParticle>)
    ensures |TruthResults(ps)| <= |ps|
    ensures forall p :: p in ps && p.genStatus == 1 ==> TruthResultOf(p) in TruthResults(ps)
    ensures forall r :: r in TruthResults(ps) ==> r.weight == 1.0 && exists p :: p in ps && p.genStatus == 1 && r == TruthResultOf(p)
    ensures (forall i :: 0 <= i < |ps| ==> ps[i].genStatus == 1) ==> |TruthResults(ps)| == |ps|
    decreases |ps|
  {
    if ps != [] {
      var front, last := ps[..|ps| - 1], ps[|ps| - 1];
      TruthResultsExact(front);
      assert ps == front + [last];
      forall p | p in ps && p.genStatus == 1
        ensures TruthResultOf(p) in TruthResults(ps)
      {
        if p != last {
          assert p in front;
        }
      }
      if forall i :: 0 <= i < |ps| ==> ps[i].genStatus == 1 {
        assert forall i :: 0 <= i < |front| ==> front[i] == ps[i];
      }
    }
  }

  /** What one event sends: the truth results, then one result per PFO. */
  function EventOutputs(e: Event): seq<Output> {
    Map((r: Result) => TrueOut(r), TruthResults(e.particles))
    + Map((f: Pfo) => PfoOut(PfoResultOf(f)), e.pfos)
  }

  function EventsOutputs(events: seq<Event>): seq<Output> {
    if events == [] then []
    else EventsOutputs(events[..|events| - 1]) + EventOutputs(events[|events| - 1])
  }

  /** Every PFO sends exactly one result, unfiltered, carrying its charge, its
      eta, the type its code classifies to (by the same table as the truth
      particles) and weight 1. */
  lemma PfoResultsExact(e: Event)
    ensures var outs := EventOutputs(e);
            var nt := |TruthResults(e.particles)|;
      && |outs| == nt + |e.pfos|
      && (forall i :: 0 <= i < nt ==> outs[i].TrueOut?)
      && (forall i :: 0 <= i < |e.pfos| ==>
            outs[nt + i] == PfoOut(Result(e.pfos[i].charge, e.pfos[i].eta, TypeOf(e.pfos[i].pfoType), 1.0)))
  {
    var trues := Map((r: Result) => TrueOut(r), TruthResults(e.particles));
    var pfos := Map((f: Pfo) => PfoOut(PfoResultOf(f)), e.pfos);
    var outs := trues + pfos;
    assert EventOutputs(e) == outs;
    forall i | 0 <= i < |trues|
      ensures outs[i].TrueOut?
    {
      assert outs[i] == trues[i];
    }
    forall i | 0 <= i < |e.pfos|
      ensures outs[|trues| + i] == PfoOut(PfoResultOf(e.pfos[i]))
    {
      assert outs[|trues| + i] == pfos[i];
    }
  }

  /** The truth loop of one event. */
  method SendTruth(ps: seq<McParticle>) returns (sent: seq<Output>)
    ensures sent == Map((r: Result) => TrueOut(r), TruthResults(ps))
  {
    sent := [];
    for i := 0 to |ps|
      invariant sent == Map((r: Result) => TrueOut(r), TruthResults(ps[..i]))
    {
      assert ps[..i + 1][..i] == ps[..i];
      var truth := ps[i];
      if truth.genStatus != 1 {
        continue;
      }
      var absPDG := truth.pdg;
      if absPDG < 0 {
        absPDG := Neg32(absPDG);
      }
      var particleType := Classify(absPDG);
      var r := Result(truth.charge, truth.eta, particleType, 1.0);
      assert r == TruthResultOf(truth);
      assert TruthResults(ps[..i + 1]) == TruthResults(ps[..i]) + [r];
      assert (TruthResults(ps[..i]) + [r])[..|TruthResults(ps[..i])|] == TruthResults(ps[..i]);
      sent := sent + [TrueOut(r)];
    }
    assert ps[..|ps|] == ps;
  }

  /** The PFO loop of one event. */
  method SendPfos(fs: seq<Pfo>) returns (sent: seq<Output>)
    ensures sent == Map((f: Pfo) => PfoOut(PfoResultOf(f)), fs)
  {
    sent := [];
    for i := 0 to |fs|
      invariant sent == Map((f: Pfo) => PfoOut(PfoResultOf(f)), fs[..i])
    {
      assert fs[..i + 1][..i] == fs[..i];
      var pfo := fs[i];
      var absPDG := pfo.pfoType;
      if absPDG < 0 {
        absPDG := Neg32(absPDG);
      }
      var particleType := Classify(absPDG);
      sent := sent + [PfoOut(Result(pfo.charge, pfo.eta, particleType, 1.0))];
    }
    assert fs[..|fs|] == fs;
  }

  /** `analyzeFile`: every event in order, then one `done <- true`. */
  method AnalyzeFile(events: seq<Event>) returns (out: seq<Arrival<Output>>)
    ensures out == Sends(EventsOutputs(events)) + [Done(true)]
    ensures Delivered(out) == EventsOutputs(events)
    ensures CountDone(out, true) == 1
  {
    var sent := [];
    for i := 0 to |events|
      invariant sent == EventsOutputs(events[..i])
    {
      assert events[..i + 1][..i] == events[..i];
      var trues := SendTruth(events[i].particles);
      var pfos := SendPfos(events[i].pfos);
      sent := sent + (trues + pfos);
    }
    assert events[..|events|] == events;
    out := Sends(sent) + [Done(true)];
    WorkerStreamCounts(sent, true);
  }

  // ----- Routing into histograms -----

  datatype Hists = Hists(elecPfo: H1D, elecTrue: H1D, chargedPfo: H1D, chargedTrue: H1D,
                         neutralPfo: H1D, neutralTrue: H1D)

  function NewHists(): Hists {
    var h := NewH1D(NEtaBins, MinEta, MaxEta);
    Hists(h, h, h, h, h, h)
  }

  /** One result case of the select loop: charged or neutral by the charge,
      plus the electron histogram for an electron, on the result's own side. */
  function Route(h: Hists, o: Output): Hists {
    var r := o.r;
    match o
    case TrueOut(_) =>
      var h1 := if r.charge != 0.0 then h.(chargedTrue := h.chargedTrue.Fill(r.eta, r.weight))
                else h.(neutralTrue := h.neutralTrue.Fill(r.eta, r.weight));
      if r.ptype == Elec then h1.(elecTrue := h1.elecTrue.Fill(r.eta, r.weight)) else h1
    case PfoOut(_) =>
      var h1 := if r.charge != 0.0 then h.(chargedPfo := h.chargedPfo.Fill(r.eta, r.weight))
                else h.(neutralPfo := h.neutralPfo.Fill(r.eta, r.weight));
      if r.ptype == Elec then h1.(elecPfo := h1.elecPfo.Fill(r.eta, r.weight)) else h1
  }

  /** The six histograms, by name. */
  datatype Which = ElecPfo | ElecTrue | ChargedPfo | ChargedTrue | NeutralPfo | NeutralTrue

  function HistOf(w: Which, h: Hists): H1D {
    match w
    case ElecPfo => h.elecPfo
    case ElecTrue => h.elecTrue
    case ChargedPfo => h.chargedPfo
    case ChargedTrue => h.chargedTrue
    case NeutralPfo => h.neutralPfo
    case NeutralTrue => h.neutralTrue
  }

  /** Whether histogram `w` takes result `o`: the truth histograms take only
      truth results and the PFO histograms only PFO results; the charged ones
      a non-zero charge, the neutral ones a zero charge, the electron ones an
      electron. */
  predicate Takes(w: Which, o: Output) {
    && (w in {ElecTrue, ChargedTrue, NeutralTrue} <==> o.TrueOut?)
    && (w in {ChargedPfo, ChargedTrue} ==> o.r.charge != 0.0)
    && (w in {NeutralPfo, NeutralTrue} ==> o.r.charge == 0.0)
    && (w in {ElecPfo, ElecTrue} ==> o.r.ptype == Elec)
  }

  /** The fill a result gives histogram `w`, if any: at its eta, with its
      weight. */
  function FillOf(w: Which, o: Output): Option<Entry> {
    if Takes(w, o) then Some(Entry(o.r.eta, o.r.weight)) else None
  }

  /** One routing step fills histogram `w` exactly when `w` takes the result. */
  lemma RouteStep(w: Which, h: Hists, o: Output)
    ensures HistOf(w, Route(h, o)) == HistOf(w, h).(fills := HistOf(w, h).fills + Opt(FillOf(w, o)))
  {
  }

  /** After routing a sequence of results, histogram `w` has kept its shape
      and received, in order, exactly the results it takes. */
  lemma RouteAll(w: Which, h: Hists, rs: seq<Output>)
    ensures HistOf(w, FoldRoute(Route, h, rs)) == HistOf(w, h).(fills := HistOf(w, h).fills + Collect(rs, o => FillOf(w, o)))
  {
    forall g, o
      ensures HistOf(w, Route(g, o)) == HistOf(w, g).(fills := HistOf(w, g).fills + Opt(FillOf(w, o)))
    {
      RouteStep(w, g, o);
    }
    FoldFillsSelected(Route, (g: Hists) => HistOf(w, g), o => FillOf(w, o), h, rs);
  }

  /** The fill every truth result (or every PFO result) gives its side. */
  function SideFill(truth: bool, o: Output): Option<Entry> {
    if o.TrueOut? == truth then Some(Entry(o.r.eta, o.r.weight)) else None
  }

  /** Each result lands in exactly one of the charged and neutral histograms
      of its side: together they hold exactly the fills of that side's
      results. */
  lemma ChargedNeutralPartition(rs: seq<Output>)
    ensures multiset(Collect(rs, o => FillOf(ChargedTrue, o))) + multiset(Collect(rs, o => FillOf(NeutralTrue, o)))
         == multiset(Collect(rs, o => SideFill(true, o)))
    ensures multiset(Collect(rs, o => FillOf(ChargedPfo, o))) + multiset(Collect(rs, o => FillOf(NeutralPfo, o)))
         == multiset(Collect(rs, o => SideFill(false, o)))
  {
    CollectSplit(rs, o => SideFill(true, o), o => FillOf(ChargedTrue, o), o => FillOf(NeutralTrue, o));
    CollectSplit(rs, o => SideFill(false, o), o => FillOf(ChargedPfo, o), o => FillOf(NeutralPfo, o));
  }

  /** `drawFileSet` up to the plotting: the coordinator loop, counting only
      `true` completion tokens. */
  method DrawFileSet(inputFiles: seq<string>, maxFiles: int, nThreads: int, arrivals: seq<Arrival<Output>>)
    returns (hists: Hists, started: seq<string>, consumed: nat, finished: bool)
    ensures consumed <= |arrivals|
    ensures |started| <= Max(NFilesToAnalyze(|inputFiles|, maxFiles), 0)
    ensures forall w :: HistOf(w, hists) == HistOf(w, NewHists()).(fills := Collect(Delivered(arrivals[..consumed]), o => FillOf(w, o)))
    ensures started == inputFiles[..|started|]
    ensures finished <==> CountDone(arrivals[..consumed], true) == |started|
    ensures finished && nThreads >= 1 ==> |started| == Max(NFilesToAnalyze(|inputFiles|, maxFiles), 0)
    ensures CountDone(arrivals, true) >= Max(NFilesToAnalyze(|inputFiles|, maxFiles), 0) ==> finished
    ensures |started| >= InitialSubmissions(NFilesToAnalyze(|inputFiles|, maxFiles), nThreads)
    ensures !finished ==> consumed == |arrivals| && CountDone(arrivals, true) < |started|
    ensures finished && consumed > 0 ==> Counts(arrivals[consumed - 1], true)
  {
    hists, started, consumed, finished := Coordinate(inputFiles, maxFiles, nThreads, true, arrivals, NewHists(), Route);
    forall w {
      RouteAll(w, NewHists(), Delivered(arrivals[..consumed]));
    }
  }
}

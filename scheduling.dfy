/** The file-admission scheduler and the coordinator loop of `drawFileSet`,
    which the three tools share almost line for line.

    The goroutines and channels are replaced by a sequential model: the
    coordinator receives a nondeterministic, finite sequence of arrivals (a
    result on one of the result channels, or a token on `done`) and handles
    them one at a time, exactly as its `select` would. Starting a worker is
    recorded by appending the file it was given to `started`. */
module Scheduling {
  import opened Util
  import opened Histogram

  /** What the coordinator's `select` receives next. */
  datatype Arrival<R> = Deliver(result: R) | Done(isDone: bool)

  /** Whether a `done` token increments `nDone`: trackEff counts every token,
      PFODist and clusterDist only a `true` one. */
  predicate Counts<R>(a: Arrival<R>, countOnlyTrue: bool) {
    a.Done? && (!countOnlyTrue || a.isDone)
  }

  /** Number of counted completion tokens among the arrivals. */
  function CountDone<R>(arrivals: seq<Arrival<R>>, countOnlyTrue: bool): nat {
    if arrivals == [] then 0
    else CountDone(arrivals[..|arrivals| - 1], countOnlyTrue)
         + (if Counts(arrivals[|arrivals| - 1], countOnlyTrue) then 1 else 0)
  }

  /** The results among the arrivals, in arrival order. */
  function Delivered<R>(arrivals: seq<Arrival<R>>): seq<R> {
    if arrivals == [] then []
    else Delivered(arrivals[..|arrivals| - 1])
         + (if arrivals[|arrivals| - 1].Deliver? then [arrivals[|arrivals| - 1].result] else [])
  }

  /** Results sent on a result channel, as arrivals. */
  function Sends<R>(rs: seq<R>): seq<Arrival<R>> {
    Map((r: R) => Deliver(r), rs)
  }

  lemma {:induction false} DeliveredAppend<R>(a: seq<Arrival<R>>, b: seq<Arrival<R>>)
    ensures Delivered(a + b) == Delivered(a) + Delivered(b)
    decreases |b|
  {
    if b == [] {
      assert a + b == a;
    } else {
      assert (a + b)[..|a + b| - 1] == a + b[..|b| - 1];
      DeliveredAppend(a, b[..|b| - 1]);
    }
  }

  lemma {:induction false} CountDoneAppend<R>(a: seq<Arrival<R>>, b: seq<Arrival<R>>, countOnlyTrue: bool)
    ensures CountDone(a + b, countOnlyTrue) == CountDone(a, countOnlyTrue) + CountDone(b, countOnlyTrue)
    decreases |b|
  {
    if b == [] {
      assert a + b == a;
    } else {
      assert (a + b)[..|a + b| - 1] == a + b[..|b| - 1];
      CountDoneAppend(a, b[..|b| - 1], countOnlyTrue);
    }
  }

  /** Sending results yields exactly those results and no completion token. */
  lemma {:induction false} SendsOnlyDeliver<R>(rs: seq<R>, countOnlyTrue: bool)
    ensures Delivered(Sends(rs)) == rs
    ensures CountDone(Sends(rs), countOnlyTrue) == 0
    decreases |rs|
  {
    if rs != [] {
      var rs' := rs[..|rs| - 1];
      assert Sends(rs)[..|rs| - 1] == Sends(rs');
      SendsOnlyDeliver(rs', countOnlyTrue);
    }
  }

  /** Taking one more arrival: a result extends the delivered results by
      itself, a counted token the completion count by one. */
  lemma ArrivalStep<R>(arrivals: seq<Arrival<R>>, i: nat, countOnlyTrue: bool)
    requires i < |arrivals|
    ensures Delivered(arrivals[..i + 1])
         == Delivered(arrivals[..i]) + (if arrivals[i].Deliver? then [arrivals[i].result] else [])
    ensures CountDone(arrivals[..i + 1], countOnlyTrue)
         == CountDone(arrivals[..i], countOnlyTrue) + (if Counts(arrivals[i], countOnlyTrue) then 1 else 0)
  {
    assert arrivals[..i + 1][..i] == arrivals[..i];
  }

  /** What one worker (`analyzeFile`) sends over its lifetime: its results, then
      exactly one `done <- true`. Whatever the tool, the coordinator counts
      exactly one completion for it and receives exactly its results. */
  lemma WorkerStreamCounts<R>(rs: seq<R>, countOnlyTrue: bool)
    ensures CountDone(Sends(rs) + [Done(true)], countOnlyTrue) == 1
    ensures Delivered(Sends(rs) + [Done(true)]) == rs
  {
    SendsOnlyDeliver(rs, countOnlyTrue);
    assert (Sends(rs) + [Done(true)])[..|Sends(rs)|] == Sends(rs);
  }

  /** `nFilesToAnalyze`: the number of inputs, capped by `maxFiles`. */
  function NFilesToAnalyze(nInputs: nat, maxFiles: int): (n: int)
    ensures n <= nInputs && n <= maxFiles
    ensures n == nInputs || n == maxFiles
  {
    if maxFiles < nInputs then maxFiles else nInputs
  }

  /** Number of workers the start-up loop launches. */
  function InitialSubmissions(nFilesToAnalyze: int, nThreads: int): (n: nat)
    ensures n <= Max(nFilesToAnalyze, 0) && n <= Max(nThreads, 0)
    ensures n == Max(nFilesToAnalyze, 0) || n == Max(nThreads, 0)
  {
    Max(0, Min(nFilesToAnalyze, nThreads))
  }

  /** The counters of `drawFileSet`. `started` records, in order, the input
      file handed to each `go analyzeFile(...)`. */
  class Scheduler {
    const inputFiles: seq<string>
    const nThreads: int
    const nFilesToAnalyze: int
    var nSubmitted: int
    var nDone: int
    var started: seq<string>

    /** The invariant of the select loop: no completion before a
        submission, no submission beyond the cap, every file started at most
        once and in index order, at most `nThreads` workers in flight, and as
        long as files remain, every slot taken. */
    ghost predicate Valid()
      reads this
    {
      && nFilesToAnalyze <= |inputFiles|
      && 0 <= nDone <= nSubmitted <= Max(nFilesToAnalyze, 0)
      && started == inputFiles[..nSubmitted]
      && nSubmitted - nDone <= Max(nThreads, 0)
      && (nSubmitted < nFilesToAnalyze ==> nSubmitted - nDone == Max(nThreads, 0))
    }

    /** The loop `for nDone < nSubmitted` is still running. */
    predicate Running()
      reads this
    {
      nDone < nSubmitted
    }

    constructor (inputFiles: seq<string>, maxFiles: int, nThreads: int)
      ensures this.inputFiles == inputFiles && this.nThreads == nThreads
      ensures nFilesToAnalyze == NFilesToAnalyze(|inputFiles|, maxFiles)
      ensures nSubmitted == 0 && nDone == 0 && started == []
    {
      this.inputFiles := inputFiles;
      this.nThreads := nThreads;
      this.nFilesToAnalyze := NFilesToAnalyze(|inputFiles|, maxFiles);
      nSubmitted := 0;
      nDone := 0;
      started := [];
    }

    /** The start-up loop: launch workers on files 0, 1, ... until either the
        files or the threads run out. */
    method Start()
      requires nFilesToAnalyze <= |inputFiles|
      requires nSubmitted == 0 && nDone == 0 && started == []
      modifies this
      ensures Valid()
      ensures nSubmitted == InitialSubmissions(nFilesToAnalyze, nThreads) && nDone == 0
    {
      while nSubmitted < nFilesToAnalyze && nSubmitted < nThreads
        invariant 0 <= nSubmitted <= Max(nFilesToAnalyze, 0) && nDone == 0
        invariant nSubmitted <= Max(nThreads, 0)
        invariant started == inputFiles[..nSubmitted]
        invariant (nSubmitted < nFilesToAnalyze && nSubmitted < nThreads) || nSubmitted == InitialSubmissions(nFilesToAnalyze, nThreads)
      {
        started := started + [inputFiles[nSubmitted]];
        nSubmitted := nSubmitted + 1;
      }
    }

    /** One counted `done`: a worker finished; if files remain, launch the
        next one in its slot. */
    method OnDone()
      requires Valid() && Running()
      modifies this
      ensures Valid()
      ensures nDone == old(nDone) + 1
      ensures old(nSubmitted) < nFilesToAnalyze ==>
                nSubmitted == old(nSubmitted) + 1 && started == old(started) + [inputFiles[old(nSubmitted)]]
      ensures old(nSubmitted) >= nFilesToAnalyze ==> nSubmitted == old(nSubmitted) && started == old(started)
      ensures nSubmitted - nDone <= old(nSubmitted - nDone)
    {
      nDone := nDone + 1;
      if nSubmitted < nFilesToAnalyze {
        started := started + [inputFiles[nSubmitted]];
        nSubmitted := nSubmitted + 1;
      }
    }
  }

  /** When the loop has ended with at least one thread, every file below the
      cap was started exactly once, in index order. */
  lemma AllFilesStarted(s: Scheduler)
    requires s.Valid() && !s.Running() && s.nThreads >= 1
    ensures s.nSubmitted == Max(s.nFilesToAnalyze, 0)
    ensures s.started == s.inputFiles[..Max(s.nFilesToAnalyze, 0)]
  {
  }

  /** The coordinator of `drawFileSet`: start the workers, then handle
      arrivals until every submitted worker has reported completion. A result
      is routed into the histograms; a counted token admits the next file.
      `consumed` is how many arrivals the loop took; `finished` says whether
      it stopped because `nDone == nSubmitted` rather than because the given
      arrivals ran out. */
  method Coordinate<R, H>(inputFiles: seq<string>, maxFiles: int, nThreads: int, countOnlyTrue: bool,
                          arrivals: seq<Arrival<R>>, hists0: H, route: (H, R) -> H)
    returns (hists: H, started: seq<string>, consumed: nat, finished: bool)
    ensures consumed <= |arrivals|
    ensures hists == FoldRoute(route, hists0, Delivered(arrivals[..consumed]))
    ensures |started| <= Max(NFilesToAnalyze(|inputFiles|, maxFiles), 0)
    ensures started == inputFiles[..|started|]
    ensures |started| >= InitialSubmissions(NFilesToAnalyze(|inputFiles|, maxFiles), nThreads)
    ensures finished <==> CountDone(arrivals[..consumed], countOnlyTrue) == |started|
    ensures !finished ==> consumed == |arrivals| && CountDone(arrivals, countOnlyTrue) < |started|
    ensures finished && consumed > 0 ==> Counts(arrivals[consumed - 1], countOnlyTrue)
    ensures finished && nThreads >= 1 ==> |started| == Max(NFilesToAnalyze(|inputFiles|, maxFiles), 0)
    ensures CountDone(arrivals, countOnlyTrue) >= Max(NFilesToAnalyze(|inputFiles|, maxFiles), 0) ==> finished
  {
    var s := new Scheduler(inputFiles, maxFiles, nThreads);
    s.Start();
    hists := hists0;
    consumed := 0;
    while s.Running() && consumed < |arrivals|
      invariant s.Valid()
      invariant s.inputFiles == inputFiles && s.nThreads == nThreads
      invariant s.nFilesToAnalyze == NFilesToAnalyze(|inputFiles|, maxFiles)
      invariant s.nSubmitted >= InitialSubmissions(s.nFilesToAnalyze, nThreads)
      invariant consumed <= |arrivals|
      invariant s.nDone == CountDone(arrivals[..consumed], countOnlyTrue)
      invariant hists == FoldRoute(route, hists0, Delivered(arrivals[..consumed]))
      invariant !s.Running() && consumed > 0 ==> Counts(arrivals[consumed - 1], countOnlyTrue)
    {
      var a := arrivals[consumed];
      ArrivalStep(arrivals, consumed, countOnlyTrue);
      match a {
        case Deliver(r) =>
          FoldRouteSnoc(route, hists0, Delivered(arrivals[..consumed]), r);
          hists := route(hists, r);
        case Done(isDone) =>
          assert Delivered(arrivals[..consumed]) + [] == Delivered(arrivals[..consumed]);
          if !countOnlyTrue || isDone {
            s.OnDone();
          }
      }
      consumed := consumed + 1;
    }
    if consumed == |arrivals| {
      assert arrivals[..consumed] == arrivals;
    }
    started := s.started;
    finished := !s.Running();
  }
}

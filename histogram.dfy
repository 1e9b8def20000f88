/** A one-dimensional histogram (hbook.H1D) seen only through what is done to
    it: it is created with a bin count and a range and then receives weighted
    fills. The binning arithmetic belongs to the histogram library and is not
    modelled: a histogram is its shape plus the append-only sequence of fills
    it received, in order. */
module Histogram {
  import opened Util

  /** One call `Fill(x, w)`. */
  datatype Entry = Entry(x: real, w: real)

  datatype H1D = H1D(nBins: int, xMin: real, xMax: real, fills: seq<Entry>) {

    /** Same bin count and range. */
    predicate SameShape(other: H1D) {
      nBins == other.nBins && xMin == other.xMin && xMax == other.xMax
    }

    /** `h.Fill(x, w)`: records exactly one more entry and keeps the shape. */
    function Fill(x: real, w: real): (h: H1D)
      ensures h.SameShape(this)
      ensures |h.fills| == |fills| + 1 && h.fills[..|fills|] == fills
      ensures h.fills[|fills|] == Entry(x, w)
    {
      this.(fills := fills + [Entry(x, w)])
    }
  }

  /** `hbook.NewH1D(n, xmin, xmax)`: an empty histogram of that shape. */
  function NewH1D(n: int, xMin: real, xMax: real): (h: H1D)
    ensures h.nBins == n && h.xMin == xMin && h.xMax == xMax && h.fills == []
  {
    H1D(n, xMin, xMax, [])
  }

  /** Sum of the weights of a sequence of fills. */
  function TotalWeight(fills: seq<Entry>): real {
    if fills == [] then 0.0 else TotalWeight(fills[..|fills| - 1]) + fills[|fills| - 1].w
  }

  lemma {:induction false} TotalWeightAppend(a: seq<Entry>, b: seq<Entry>)
    ensures TotalWeight(a + b) == TotalWeight(a) + TotalWeight(b)
    decreases |b|
  {
    if b != [] {
      var b' := b[..|b| - 1];
      assert (a + b)[..|a + b| - 1] == a + b';
      TotalWeightAppend(a, b');
    } else {
      assert a + b == a;
    }
  }

  /** Filling adds exactly the given weight to the histogram's total. */
  lemma FillAddsWeight(h: H1D, x: real, w: real)
    ensures TotalWeight(h.Fill(x, w).fills) == TotalWeight(h.fills) + w
  {
    assert h.Fill(x, w).fills[..|h.fills|] == h.fills;
  }

  /** The entries a sequence of results contributes to one histogram, in order:
      `select` says whether (and how) a result fills it. */
  function Collect<R>(rs: seq<R>, select: R -> Option<Entry>): seq<Entry> {
    if rs == [] then []
    else Collect(rs[..|rs| - 1], select) + Opt(select(rs[|rs| - 1]))
  }

  /** The entry as a sequence of zero or one fills. */
  function Opt(e: Option<Entry>): seq<Entry> {
    match e
    case None => []
    case Some(x) => [x]
  }

  /** Histogram state after routing the results one after the other. */
  function FoldRoute<R, H>(route: (H, R) -> H, h: H, rs: seq<R>): H {
    if rs == [] then h else route(FoldRoute(route, h, rs[..|rs| - 1]), rs[|rs| - 1])
  }

  /** Routing one more result applies one more routing step. */
  lemma FoldRouteSnoc<R, H>(route: (H, R) -> H, h: H, rs: seq<R>, r: R)
    ensures FoldRoute(route, h, rs + [r]) == route(FoldRoute(route, h, rs), r)
  {
    assert (rs + [r])[..|rs|] == rs;
  }

  /** If every routing step fills the histogram `hist` picks out with the
      entry `select` gives (and nothing else), then after any sequence of
      results it holds exactly the selected entries, in order, and keeps its
      shape. */
  lemma {:induction false} FoldFillsSelected<R, H>(route: (H, R) -> H, hist: H -> H1D, select: R -> Option<Entry>,
                                                   h: H, rs: seq<R>)
    requires forall g, r :: hist(route(g, r)) == hist(g).(fills := hist(g).fills + Opt(select(r)))
    ensures hist(FoldRoute(route, h, rs)) == hist(h).(fills := hist(h).fills + Collect(rs, select))
    decreases |rs|
  {
    if rs != [] {
      var front, last := rs[..|rs| - 1], rs[|rs| - 1];
      FoldFillsSelected(route, hist, select, h, front);
      assert hist(h).fills + Collect(rs, select) == (hist(h).fills + Collect(front, select)) + Opt(select(last));
    }
  }

  /** When every result that `all` selects goes to exactly one of `a` and
      `b`, with the same entry, and `a` and `b` select nothing else, the two
      histograms together receive exactly the entries `all` selects. */
  lemma {:induction false} CollectSplit<R>(rs: seq<R>, all: R -> Option<Entry>, a: R -> Option<Entry>, b: R -> Option<Entry>)
    requires forall r :: (a(r).None? || b(r).None?) && all(r) == (if a(r).Some? then a(r) else b(r))
    ensures multiset(Collect(rs, a)) + multiset(Collect(rs, b)) == multiset(Collect(rs, all))
    decreases |rs|
  {
    if rs != [] {
      var front, last := rs[..|rs| - 1], rs[|rs| - 1];
      CollectSplit(front, all, a, b);
      assert multiset(Opt(a(last))) + multiset(Opt(b(last))) == multiset(Opt(all(last)));
    }
  }
}

/** The track-to-truth matcher of trackEff's `analyzeFile`. Per event, the
    truth particles that pass the selection form an ordered candidate pool;
    each track, in collection order, takes the angularly closest remaining
    candidate if it lies within `MaxAngle`, and that candidate leaves the
    pool.

    Floating-point geometry is not modelled: a particle's normalized
    momentum, eta and pT, and a track's unit direction (from its phi and
    tan(lambda)), are given as real numbers, and `acos` is a parameter. */
module TrackMatch {
  import opened Util

  const MaxAngle: real := 0.01
  const TruthMinPT: real := 0.5

  datatype Vec3 = Vec3(x: real, y: real, z: real)

  /** `dotProduct`. */
  function Dot(a: Vec3, b: Vec3): real {
    a.x * b.x + a.y * b.y + a.z * b.z
  }

  /** An MCParticle: generator status, charge, and its derived kinematics
      (`normalizeVector(P)`, `Atanh` of its z component, and the transverse
      momentum). */
  datatype McParticle = McParticle(genStatus: int, charge: real, pNorm: Vec3, eta: real, pT: real)

  /** A track, by its unit direction (cos phi cos lambda, sin phi cos lambda, sin lambda). */
  datatype Track = Track(dir: Vec3)

  /** A pool candidate; `truth` is the index of its particle in the MCParticle
      collection (the reference `&truthColl.Particles[i]`). */
  datatype TruthRelation = TruthRelation(truth: nat, pNorm: Vec3, eta: real, pT: real)

  datatype TrackResult = TrackResult(minAngle: real, eta: real, pT: real)

  // ----- Truth selection and the candidate pool -----

  /** Final-state, charged, and above the pT threshold. */
  predicate Selected(p: McParticle) {
    p.genStatus == 1 && p.charge != 0.0 && p.pT > TruthMinPT
  }

  function RelationOf(i: nat, p: McParticle): TruthRelation {
    TruthRelation(i, p.pNorm, p.eta, p.pT)
  }

  /** The pool an event starts its matching with. */
  function Pool(ps: seq<McParticle>): seq<TruthRelation> {
    if ps == [] then []
    else
      var n := |ps| - 1;
      Pool(ps[..n]) + (if Selected(ps[n]) then [RelationOf(n, ps[n])] else [])
  }

  /** Building the pool of a longer collection only appends: the pool of a
      prefix is a prefix of the pool. */
  lemma PoolStep(ps: seq<McParticle>)
    requires ps != []
    ensures var n := |ps| - 1;
      Pool(ps) == Pool(ps[..n]) + (if Selected(ps[n]) then [RelationOf(n, ps[n])] else [])
  {
  }

  /** Every candidate comes from a selected particle of the collection, with
      that particle's index and kinematics. */
  lemma {:induction false} PoolSound(ps: seq<McParticle>)
    ensures |Pool(ps)| <= |ps|
    ensures forall k :: 0 <= k < |Pool(ps)| ==>
              Pool(ps)[k].truth < |ps| && Selected(ps[Pool(ps)[k].truth])
              && Pool(ps)[k] == RelationOf(Pool(ps)[k].truth, ps[Pool(ps)[k].truth])
    decreases |ps|
  {
    if ps != [] {
      var n := |ps| - 1;
      var front := ps[..n];
      PoolSound(front);
      PoolStep(ps);
      var P, P' := Pool(ps), Pool(front);
      forall k | 0 <= k < |P|
        ensures P[k].truth < |ps| && Selected(ps[P[k].truth]) && P[k] == RelationOf(P[k].truth, ps[P[k].truth])
      {
        if k < |P'| {
          assert P[k] == P'[k] && front[P'[k].truth] == ps[P'[k].truth];
        }
      }
    }
  }

  /** Candidates appear in collection order, each particle at most once. */
  lemma {:induction false} PoolOrdered(ps: seq<McParticle>)
    ensures forall k, l :: 0 <= k < l < |Pool(ps)| ==> Pool(ps)[k].truth < Pool(ps)[l].truth
    decreases |ps|
  {
    if ps != [] {
      var n := |ps| - 1;
      var front := ps[..n];
      PoolOrdered(front);
      PoolSound(front);
      PoolStep(ps);
      var P, P' := Pool(ps), Pool(front);
      forall k, l | 0 <= k < l < |P|
        ensures P[k].truth < P[l].truth
      {
        assert P[k] == P'[k];
        if l < |P'| {
          assert P[l] == P'[l];
        }
      }
    }
  }

  /** Every selected particle has a candidate. */
  lemma {:induction false} PoolComplete(ps: seq<McParticle>)
    ensures forall i :: 0 <= i < |ps| && Selected(ps[i]) ==>
              exists k :: 0 <= k < |Pool(ps)| && Pool(ps)[k].truth == i
    decreases |ps|
  {
    if ps != [] {
      var n := |ps| - 1;
      var front := ps[..n];
      PoolComplete(front);
      PoolStep(ps);
      var P, P' := Pool(ps), Pool(front);
      forall i | 0 <= i < |ps| && Selected(ps[i])
        ensures exists k :: 0 <= k < |P| && P[k].truth == i
      {
        if i < n {
          assert Selected(front[i]);
          var k :| 0 <= k < |P'| && P'[k].truth == i;
          assert P[k] == P'[k];
        } else {
          assert P[|P'|].truth == i;
        }
      }
    }
  }

  /** A particle is in the pool iff it is selected; the pool holds it once,
      with its own kinematics, and in collection order. */
  lemma PoolExact(ps: seq<McParticle>)
    ensures |Pool(ps)| <= |ps|
    ensures forall k :: 0 <= k < |Pool(ps)| ==>
              Pool(ps)[k].truth < |ps| && Selected(ps[Pool(ps)[k].truth])
              && Pool(ps)[k] == RelationOf(Pool(ps)[k].truth, ps[Pool(ps)[k].truth])
    ensures forall i :: 0 <= i < |ps| && Selected(ps[i]) ==>
              exists k :: 0 <= k < |Pool(ps)| && Pool(ps)[k].truth == i
    ensures forall k, l :: 0 <= k < l < |Pool(ps)| ==> Pool(ps)[k].truth < Pool(ps)[l].truth
    ensures Distinct(Pool(ps))
  {
    PoolSound(ps);
    PoolComplete(ps);
    PoolOrdered(ps);
  }

  // ----- Greedy matching -----

  /** The angle between a track and a candidate: `Acos(dotProduct(...))`. */
  function Angle(acos: real -> real, t: Track, r: TruthRelation): real {
    acos(Dot(t.dir, r.pNorm))
  }

  /** The angle between the track and each candidate, in pool order. */
  function Angles(acos: real -> real, t: Track, pool: seq<TruthRelation>): (a: seq<real>)
    ensures |a| == |pool|
  {
    if pool == [] then [] else Angles(acos, t, pool[..|pool| - 1]) + [Angle(acos, t, pool[|pool| - 1])]
  }

  lemma {:induction false} AnglesAt(acos: real -> real, t: Track, pool: seq<TruthRelation>)
    ensures forall j :: 0 <= j < |pool| ==> Angles(acos, t, pool)[j] == Angle(acos, t, pool[j])
    decreases |pool|
  {
    if pool != [] {
      var front := pool[..|pool| - 1];
      AnglesAt(acos, t, front);
      assert forall j :: 0 <= j < |front| ==> front[j] == pool[j];
    }
  }

  /** Index of the first strictly smallest value, or -1 for no value. */
  function ArgMin(s: seq<real>): (m: int)
    ensures -1 <= m < |s|
    ensures m == -1 <==> s == []
  {
    if s == [] then -1
    else
      var m := ArgMin(s[..|s| - 1]);
      if m < 0 || s[|s| - 1] < s[m] then |s| - 1 else m
  }

  /** ArgMin picks a minimum, and the earliest one: every value before it is
      strictly larger. */
  lemma {:induction false} ArgMinIsFirstMinimum(s: seq<real>)
    ensures var m := ArgMin(s);
      m >= 0 ==> (forall j :: 0 <= j < |s| ==> s[m] <= s[j]) && (forall j :: 0 <= j < m ==> s[m] < s[j])
    decreases |s|
  {
    if s != [] {
      var front := s[..|s| - 1];
      ArgMinIsFirstMinimum(front);
      assert forall j :: 0 <= j < |front| ==> front[j] == s[j];
    }
  }

  /** Those two properties determine the index: no other one has them. */
  lemma ArgMinUnique(s: seq<real>, m: int)
    requires 0 <= m < |s|
    requires forall j :: 0 <= j < |s| ==> s[m] <= s[j]
    requires forall j :: 0 <= j < m ==> s[m] < s[j]
    ensures m == ArgMin(s)
  {
    ArgMinIsFirstMinimum(s);
  }

  /** The minimum scan: `minIndex` is the first index attaining the strict
      minimum angle, and -1 for an empty pool. `minAngle` starts at +Inf in
      the source; here "no candidate yet" is `minIndex < 0`. */
  method FindClosest(pool: seq<TruthRelation>, t: Track, acos: real -> real) returns (minIndex: int, minAngle: real)
    ensures minIndex == ArgMin(Angles(acos, t, pool))
    ensures minIndex == -1 <==> pool == []
    ensures minIndex >= 0 ==> minIndex < |pool| && minAngle == Angle(acos, t, pool[minIndex])
    ensures minIndex >= 0 ==> forall j :: 0 <= j < |pool| ==> minAngle <= Angle(acos, t, pool[j])
    ensures minIndex >= 0 ==> forall j :: 0 <= j < minIndex ==> minAngle < Angle(acos, t, pool[j])
  {
    ArgMinIsFirstMinimum(Angles(acos, t, pool));
    AnglesAt(acos, t, pool);
    var angles := Angles(acos, t, pool);
    minIndex := -1;
    minAngle := 0.0;
    for i := 0 to |pool|
      invariant minIndex == ArgMin(angles[..i])
      invariant minIndex >= 0 ==> minAngle == angles[minIndex]
    {
      assert angles[..i + 1][..i] == angles[..i];
      var angle := Angle(acos, t, pool[i]);
      if minIndex < 0 || angle < minAngle {
        minAngle := angle;
        minIndex := i;
      }
    }
    assert angles[..|pool|] == angles;
  }

  /** The candidate a track takes, if any. */
  function Choice(pool: seq<TruthRelation>, t: Track, acos: real -> real): (o: Option<nat>)
    ensures o.Some? ==> o.value < |pool|
  {
    var angles := Angles(acos, t, pool);
    var m := ArgMin(angles);
    if m >= 0 && angles[m] < MaxAngle then Some(m) else None
  }

  /** A track takes the first candidate at the smallest angle, provided that
      angle is below `MaxAngle`; it takes none exactly when no candidate is
      within the cutoff (in particular when the pool is empty). */
  lemma ChoiceExact(pool: seq<TruthRelation>, t: Track, acos: real -> real)
    ensures var o := Choice(pool, t, acos);
      && (o.Some? ==> Angle(acos, t, pool[o.value]) < MaxAngle)
      && (o.Some? ==> forall j :: 0 <= j < |pool| ==> Angle(acos, t, pool[o.value]) <= Angle(acos, t, pool[j]))
      && (o.Some? ==> forall j :: 0 <= j < o.value ==> Angle(acos, t, pool[o.value]) < Angle(acos, t, pool[j]))
      && (o.None? <==> forall j :: 0 <= j < |pool| ==> Angle(acos, t, pool[j]) >= MaxAngle)
  {
    ArgMinIsFirstMinimum(Angles(acos, t, pool));
    AnglesAt(acos, t, pool);
  }

  /** Outcome of matching the tracks of one event: the results sent, the
      candidates they took (in the same order), and the pool left over. */
  datatype Matching = Matching(results: seq<TrackResult>, matched: seq<TruthRelation>, pool: seq<TruthRelation>)

  /** The greedy, order-dependent assignment: tracks are handled in order and
      a matched candidate is removed before the next track is considered. */
  function MatchAll(pool: seq<TruthRelation>, tracks: seq<Track>, acos: real -> real): Matching
    decreases |tracks|
  {
    if tracks == [] then Matching([], [], pool)
    else
      var choice := Choice(pool, tracks[0], acos);
      if choice.None? then MatchAll(pool, tracks[1..], acos)
      else
        var m := choice.value;
        var rest := MatchAll(RemoveAt(pool, m), tracks[1..], acos);
        Matching([TrackResult(Angle(acos, tracks[0], pool[m]), pool[m].eta, pool[m].pT)] + rest.results,
                 [pool[m]] + rest.matched,
                 rest.pool)
  }

  /** Removing element m splits the multiset in two. */
  lemma RemoveAtMultiset<T>(s: seq<T>, m: nat)
    requires m < |s|
    ensures multiset(s) == multiset(RemoveAt(s, m)) + multiset{s[m]}
  {
    assert s == s[..m] + [s[m]] + s[m + 1..];
  }

  /** Every match takes one candidate out of the pool: the matched
      candidates and the final pool together are exactly the initial pool,
      and there is at most one match per track. */
  lemma {:induction false} MatchAllConserves(pool: seq<TruthRelation>, tracks: seq<Track>, acos: real -> real)
    ensures var st := MatchAll(pool, tracks, acos);
      && |st.results| == |st.matched| <= |tracks|
      && multiset(st.matched) + multiset(st.pool) == multiset(pool)
    decreases |tracks|
  {
    if tracks != [] {
      var choice := Choice(pool, tracks[0], acos);
      if choice.None? {
        MatchAllConserves(pool, tracks[1..], acos);
      } else {
        var m := choice.value;
        var rest := MatchAll(RemoveAt(pool, m), tracks[1..], acos);
        MatchAllConserves(RemoveAt(pool, m), tracks[1..], acos);
        RemoveAtMultiset(pool, m);
        var st := MatchAll(pool, tracks, acos);
        assert st.matched == [pool[m]] + rest.matched && st.pool == rest.pool;
        assert multiset(st.matched) == multiset{pool[m]} + multiset(rest.matched);
      }
    }
  }

  /** Each track result carries the eta and pT of the candidate it took and
      an angle below the cutoff. */
  lemma {:induction false} MatchAllResults(pool: seq<TruthRelation>, tracks: seq<Track>, acos: real -> real)
    ensures var st := MatchAll(pool, tracks, acos);
      && |st.results| == |st.matched|
      && forall k :: 0 <= k < |st.results| ==>
           st.results[k].eta == st.matched[k].eta && st.results[k].pT == st.matched[k].pT
           && st.results[k].minAngle < MaxAngle
    decreases |tracks|
  {
    if tracks != [] {
      var choice := Choice(pool, tracks[0], acos);
      if choice.None? {
        MatchAllResults(pool, tracks[1..], acos);
      } else {
        var m := choice.value;
        ChoiceExact(pool, tracks[0], acos);
        MatchAllResults(RemoveAt(pool, m), tracks[1..], acos);
        var rest := MatchAll(RemoveAt(pool, m), tracks[1..], acos);
        var st := MatchAll(pool, tracks, acos);
        assert st.results == [TrackResult(Angle(acos, tracks[0], pool[m]), pool[m].eta, pool[m].pT)] + rest.results;
        assert st.matched == [pool[m]] + rest.matched;
        forall k | 0 <= k < |st.results|
          ensures st.results[k].eta == st.matched[k].eta && st.results[k].pT == st.matched[k].pT
                  && st.results[k].minAngle < MaxAngle
        {
          if k > 0 {
            assert st.results[k] == rest.results[k - 1] && st.matched[k] == rest.matched[k - 1];
          }
        }
      }
    }
  }

  /** No candidate is matched twice: over a duplicate-free pool, the matched
      candidates are distinct, come from the pool, and are no longer in it. */
  lemma MatchAllOneToOne(pool: seq<TruthRelation>, tracks: seq<Track>, acos: real -> real)
    requires Distinct(pool)
    ensures var st := MatchAll(pool, tracks, acos);
      && Distinct(st.matched) && Distinct(st.pool)
      && (forall x :: x in st.matched ==> x in pool && x !in st.pool)
      && (forall x :: x in st.pool ==> x in pool)
  {
    var st := MatchAll(pool, tracks, acos);
    MatchAllConserves(pool, tracks, acos);
    DistinctSplit(pool, st.matched, st.pool);
  }

  /** The minimum scan decides the match as `Choice` does: a match exactly
      when the pool is non-empty and the smallest angle is below the cutoff,
      and then with the candidate the scan found. */
  lemma ClosestIsChoice(pool: seq<TruthRelation>, t: Track, acos: real -> real, minIndex: int, minAngle: real)
    requires minIndex == ArgMin(Angles(acos, t, pool))
    requires minIndex >= 0 ==> minIndex < |pool| && minAngle == Angle(acos, t, pool[minIndex])
    ensures Choice(pool, t, acos) == if minIndex >= 0 && minAngle < MaxAngle then Some(minIndex) else None
  {
    AnglesAt(acos, t, pool);
  }

  /** `MatchAll` on the tracks from index i on, unfolded once. */
  lemma MatchAllStep(pool: seq<TruthRelation>, tracks: seq<Track>, i: nat, acos: real -> real)
    requires i < |tracks|
    ensures var c := Choice(pool, tracks[i], acos);
      && (c.None? ==> MatchAll(pool, tracks[i..], acos) == MatchAll(pool, tracks[i + 1..], acos))
      && (c.Some? ==>
            var rest := MatchAll(RemoveAt(pool, c.value), tracks[i + 1..], acos);
            && MatchAll(pool, tracks[i..], acos).results
               == [TrackResult(Angle(acos, tracks[i], pool[c.value]), pool[c.value].eta, pool[c.value].pT)] + rest.results
            && MatchAll(pool, tracks[i..], acos).pool == rest.pool)
  {
    assert tracks[i..][0] == tracks[i] && tracks[i..][1..] == tracks[i + 1..];
  }

  /** The matching loop of one event, with the pool spliced in place. */
  method MatchTracks(pool0: seq<TruthRelation>, tracks: seq<Track>, acos: real -> real)
    returns (pool: seq<TruthRelation>, results: seq<TrackResult>)
    ensures results == MatchAll(pool0, tracks, acos).results
    ensures pool == MatchAll(pool0, tracks, acos).pool
  {
    pool := pool0;
    results := [];
    for i := 0 to |tracks|
      invariant MatchAll(pool0, tracks, acos).results == results + MatchAll(pool, tracks[i..], acos).results
      invariant MatchAll(pool0, tracks, acos).pool == MatchAll(pool, tracks[i..], acos).pool
    {
      var minIndex, minAngle := FindClosest(pool, tracks[i], acos);
      ClosestIsChoice(pool, tracks[i], acos, minIndex, minAngle);
      MatchAllStep(pool, tracks, i, acos);
      if minIndex >= 0 && minAngle < MaxAngle {
        var r := TrackResult(minAngle, pool[minIndex].eta, pool[minIndex].pT);
        assert results + [r] + MatchAll(RemoveAt(pool, minIndex), tracks[i + 1..], acos).results
            == results + ([r] + MatchAll(RemoveAt(pool, minIndex), tracks[i + 1..], acos).results);
        results := results + [r];
        pool := pool[..minIndex] + pool[minIndex + 1..];
      }
    }
  }

  /** Scenario: one candidate and two tracks both within the cutoff of
      it. The first track takes it; the second finds the pool empty. */
  lemma FirstTrackTakesSoleCandidate(c: TruthRelation, t1: Track, t2: Track, acos: real -> real)
    requires Angle(acos, t1, c) < MaxAngle && Angle(acos, t2, c) < MaxAngle
    ensures MatchAll([c], [t1, t2], acos) == Matching([TrackResult(Angle(acos, t1, c), c.eta, c.pT)], [c], [])
  {
    ChoiceExact([c], t1, acos);
    ChoiceExact([], t2, acos);
    assert Choice([c], t1, acos) == Some(0);
    assert RemoveAt([c], 0) == [];
    assert [t1, t2][1..] == [t2] && [t2][1..] == [];
    assert MatchAll([], [t2], acos) == Matching([], [], []) by {
      assert MatchAll([], [], acos) == Matching([], [], []);
    }
  }

  /** The assignment depends on track order and is not the one that matches
      most tracks: when t1 and t2 are both close to a, only t1 is also close
      to b, and t1 prefers a, handling t1 first leaves t2 unmatched while
      handling t2 first matches both. */
  lemma GreedyIsOrderDependent(a: TruthRelation, b: TruthRelation, t1: Track, t2: Track, acos: real -> real)
    requires Angle(acos, t1, a) < Angle(acos, t1, b) < MaxAngle
    requires Angle(acos, t2, a) < MaxAngle <= Angle(acos, t2, b)
    ensures |MatchAll([a, b], [t1, t2], acos).results| == 1
    ensures |MatchAll([a, b], [t2, t1], acos).results| == 2
  {
    ChoiceExact([a, b], t1, acos);
    ChoiceExact([a, b], t2, acos);
    ChoiceExact([b], t1, acos);
    ChoiceExact([b], t2, acos);
    assert Choice([a, b], t1, acos) == Some(0);
    assert Choice([a, b], t2, acos) == Some(0);
    assert RemoveAt([a, b], 0) == [b];
    assert Choice([b], t2, acos) == None;
    assert Choice([b], t1, acos) == Some(0);
    assert [t1, t2][1..] == [t2] && [t2, t1][1..] == [t1];
    assert [t2][1..] == [] && [t1][1..] == [];
    assert MatchAll([b], [], acos).results == [];
    assert |MatchAll([b], [t2], acos).results| == 0;
    assert |MatchAll([b], [t1], acos).results| == 1 by {
      assert MatchAll(RemoveAt([b], 0), [], acos).results == [];
    }
  }

  /** Every track has exactly one candidate within the cutoff, its partner,
      and no two tracks share a partner. */
  ghost predicate Unambiguous(pool: seq<TruthRelation>, tracks: seq<Track>, partners: seq<TruthRelation>, acos: real -> real) {
    && Distinct(pool) && Distinct(partners) && |partners| == |tracks|
    && (forall i :: 0 <= i < |partners| ==> partners[i] in pool)
    && (forall i, c :: 0 <= i < |tracks| && c in pool ==>
          (Angle(acos, tracks[i], c) < MaxAngle <==> c == partners[i]))
  }

  /** When the first track takes its partner, the remaining tracks are
      still unambiguous over the remaining pool. */
  lemma UnambiguousRest(pool: seq<TruthRelation>, tracks: seq<Track>, partners: seq<TruthRelation>,
                        acos: real -> real, m: nat)
    requires Unambiguous(pool, tracks, partners, acos) && tracks != []
    requires m < |pool| && pool[m] == partners[0]
    ensures Unambiguous(RemoveAt(pool, m), tracks[1..], partners[1..], acos)
  {
    var pool', tracks', partners' := RemoveAt(pool, m), tracks[1..], partners[1..];
    RemoveAtDistinct(pool, m);
    forall i | 0 <= i < |partners'|
      ensures partners'[i] in pool'
    {
      assert partners'[i] == partners[i + 1] != partners[0];
    }
    forall i, c | 0 <= i < |tracks'| && c in pool'
      ensures Angle(acos, tracks'[i], c) < MaxAngle <==> c == partners'[i]
    {
      assert tracks'[i] == tracks[i + 1] && partners'[i] == partners[i + 1];
    }
    assert Distinct(partners') by {
      forall i, k | 0 <= i < k < |partners'| ensures partners'[i] != partners'[k] {
        assert partners'[i] == partners[i + 1] && partners'[k] == partners[k + 1];
      }
    }
  }

  /** Under unambiguity the first track takes its partner. */
  lemma UnambiguousFirstChoice(pool: seq<TruthRelation>, tracks: seq<Track>, partners: seq<TruthRelation>,
                               acos: real -> real)
    requires Unambiguous(pool, tracks, partners, acos) && tracks != []
    ensures Choice(pool, tracks[0], acos).Some?
    ensures pool[Choice(pool, tracks[0], acos).value] == partners[0]
  {
    assert partners[0] in pool;
    var j :| 0 <= j < |pool| && pool[j] == partners[0];
    assert Angle(acos, tracks[0], pool[j]) < MaxAngle;
    ChoiceExact(pool, tracks[0], acos);
    var m := Choice(pool, tracks[0], acos).value;
    assert pool[m] in pool && Angle(acos, tracks[0], pool[m]) < MaxAngle;
  }

  /** One step of the matching under unambiguity: the first track takes its
      partner, at some index m, and the rest is matched over the pool
      without it. */
  lemma UnambiguousStep(pool: seq<TruthRelation>, tracks: seq<Track>, partners: seq<TruthRelation>,
                        acos: real -> real) returns (m: nat)
    requires Unambiguous(pool, tracks, partners, acos) && tracks != []
    ensures m < |pool| && pool[m] == partners[0]
    ensures Unambiguous(RemoveAt(pool, m), tracks[1..], partners[1..], acos)
    ensures var rest := MatchAll(RemoveAt(pool, m), tracks[1..], acos);
      && MatchAll(pool, tracks, acos).matched == [pool[m]] + rest.matched
      && |MatchAll(pool, tracks, acos).results| == 1 + |rest.results|
  {
    UnambiguousFirstChoice(pool, tracks, partners, acos);
    m := Choice(pool, tracks[0], acos).value;
    UnambiguousRest(pool, tracks, partners, acos, m);
  }

  /** Scenario: when every track has exactly one candidate within the
      cutoff and no two tracks share one, every track is matched to its own
      candidate, whatever the order of the tracks. */
  lemma {:induction false} UnambiguousTracksAllMatch(pool: seq<TruthRelation>, tracks: seq<Track>,
                                                     partners: seq<TruthRelation>, acos: real -> real)
    requires Unambiguous(pool, tracks, partners, acos)
    ensures MatchAll(pool, tracks, acos).matched == partners
    ensures |MatchAll(pool, tracks, acos).results| == |tracks|
    decreases |tracks|
  {
    if tracks != [] {
      var m := UnambiguousStep(pool, tracks, partners, acos);
      UnambiguousTracksAllMatch(RemoveAt(pool, m), tracks[1..], partners[1..], acos);
      assert partners == [partners[0]] + partners[1..];
    }
  }
}

// Small value-level helpers shared by the three tools.
module Util {

  datatype Option<T> = None | Some(value: T)

  function Min(a: int, b: int): int { if a < b then a else b }

  function Max(a: int, b: int): int { if a < b then b else a }

  /** No element occurs twice. */
  ghost predicate Distinct<T>(s: seq<T>) {
    forall i, j :: 0 <= i < j < |s| ==> s[i] != s[j]
  }

  /** `f` applied to every element, in order. */
  function Map<A, B>(f: A -> B, s: seq<A>): (r: seq<B>)
    ensures |r| == |s|
    ensures forall i :: 0 <= i < |s| ==> r[i] == f(s[i])
  {
    if s == [] then [] else Map(f, s[..|s| - 1]) + [f(s[|s| - 1])]
  }

  lemma MapAppend<A, B>(f: A -> B, a: seq<A>, b: seq<A>)
    ensures Map(f, a + b) == Map(f, a) + Map(f, b)
  {
  }

  /** A Go slice after `append(s[:m], s[m+1:]...)`: element m is gone and the
      others keep their relative order. */
  function RemoveAt<T>(s: seq<T>, m: nat): (r: seq<T>)
    requires m < |s|
    ensures |r| == |s| - 1
  {
    s[..m] + s[m + 1..]
  }

  /** Only element m is gone: the elements before it keep their index and
      those after it move down by one. */
  lemma RemoveAtKeepsOrder<T>(s: seq<T>, m: nat)
    requires m < |s|
    ensures forall k :: 0 <= k < m ==> RemoveAt(s, m)[k] == s[k]
    ensures forall k :: m <= k < |s| - 1 ==> RemoveAt(s, m)[k] == s[k + 1]
  {
  }

  /** Removing one element of a duplicate-free sequence removes exactly that
      element: the rest is still duplicate-free and holds every other element. */
  lemma RemoveAtDistinct<T>(s: seq<T>, m: nat)
    requires m < |s| && Distinct(s)
    ensures Distinct(RemoveAt(s, m))
    ensures forall x :: x in RemoveAt(s, m) <==> x in s && x != s[m]
  {
    var r := RemoveAt(s, m);
    RemoveAtKeepsOrder(s, m);
    forall x
      ensures x in r <==> x in s && x != s[m]
    {
      if x in r {
        var k :| 0 <= k < |r| && r[k] == x;
        if k < m { assert s[k] == x; } else { assert s[k + 1] == x; }
      }
      if x in s && x != s[m] {
        var k :| 0 <= k < |s| && s[k] == x;
        if k < m { assert r[k] == x; } else { assert k != m; assert r[k - 1] == x; }
      }
    }
  }

  /** A sequence is duplicate-free exactly when its multiset holds every
      value at most once. */
  lemma {:induction false} DistinctMultiset<T>(s: seq<T>)
    ensures Distinct(s) <==> forall x :: multiset(s)[x] <= 1
    decreases |s|
  {
    if s != [] {
      var front, last := s[..|s| - 1], s[|s| - 1];
      assert s == front + [last];
      DistinctMultiset(front);
      if Distinct(s) {
        assert Distinct(front) by {
          forall i, j | 0 <= i < j < |front| ensures front[i] != front[j] {
            assert front[i] == s[i] && front[j] == s[j];
          }
        }
        assert last !in front;
      }
      if forall x :: multiset(s)[x] <= 1 {
        forall x ensures multiset(front)[x] <= 1 {
          assert multiset(s)[x] == multiset(front)[x] + multiset([last])[x];
        }
        assert multiset(s)[last] == multiset(front)[last] + 1;
        assert last !in multiset(front);
        forall i, j | 0 <= i < j < |s| ensures s[i] != s[j] {
          if j < |s| - 1 {
            assert s[i] == front[i] && s[j] == front[j];
          } else {
            assert s[i] == front[i];
          }
        }
      }
    }
  }

  /** Splitting a duplicate-free sequence into two parts (as multisets)
      leaves two duplicate-free, disjoint parts drawn from it. */
  lemma DistinctSplit<T>(s: seq<T>, a: seq<T>, b: seq<T>)
    requires Distinct(s) && multiset(a) + multiset(b) == multiset(s)
    ensures Distinct(a) && Distinct(b)
    ensures forall x :: x in a ==> x in s && x !in b
    ensures forall x :: x in b ==> x in s
  {
    DistinctMultiset(s);
    DistinctMultiset(a);
    DistinctMultiset(b);
    forall x
      ensures multiset(a)[x] + multiset(b)[x] == multiset(s)[x] <= 1
      ensures (x in a <==> x in multiset(a)) && (x in b <==> x in multiset(b)) && (x in s <==> x in multiset(s))
    {
    }
  }
}

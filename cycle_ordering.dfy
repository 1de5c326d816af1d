/** Choosing the order in which five vertices are joined: score every
    permutation of the indices 0..4 by the length of the closed cycle it
    describes and keep the first one with the smallest score. */
module CycleOrdering {
  import opened Models
  import opened Permutations

  /** COUNT_VERTEX: the number of vertices of a pentagon. */
  const CountVertex: nat := 5

  /** The distance between two vertices. The editor measures with
      `Vertex.GetDistance`, which is not part of this model; every operation
      that measures takes the measure as a parameter. */
  type Metric = (Point, Point) -> real

  /** "No candidate yet" or the best score so far; stands for the
      `double.MaxValue` start value of the search. */
  datatype Option<T> = None | Some(value: T)

  /** Every entry of `p` indexes a sequence of length `n`. */
  ghost predicate IndicesWithin(p: seq<int>, n: int) {
    forall i :: 0 <= i < |p| ==> 0 <= p[i] < n
  }

  /** An ordering: a permutation of 0..CountVertex-1. */
  ghost predicate IsOrdering(p: seq<int>) {
    |p| == CountVertex && Distinct(p) && IndicesWithin(p, CountVertex)
  }

  /** The length of the open path through `vertices[p[0]], vertices[p[1]], ...`. */
  function PathLength(dist: Metric, vertices: seq<Point>, p: seq<int>): real
    requires IndicesWithin(p, |vertices|)
  {
    if |p| <= 1 then 0.0
    else PathLength(dist, vertices, p[..|p| - 1]) + dist(vertices[p[|p| - 2]], vertices[p[|p| - 1]])
  }

  /** The path plus the closing edge, measured from the first vertex to the
      last one (the argument order of the C# command). */
  function CycleLength(dist: Metric, vertices: seq<Point>, p: seq<int>): real
    requires |p| == CountVertex && IndicesWithin(p, |vertices|)
  {
    PathLength(dist, vertices, p) + dist(vertices[p[0]], vertices[p[CountVertex - 1]])
  }

  /** The score written out: the four consecutive edges and the closing edge. */
  lemma CycleLengthExpanded(dist: Metric, v: seq<Point>, p: seq<int>)
    requires |p| == CountVertex && IndicesWithin(p, |v|)
    ensures CycleLength(dist, v, p) ==
      dist(v[p[0]], v[p[1]]) + dist(v[p[1]], v[p[2]]) + dist(v[p[2]], v[p[3]]) + dist(v[p[3]], v[p[4]])
      + dist(v[p[0]], v[p[4]])
  {
    assert p[..5] == p;
    assert p[..4][..3] == p[..3] && p[..3][..2] == p[..2] && p[..2][..1] == p[..1];
    assert PathLength(dist, v, p[..2]) == dist(v[p[0]], v[p[1]]);
    assert PathLength(dist, v, p[..3]) == PathLength(dist, v, p[..2]) + dist(v[p[1]], v[p[2]]);
    assert PathLength(dist, v, p[..4]) == PathLength(dist, v, p[..3]) + dist(v[p[2]], v[p[3]]);
    assert PathLength(dist, v, p) == PathLength(dist, v, p[..4]) + dist(v[p[3]], v[p[4]]);
  }

  /** CalculateDistanceByIndeces: adds up the edges in a loop. */
  method CalculateDistanceByIndices(dist: Metric, arrVertices: seq<Point>, indices: seq<int>)
    returns (distance: real)
    requires |indices| == CountVertex && IndicesWithin(indices, |arrVertices|)
    ensures distance == CycleLength(dist, arrVertices, indices)
  {
    distance := 0.0;
    for i := 1 to CountVertex
      invariant distance == PathLength(dist, arrVertices, indices[..i])
    {
      assert indices[..i + 1][..i] == indices[..i];
      distance := distance + dist(arrVertices[indices[i - 1]], arrVertices[indices[i]]);
    }
    assert indices[..CountVertex] == indices;
    distance := distance + dist(arrVertices[indices[0]], arrVertices[indices[CountVertex - 1]]);
  }

  /** 0, 1, ..., n - 1. */
  function Identity(n: nat): seq<int> {
    seq(n, i => i)
  }

  /** The candidate orderings, in the order the search visits them. */
  function Orderings(): seq<seq<int>> {
    GetPermutations(Identity(CountVertex), CountVertex)
  }

  /** The search visits exactly the 120 permutations of 0..4, each once, in
      lexicographic order. */
  lemma OrderingsAreAllPermutations()
    ensures |Orderings()| == 120
    ensures LexSorted(Orderings()) && Distinct(Orderings())
    ensures forall p :: p in Orderings() <==> IsOrdering(p)
  {
    var ids := Identity(CountVertex);
    assert Distinct(ids);
    GetPermutationsCount(ids, CountVertex);
    assert Arrangements(5, 5) == 120;
    GetPermutationsSorted(ids, CountVertex);
    LexSortedDistinct(Orderings());
    forall p ensures p in Orderings() <==> IsOrdering(p) {
      GetPermutationsMembers(ids, CountVertex, p);
      assert DrawnFrom(p, ids) <==> IndicesWithin(p, CountVertex) by {
        assert forall x :: x in ids <==> 0 <= x < CountVertex by {
          forall x | 0 <= x < CountVertex ensures x in ids {
            assert ids[x] == x;
          }
        }
      }
    }
  }

  /** The score of every candidate, in visiting order. */
  function Costs(dist: Metric, vertices: seq<Point>): (r: seq<real>)
    requires |vertices| == CountVertex
    ensures |r| == |Orderings()| == 120
  {
    OrderingsAreAllPermutations();
    OrderingsAreOrderings();
    seq(|Orderings()|, i requires 0 <= i < |Orderings()| => CycleLength(dist, vertices, Orderings()[i]))
  }

  /** `k` is a smallest score and every earlier score is strictly larger:
      what a scan that replaces its best only on a strict `<` keeps. */
  ghost predicate IsFirstMinimum(costs: seq<real>, k: int) {
    && 0 <= k < |costs|
    && (forall j :: 0 <= j < |costs| ==> costs[k] <= costs[j])
    && (forall j :: 0 <= j < k ==> costs[k] < costs[j])
  }

  /** The first smallest score: the head, unless the first smallest score of
      the tail is strictly smaller. */
  function FirstMinimum(costs: seq<real>): (k: nat)
    requires |costs| > 0
    ensures IsFirstMinimum(costs, k)
  {
    if |costs| == 1 then 0
    else
      var t := 1 + FirstMinimum(costs[1..]);
      assert forall j :: 1 <= j < |costs| ==> costs[j] == costs[1..][j - 1];
      if costs[t] < costs[0] then t else 0
  }

  /** There is only one first minimum. */
  lemma FirstMinimumUnique(costs: seq<real>, k: int)
    requires IsFirstMinimum(costs, k)
    ensures k == FirstMinimum(costs)
  {
  }

  /** The ordering the search settles on. */
  function MinimalOrdering(dist: Metric, vertices: seq<Point>): (r: seq<int>)
    requires |vertices| == CountVertex
    ensures IsOrdering(r)
  {
    OrderingsAreOrderings();
    Orderings()[FirstMinimum(Costs(dist, vertices))]
  }

  /** The chosen ordering is a permutation of 0..4, no permutation has a
      shorter cycle, and every permutation that comes before it
      lexicographically has a strictly longer one. */
  lemma MinimalOrderingIsFirstShortest(dist: Metric, vertices: seq<Point>)
    requires |vertices| == CountVertex
    ensures IsOrdering(MinimalOrdering(dist, vertices))
    ensures forall q :: IsOrdering(q) ==>
      CycleLength(dist, vertices, MinimalOrdering(dist, vertices)) <= CycleLength(dist, vertices, q)
    ensures forall q :: IsOrdering(q) && LexLess(q, MinimalOrdering(dist, vertices)) ==>
      CycleLength(dist, vertices, MinimalOrdering(dist, vertices)) < CycleLength(dist, vertices, q)
  {
    OrderingsAreAllPermutations();
    var os := Orderings();
    var costs := Costs(dist, vertices);
    var k := FirstMinimum(costs);
    var r := os[k];
    assert r in os;
    forall q | IsOrdering(q)
      ensures CycleLength(dist, vertices, r) <= CycleLength(dist, vertices, q)
      ensures LexLess(q, r) ==> CycleLength(dist, vertices, r) < CycleLength(dist, vertices, q)
    {
      assert q in os;
      var j :| 0 <= j < |os| && os[j] == q;
      assert costs[j] == CycleLength(dist, vertices, q);
      if LexLess(q, r) {
        if j == k {
          LexLessIrreflexive(r);
        } else if j > k {
          LexLessAsymmetric(r, q);
        }
      }
    }
  }

  /** The index array 0, 1, ..., COUNT_VERTEX - 1 filled in a loop. */
  method InitialIndices() returns (arrIndices: array<int>)
    ensures fresh(arrIndices) && arrIndices[..] == Identity(CountVertex)
  {
    arrIndices := new int[CountVertex];
    for i := 0 to CountVertex
      invariant forall j :: 0 <= j < i ==> arrIndices[j] == j
    {
      arrIndices[i] := i;
    }
  }

  /** Every candidate is a permutation of 0..4. */
  lemma OrderingsAreOrderings()
    ensures forall i :: 0 <= i < |Orderings()| ==> IsOrdering(Orderings()[i])
  {
    OrderingsAreAllPermutations();
    forall i | 0 <= i < |Orderings()| ensures IsOrdering(Orderings()[i]) {
      assert Orderings()[i] in Orderings();
    }
  }

  /** SortIndicesForVertices without its final store into the field: scores
      each permutation in turn and keeps the index of the first strictly
      smallest score. */
  method SelectOrdering(dist: Metric, arrVertices: seq<Point>)
    returns (indexOfMinDistance: nat, sortedIndices: seq<int>)
    requires |arrVertices| == CountVertex
    ensures indexOfMinDistance == FirstMinimum(Costs(dist, arrVertices))
    ensures sortedIndices == MinimalOrdering(dist, arrVertices)
  {
    var arrIndices := InitialIndices();
    var matrixIndices := GetPermutations(arrIndices[..], CountVertex);
    assert matrixIndices == Orderings();
    OrderingsAreOrderings();
    ghost var costs := Costs(dist, arrVertices);
    var minDistance: Option<real> := None;
    indexOfMinDistance := 0;
    for i := 0 to |matrixIndices|
      invariant i == 0 ==> minDistance == None && indexOfMinDistance == 0
      invariant i > 0 ==> indexOfMinDistance < i && minDistance == Some(costs[indexOfMinDistance])
      invariant forall j :: 0 <= j < i ==> costs[indexOfMinDistance] <= costs[j]
      invariant forall j :: 0 <= j < indexOfMinDistance ==> costs[indexOfMinDistance] < costs[j]
    {
      var localDistance := CalculateDistanceByIndices(dist, arrVertices, matrixIndices[i]);
      assert localDistance == costs[i];
      if minDistance.None? || localDistance < minDistance.value {
        minDistance := Some(localDistance);
        indexOfMinDistance := i;
      }
    }
    FirstMinimumUnique(costs, indexOfMinDistance);
    sortedIndices := matrixIndices[indexOfMinDistance];
  }
}

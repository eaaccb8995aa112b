/**
 The routing table of a router: for each output link the destinations it lies on a
 shortest path to, and a weight.
 */
module RoutingTable {
  import opened Basics

  /** Weights above this are never chosen. */
  const INFINITE := 10000

  predicate Reaches(table: seq<set<nat>>, dest: set<nat>, l: nat) {
    l < |table| && dest * table[l] != {}
  }

  /** `l` beats `k`: smaller weight, then more free channels, then earlier. */
  predicate Beats(weights: seq<int>, free: seq<nat>, l: nat, k: nat)
    requires l < |weights| == |free| && k < |weights|
  {
    weights[l] < weights[k] || (weights[l] == weights[k] && (free[l] > free[k] || (free[l] == free[k] && l <= k)))
  }

  /** What the lookup answers. */
  ghost predicate Chosen(table: seq<set<nat>>, weights: seq<int>, free: seq<nat>, dest: set<nat>, r: Option<nat>)
    requires |table| == |weights| == |free|
  {
    match r
    case None => forall l: nat :: Reaches(table, dest, l) ==> weights[l] > INFINITE
    case Some(l) =>
      && Reaches(table, dest, l) && weights[l] <= INFINITE
      && forall k: nat :: Reaches(table, dest, k) ==> Beats(weights, free, l, k)
  }

  /** The least weight among the first `n` links on a path, or the limit. */
  ghost predicate IsLeast(table: seq<set<nat>>, weights: seq<int>, dest: set<nat>, n: nat, min: int)
    requires n <= |table| == |weights|
  {
    && min <= INFINITE
    && (forall l: nat :: l < n && Reaches(table, dest, l) ==> min <= weights[l] || weights[l] > INFINITE)
    && (min < INFINITE ==> exists l: nat :: l < n && Reaches(table, dest, l) && weights[l] == min)
  }

  method LeastWeight(table: seq<set<nat>>, weights: seq<int>, dest: set<nat>) returns (minWeight: int)
    requires |table| == |weights|
    ensures IsLeast(table, weights, dest, |table|, minWeight)
  {
    minWeight := INFINITE;
    for link := 0 to |table|
      invariant IsLeast(table, weights, dest, link, minWeight)
    {
      if dest * table[link] != {} {
        assert Reaches(table, dest, link);
        if weights[link] <= minWeight {
          minWeight := weights[link];
        }
      }
    }
  }

  /** The links among the first `n` on a path that have weight `w`, in order. */
  ghost predicate AreCandidates(table: seq<set<nat>>, weights: seq<int>, dest: set<nat>, n: nat, w: int, candidates: seq<nat>)
    requires n <= |table| == |weights|
  {
    && (forall i :: 0 <= i < |candidates| ==>
          candidates[i] < n && Reaches(table, dest, candidates[i]) && weights[candidates[i]] == w)
    && (forall l: nat :: l < n && Reaches(table, dest, l) && weights[l] == w ==> l in candidates)
    && (forall i, j :: 0 <= i < j < |candidates| ==> candidates[i] < candidates[j])
  }

  method Candidates(table: seq<set<nat>>, weights: seq<int>, dest: set<nat>, w: int) returns (candidates: seq<nat>)
    requires |table| == |weights|
    ensures AreCandidates(table, weights, dest, |table|, w, candidates)
  {
    candidates := [];
    for link := 0 to |table|
      invariant AreCandidates(table, weights, dest, link, w, candidates)
    {
      if dest * table[link] != {} {
        if weights[link] == w {
          candidates := candidates + [link];
        }
      }
    }
  }

  /** The first candidate with the most free channels. */
  method MostFree(free: seq<nat>, candidates: seq<nat>) returns (candidate: nat)
    requires candidates != [] && forall i :: 0 <= i < |candidates| ==> candidates[i] < |free|
    ensures candidate < |candidates|
    ensures forall j :: 0 <= j < |candidates| ==> free[candidates[j]] <= free[candidates[candidate]]
    ensures forall j :: 0 <= j < candidate ==> free[candidates[j]] < free[candidates[candidate]]
  {
    var max := -1;
    candidate := 0;
    for i := 0 to |candidates|
      invariant i > 0 ==> 0 <= candidate < i && max == free[candidates[candidate]]
      invariant i == 0 ==> max == -1
      invariant forall j :: 0 <= j < i ==> free[candidates[j]] <= max
      invariant forall j :: 0 <= j < candidate && i > 0 ==> free[candidates[j]] < max
    {
      if free[candidates[i]] > max {
        max := free[candidates[i]];
        candidate := i;
      }
    }
  }

  /**
   Of the links that lie on a path to the destination, takes one of least weight, and among
   these one with the most free channels.
   */
  method LookupRoutingTable(table: seq<set<nat>>, weights: seq<int>, free: seq<nat>, dest: set<nat>) returns (r: Option<nat>)
    requires |table| == |weights| == |free|
    ensures Chosen(table, weights, free, dest, r)
  {
    var minWeight := LeastWeight(table, weights, dest);
    var candidates := Candidates(table, weights, dest, minWeight);
    if |candidates| == 0 {
      return None;
    }
    var candidate := MostFree(free, candidates);
    r := Some(candidates[candidate]);
    BestCandidate(table, weights, free, dest, minWeight, candidates, candidate);
  }

  lemma BestCandidate(table: seq<set<nat>>, weights: seq<int>, free: seq<nat>, dest: set<nat>,
                      minWeight: int, candidates: seq<nat>, c: nat)
    requires |table| == |weights| == |free| && c < |candidates|
    requires IsLeast(table, weights, dest, |table|, minWeight)
    requires AreCandidates(table, weights, dest, |table|, minWeight, candidates)
    requires forall j :: 0 <= j < |candidates| ==> free[candidates[j]] <= free[candidates[c]]
    requires forall j :: 0 <= j < c ==> free[candidates[j]] < free[candidates[c]]
    ensures Chosen(table, weights, free, dest, Some(candidates[c]))
  {
    forall k: nat | Reaches(table, dest, k)
      ensures Beats(weights, free, candidates[c], k)
    {
      if weights[k] == minWeight {
        var j :| 0 <= j < |candidates| && candidates[j] == k;
      }
    }
  }
}

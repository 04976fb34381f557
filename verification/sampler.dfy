/**
 One worker of the estimator: it draws `tries` points from a generator of
 its own, seeded with its own seed, and adds one to the shared counter for
 each point that falls inside the closed disk of radius `r`.

 The generator is not modelled: `PointSource` stands for it, giving the
 `k`-th point that a generator seeded with `seed` draws for radius `r` (its
 two coordinates being two consecutive draws of the generator). Nothing is
 assumed about where the points lie, so every bound below holds for any
 point stream whatever.
 */
module Sampler {

  /** A sampled point, with real coordinates. */
  datatype Point = Point(x: real, y: real)

  /** `source(seed, r, k)`: the `k`-th point drawn by the generator seeded with `seed`. */
  type PointSource = (int, int, int) -> Point

  /**
   The hit test: the point lies in the closed disk of radius `r` (the boundary
   counts). A hit lies inside the bounding square of side `2 * r`.
   */
  predicate IsHit(p: Point, r: int)
    ensures IsHit(p, r) ==> p.x * p.x <= (r * r) as real && p.y * p.y <= (r * r) as real
  {
    p.x * p.x + p.y * p.y <= (r * r) as real
  }

  /** The first `n` points drawn by the generator seeded with `seed` (none when `n <= 0`). */
  function Stream(source: PointSource, seed: int, r: int, n: int): (points: seq<Point>)
    ensures n <= 0 ==> points == []
    ensures n > 0 ==> |points| == n && points[0] == source(seed, r, 0)
  {
    seq(if n > 0 then n else 0, k => source(seed, r, k))
  }

  /** Number of hits among `points`; each point adds at most one. */
  function CountHits(points: seq<Point>, r: int): (hits: nat)
    ensures hits <= |points|
  {
    if |points| == 0 then 0
    else CountHits(points[..|points| - 1], r) + (if IsHit(points[|points| - 1], r) then 1 else 0)
  }

  /** The positions of the hits among `points`: an independent description of what is counted. */
  function HitIndices(points: seq<Point>, r: int): set<int>
  {
    set i | 0 <= i < |points| && IsHit(points[i], r)
  }

  /** The recursive count is the number of positions whose point is a hit. */
  lemma {:induction false} CountHitsIsHitIndexCount(points: seq<Point>, r: int)
    ensures CountHits(points, r) == |HitIndices(points, r)|
  {
    if |points| > 0 {
      var n := |points| - 1;
      var front := points[..n];
      CountHitsIsHitIndexCount(front, r);
      var earlier := HitIndices(front, r);
      assert n !in earlier;
      assert forall i :: 0 <= i < n ==> front[i] == points[i];
      var last := if IsHit(points[n], r) then {n} else {};
      assert HitIndices(points, r) == earlier + last;
      assert |earlier + last| == |earlier| + |last|;
    }
  }

  /** A single point is counted exactly when it lies in the closed disk. */
  lemma SinglePointCount(p: Point, r: int)
    ensures CountHits([p], r) == 1 <==> p.x * p.x + p.y * p.y <= (r * r) as real
    ensures CountHits([p], r) == 0 <==> p.x * p.x + p.y * p.y > (r * r) as real
  {
    assert [p][..0] == [];
  }

  /** A point exactly on the circle is a hit. */
  lemma BoundaryPointIsHit(p: Point, r: int)
    requires p.x * p.x + p.y * p.y == (r * r) as real
    ensures CountHits([p], r) == 1
  {
    SinglePointCount(p, r);
  }

  /**
   The worker loop: `tries` iterations, each drawing one point and adding one
   to the shared counter (given here by its value on entry) when the point is
   a hit. Returns the counter's value once the worker is done; other workers'
   increments are accounted for by the coordinator.
   */
  method CountPointsInArea(counter: nat, source: PointSource, tries: int, seed: int, r: int)
    returns (total: nat)
    ensures total == counter + |HitIndices(Stream(source, seed, r, tries), r)|
    ensures counter <= total <= counter + (if tries > 0 then tries else 0)
  {
    ghost var points := Stream(source, seed, r, tries);
    total := counter;
    var i := 0;
    while i < tries
      invariant 0 <= i <= |points|
      invariant total == counter + CountHits(points[..i], r)
    {
      var p := source(seed, r, i);
      assert points[..i + 1][..i] == points[..i];
      if IsHit(p, r) {
        total := total + 1;
      }
      i := i + 1;
    }
    assert points[..i] == points;
    CountHitsIsHitIndexCount(points, r);
  }
}

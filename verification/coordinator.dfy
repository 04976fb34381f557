/**
 The coordinator of the estimator: it clamps the thread count to the host's
 parallelism, splits the samples among the workers, gives each worker its own
 seed, lets every worker add its hits to the shared counter, and turns the
 final count into an area estimate.

 The host's parallelism is the parameter `hw`; the workers, which the program
 runs on threads and joins before reading the counter, are run here one after
 the other, which ends at the same counter value
 (`SharedCounter.InterleavingReachesSum`).

 Integer division and remainder here are on a non-negative dividend and a
 positive divisor, where Dafny's operators agree with the truncating ones of
 the program.
 */
module Coordinator {
  import opened SharedCounter
  import opened Sampler

  /** A worker's assignment: how many samples it draws and the seed of its generator. */
  datatype Assignment = Assignment(share: nat, seed: int)

  /**
   Number of workers actually started: the requested count, lowered to the
   host's parallelism, where a host reporting 0 is taken as 1.
   */
  function ClampThreads(threads: int, hw: nat): (n: int)
    requires threads > 0
    ensures 1 <= n <= threads
    ensures n <= hw || n == 1
    ensures n == threads || n == hw || (hw == 0 && n == 1)
  {
    var parallelism := if hw == 0 then 1 else hw;
    if threads < parallelism then threads else parallelism
  }

  /** Samples given to worker `i`: the even share, plus the whole remainder for worker 0. */
  function Share(tries: int, threads: int, i: int): (n: nat)
    requires tries >= 0 && threads > 0 && 0 <= i < threads
    ensures n <= tries
    ensures tries / threads <= n < tries / threads + threads
  {
    ShareWithinTries(tries, threads);
    tries / threads + (if i == 0 then tries % threads else 0)
  }

  /** The even share plus the remainder never exceeds the total. */
  lemma ShareWithinTries(tries: int, threads: int)
    requires tries >= 0 && threads > 0
    ensures tries / threads + tries % threads <= tries
  {
    QuotientPlusRemainder(tries / threads, tries % threads, threads, tries);
  }

  /** If `a == q * t + m` with `t >= 1`, then `q + m <= a`. */
  lemma QuotientPlusRemainder(q: nat, m: nat, t: int, a: int)
    requires t >= 1 && a == q * t + m
    ensures q + m <= a
  {
    assert q * t >= q * 1;
  }

  /** The assignments of all `threads` workers; worker `i` is seeded with `seed + i`. */
  function Plan(tries: int, threads: int, seed: int): (plan: seq<Assignment>)
    requires tries >= 0 && threads > 0
    ensures |plan| == threads
    ensures forall i :: 0 <= i < threads ==> plan[i].share <= tries && plan[i].seed >= seed
  {
    seq(threads, i requires 0 <= i < threads => Assignment(Share(tries, threads, i), seed + i))
  }

  /** The shares of a plan, in worker order. */
  function Shares(plan: seq<Assignment>): seq<nat>
  {
    seq(|plan|, i requires 0 <= i < |plan| => plan[i].share)
  }

  /** The hit count of each worker of a plan, in worker order. */
  function WorkerHits(plan: seq<Assignment>, source: PointSource, r: int): (hits: seq<nat>)
    ensures |hits| == |plan|
    ensures forall i :: 0 <= i < |plan| ==> hits[i] <= plan[i].share
  {
    seq(|plan|, i requires 0 <= i < |plan| => CountHits(Stream(source, plan[i].seed, r, plan[i].share), r))
  }

  /**
   Worker 0 gets the even share plus the remainder, every other worker the
   even share alone, and the imbalance between them is below the worker count.
   */
  lemma ShareShape(tries: int, threads: int, seed: int)
    requires tries >= 0 && threads > 0
    ensures Plan(tries, threads, seed)[0].share == tries / threads + tries % threads
    ensures forall i :: 1 <= i < threads ==> Plan(tries, threads, seed)[i].share == tries / threads
    ensures forall i :: 0 <= i < threads ==>
      0 <= Plan(tries, threads, seed)[0].share - Plan(tries, threads, seed)[i].share < threads
  {
  }

  /** With fewer samples than workers, worker 0 draws them all and the others none. */
  lemma FewSamples(tries: int, threads: int, seed: int)
    requires 0 <= tries < threads
    ensures Plan(tries, threads, seed)[0].share == tries
    ensures forall i :: 1 <= i < threads ==> Plan(tries, threads, seed)[i].share == 0
  {
    DivSmall(tries, threads);
  }

  /** A non-negative number below the divisor has quotient 0 and is its own remainder. */
  lemma DivSmall(a: int, b: int)
    requires 0 <= a < b
    ensures a / b == 0 && a % b == a
  {
  }

  /** The first `k` shares add up to `k` even shares plus, once worker 0 is included, the remainder. */
  lemma {:induction false} SharePrefixSum(tries: int, threads: int, seed: int, k: nat)
    requires tries >= 0 && threads > 0 && k <= threads
    ensures Sum(Shares(Plan(tries, threads, seed))[..k])
         == k * (tries / threads) + (if k == 0 then 0 else tries % threads)
  {
    if k > 0 {
      var s := Shares(Plan(tries, threads, seed));
      SharePrefixSum(tries, threads, seed, k - 1);
      SumPrefixStep(s, k - 1);
      assert s[k - 1] == Share(tries, threads, k - 1);
      assert (k - 1) * (tries / threads) + tries / threads == k * (tries / threads);
    }
  }

  /** Partition exactness: the shares of all workers add up to `tries`, none lost or doubled. */
  lemma PartitionExact(tries: int, threads: int, seed: int)
    requires tries >= 0 && threads > 0
    ensures Sum(Shares(Plan(tries, threads, seed))) == tries
  {
    var s := Shares(Plan(tries, threads, seed));
    SharePrefixSum(tries, threads, seed, threads);
    assert s[..threads] == s;
  }

  /** Worker seeds are pairwise distinct and none is below the base seed. */
  lemma SeedsDistinct(tries: int, threads: int, seed: int)
    requires tries >= 0 && threads > 0 && seed >= 0
    ensures forall i, j :: 0 <= i < j < threads ==>
      Plan(tries, threads, seed)[i].seed != Plan(tries, threads, seed)[j].seed
    ensures forall i :: 0 <= i < threads ==> Plan(tries, threads, seed)[i].seed >= seed >= 0
  {
  }

  /** Over all workers, there are never more hits than samples. */
  lemma HitsWithinTries(tries: int, threads: int, seed: int, source: PointSource, r: int)
    requires tries >= 0 && threads > 0
    ensures Sum(WorkerHits(Plan(tries, threads, seed), source, r)) <= tries
  {
    var plan := Plan(tries, threads, seed);
    SumMonotone(WorkerHits(plan, source, r), Shares(plan));
    PartitionExact(tries, threads, seed);
  }

  /** Real scaling facts behind the area bounds: `q * h / t` for `0 <= h <= t` lies in `[0, q]`. */
  lemma ScaledRatio(q: real, h: real, t: real)
    requires q >= 0.0 && h >= 0.0 && t > 0.0
    ensures (q * h / t) * t == q * h
    ensures 0.0 <= q * h / t
    ensures h <= t ==> q * h / t <= q
  {
    var f := h / t;
    assert q * h / t == q * f;
    assert f * t == h;
    assert 0.0 <= f;
    if h <= t {
      assert f <= 1.0;
      assert q * f <= q * 1.0;
    }
  }

  /** The area estimate `4 * r * r * hits / tries`. */
  function Area(r: int, hits: nat, tries: int): (area: real)
    requires tries > 0
    ensures area * tries as real == 4.0 * r as real * r as real * hits as real
    ensures 0.0 <= area
    ensures hits <= tries ==> area <= 4.0 * r as real * r as real
  {
    var square := 4.0 * r as real * r as real;
    ScaledRatio(square, hits as real, tries as real);
    square * hits as real / tries as real
  }

  /** With 10 samples and radius 5 the estimate is ten times the hit count. */
  lemma TenSamplesRadiusFive(hits: nat)
    requires hits <= 10
    ensures Area(5, hits, 10) == 10.0 * hits as real
    ensures Area(5, hits, 10) <= 100.0
  {
  }

  /** Worker `i`'s entry of the per-worker counts, as the worker loop computes it. */
  lemma WorkerHitsAt(tries: int, threads: int, seed: int, source: PointSource, r: int, i: int)
    requires tries >= 0 && threads > 0 && 0 <= i < threads
    ensures WorkerHits(Plan(tries, threads, seed), source, r)[i]
         == |HitIndices(Stream(source, seed + i, r, Share(tries, threads, i)), r)|
  {
    CountHitsIsHitIndexCount(Stream(source, seed + i, r, Share(tries, threads, i)), r);
  }

  /**
   Starts one worker per assignment of the plan for `threads` workers and
   joins them all; returns the shared counter's value after the join. The
   workers run one after the other here.
   */
  method RunWorkers(tries: int, threads: int, seed: int, r: int, source: PointSource)
    returns (counter: nat)
    requires tries >= 0 && threads > 0
    ensures counter == Sum(WorkerHits(Plan(tries, threads, seed), source, r))
  {
    ghost var perWorker := WorkerHits(Plan(tries, threads, seed), source, r);
    counter := 0;
    var i := 0;
    while i < threads
      invariant 0 <= i <= threads
      invariant counter == Sum(perWorker[..i])
    {
      var localTries := Share(tries, threads, i);
      counter := CountPointsInArea(counter, source, localTries, seed + i, r);
      WorkerHitsAt(tries, threads, seed, source, r, i);
      SumPrefixStep(perWorker, i);
      i := i + 1;
    }
    assert perWorker[..threads] == perWorker;
  }

  /**
   However the threads' `fetch_add(1)` calls interleave, the counter read
   after the join equals the count the estimator reports, and so never
   exceeds `tries`.
   */
  lemma InterleavedCounterIsEstimate(
    tries: int, threads: int, seed: int, hw: nat, source: PointSource, r: int, schedule: seq<nat>)
    requires tries >= 0 && threads > 0
    requires forall e :: e in schedule ==> e < ClampThreads(threads, hw)
    requires forall w :: 0 <= w < ClampThreads(threads, hw) ==>
      multiset(schedule)[w] == WorkerHits(Plan(tries, ClampThreads(threads, hw), seed), source, r)[w]
    ensures Run(0, schedule) == Sum(WorkerHits(Plan(tries, ClampThreads(threads, hw), seed), source, r))
    ensures Run(0, schedule) <= tries
  {
    var n := ClampThreads(threads, hw);
    var hits := WorkerHits(Plan(tries, n, seed), source, r);
    InterleavingReachesSum(schedule, hits);
    HitsWithinTries(tries, n, seed, source, r);
  }

  /**
   The whole estimator for one request: clamp, partition, seed, count, and
   compute the area. Also returns the final counter value.
   */
  method MonteCarloMethod(tries: int, threads: int, r: int, seed: int, hw: nat, source: PointSource)
    returns (area: real, hits: nat)
    requires tries > 0 && threads > 0 && r > 0 && seed >= 0
    ensures hits == Sum(WorkerHits(Plan(tries, ClampThreads(threads, hw), seed), source, r))
    ensures hits <= tries
    ensures area == Area(r, hits, tries)
    ensures 0.0 <= area <= 4.0 * r as real * r as real
  {
    var n := ClampThreads(threads, hw);
    hits := RunWorkers(tries, n, seed, r, source);
    HitsWithinTries(tries, n, seed, source, r);
    area := Area(r, hits, tries);
  }
}

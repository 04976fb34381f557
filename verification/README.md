# Monte Carlo circle-area estimator — Dafny model

The program estimates the area of a circle of radius `r` by Monte Carlo
sampling, split across worker threads. The coordinator (`MonteCarloMethod`)
does the following:

- It clamps the requested thread count to the host's parallelism.
- It gives every worker `tries / threads` samples. Worker 0 also gets the remainder `tries % threads`.
- It seeds worker `i`'s generator with `seed + i`.
- It lets each worker (`CountPointsInArea`) add one to a shared atomic counter for every point inside the closed disk.
- It joins the workers and returns `4 * r * r * hits / tries`.

This project models that integer bookkeeping and proves its conservation laws:

- The shares sum exactly to `tries`.
- Seeds are distinct.
- No worker counts more hits than samples.
- The counter ends at the sum of the workers' counts under any interleaving of the increments.
- The estimate lies in `[0, 4 * r * r]`.

Modules, one per component of the program:

- `SharedCounter` (`shared_counter.dfy`): the atomic counter. `Sum` of per-worker counts, `Run` of a schedule of `fetch_add(1)` events, and the theorem that every interleaving reaches the sum.
- `Sampler` (`sampler.dfy`): a worker. `Point`, the closed-disk hit test `IsHit`, the recursive `CountHits` and its set-based partner `HitIndices`, and the worker loop `CountPointsInArea`.
- `Coordinator` (`coordinator.dfy`): `ClampThreads`, `Share`, `Plan` (one `Assignment` of share and seed per worker), `WorkerHits`, `Area`, `RunWorkers` and `MonteCarloMethod`.
- `Driver` (`driver.dfy`): the argument and input checks that `main` makes before calling the estimator.

Abstractions:

- The random generator and its distribution are the parameter `source: PointSource`. `source(seed, r, k)` is the `k`-th point a generator seeded with `seed` draws for radius `r`. Nothing is assumed about the points, so every bound holds for any stream. Because the result is a function of `source`, the model is deterministic: equal inputs, equal `hw` and an equal `source` give equal hits.
- The host's parallelism (`hardware_concurrency()`) is the parameter `hw`.
- The threads run one after the other in `RunWorkers`. The final counter value is the same for any interleaving of their increments (`SharedCounter.InterleavingReachesSum`).
- Integers are unbounded. Division and remainder are taken on `tries >= 0` and `threads > 0`, where Dafny's Euclidean operators agree with C++'s truncating ones.
- The area is a Dafny `real`.

Two behaviours of the program worth stating plainly:

- A worker's share is 0 when `tries < threads` (`Coordinator.FewSamples`); such a worker draws no points and adds nothing to the counter.
- A rejected `(r, threads)` line ends the whole run with `return 1` (src/main.cpp:101-104); later lines are not read.

## Model

| member | source | states |
|---|---|---|
| Sampler.IsHit | src/main.cpp:18 | the closed-disk test `x*x + y*y <= r*r`; a hit lies inside the bounding square, `x*x <= r*r` and `y*y <= r*r` |
| Sampler.Stream | src/main.cpp:11-17 | the points a worker draws from the generator seeded with its own seed: none when the count is not positive, otherwise exactly that many, starting with the generator's first point |
| Sampler.CountHits | src/main.cpp:14-21 | a worker that draws `n` points counts at most `n` hits, since each iteration adds at most one |
| Sampler.CountHitsIsHitIndexCount | src/main.cpp:14-21 | the hit count equals the number of positions in the stream whose point lies in the closed disk |
| Sampler.SinglePointCount | src/main.cpp:18 | a point is counted exactly when `x*x + y*y <= r*r` holds over the reals, and not counted exactly when it lies outside the closed disk (double rounding of the sum is not modelled; see Left out) |
| Sampler.BoundaryPointIsHit | src/main.cpp:18 | a point with `x*x + y*y == r*r` is a hit, so the disk is closed |
| Sampler.CountPointsInArea | src/main.cpp:9-23 | the worker raises the counter by exactly the number of hits among its first `tries` points; the rise is between 0 and `tries`, and 0 when `tries <= 0` |
| SharedCounter.RunCountsEvents | src/main.cpp:20 | every relaxed `fetch_add(1)` raises the counter by one, whichever worker issues it |
| SharedCounter.EventsMatchCounts | src/main.cpp:20 | a schedule in which worker `w` issues exactly `hits[w]` events has the sum of `hits` events in all |
| SharedCounter.InterleavingReachesSum | src/main.cpp:35-48 | after the join, the counter that started at 0 holds the sum of the workers' hit counts, for every interleaving of their increments |
| Coordinator.ClampThreads | src/main.cpp:27-30 | the worker count is at least 1 and at most the requested count; it is at most `hw` unless it is 1; it equals the request or the parallelism, with 0 parallelism read as 1 |
| Coordinator.Share | src/main.cpp:32-41 | the samples of worker `i` (the `local_tries` of line 41): never more than `tries`, at least the even share `tries / threads`, and fewer than `threads` above it |
| Coordinator.Plan | src/main.cpp:39-42 | one assignment per worker, `threads` in all; no worker's share exceeds `tries` and no worker's seed is below the base seed |
| Coordinator.WorkerHits | src/main.cpp:39-42 | the hit count of each worker of a plan, one per worker, each at most that worker's share |
| Coordinator.ShareShape | src/main.cpp:32-41 | worker 0 draws `tries/threads + tries%threads` samples and every other worker draws `tries/threads`; worker 0 draws at least as many as any worker, and fewer than `threads` more |
| Coordinator.FewSamples | src/main.cpp:32-41 | when `tries < threads`, worker 0 draws all `tries` samples and every other worker draws none |
| Coordinator.SharePrefixSum | src/main.cpp:32-41 | the first `k` workers' shares add up to `k` even shares, plus the remainder once worker 0 is among them |
| Coordinator.PartitionExact | src/main.cpp:32-41 | the shares of all workers add up to exactly `tries` |
| Coordinator.SeedsDistinct | src/main.cpp:42 | the worker seeds `seed + i` are pairwise distinct and none is below `seed`, which is non-negative |
| Coordinator.HitsWithinTries | src/main.cpp:39-48 | the total hit count over all workers never exceeds `tries` |
| Coordinator.Area | src/main.cpp:48 | the estimate times `tries` equals `4 * r * r * hits`; it is non-negative, and at most `4 * r * r` when `hits <= tries` |
| Coordinator.TenSamplesRadiusFive | src/main.cpp:48 | with 10 samples and radius 5 the estimate is `10 * hits`, at most 100 |
| Coordinator.RunWorkers | src/main.cpp:35-46 | starting and joining one worker per assignment leaves the counter at the sum of the workers' hit counts |
| Coordinator.InterleavedCounterIsEstimate | src/main.cpp:35-48 | for every interleaving of the started workers' `fetch_add(1)` calls, the counter read after the join equals the hit count `MonteCarloMethod` reports, and is at most `tries` |
| Coordinator.MonteCarloMethod | src/main.cpp:25-49 | the final count is the sum of the per-worker hit counts of the plan for the clamped thread count; it is at most `tries`; the estimate is the area of that count and lies in `[0, 4 * r * r]` |
| Driver.CheckRequest | src/main.cpp:63-105 | a request reaches the estimator exactly when `tries > 0`, `seed >= 0`, `r > 0` and `threads > 0`; otherwise the first failed check is reported, in the order tries, seed, radius and threads |

## Left out

- The Mersenne Twister and the uniform real distribution on `[-r, r]` (src/main.cpp:11-12, 16-17). They are library code, and `source` stands in for them. The distribution of the points and the convergence of the estimate to `pi * r * r` are not modelled.
- Threads, `std::atomic` and memory ordering (src/main.cpp:35-46). The workers run one after the other. `SharedCounter.InterleavingReachesSum` covers the order of the increments.
- `hardware_concurrency()` (src/main.cpp:27). It is the parameter `hw`.
- Coordinator.Area: computes in exact reals, not doubles, so rounding of the double-precision estimate is not modelled.
- Sampler.SinglePointCount: the hit test is exact over the reals, while the program sums `x*x + y*y` in `double`; a point within double rounding of the circle (for `r = 1`, the point `(-1, 2^-30)`) can be counted by the program and not by the model, or the reverse.
- Sampler.IsHit: `r * r` is computed in 32-bit `int` (src/main.cpp:18) and overflows for `r > 46340`; the model uses unbounded integers.
- Coordinator.SeedsDistinct: `seed + i` (src/main.cpp:42) can overflow `int` for a seed near the maximum; the model uses unbounded integers.
- Coordinator.ClampThreads: the cast of the unsigned parallelism to `int` is taken as exact.
- Timing with `std::chrono` and the fixed-point output (src/main.cpp:107-112). These are I/O.
- Argument and stream parsing with `std::stoi` and `std::cin` (src/main.cpp:53-99, 115-119). The model keeps only the range checks, in `Driver.CheckRequest`. It leaves out the loop over input pairs and the exit codes.

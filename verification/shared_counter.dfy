/**
 The shared hit counter of the estimator.

 Every worker holds a reference to one atomic integer and only ever applies
 `fetch_add(1)` to it; the coordinator reads it once, after joining every
 worker. This module gives the sum that the counter must end at, and shows
 that every interleaving of the workers' increments ends there: no update is
 lost and none is counted twice, whatever the scheduler does.
 */
module SharedCounter {

  /** Sum of a sequence of counts, peeled from the last element. */
  function Sum(s: seq<nat>): nat
  {
    if |s| == 0 then 0 else Sum(s[..|s| - 1]) + s[|s| - 1]
  }

  /** Sum of the first `k + 1` elements is the sum of the first `k` plus element `k`. */
  lemma SumPrefixStep(s: seq<nat>, k: nat)
    requires k < |s|
    ensures Sum(s[..k + 1]) == Sum(s[..k]) + s[k]
  {
    assert s[..k + 1][..k] == s[..k];
  }

  /** Pointwise smaller counts have a smaller sum. */
  lemma {:induction false} SumMonotone(a: seq<nat>, b: seq<nat>)
    requires |a| == |b|
    requires forall i :: 0 <= i < |a| ==> a[i] <= b[i]
    ensures Sum(a) <= Sum(b)
  {
    if |a| > 0 {
      var n := |a| - 1;
      SumMonotone(a[..n], b[..n]);
    }
  }

  /** Changing one count by a given amount changes the sum by the same amount. */
  lemma {:induction false} SumUpdate(s: seq<nat>, i: nat, v: nat)
    requires i < |s|
    ensures Sum(s[i := v]) + s[i] == Sum(s) + v
  {
    var n := |s| - 1;
    if i == n {
      assert s[i := v][..n] == s[..n];
    } else {
      assert s[i := v][..n] == s[..n][i := v];
      SumUpdate(s[..n], i, v);
    }
  }

  /** A sum of counts is zero exactly when every count is zero. */
  lemma {:induction false} SumZero(s: seq<nat>)
    ensures Sum(s) == 0 <==> forall i :: 0 <= i < |s| ==> s[i] == 0
  {
    if |s| > 0 {
      var n := |s| - 1;
      SumZero(s[..n]);
      if Sum(s) == 0 {
        forall i | 0 <= i < |s| ensures s[i] == 0 {
          if i < n {
            assert s[..n][i] == s[i];
          }
        }
      } else {
        assert Sum(s[..n]) > 0 || s[n] > 0;
        if Sum(s[..n]) > 0 {
          var j :| 0 <= j < n && s[..n][j] != 0;
          assert s[j] != 0;
        }
      }
    }
  }

  /**
   Counter value after the relaxed `fetch_add(1)` events of `schedule`, in
   schedule order, starting from `counter`. Each event names the worker that
   issued it.
   */
  function Run(counter: nat, schedule: seq<nat>): nat
    decreases |schedule|
  {
    if |schedule| == 0 then counter else Run(counter + 1, schedule[1..])
  }

  /** Every event raises the counter by exactly one, whoever issued it. */
  lemma {:induction false} RunCountsEvents(counter: nat, schedule: seq<nat>)
    ensures Run(counter, schedule) == counter + |schedule|
    decreases |schedule|
  {
    if |schedule| > 0 {
      RunCountsEvents(counter + 1, schedule[1..]);
    }
  }

  /**
   Any interleaving in which worker `w` issues exactly `hits[w]` increments,
   and no one else issues any, leaves the counter (started at zero) at the
   sum of the workers' private counts.
   */
  lemma {:induction false} InterleavingReachesSum(schedule: seq<nat>, hits: seq<nat>)
    requires forall e :: e in schedule ==> e < |hits|
    requires forall w :: 0 <= w < |hits| ==> multiset(schedule)[w] == hits[w]
    ensures Run(0, schedule) == Sum(hits)
  {
    RunCountsEvents(0, schedule);
    EventsMatchCounts(schedule, hits);
  }

  /** The number of events equals the sum of the per-worker event counts. */
  lemma {:induction false} EventsMatchCounts(schedule: seq<nat>, hits: seq<nat>)
    requires forall e :: e in schedule ==> e < |hits|
    requires forall w :: 0 <= w < |hits| ==> multiset(schedule)[w] == hits[w]
    ensures |schedule| == Sum(hits)
    decreases |schedule|
  {
    if |schedule| == 0 {
      SumZero(hits);
    } else {
      var e := schedule[0];
      var rest := schedule[1..];
      assert schedule == [e] + rest;
      assert multiset(schedule) == multiset{e} + multiset(rest);
      assert e in schedule;
      assert multiset(schedule)[e] >= 1;
      assert hits[e] >= 1;
      var hits' := hits[e := hits[e] - 1];
      forall x | x in rest ensures x < |hits'| {
        assert x in schedule;
      }
      forall w | 0 <= w < |hits'| ensures multiset(rest)[w] == hits'[w] {
        assert multiset(schedule)[w] == hits[w];
      }
      EventsMatchCounts(rest, hits');
      SumUpdate(hits, e, hits[e] - 1);
    }
  }
}

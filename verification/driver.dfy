/**
 The checks the command-line driver makes before it calls the estimator:
 the sample count from the first argument, the optional seed from the second
 (0 when absent), and each (radius, threads) pair read from the input. The
 first failing check, in the driver's order, ends the run with its message.
 */
module Driver {

  /** Why the driver refuses to run the estimator. */
  datatype Rejection =
    | TriesNotPositive            // "Tries must be > 0"
    | SeedNegative                // "Seed must be >= 0"
    | RadiusOrThreadsNotPositive  // "R > 0 and Threads > 0"

  datatype Verdict = Accept | Reject(reason: Rejection)

  /** The driver's checks, in the order it makes them. */
  function CheckRequest(tries: int, seed: int, r: int, threads: int): (v: Verdict)
    ensures v == Accept <==> tries > 0 && seed >= 0 && r > 0 && threads > 0
    ensures v == Reject(TriesNotPositive) <==> tries <= 0
    ensures v == Reject(SeedNegative) <==> tries > 0 && seed < 0
    ensures v == Reject(RadiusOrThreadsNotPositive) <==> tries > 0 && seed >= 0 && (r <= 0 || threads <= 0)
  {
    if tries <= 0 then Reject(TriesNotPositive)
    else if seed < 0 then Reject(SeedNegative)
    else if threads <= 0 || r <= 0 then Reject(RadiusOrThreadsNotPositive)
    else Accept
  }
}

/** The timed segments the recognition engine yields, and the loop of
    `transcribe_file` that drains them into a list while reporting progress. */
module Segments {
  import opened Wrappers
  import opened Arith

  /** One recognised segment: start and end offsets in seconds (either may be
      missing) and its text as the engine gives it, untrimmed. */
  datatype Segment = Segment(start: Option<real>, end: Option<real>, text: string)

  /** `progress_every and n % progress_every == 0`: whether a progress notice
      follows the `n`-th segment. An interval of 0 turns notices off. For a
      negative interval Python's `%` and Dafny's `%` are both zero exactly on
      the multiples, so the test carries over unchanged. */
  predicate NoticeDue(n: nat, every: int) {
    every != 0 && n % every == 0
  }

  /** The drain loop: pulls every segment of `gen` once, in arrival order,
      into `segs`, counting them in `n`, and returns the counts after which
      a progress notice is printed, in the order they are printed. */
  method Drain(gen: seq<Segment>, progressEvery: int) returns (segs: seq<Segment>, n: nat, notices: seq<nat>)
    ensures segs == gen && n == |segs|
    ensures forall k :: k in notices <==> 1 <= k <= n && NoticeDue(k, progressEvery)
    ensures forall i, j :: 0 <= i < j < |notices| ==> notices[i] < notices[j]
    ensures progressEvery == 0 ==> notices == []
    ensures progressEvery > 0 ==> |notices| == n / progressEvery
  {
    segs, n, notices := [], 0, [];
    while n < |gen|
      invariant n <= |gen| && segs == gen[..n]
      invariant forall k :: k in notices <==> 1 <= k <= n && NoticeDue(k, progressEvery)
      invariant forall i, j :: 0 <= i < j < |notices| ==> notices[i] < notices[j]
      invariant forall i :: 0 <= i < |notices| ==> notices[i] <= n
      invariant progressEvery == 0 ==> notices == []
      invariant progressEvery > 0 ==> |notices| == n / progressEvery
    {
      if progressEvery > 0 {
        CountStep(n, progressEvery);
      }
      var s := gen[n];
      n := n + 1;
      if NoticeDue(n, progressEvery) {
        notices := notices + [n];
      }
      segs := segs + [s];
    }
    assert gen[..n] == gen;
  }

  /** One more segment adds one multiple of `p` exactly when its count is one. */
  lemma CountStep(n: nat, p: int)
    requires p > 0
    ensures (n + 1) / p == n / p + (if (n + 1) % p == 0 then 1 else 0)
  {
    var q, r := n / p, n % p;
    if r + 1 == p {
      DivModUnique(n + 1, p, q + 1, 0);
    } else {
      DivModUnique(n + 1, p, q, r + 1);
    }
  }

}

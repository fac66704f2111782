/** What the pipeline computes, run one stage after another.

    Each queue of the pipeline carries a stream: the values its producer put,
    in order (the queue is first-in first-out), ending with one sentinel 0.
    Because every stage's output depends only on the stream it reads, running
    the stages one after the other records the same values as any
    interleaving of the threads; only the order in which they land in the
    result array differs, and the caller sorts that array. */
module SieveSpec {
  import opened Primality

  /** End-of-stream marker put after the last candidate. */
  const Sentinel: nat := 0

  predicate Increasing(s: seq<nat>)
  {
    forall i, j :: 0 <= i < j < |s| ==> s[i] < s[j]
  }

  /** A stream as a producer hands it over: non-zero values, then exactly one
      sentinel at the end. */
  predicate IsStream(s: seq<nat>)
  {
    0 < |s| && s[|s| - 1] == Sentinel && Sentinel !in s[..|s| - 1]
  }

  /** The values of a stream before its sentinel. */
  function Payload(s: seq<nat>): (r: seq<nat>)
    requires 0 < |s|
  {
    s[..|s| - 1]
  }

  /** The odd numbers 3, 5, 7, ... up to `m`, in increasing order: the
      candidates the source step puts into the first queue. */
  function OddsUpTo(m: nat): (r: seq<nat>)
    ensures forall x :: x in r ==> 3 <= x <= m
  {
    if m < 3 then [] else OddsUpTo(m - 1) + (if m % 2 != 0 then [m] else [])
  }

  /** The values of `xs` that `p` does not divide, in their original order:
      what a filtering stage forwards. */
  function Sift(xs: seq<nat>, p: nat): (r: seq<nat>)
    requires 0 < p
    ensures |r| <= |xs|
    ensures forall x :: x in r <==> x in xs && x % p != 0
  {
    if xs == [] then []
    else
      var last := xs[|xs| - 1];
      assert xs == xs[..|xs| - 1] + [last];
      Sift(xs[..|xs| - 1], p) + (if last % p != 0 then [last] else [])
  }

  /** How a stage ends: it drained its input into the results (terminal
      stage), it forwarded a stream to the successor it spawned, or it read
      the sentinel first and then waits forever for another value. */
  datatype StageEnd = Drained | Forwarded(stream: seq<nat>) | Blocked

  /** What one stage appends to the results, and how it ends. */
  datatype StageRun = StageRun(recorded: seq<nat>, end: StageEnd)

  /** One filtering stage reading stream `s`, for the bound `n`.  Its first
      value `p` decides: when `p * p > n` (`p` exceeds the square root of
      `n`) it records `p` and everything after it up to the sentinel;
      otherwise it records `p` and forwards the later values `p` does not
      divide, then the sentinel.  A stage whose first value is the sentinel
      takes the second branch, records 0 and blocks on its next read. */
  function Stage(s: seq<nat>, n: nat): (r: StageRun)
    requires IsStream(s)
    ensures r.recorded != [] && r.recorded[0] == s[0]
    ensures r.end.Blocked? <==> |s| == 1
    ensures r.end.Drained? <==> s[0] * s[0] > n
    ensures r.end.Forwarded? ==> IsStream(r.end.stream) && |r.end.stream| < |s|
  {
    var p := s[0];
    if p * p > n then StageRun(Payload(s), Drained)
    else if |s| == 1 then StageRun([p], Blocked)
    else
      var t := Sift(s[1..|s| - 1], p) + [Sentinel];
      assert t[..|t| - 1] == Sift(s[1..|s| - 1], p);
      assert s[1..|s| - 1] == s[..|s| - 1][1..];
      StageRun([p], Forwarded(t))
  }

  /** The end of a whole run: every stage finished (`Done`), or some stage
      waits forever (`Hung`); either way, with what was recorded. */
  datatype Outcome = Done(results: seq<nat>) | Hung(results: seq<nat>)

  function Prepend(pre: seq<nat>, o: Outcome): (r: Outcome)
  {
    match o
    case Done(r) => Done(pre + r)
    case Hung(r) => Hung(pre + r)
  }

  /** The chain of stages starting with the one that reads `s`: each
      non-terminal stage hands its forwarded stream to the successor it
      spawned, until a terminal stage drains or a stage blocks.  Values only
      flow downstream and no stage invents one: whatever the chain records
      was in the stream its first stage read, and that stage's first value
      is recorded first. */
  function Pipeline(s: seq<nat>, n: nat): (r: Outcome)
    requires IsStream(s)
    ensures r.results != [] && r.results[0] == s[0]
    ensures forall x :: x in r.results ==> x in s
    decreases |s|
  {
    var run := Stage(s, n);
    match run.end
    case Drained => Done(run.recorded)
    case Blocked => Hung(run.recorded)
    case Forwarded(t) => Prepend(run.recorded, Pipeline(t, n))
  }

  /** The whole computation for the bound `n`: 2 is recorded first, whatever
      `n` is; for `n > 2` the odd candidates and the sentinel feed the first
      stage, otherwise no stage is created. */
  function Sieve(n: nat): (r: Outcome)
    ensures r.results != [] && r.results[0] == 2
    ensures forall x :: x in r.results ==> x == 2 || x == Sentinel || 3 <= x <= n
  {
    if n > 2 then
      var s := OddsUpTo(n) + [Sentinel];
      assert s[..|s| - 1] == OddsUpTo(n);
      Prepend([2], Pipeline(s, n))
    else Done([2])
  }

  /** The run for `n = 10`: candidates 3, 5, 7, 9; the stage for 3 forwards
      5 and 7; the stage for 5 is terminal and records 5 and 7. */
  lemma SieveOfTen()
    ensures OddsUpTo(10) == [3, 5, 7, 9]
    ensures Stage([3, 5, 7, 9, Sentinel], 10) == StageRun([3], Forwarded([5, 7, Sentinel]))
    ensures Stage([5, 7, Sentinel], 10) == StageRun([5, 7], Drained)
    ensures Sieve(10) == Done([2, 3, 5, 7])
  {
    assert OddsUpTo(2) == [];
    assert OddsUpTo(3) == [3];
    assert OddsUpTo(4) == [3];
    assert OddsUpTo(5) == [3, 5];
    assert OddsUpTo(6) == [3, 5];
    assert OddsUpTo(7) == [3, 5, 7];
    assert OddsUpTo(8) == [3, 5, 7];
    assert OddsUpTo(9) == [3, 5, 7, 9];
    assert OddsUpTo(10) == [3, 5, 7, 9];
    var s := [3, 5, 7, 9, Sentinel];
    assert Sift([5, 7, 9], 3) == [5, 7] by {
      assert Sift([], 3) == [];
      assert Sift([5], 3) == [5];
      assert [5, 7][..1] == [5];
      assert Sift([5, 7], 3) == [5, 7];
      assert [5, 7, 9][..2] == [5, 7];
    }
    assert s[1..4] == [5, 7, 9];
    assert Stage(s, 10) == StageRun([3], Forwarded([5, 7, Sentinel]));
    assert Stage([5, 7, Sentinel], 10) == StageRun([5, 7], Drained);
    assert Pipeline(s, 10) == Done([3, 5, 7]);
  }
}

/** The threads of the pipeline, run one after another: the source step of
    `initial_thread`, the two branches of `filter_thread`, and the chain of
    stages that `main` waits on.  The result array and its shared index
    (`pt`, `arrayPointer`) become the sequence `results`, appended to in
    place of each locked store.  The stream a stage reads from its queue is
    the sequence of values its producer put, in order. */
module SievePipeline {
  import opened Primality
  import opened SieveSpec
  import opened SieveProofs

  /** `initial_thread`: records 2, and for `n > 2` puts every odd number from
      3 to `n` and then one sentinel into the first queue; for `n <= 2` it
      creates no queue and no stage. */
  method Source(n: nat) returns (recorded: seq<nat>, spawned: bool, stream: seq<nat>)
    ensures recorded == [2]
    ensures spawned <==> n > 2
    ensures spawned ==> stream == OddsUpTo(n) + [Sentinel]
    ensures !spawned ==> stream == []
  {
    recorded := [2];
    spawned := n > 2;
    stream := [];
    if spawned {
      var i := 3;
      while i <= n
        invariant 3 <= i <= n + 1
        invariant stream == OddsUpTo(i - 1)
      {
        if i % 2 != 0 {
          stream := stream + [i];
        }
        i := i + 1;
      }
      stream := stream + [Sentinel];
    }
  }

  /** `filter_thread` reading `input`.  A read past the last value the
      producer will ever put is a `queue_get` that waits forever; the stage
      then ends `Blocked`. */
  method RunStage(input: seq<nat>, n: nat) returns (run: StageRun)
    requires IsStream(input)
    ensures run == Stage(input, n)
  {
    var pos := 0;
    var first := input[pos];
    pos := pos + 1;
    if first * first > n {
      // Terminal stage: the first value and every later one are recorded.
      var recorded := [first];
      var i := input[pos];
      pos := pos + 1;
      while i != Sentinel
        invariant 2 <= pos <= |input|
        invariant i == input[pos - 1]
        invariant recorded == input[..pos - 1]
        decreases |input| - pos
      {
        recorded := recorded + [i];
        assert input[..pos] == input[..pos - 1] + [i];
        i := input[pos];
        pos := pos + 1;
      }
      assert pos == |input|;
      run := StageRun(recorded, Drained);
    } else {
      // The first value is recorded and a successor is spawned.
      var recorded := [first];
      if pos == |input| {
        run := StageRun(recorded, Blocked);
        return;
      }
      var forwarded := [];
      var i := input[pos];
      pos := pos + 1;
      while i != Sentinel
        invariant 2 <= pos <= |input|
        invariant i == input[pos - 1]
        invariant forwarded == Sift(input[1..pos - 1], first)
        decreases |input| - pos
      {
        if i % first != 0 {
          forwarded := forwarded + [i];
        }
        assert input[1..pos] == input[1..pos - 1] + [i];
        i := input[pos];
        pos := pos + 1;
      }
      assert pos == |input|;
      forwarded := forwarded + [Sentinel];
      run := StageRun(recorded, Forwarded(forwarded));
    }
  }

  /** The chain of stages fed with `stream`: each stage runs on the stream
      its predecessor forwarded, until a terminal stage drains (the point
      where `main` is signalled) or a stage blocks. */
  method RunChain(stream: seq<nat>, n: nat) returns (outcome: Outcome)
    requires IsStream(stream)
    ensures outcome == Pipeline(stream, n)
  {
    var input := stream;
    var results := [];
    while true
      invariant IsStream(input)
      invariant Prepend(results, Pipeline(input, n)) == Pipeline(stream, n)
      decreases |input|
    {
      var run := RunStage(input, n);
      PrependTwice(results, run.recorded, input, n);
      results := results + run.recorded;
      match run.end
      case Drained =>
        return Done(results);
      case Blocked =>
        return Hung(results);
      case Forwarded(next) =>
        input := next;
    }
  }

  /** Unfolds one stage of `Pipeline`, and regroups what the stages so far
      recorded with what this stage records. */
  lemma PrependTwice(pre: seq<nat>, recorded: seq<nat>, s: seq<nat>, n: nat)
    requires IsStream(s) && recorded == Stage(s, n).recorded
    ensures Prepend(pre, Pipeline(s, n)) == match Stage(s, n).end
      case Drained => Done(pre + recorded)
      case Blocked => Hung(pre + recorded)
      case Forwarded(t) => Prepend(pre + recorded, Pipeline(t, n))
  {
    match Stage(s, n).end
    case Drained =>
    case Blocked =>
    case Forwarded(t) =>
      match Pipeline(t, n)
      case Done(r) =>
        assert pre + (recorded + r) == (pre + recorded) + r;
      case Hung(r) =>
        assert pre + (recorded + r) == (pre + recorded) + r;
  }

  /** The whole run for the bound `n`: the source step, then the chain of
      stages when the source step created one. */
  method Primes(n: nat) returns (outcome: Outcome)
    ensures outcome == Sieve(n)
    ensures n <= 2 ==> outcome == Done([2])
    ensures 3 <= n && outcome.Done? ==>
      forall x :: multiset(outcome.results)[x] == if 2 <= x <= n && IsPrime(x) then 1 else 0
    ensures 3 <= n && PrimeAboveEachRoot(n) ==> outcome.Done?
  {
    var recorded, spawned, stream := Source(n);
    if spawned {
      assert stream[..|stream| - 1] == OddsUpTo(n);
      var chain := RunChain(stream, n);
      outcome := Prepend(recorded, chain);
      SieveRecordsPrimes(n);
      if PrimeAboveEachRoot(n) {
        SieveFinishes(n);
      }
    } else {
      outcome := Done(recorded);
    }
  }
}

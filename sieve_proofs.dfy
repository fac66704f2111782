/** Why the pipeline records exactly the primes up to the bound.

    The stream that reaches a stage after the stages for the primes up to
    `q` have filtered it is "sieved from `q`": its values are, in increasing
    order, exactly the numbers in `(q, n]` with no divisor in `[2, q]`.
    The smallest of them is the next prime after `q`; a non-terminal stage
    turns a stream sieved from `q` into one sieved from its own prime; and
    once that prime's square exceeds `n`, everything left is prime. */
module SieveProofs {
  import opened Primality
  import opened SieveSpec

  /** `s` is a stream whose values are, in increasing order, exactly the
      numbers in `(q, n]` that survived filtering by everything up to `q`. */
  ghost predicate Sieved(s: seq<nat>, q: nat, n: nat)
  {
    && IsStream(s)
    && Increasing(Payload(s))
    && forall x :: x in Payload(s) <==> q < x <= n && Rough(x, q)
  }

  /** Above every prime whose square is at most `n` there is another prime
      up to `n`.  (Bertrand's postulate implies it for every `n`; it is not
      proved here.) */
  ghost predicate PrimeAboveEachRoot(n: nat)
  {
    forall p: nat :: IsPrime(p) && p * p <= n ==> exists r: nat :: p < r <= n && IsPrime(r)
  }

  lemma HeadIsLeast(xs: seq<nat>)
    requires Increasing(xs) && xs != []
    ensures forall x :: x in xs ==> xs[0] <= x
    ensures forall x :: x in xs[1..] <==> x in xs && xs[0] < x
  {
    forall x | x in xs
      ensures xs[0] <= x
      ensures x in xs[1..] <==> xs[0] < x
    {
      var i :| 0 <= i < |xs| && xs[i] == x;
      if i > 0 {
        assert xs[1..][i - 1] == x;
      }
    }
  }

  /** If `e` divides `d` but not `x`, then `d` does not divide `x`. */
  lemma NotDividesFromFactor(e: nat, d: nat, x: nat)
    requires 0 < e && 0 < d && d % e == 0 && x % e != 0
    ensures x % d != 0
  {
    if x % d == 0 {
      DividesTrans(e, d, x);
      assert false;
    }
  }

  /** Below the head of a sieved stream, nothing above `q` is `q`-rough. */
  lemma BelowHeadNotRough(s: seq<nat>, q: nat, n: nat, d: nat)
    requires Sieved(s, q, n) && 1 < |s|
    requires q < d < s[0]
    ensures !Rough(d, q)
  {
    var xs := Payload(s);
    HeadIsLeast(xs);
    assert xs[0] == s[0] && s[0] in xs;
    assert d !in xs;
  }

  /** A `q`-rough number that the head `p` of a sieved stream does not divide
      is `p`-rough: nothing in `(q, p)` can divide it. */
  lemma RoughAcrossGap(s: seq<nat>, q: nat, n: nat, x: nat)
    requires Sieved(s, q, n) && 1 < |s|
    requires Rough(x, q) && x % s[0] != 0
    ensures Rough(x, s[0])
  {
    var p := s[0];
    forall d | 2 <= d <= p
      ensures x % d != 0
    {
      if q < d < p {
        BelowHeadNotRough(s, q, n, d);
        var e :| 2 <= e <= q && d % e == 0;
        NotDividesFromFactor(e, d, x);
      }
    }
  }

  /** The first value a stage reads from a sieved stream is prime, it is the
      next prime after `q`, and it is at most `n`. */
  lemma {:induction false} StageFirstIsPrime(s: seq<nat>, q: nat, n: nat)
    requires Sieved(s, q, n) && 2 <= q && 1 < |s|
    ensures IsPrime(s[0]) && q < s[0] <= n
    ensures forall y :: q < y < s[0] ==> !IsPrime(y)
  {
    var p := s[0];
    assert p in Payload(s);
    forall d | 2 <= d < p
      ensures p % d != 0
    {
      if q < d {
        BelowHeadNotRough(s, q, n, d);
        var e :| 2 <= e <= q && d % e == 0;
        NotDividesFromFactor(e, d, p);
      }
    }
    forall y | q < y < p
      ensures !IsPrime(y)
    {
      BelowHeadNotRough(s, q, n, y);
      if IsPrime(y) {
        PrimeIsRough(y, q);
        assert false;
      }
    }
  }

  /** A non-terminal stage forwards a stream sieved from its own prime: the
      values it receives next are larger than every prime seen so far and
      divisible by none of them. */
  lemma {:induction false} ForwardedSieved(s: seq<nat>, q: nat, n: nat)
    requires Sieved(s, q, n) && 2 <= q && 1 < |s| && s[0] * s[0] <= n
    ensures Stage(s, n).end.Forwarded?
    ensures Sieved(Stage(s, n).end.stream, s[0], n)
  {
    var p := s[0];
    var xs := Payload(s);
    var rest := s[1..|s| - 1];
    assert rest == xs[1..];
    StageFirstIsPrime(s, q, n);
    HeadIsLeast(xs);
    var t := Stage(s, n).end.stream;
    assert t == Sift(rest, p) + [Sentinel];
    assert Payload(t) == Sift(rest, p);
    SiftIncreasing(rest, p);
    forall x
      ensures x in Payload(t) <==> p < x <= n && Rough(x, p)
    {
      if x in Payload(t) {
        RoughAcrossGap(s, q, n, x);
      }
      if p < x <= n && Rough(x, p) {
        RoughMono(x, q, p);
        assert x in xs;
      }
    }
  }

  /** Sifting keeps the values in the order they came. */
  lemma {:induction false} SiftIncreasing(xs: seq<nat>, p: nat)
    requires 0 < p && Increasing(xs)
    ensures Increasing(Sift(xs, p))
  {
    if xs != [] {
      var init := xs[..|xs| - 1];
      var last := xs[|xs| - 1];
      assert Increasing(init);
      SiftIncreasing(init, p);
      var r := Sift(init, p);
      forall x | x in r
        ensures x < last
      {
        var i :| 0 <= i < |init| && init[i] == x;
      }
      IncreasingConcat(r, if last % p != 0 then [last] else []);
    }
  }

  /** Sifting keeps the surviving values in their original order: the k-th
      forwarded value sits at position `idx[k]` of the input, and these
      positions increase. */
  lemma {:induction false} SiftPositions(xs: seq<nat>, p: nat) returns (idx: seq<nat>)
    requires 0 < p
    ensures |idx| == |Sift(xs, p)| && Increasing(idx)
    ensures forall k :: 0 <= k < |idx| ==> idx[k] < |xs| && xs[idx[k]] == Sift(xs, p)[k]
  {
    if xs == [] {
      idx := [];
    } else {
      var init := xs[..|xs| - 1];
      var last := xs[|xs| - 1];
      var prev := SiftPositions(init, p);
      forall k | 0 <= k < |prev|
        ensures prev[k] < |xs| - 1
      {
      }
      idx := prev + (if last % p != 0 then [|xs| - 1] else []);
      IncreasingConcat(prev, if last % p != 0 then [|xs| - 1] else []);
    }
  }

  /** The integer test `p * p > n` that replaces the floating-point
      `p > sqrt(n)` agrees with comparing `p` to the integer square root
      `r` of `n`, which is what `p > sqrt(n)` means for a whole number `p`. */
  lemma ThresholdMatchesRoot(p: nat, n: nat, r: nat)
    requires r * r <= n < (r + 1) * (r + 1)
    ensures p * p > n <==> p > r
  {
    if p > r {
      MulMono(p, r + 1, p);
      MulMono(r + 1, r + 1, p);
    } else {
      MulMono(p, p, r);
      MulMono(r, p, r);
    }
  }

  /** A number in a sieved stream below the square of the stream's head has
      no divisor but 1 and itself. */
  lemma RoughBelowSquareIsPrime(s: seq<nat>, q: nat, n: nat, x: nat)
    requires Sieved(s, q, n) && 2 <= q && 1 < |s|
    requires x in Payload(s) && x < s[0] * s[0]
    ensures IsPrime(x)
  {
    var p := s[0];
    forall d | 2 <= d < x
      ensures x % d != 0
    {
      if x % d == 0 {
        var e := SmallDivisor(x, d);
        BelowSquare(e, p);
        if q < e {
          BelowHeadNotRough(s, q, n, e);
          var f :| 2 <= f <= q && e % f == 0;
          NotDividesFromFactor(f, e, x);
        }
        assert false;
      }
    }
  }

  /** A terminal stage (its first value squared exceeds `n`) reads exactly
      the primes in `(q, n]`. */
  lemma {:induction false} TerminalReadsPrimes(s: seq<nat>, q: nat, n: nat)
    requires Sieved(s, q, n) && 2 <= q && 1 < |s| && s[0] * s[0] > n
    ensures forall x :: x in Payload(s) <==> q < x <= n && IsPrime(x)
  {
    forall x
      ensures x in Payload(s) <==> q < x <= n && IsPrime(x)
    {
      if x in Payload(s) {
        RoughBelowSquareIsPrime(s, q, n, x);
      }
      if q < x <= n && IsPrime(x) {
        PrimeIsRough(x, q);
      }
    }
  }

  /** When the chain of stages fed with a stream sieved from `q` finishes,
      it has recorded, in increasing order, exactly the primes in `(q, n]`. */
  lemma {:induction false} PipelineRecordsPrimes(s: seq<nat>, q: nat, n: nat)
    requires Sieved(s, q, n) && 2 <= q
    ensures Pipeline(s, n).Done? ==>
      && Increasing(Pipeline(s, n).results)
      && forall x :: x in Pipeline(s, n).results <==> q < x <= n && IsPrime(x)
    decreases |s|
  {
    if 1 < |s| {
      var p := s[0];
      StageFirstIsPrime(s, q, n);
      if p * p > n {
        TerminalReadsPrimes(s, q, n);
      } else {
        ForwardedSieved(s, q, n);
        var t := Stage(s, n).end.stream;
        PipelineRecordsPrimes(t, p, n);
        var o := Pipeline(t, n);
        if o.Done? {
          assert Pipeline(s, n) == Done([p] + o.results);
          PrependNextPrime(p, q, n, o.results);
        }
      }
    }
  }

  /** Recording the next prime after `q` in front of the primes in
      `(p, n]` gives the primes in `(q, n]`, still in increasing order. */
  lemma PrependNextPrime(p: nat, q: nat, n: nat, r: seq<nat>)
    requires IsPrime(p) && q < p <= n
    requires forall y :: q < y < p ==> !IsPrime(y)
    requires Increasing(r)
    requires forall x :: x in r <==> p < x <= n && IsPrime(x)
    ensures Increasing([p] + r)
    ensures forall x :: x in [p] + r <==> q < x <= n && IsPrime(x)
  {
    IncreasingConcat([p], r);
  }

  /** Joining two increasing sequences, the first wholly below the second,
      gives an increasing sequence. */
  lemma IncreasingConcat(a: seq<nat>, b: seq<nat>)
    requires Increasing(a) && Increasing(b)
    requires forall x, y :: x in a && y in b ==> x < y
    ensures Increasing(a + b)
  {
    forall i, j | 0 <= i < j < |a + b|
      ensures (a + b)[i] < (a + b)[j]
    {
      if i < |a| && |a| <= j {
        assert a[i] in a && b[j - |a|] in b;
      }
    }
  }

  /** Under the assumption that above every prime whose square is at most
      `n` there is another prime up to `n`, no stage ever reads the sentinel
      first, so the chain fed with a non-empty sieved stream finishes. */
  lemma {:induction false} PipelineFinishes(s: seq<nat>, q: nat, n: nat)
    requires Sieved(s, q, n) && 2 <= q && 1 < |s|
    requires PrimeAboveEachRoot(n)
    ensures Pipeline(s, n).Done?
    decreases |s|
  {
    var p := s[0];
    StageFirstIsPrime(s, q, n);
    if p * p <= n {
      ForwardedSieved(s, q, n);
      var t := Stage(s, n).end.stream;
      var r :| p < r <= n && IsPrime(r);
      PrimeIsRough(r, p);
      assert r in Payload(t);
      PipelineFinishes(t, p, n);
    }
  }

  /** The candidates of the source step form a stream sieved from 2. */
  lemma {:induction false} SourceSieved(n: nat)
    requires 3 <= n
    ensures Sieved(OddsUpTo(n) + [Sentinel], 2, n)
    ensures 3 in OddsUpTo(n)
  {
    OddsUpToSpec(n);
    var s := OddsUpTo(n) + [Sentinel];
    assert Payload(s) == OddsUpTo(n);
    forall x
      ensures x in OddsUpTo(n) <==> 2 < x <= n && Rough(x, 2)
    {
    }
  }

  /** The source step's candidates: exactly the odd numbers from 3 to `m`,
      in increasing order. */
  lemma {:induction false} OddsUpToSpec(m: nat)
    ensures Increasing(OddsUpTo(m))
    ensures forall x :: x in OddsUpTo(m) <==> 3 <= x <= m && x % 2 != 0
  {
    if m >= 3 {
      OddsUpToSpec(m - 1);
      var r := OddsUpTo(m - 1);
      forall x | x in r
        ensures x < m
      {
      }
      IncreasingConcat(r, if m % 2 != 0 then [m] else []);
    }
  }

  /** In a strictly increasing sequence every value occurs at most once. */
  lemma {:induction false} IncreasingOccursOnce(s: seq<nat>)
    requires Increasing(s)
    ensures forall x :: multiset(s)[x] == if x in s then 1 else 0
  {
    if s != [] {
      var init := s[..|s| - 1];
      assert s == init + [s[|s| - 1]];
      assert Increasing(init);
      IncreasingOccursOnce(init);
      assert forall i :: 0 <= i < |init| ==> init[i] < s[|s| - 1];
      assert s[|s| - 1] !in init;
    }
  }

  /** The whole computation for `n >= 3`: when it finishes it has recorded
      every prime up to `n` exactly once and nothing else (in increasing
      order, in this sequential run). */
  lemma SieveRecordsPrimes(n: nat)
    requires 3 <= n
    ensures Sieve(n).Done? ==>
      && Increasing(Sieve(n).results)
      && (forall x :: x in Sieve(n).results <==> 2 <= x <= n && IsPrime(x))
      && (forall x :: multiset(Sieve(n).results)[x] == if 2 <= x <= n && IsPrime(x) then 1 else 0)
  {
    var s := OddsUpTo(n) + [Sentinel];
    SourceSieved(n);
    PipelineRecordsPrimes(s, 2, n);
    var o := Pipeline(s, n);
    if o.Done? {
      var r := Sieve(n).results;
      assert r == [2] + o.results;
      forall x | x in o.results
        ensures 2 < x
      {
      }
      IncreasingConcat([2], o.results);
      assert IsPrime(2);
      IncreasingOccursOnce(r);
    }
  }

  /** Under the same assumption as `PipelineFinishes`, the computation for
      `n >= 3` finishes. */
  lemma SieveFinishes(n: nat)
    requires 3 <= n && PrimeAboveEachRoot(n)
    ensures Sieve(n).Done?
  {
    var s := OddsUpTo(n) + [Sentinel];
    SourceSieved(n);
    assert OddsUpTo(n) != [];
    PipelineFinishes(s, 2, n);
  }
}

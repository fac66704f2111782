# Pipeline sieve of Eratosthenes, modelled in Dafny

`primes.c` computes the primes up to a bound N with a chain of threads. An
initial thread records 2 and streams the odd numbers 3..N, then a sentinel 0,
into a bounded circular queue. Each filter thread reads its queue and treats
the first value p as its prime. If p exceeds the square root of N, the thread
is terminal: it records p and every later value up to the sentinel. If not,
it records p and spawns a successor with a fresh queue. It then forwards
every later value that p does not divide, and finally forwards the sentinel.
`main` waits for the terminal stage and sorts the recorded primes.

The model has five modules:

- `CircularQueues` (`circular_queue.dfy`) is the ring buffer. It is a class
  over an `array<nat>` with the cursors `first` and `last`. The counts held by
  the two semaphores are kept as `emptySlots` and `filledSlots`. A ghost
  `Contents` holds the queued values, oldest first. `Valid()` ties `Contents`
  to the slots from `first` onwards. It also keeps both cursors in
  `[0, capacity)` and the occupancy in `[0, capacity]`.
- `Primality` (`primality.dfy`) holds the definitions of prime and of
  "rough" (no divisor in `[2, q]`), plus the divisibility facts they need.
- `SieveSpec` (`sieve_spec.dfy`) holds the specification functions.
  `OddsUpTo` gives the source candidates. `Sift` is the filter. `Stage` is one
  filter thread on the stream it reads. `Pipeline` is the chain of stages and
  `Sieve` is the whole run. A run ends as `Done(results)`, or as
  `Hung(results)` when some stage blocks forever.
- `SievePipeline` (`sieve_pipeline.dfy`) holds the threads as sequential
  methods with loops: `Source`, `RunStage`, `RunChain` and `Primes`. Each one
  is proved equal to its specification function.
- `SieveProofs` (`sieve_proofs.dfy`) proves what the run computes. The first
  value of every stage that reads a value before the sentinel is prime, and
  it is the next prime after the previous stage's prime. Every value a stage
  receives is larger than every earlier prime and divisible by none of them.
  A terminal stage reads only primes. For N >= 3, a finished run records
  every prime up to N exactly once and nothing else (for N <= 2 the run
  records just 2).

The stages run one after another. The model can do this because data flows
only downstream through first-in first-out queues, and each stage's output
depends only on its input stream. Interleaving the threads differently
changes only the order in which values land in the result array, and `main`
sorts that array. So the stream a stage reads is the sequence of values its
producer put, and the results are compared as a multiset.

The model keeps these facts of the code:

- `initial_thread` records 2 before its `maxNumber > 2` test, so for every
  N <= 2 it records 2 and creates no stage (`Primes` ensures `Done([2])` for
  `n <= 2`). For N = 1 the result-array sizing in `main` already goes wrong
  before that thread starts (see "## Left out").
- A stage whose first read is the sentinel takes the non-terminal branch. It
  records 0, spawns a successor, and then waits forever on its next
  `queue_get`. It does not forward the sentinel and exit. The model ends such
  a run as `Hung` with 0 recorded.
- The threshold `first_number > sqrt(maxNumber)` is modelled as the integer
  test `p * p > n`. `ThresholdMatchesRoot` shows that the two agree for whole
  numbers.

## Model

| member | source | states |
|---|---|---|
| `CircularQueues.CircularQueue.constructor` | primes.c:60-81 | After initialisation the queue is empty: both cursors are 0, `capacity` is stored, the free-slot count equals the capacity and the filled count is 0; a capacity of at least 1 is required because the cursor updates divide by it |
| `CircularQueues.CircularQueue.Put` | primes.c:85-95 | Given a free slot: `value` is written at `v[last]`, `last` becomes `(last + 1) % capacity`, `first` and every other slot are unchanged, one free slot becomes filled, and the contents become the old contents followed by `value`; the cursor and occupancy bounds are preserved |
| `CircularQueues.CircularQueue.Get` | primes.c:99-111 | Given a filled slot: returns `v[first]`, which is the oldest value in the queue; `first` becomes `(first + 1) % capacity`, `last` and the buffer are unchanged, and the contents lose their first value; the bounds are preserved |
| `CircularQueues.PutAllThenGetAll` | primes.c:85-111 | FIFO: values put into the free slots (wrapping around the buffer) come out of `Get` after what was already queued, in exactly the order they were put, and the queue ends empty |
| `SieveSpec.Sift` | primes.c:320-325 | A value is forwarded if and only if it is among the inputs and `p` does not divide it; no more values come out than went in |
| `SieveSpec.Stage` | primes.c:266-331 | A stage records its first value first; it is terminal exactly when that value squared exceeds `n`; it blocks exactly when its first read is the sentinel; otherwise it forwards a well-formed stream (non-zero values, one sentinel at the end) shorter than its input |
| `SieveSpec.OddsUpTo` | primes.c:232-236 | Every candidate lies in [3, N]; that they are exactly the odd numbers there, in increasing order, is stated by `OddsUpToSpec` |
| `SieveSpec.Pipeline` | primes.c:266-331 | The chain of stages records the first stage's first value first, and every value it records was in the stream the first stage read (values only flow downstream); what it records is stated by `PipelineRecordsPrimes` and that it finishes by `PipelineFinishes` |
| `SieveSpec.Sieve` | primes.c:209-241 | The whole run records 2 first, and every other recorded value is the sentinel (only in a blocked run) or lies in [3, N]; that a finished run records exactly the primes is stated by `SieveRecordsPrimes`, and that it finishes by `SieveFinishes` |
| `SieveSpec.SieveOfTen` | primes.c:209-331 | For N = 10 the candidates are 3, 5, 7, 9; the stage for 3 forwards 5 and 7 and the sentinel; the stage for 5 is terminal and records 5 and 7; the run records exactly 2, 3, 5, 7 |
| `SievePipeline.Source` | primes.c:209-242 | Records 2 whatever N is; for N > 2 it emits exactly the odd numbers 3..N in increasing order (see `OddsUpToSpec`) and then one sentinel; for N <= 2 it creates no queue and no stage |
| `SievePipeline.RunStage` | primes.c:266-331 | The filter thread's loops compute `Stage`: a terminal stage records its first value and every later value up to the sentinel, in order; a non-terminal stage records its first value once, forwards exactly the later values it does not divide, in order, and then one sentinel; a stage that reads the sentinel first records 0 and blocks |
| `SievePipeline.RunChain` | primes.c:301-331 | Running each stage on the stream its predecessor forwarded (the successor spawned with its own queue) gives exactly `Pipeline`: the run ends when a terminal stage drains or a stage blocks |
| `SievePipeline.Primes` | primes.c:198-341 | The sequential run equals `Sieve(n)`; for N <= 2 it records just 2; for N >= 3 a finished run records every prime up to N exactly once and no other value; under `PrimeAboveEachRoot(n)` it does finish |
| `SieveProofs.OddsUpToSpec` | primes.c:230-237 | The candidates are strictly increasing and are exactly the odd numbers from 3 to N |
| `SieveProofs.SourceSieved` | primes.c:230-237 | For N >= 3 the source stream is well formed and non-empty, and it holds exactly the numbers in (2, N] that 2 does not divide |
| `SieveProofs.StageFirstIsPrime` | primes.c:264-271 | The first value a stage reads from a sieved stream is prime, at most N, and the next prime after the previous stage's prime |
| `SieveProofs.ForwardedSieved` | primes.c:315-327 | A non-terminal stage with prime p forwards, in increasing order, exactly the numbers in (p, N] that no number in [2, p] divides: every value the next stage receives is larger than, and not divisible by, the primes of all earlier stages |
| `SieveProofs.SiftIncreasing` | primes.c:320-325 | Filtering an increasing stream leaves it increasing |
| `SieveProofs.SiftPositions` | primes.c:320-325 | The forwarded values keep their input order: the k-th forwarded value sits at an input position that increases with k |
| `SieveProofs.ThresholdMatchesRoot` | primes.c:272 | For a whole number p and the integer square root r of n, `p * p > n` holds exactly when `p > r`, that is, when p exceeds the square root of n |
| `SieveProofs.TerminalReadsPrimes` | primes.c:268-292 | A terminal stage reads exactly the primes above the previous stage's prime and up to N, as the comment at lines 268-271 claims |
| `SieveProofs.PipelineRecordsPrimes` | primes.c:266-331 | When the chain of stages fed with a stream sieved from q finishes, it has recorded, in increasing order, exactly the primes in (q, N] |
| `SieveProofs.PipelineFinishes` | primes.c:301-315 | If above every prime whose square is at most N there is another prime up to N, no stage reads the sentinel first, and the chain finishes |
| `SieveProofs.SieveRecordsPrimes` | primes.c:209-241 | For N >= 3 a finished run records each prime in [2, N] exactly once (as a multiset) and no composite or out-of-range value |
| `SieveProofs.SieveFinishes` | primes.c:223-241 | For N >= 3, under `PrimeAboveEachRoot(N)`, the run finishes |

## Left out

- Threads, semaphores and mutexes (`pthread_create`, `sem_wait`, `sem_post`, `pthread_mutex_*`). The semaphore counts are kept as fields, and a call that would block becomes a precondition (`Put` needs a free slot, `Get` a filled one). The stages run one after another instead of concurrently.
- The bounded capacity between stages (`QUEUE_SIZE`, 10). The stages run one after another, so a channel is modelled as the whole sequence its producer put; the queue class itself is bounded and proved first-in first-out.
- The `threadsRunning` counter and its busy-wait, and the `primeCalculation` semaphore. They only detect completion; the model's run simply ends when a terminal stage drains.
- System V shared memory (`ftok`, `shmget`, `shmat`, `shmdt`, `shmctl`). It only stores the results, and the model keeps them as an append-only sequence.
- Sizing the result array with `log` and `ceil`, and the floating-point `sqrt` (replaced by `p * p > n`). Storing past the end of an undersized array is not modelled either.
- The sizing fault for N = 1: `log(1)` is 0, so `maxNumber / log(maxNumber)` is +infinity and converting `ceil` of it to `long` is undefined behaviour (primes.c:130-131), before `initial_thread` is created. The model starts from `initial_thread` and records 2 for every N <= 2.
- Negative N. `maxNumber` is an `int` read with `strtol` (primes.c:22, 128), so it can be negative; `log` of a negative number is NaN and converting `ceil` of it to `long` is undefined behaviour (primes.c:130-131). The model's bound is a `nat`, so negative N is not modelled.
- Argument parsing (`strtol`), `printf`, and the final `qsort` with `compareFunction`. The model states its result as a multiset, so sorting adds nothing.
- Allocation failures in `queue_init`, including its check of `q` instead of `*q`, and `queue_destroy`. Allocation and freeing are not part of the behaviour.
- Integer widths: `unsigned long` elements stored through an `int *`, and the `unsigned int` cursors. Values are `nat`. Cursors never overflow, since they stay below the capacity.
- SieveProofs.PipelineFinishes: proves that no stage blocks only under `PrimeAboveEachRoot(n)`: above every prime p with p * p <= n there is a prime up to n. Bertrand's postulate implies this for every n, but it is not proved here.
- SieveProofs.SieveFinishes: same assumption as `PipelineFinishes`.
- SievePipeline.Primes: it finishes under the same assumption; without it, the contract says only what a finished run records.

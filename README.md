# Reduction benchmark: fill and sum of an integer array

The program allocates an array of N = 1,000,000,000 `int`s. It fills every slot
with `rand() % 1000`, in increasing index order. It then adds the slots into one
`int` accumulator that starts at 0, again in increasing index order. Finally it
prints the sum and the time the summation took. This project models the two
array loops and the pipeline that connects them. It proves what they compute
and when the 32-bit accumulator can overflow.

- `cint.dfy`, module `CInt`: the C++ integer facts the program relies on.
  These are the range of a 32-bit `int` (`Int32`), the values `rand()` may
  return (`RandValue`, from 0 to INT_MAX), and C++'s truncating `/` and `%`
  (`Quot`, `Rem`).
- `crand.dfy`, module `CRand`: the C library generator `rand()`, as a class
  `RandSource`.
  - Its hidden state is the number of calls made so far (`calls`).
  - Each call, `Next`, returns `draws(calls)` and advances `calls` by one.
  - `draws` is the fixed sequence of values the generator hands out. Its
    algorithm and seed are not modelled.
- `parallel_reduction.dfy`, module `ParallelReduction`: the loops.
  - `Fill` writes into an `array<Int32>` and is proved against the
    specification function `Filled`.
  - `Reduce` reads the array and is proved against the sum `Sum`.
  - `Run` is the program body for any length `n`: allocate, fill, reduce.

Fill order. `Fill` calls `Next` once per slot. Its contract says three things:
- the generator advanced by exactly the array's length;
- slot k holds `% 1000` of the k-th call the loop made (call
  `old(gen.calls) + k`), so the first call's value lands in slot 0, the second
  in slot 1, and so on;
- a ghost log of the slots written is 0, 1, …, n-1, so each slot is written
  once, in increasing order.

The length is a parameter `n` of `Run`. That makes the empty and small arrays
part of the model. The hard-wired length is the constant `N`.

Accumulator design. In C++, overflow of a signed `int` is undefined
behaviour. The C++ standard says so in its "Expressions" clause ([expr.pre]):
a result outside the range of its type is undefined.
- `Reduce` and `Run` use an unbounded accumulator, the exact sum the program
  evidently intends.
- The accumulator as written is `Accumulate32` (specification) and
  `ReduceInt32` (the loop). An addition that leaves the `int` range ends the
  computation there with `Undefined(at)`.
- One might expect a two's-complement wrap-around instead. C++ does not
  guarantee it, so the model treats overflow as undefined and produces no
  wrapped value.

`Reduce` and `ReduceInt32` have no `modifies` clause. Dafny therefore
guarantees that they leave the array unchanged, which is the read-only
reduction phase. A Dafny array's `Length` cannot change, so neither loop alters
the length fixed at allocation.

`Examples` checks two examples by assertion: 10, 20, 30, 40, 50 sum to 150, and
an empty array sums to 0.

## Model

| member | source | states |
|---|---|---|
| `CInt.Rem` | cpp/parallel_reduction.cpp:10 | C++ `%` with a positive divisor: `(x / m) * m + x % m == x` with truncating `/`; a non-negative left operand gives a remainder in [0, m-1], a negative one a remainder in (-m, 0] |
| `CRand.RandSource.constructor` | cpp/parallel_reduction.cpp:10 | the generator at process start has made no call |
| `CRand.RandSource.Next` | cpp/parallel_reduction.cpp:10 | one call of `rand()` returns the value for the current call number and advances the call count by one |
| `ParallelReduction.Filled` | cpp/parallel_reduction.cpp:9-11 | the filled contents have exactly n elements, and each lies in [0, 999] because `rand()` is never negative |
| `ParallelReduction.Fill` | cpp/parallel_reduction.cpp:9-11 | the loop makes exactly one `rand()` call per slot; slot k holds `% 1000` of the k-th of those calls; the ghost log shows each slot written once, in increasing order; the loop invariant keeps slots not yet reached unchanged |
| `ParallelReduction.Reduce` | cpp/parallel_reduction.cpp:17-20 | returns exactly the mathematical sum of the array, starting from 0 (so 0 for an empty array), and modifies nothing |
| `ParallelReduction.SumBounds` | cpp/parallel_reduction.cpp:9-20 | if every element is in [0, 999], the sum is between 0 and 999 · n |
| `ParallelReduction.SumConstant` | cpp/parallel_reduction.cpp:17-20 | n copies of c sum to c · n; so an all-zero array sums to 0 and an all-one array to n |
| `ParallelReduction.Run` | cpp/parallel_reduction.cpp:5-20 | starting from the generator's process-start state, allocating n slots, filling and reducing yields the sum of the values of calls 0 to n-1 reduced `% 1000`, which is between 0 and 999 · n |
| `ParallelReduction.ReduceInt32` | cpp/parallel_reduction.cpp:17-20 | the loop with its 32-bit `int` accumulator computes `Accumulate32` of the array: the sum, or the index of the first overflowing addition |
| `ParallelReduction.Accumulate32Meaning` | cpp/parallel_reduction.cpp:17-19 | the 32-bit accumulation is defined if and only if every running total fits in an `int`, and then equals the sum; otherwise it names the first index whose addition left the range |
| `ParallelReduction.UndefinedPersists` | cpp/parallel_reduction.cpp:18-19 | once some prefix of the loop has overflowed, the outcome of the whole loop is that overflow |
| `ParallelReduction.ShortFillsCannotOverflow` | cpp/parallel_reduction.cpp:10-19 | with elements in [0, 999] and at most INT32_MAX / 999 = 2149633 of them, the 32-bit accumulator never overflows and yields the exact sum |
| `ParallelReduction.ConstantFits` | cpp/parallel_reduction.cpp:17-19 | m copies of a non-negative c with c · m <= INT32_MAX reduce, in 32 bits, to exactly c · m |
| `ParallelReduction.ConstantOverflowsAt` | cpp/parallel_reduction.cpp:17-19 | more than INT32_MAX / c copies of a positive c overflow, first at index INT32_MAX / c; for c = 999 this shows the bound 2149633 is tight |
| `ParallelReduction.AllOnesReduceToLength` | cpp/parallel_reduction.cpp:17-19 | an all-one array of m elements reduces, in 32 bits, to m for m <= 2^31 - 1, and overflows at index 2^31 - 1 for longer arrays |
| `ParallelReduction.HardCodedLengthOverflows` | cpp/parallel_reduction.cpp:5-19 | with the hard-wired N and `rand()` returning 999 on every call, the 32-bit accumulator overflows at index 2149633 |
| `ParallelReduction.RunAsWritten` | cpp/parallel_reduction.cpp:5-20 | the program as written (N slots, 32-bit accumulator, generator at process start) computes `Accumulate32` of the filled values |

## Findings

| source | as written | input that shows it | evidently intended | confidence | as-written member | corrected member |
|---|---|---|---|---|---|---|
| cpp/parallel_reduction.cpp:17-19 | the sum of N = 10^9 values in [0, 999] is accumulated in a 32-bit `int`, and signed overflow is undefined behaviour | every `rand()` call returns 999: the addition at index 2149633 leaves the `int` range | the exact sum, in an accumulator wide enough for 999 · N | high; not executed | `ParallelReduction.HardCodedLengthOverflows` | `ParallelReduction.Reduce` |

## Left out

- Timing with `std::chrono::high_resolution_clock` and the conversion to `duration<double>` seconds: a clock reading and floating point, with nothing to prove about the loops.
- Output with `std::cout`: I/O only.
- The internals of `rand()`: it is a C library generator. The model keeps its observable behaviour: one value per call, in a fixed order, each an `int` from 0 to RAND_MAX. It does not model the algorithm, the default seed or RAND_MAX's exact value.
- `new[]` and `delete[]`, with the allocation-failure path: Dafny arrays are garbage-collected, and `new` in Dafny cannot fail.
- The value the program prints when the 32-bit sum overflows: that is undefined behaviour in C++, so the model records only where the overflow happens.
- The 32-bit width of the loop counter `int i`: every index is below N, which fits in an `int`, so the counter cannot overflow.
- CInt.Rem: modelled only for a positive divisor, the only kind the program uses (1000).

/**
 The two array loops of the reduction benchmark: the fill loop, which stores
 `rand() % 1000` in every slot in increasing index order, and the reduction
 loop, which adds the slots into one accumulator that starts at 0.

 Accumulator design: the accumulator of the program is a 32-bit `int`, and
 signed overflow is undefined behaviour in C++. `Reduce` and `Run` use an
 unbounded accumulator (the evidently intended exact sum). The accumulator as
 written is modelled separately by `Accumulate32` and `ReduceInt32`, in which
 an overflowing addition ends the computation with `Undefined`; the lemmas
 below show that it agrees with the exact sum for arrays of at most
 `MaxSafeLength` elements and that the hard-wired length overflows.
 */
module ParallelReduction {
  import opened CInt
  import opened CRand

  /** The element count the program hard-wires. */
  const N: nat := 1_000_000_000

  /** The divisor of the fill loop: every stored value is `rand() % Modulus`. */
  const Modulus: int := 1000

  /** The largest value the fill loop can store. */
  const MaxElement: int := Modulus - 1

  /** INT32_MAX / 999: the longest array of values in [0, 999] whose 32-bit sum cannot overflow. */
  const MaxSafeLength: nat := INT32_MAX / MaxElement

  // ---------------------------------------------------------------------------
  // Specification functions

  /** The mathematical sum of `s`, adding the elements in increasing index order. */
  function Sum(s: seq<int>): int {
    if s == [] then 0 else Sum(s[..|s| - 1]) + s[|s| - 1]
  }

  /**
   The contents of an array of `n` slots after the fill loop, when the generator
   has already served `first` calls: slot k holds `rand() % 1000` of call `first + k`.
   */
  function Filled(draws: nat -> RandValue, first: nat, n: nat): (s: seq<int>)
    ensures |s| == n
    ensures forall k :: 0 <= k < n ==> 0 <= s[k] <= MaxElement
  {
    var s := seq(n, k requires 0 <= k => Rem(draws(first + k), Modulus));
    assert forall k :: 0 <= k < n ==> s[k] == Rem(draws(first + k), Modulus);
    s
  }

  /** A sequence of `m` copies of `c`. */
  function Constant(m: nat, c: int): seq<int> {
    seq(m, _ => c)
  }

  /** Outcome of summing with a 32-bit signed accumulator. */
  datatype Acc32 =
    | Defined(value: int)   // every addition stayed within the range of `int`
    | Undefined(at: nat)    // adding the element at index `at` overflowed: undefined behaviour

  /** The reduction loop as written: a 32-bit accumulator, visiting indices in increasing order. */
  function Accumulate32(s: seq<int>): Acc32 {
    if s == [] then Defined(0)
    else
      match Accumulate32(s[..|s| - 1])
      case Undefined(j) => Undefined(j)
      case Defined(v) =>
        if InInt32(v + s[|s| - 1]) then Defined(v + s[|s| - 1]) else Undefined(|s| - 1)
  }

  /** Every running total of the reduction loop, including the initial 0, fits in an `int`. */
  ghost predicate PrefixSumsFit(s: seq<int>) {
    forall i :: 0 <= i <= |s| ==> InInt32(Sum(s[..i]))
  }

  // ---------------------------------------------------------------------------
  // Lemmas about the sum

  /** A sum of values in [0, 999] lies between 0 and 999 times the number of values. */
  lemma {:induction false} SumBounds(s: seq<int>)
    requires forall k :: 0 <= k < |s| ==> 0 <= s[k] <= MaxElement
    ensures 0 <= Sum(s) <= MaxElement * |s|
  {
    if s != [] {
      SumBounds(s[..|s| - 1]);
    }
  }

  /** The sum of `m` copies of `c` is `c * m`: 0 for an all-zero array, `m` for an all-one array. */
  lemma {:induction false} SumConstant(s: seq<int>, c: int)
    requires forall k :: 0 <= k < |s| ==> s[k] == c
    ensures Sum(s) == c * |s|
  {
    if s != [] {
      SumConstant(s[..|s| - 1], c);
      assert c * |s| == c * (|s| - 1) + c;
    }
  }

  // ---------------------------------------------------------------------------
  // Lemmas about the 32-bit accumulator

  /**
   What the 32-bit accumulator computes: it is defined exactly when every running
   total fits in an `int`, and then its value is the sum; otherwise it records the
   first index whose addition leaves the range.
   */
  lemma {:induction false} Accumulate32Meaning(s: seq<int>)
    ensures Accumulate32(s).Defined? <==> PrefixSumsFit(s)
    ensures Accumulate32(s).Defined? ==> Accumulate32(s).value == Sum(s)
    ensures Accumulate32(s).Undefined? ==>
              var j := Accumulate32(s).at;
              j < |s| && PrefixSumsFit(s[..j]) && !InInt32(Sum(s[..j + 1]))
  {
    if s == [] {
      assert s[..0] == s;
    } else {
      var p := s[..|s| - 1];
      Accumulate32Meaning(p);
      assert forall i :: 0 <= i <= |p| ==> p[..i] == s[..i];
      assert s[..|s|] == s;
      match Accumulate32(p)
      case Undefined(j) =>
        assert p[..j + 1] == s[..j + 1];
      case Defined(v) =>
        assert p == s[..|p|];
    }
  }

  /** Once an addition has overflowed, the outcome of the whole loop is that overflow. */
  lemma {:induction false} UndefinedPersists(s: seq<int>, m: nat)
    requires m <= |s| && Accumulate32(s[..m]).Undefined?
    ensures Accumulate32(s) == Accumulate32(s[..m])
  {
    if m < |s| {
      var p := s[..|s| - 1];
      assert p[..m] == s[..m];
      UndefinedPersists(p, m);
    } else {
      assert s[..m] == s;
    }
  }

  /** With values in [0, 999] and at most `MaxSafeLength` of them, the 32-bit accumulator is exact. */
  lemma ShortFillsCannotOverflow(s: seq<int>)
    requires forall k :: 0 <= k < |s| ==> 0 <= s[k] <= MaxElement
    requires |s| <= MaxSafeLength
    ensures Accumulate32(s) == Defined(Sum(s))
  {
    forall i | 0 <= i <= |s|
      ensures InInt32(Sum(s[..i]))
    {
      SumBounds(s[..i]);
    }
    Accumulate32Meaning(s);
  }

  /** A product of non-negative numbers is non-negative. */
  lemma {:induction false} ProductNonNegative(c: int, d: int)
    requires 0 <= c && 0 <= d
    ensures 0 <= c * d
  {
    if d > 0 {
      ProductNonNegative(c, d - 1);
      assert c * d == c * (d - 1) + c;
    }
  }

  /** `j` is the quotient `x / c` when `c * j <= x < c * (j + 1)`. */
  lemma QuotientBetween(x: int, c: int, j: int)
    requires c >= 1 && c * j <= x < c * (j + 1)
    ensures j == x / c
  {
    var q, r := x / c, x % c;
    assert x == c * q + r && 0 <= r < c;
    if j < q {
      assert c * q == c * (j + 1) + c * (q - j - 1);
      ProductNonNegative(c, q - j - 1);
    } else if j > q {
      assert c * j == c * (q + 1) + c * (j - q - 1);
      ProductNonNegative(c, j - q - 1);
    }
  }

  /** `m` copies of a non-negative `c` whose total fits in an `int` reduce, in 32 bits, to `c * m`. */
  lemma ConstantFits(m: nat, c: int)
    requires 0 <= c && c * m <= INT32_MAX
    ensures Accumulate32(Constant(m, c)) == Defined(c * m)
  {
    var s := Constant(m, c);
    forall i | 0 <= i <= m
      ensures InInt32(Sum(s[..i]))
    {
      SumConstant(s[..i], c);
      ProductNonNegative(c, i);
      ProductNonNegative(c, m - i);
      assert c * m == c * i + c * (m - i);
    }
    SumConstant(s, c);
    Accumulate32Meaning(s);
  }

  /**
   More than `INT32_MAX / c` copies of a positive `c` overflow the 32-bit
   accumulator, and the first addition to overflow is the one at index
   `INT32_MAX / c`. For c = 999 that index is `MaxSafeLength`, so that bound is tight.
   */
  lemma ConstantOverflowsAt(m: nat, c: int)
    requires c >= 1 && m > INT32_MAX / c
    ensures Accumulate32(Constant(m, c)) == Undefined(INT32_MAX / c)
  {
    var s := Constant(m, c);
    var q := INT32_MAX / c;
    assert Sum(s[..q + 1]) > INT32_MAX by {
      assert INT32_MAX == c * q + INT32_MAX % c && INT32_MAX % c < c;
      assert c * (q + 1) == c * q + c;
      SumConstant(s[..q + 1], c);
    }
    Accumulate32Meaning(s);
    assert Accumulate32(s).Undefined?;
    var j := Accumulate32(s).at;
    assert c * j <= INT32_MAX by {
      assert s[..j][..j] == s[..j];
      SumConstant(s[..j], c);
    }
    assert INT32_MAX < c * (j + 1) by {
      SumConstant(s[..j + 1], c);
      ProductNonNegative(c, j + 1);
    }
    QuotientBetween(INT32_MAX, c, j);
  }

  /**
   An all-one array of `m` elements reduces, in 32 bits, to `m` while `m` fits in
   an `int`; beyond that the addition at index 2^31 - 1 overflows.
   */
  lemma AllOnesReduceToLength(m: nat)
    ensures m <= INT32_MAX ==> Accumulate32(Constant(m, 1)) == Defined(m)
    ensures m > INT32_MAX ==> Accumulate32(Constant(m, 1)) == Undefined(INT32_MAX)
  {
    if m <= INT32_MAX {
      ConstantFits(m, 1);
    } else {
      ConstantOverflowsAt(m, 1);
    }
  }

  /**
   The program as written overflows: if every call of `rand()` returns 999, the
   32-bit accumulator over the hard-wired N elements overflows at index 2149633.
   */
  lemma HardCodedLengthOverflows()
    ensures Accumulate32(Filled(_ => 999, 0, N)) == Undefined(2_149_633)
  {
    assert Rem(999, Modulus) == MaxElement;
    assert Filled(_ => 999, 0, N) == Constant(N, MaxElement);
    ConstantOverflowsAt(N, MaxElement);
  }

  // ---------------------------------------------------------------------------
  // The two loops

  /**
   The fill loop: one call of `rand()` per slot, slot i receiving the i-th of the
   calls the loop makes, reduced `% 1000`. The ghost result lists the slots
   written, in the order written: every slot once, in increasing order.
   */
  method Fill(arr: array<Int32>, gen: RandSource) returns (ghost written: seq<nat>)
    modifies arr, gen
    ensures gen.calls == old(gen.calls) + arr.Length
    ensures arr[..] == Filled(gen.draws, old(gen.calls), arr.Length)
    ensures |written| == arr.Length && forall k :: 0 <= k < |written| ==> written[k] == k
  {
    written := [];
    var i: nat := 0;
    while i < arr.Length
      invariant i <= arr.Length
      invariant gen.calls == old(gen.calls) + i
      invariant forall k :: 0 <= k < i ==> arr[k] == Rem(gen.draws(old(gen.calls) + k), Modulus)
      invariant forall k :: i <= k < arr.Length ==> arr[k] == old(arr[k])  // not reached yet
      invariant |written| == i && forall k :: 0 <= k < i ==> written[k] == k
    {
      var r := gen.Next();
      arr[i] := Rem(r, Modulus);
      written := written + [i];
      i := i + 1;
    }
  }

  /** The reduction loop with an unbounded accumulator; it only reads `arr`. */
  method Reduce(arr: array<Int32>) returns (sum: int)
    ensures sum == Sum(arr[..])
  {
    sum := 0;
    var i := 0;
    while i < arr.Length
      invariant 0 <= i <= arr.Length
      invariant sum == Sum(arr[..i])
    {
      assert arr[..i + 1][..i] == arr[..i];
      sum := sum + arr[i];
      i := i + 1;
    }
    assert arr[..] == arr[..arr.Length];
  }

  /**
   The reduction loop as written, with a 32-bit accumulator. An addition that
   leaves the range of `int` is undefined behaviour; the model stops there.
   */
  method ReduceInt32(arr: array<Int32>) returns (r: Acc32)
    ensures r == Accumulate32(arr[..])
  {
    var sum: Int32 := 0;
    var i := 0;
    while i < arr.Length
      invariant 0 <= i <= arr.Length
      invariant Accumulate32(arr[..i]) == Defined(sum)
    {
      assert arr[..i + 1][..i] == arr[..i];
      if !InInt32(sum + arr[i]) {
        UndefinedPersists(arr[..], i + 1);
        return Undefined(i);
      }
      sum := sum + arr[i];
      i := i + 1;
    }
    assert arr[..] == arr[..arr.Length];
    r := Defined(sum);
  }

  // ---------------------------------------------------------------------------
  // The program

  /**
   The body of the program for an array of `n` elements, leaving out timing and
   output: allocate, fill, reduce. The generator starts in its process-start
   state, so the fill consumes calls 0 to n - 1. The result is the sum of the
   filled values, between 0 and 999 * n.
   */
  method Run(n: nat, draws: nat -> RandValue) returns (sum: int)
    ensures sum == Sum(Filled(draws, 0, n))
    ensures 0 <= sum <= MaxElement * n
  {
    var gen := new RandSource(draws);
    var arr := new Int32[n];
    ghost var written := Fill(arr, gen);
    sum := Reduce(arr);
    SumBounds(arr[..]);
  }

  /** The program as written: N elements and a 32-bit accumulator. */
  method RunAsWritten(draws: nat -> RandValue) returns (r: Acc32)
    ensures r == Accumulate32(Filled(draws, 0, N))
  {
    var gen := new RandSource(draws);
    var arr := new Int32[N];
    ghost var written := Fill(arr, gen);
    r := ReduceInt32(arr);
  }

  /** Two examples: five known values, and the empty array. */
  method Examples() {
    var arr := new Int32[5];
    arr[0], arr[1], arr[2], arr[3], arr[4] := 10, 20, 30, 40, 50;
    var sum := Reduce(arr);
    assert arr[..] == [10, 20, 30, 40, 50];
    assert [10, 20, 30, 40, 50][..4] == [10, 20, 30, 40];
    assert [10, 20, 30, 40][..3] == [10, 20, 30];
    assert [10, 20, 30][..2] == [10, 20];
    assert [10, 20][..1] == [10];
    assert [10][..0] == [];
    assert sum == 150;

    var empty := new Int32[0];
    sum := Reduce(empty);
    assert empty[..] == [];
    assert sum == 0;
  }
}

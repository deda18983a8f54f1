/**
 * The generic helpers of examples/example.rs: integer arithmetic on `i32`, the
 * accumulating `Summable::sum` for `Vec<i32>`, `longest`, `Point::new`, the
 * closure returned by `make_adder` and the `my_vec!` builder.
 *
 * Rust panics on `i32` overflow in a debug build, so callers must keep results
 * in range: the arithmetic below requires that, rather than wrapping.
 */
module RustHelpers {
  import opened Ints

  /** `math::ops::sub`: the exact difference, when it fits in an `i32`. */
  function Sub(a: Int32, b: Int32): (r: Int32)
    requires InInt32(a - b)
    ensures r + b == a
  {
    a - b
  }

  /** `math::ops::add`: the exact sum, when it fits; `sub` undoes it. */
  function Add(a: Int32, b: Int32): (r: Int32)
    requires InInt32(a + b)
    ensures InInt32(r - b) && Sub(r, b) == a
    ensures InInt32(r - a) && Sub(r, a) == b
  {
    a + b
  }

  /** `const_add` computes what `add` computes. */
  function ConstAdd(a: Int32, b: Int32): (r: Int32)
    requires InInt32(a + b)
    ensures r == Add(a, b)
  {
    a + b
  }

  /** `documented_add` computes what `add` computes. */
  function DocumentedAdd(a: Int32, b: Int32): (r: Int32)
    requires InInt32(a + b)
    ensures r == Add(b, a)
  {
    a + b
  }

  /** The unit test `test_add`: `add(2, 3) == 5`. */
  lemma AddTwoThree()
    ensures Add(2, 3) == 5
  {
  }

  /** `const VALUE: i32 = const_add(2, 3)`, evaluated at compile time. */
  const VALUE: Int32 := ConstAdd(2, 3)

  /** `VALUE` is 5, the same as `add(2, 3)`. */
  lemma ConstValueIsFive()
    ensures VALUE == 5 == Add(2, 3)
  {
  }

  /** `make_adder(x)`: a closure that adds `x` to its argument, defined where the sum fits. */
  function MakeAdder(x: Int32): (f: Int32 --> Int32)
    ensures forall y: Int32 :: InInt32(x + y) ==> f.requires(y) && f(y) == Add(x, y)
  {
    (y: Int32) requires InInt32(x + y) => (x + y) as Int32
  }

  /** `Summable::sum` specified as Rust's left fold of `+` from `T::default()`, which is 0 for `i32`. */
  function FoldSum(s: seq<int>): int {
    if s == [] then 0 else FoldSum(s[..|s| - 1]) + s[|s| - 1]
  }

  /** An independent, right-nested definition of the sum of a sequence. */
  function TotalOf(s: seq<int>): int {
    if s == [] then 0 else s[0] + TotalOf(s[1..])
  }

  /** Summing a concatenation sums the parts. */
  lemma {:induction false} TotalOfAppend(a: seq<int>, b: seq<int>)
    ensures TotalOf(a + b) == TotalOf(a) + TotalOf(b)
  {
    if a == [] {
      assert a + b == b;
    } else {
      assert (a + b)[1..] == a[1..] + b;
      TotalOfAppend(a[1..], b);
    }
  }

  /** The left fold and the right-nested sum agree: the order of accumulation does not matter. */
  lemma {:induction false} FoldSumIsTotal(s: seq<int>)
    ensures FoldSum(s) == TotalOf(s)
  {
    if s != [] {
      var init, last := s[..|s| - 1], s[|s| - 1];
      assert s == init + [last];
      FoldSumIsTotal(init);
      TotalOfAppend(init, [last]);
    }
  }

  /** The running total never leaves the `i32` range, so a debug build does not panic. */
  predicate NoOverflow(v: seq<Int32>) {
    forall n :: 0 <= n <= |v| ==> InInt32(FoldSum(v[..n]))
  }

  /** `Summable::sum` for `Vec<i32>`: the accumulating loop. */
  method Sum(v: seq<Int32>) returns (acc: Int32)
    requires NoOverflow(v)
    ensures acc == FoldSum(v) == TotalOf(v)
  {
    acc := 0;
    for n := 0 to |v|
      invariant acc == FoldSum(v[..n])
    {
      assert v[..n + 1][..n] == v[..n];
      assert InInt32(FoldSum(v[..n + 1]));
      acc := acc + v[n];
    }
    assert v[..|v|] == v;
    FoldSumIsTotal(v);
  }

  /** An empty vector sums to `i32::default()`, which is 0. */
  method SumOfEmpty() returns (total: Int32)
    ensures total == 0
  {
    total := Sum([]);
  }

  /** `main` sums `vec![1, 2, 3]` and obtains 6. */
  method SumOneTwoThree() returns (total: Int32)
    ensures total == 6
  {
    var v: seq<Int32> := [1, 2, 3];
    assert v[..0] == [] && v[..1] == [1] && v[..2] == [1, 2] && v[..3] == v;
    total := Sum(v);
  }

  /** A byte of a Rust `&str`, whose `len()` counts UTF-8 bytes. */
  type Byte = b: int | 0 <= b < 256

  function Max(a: nat, b: nat): nat {
    if a >= b then a else b
  }

  /**
   * `longest`: one of its two arguments, the one with more bytes; a tie goes
   * to the first.
   */
  function Longest(a: seq<Byte>, b: seq<Byte>): (r: seq<Byte>)
    ensures r == a || r == b
    ensures |r| == Max(|a|, |b|)
    ensures |a| == |b| ==> r == a
  {
    if |a| >= |b| then a else b
  }

  /** `longest` picks `b` only when `b` is strictly longer, and is symmetric when the lengths differ. */
  lemma LongestPicksSecondOnlyIfLonger(a: seq<Byte>, b: seq<Byte>)
    ensures Longest(a, b) != a ==> Longest(a, b) == b && |b| > |a|
    ensures |a| != |b| ==> Longest(a, b) == Longest(b, a)
  {
  }

  /** `Point<T>`, a pair of coordinates. */
  datatype Point<T> = Point(x: T, y: T)

  /** `Point::new`: `x` goes to field `x` and `y` to field `y`. */
  function NewPoint<T>(x: T, y: T): (p: Point<T>)
    ensures p.x == x && p.y == y
  {
    Point(x, y)
  }

  /** `my_vec![e1, ..., en]`: push each argument in turn onto a new vector. */
  method MyVec<T>(args: seq<T>) returns (v: seq<T>)
    ensures |v| == |args|
    ensures forall i :: 0 <= i < |args| ==> v[i] == args[i]
  {
    v := [];
    for n := 0 to |args|
      invariant v == args[..n]
    {
      v := v + [args[n]];
    }
  }
}

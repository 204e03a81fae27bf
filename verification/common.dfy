/** Small value types shared by every part of the model: C#'s nullable
    references and its 32-bit `int` with unchecked (wrapping) arithmetic. */
module Common {

  /** A value that C# may leave `null`. */
  datatype Option<+T> = None | Some(value: T)

  /** A .NET `string`, which is a reference and may therefore be `null`.
      C#'s `==` on strings is ordinal and treats two nulls as equal, which is
      exactly structural equality on this type. */
  type NString = Option<string>

  const MinInt32: int := -0x8000_0000
  const MaxInt32: int := 0x7fff_ffff

  /** C#'s `int`. */
  newtype Int32 = x: int | -0x8000_0000 <= x < 0x8000_0000

  /** `a + d` on two C# `int`s outside a `checked` context: the exact sum
      when it fits, otherwise the sum wrapped around modulo 2^32. */
  function AddWrapping(a: Int32, d: Int32): (r: Int32)
    ensures MinInt32 <= a as int + d as int <= MaxInt32 ==> r as int == a as int + d as int
    ensures (r as int - (a as int + d as int)) % 0x1_0000_0000 == 0
  {
    var sum := a as int + d as int;
    if sum > MaxInt32 then (sum - 0x1_0000_0000) as Int32
    else if sum < MinInt32 then (sum + 0x1_0000_0000) as Int32
    else sum as Int32
  }

  /** Stepping forward by one and back by one is the identity on `int`,
      including across the wrap-around at `int.MaxValue`. */
  lemma IncrementThenDecrement(a: Int32)
    ensures AddWrapping(AddWrapping(a, 1), -1) == a
  {
  }

  /** No two positions of `xs` hold the same element. */
  predicate Distinct<T(==)>(xs: seq<T>)
  {
    forall i, j :: 0 <= i < j < |xs| ==> xs[i] != xs[j]
  }

  /** The elements of a sequence, as a set. */
  function Elements<T>(xs: seq<T>): set<T>
  {
    set x | x in xs
  }

  /** A sequence without repetitions has as many distinct elements as
      positions. */
  lemma {:induction false} DistinctCardinality<T>(xs: seq<T>)
    requires Distinct(xs)
    ensures |Elements(xs)| == |xs|
    decreases |xs|
  {
    if xs != [] {
      var rest := xs[1..];
      assert Distinct(rest) by {
        forall i, j | 0 <= i < j < |rest| ensures rest[i] != rest[j] {
          assert rest[i] == xs[i + 1] && rest[j] == xs[j + 1];
        }
      }
      DistinctCardinality(rest);
      assert Elements(xs) == Elements(rest) + {xs[0]};
      assert xs[0] !in Elements(rest);
    }
  }
}

/** What several components share. */
module Basics {
  type FormID = nat

  type Byte = b: int | 0 <= b < 256

  datatype Option<+T> = None | Some(value: T)

  /** What a test or its oracle said. */
  datatype OracleResult = Unfinished | Passing | Failing | Undefined | Prefix | Repeat | Running | NoResult

  function Min(a: int, b: int): int {
    if a < b then a else b
  }

  function Max(a: int, b: int): int {
    if a < b then b else a
  }

  lemma SubsetSize<T>(small: set<T>, big: set<T>)
    requires small <= big
    ensures |small| <= |big|
  {
    assert big == small + (big - small);
    assert |big| == |small| + |big - small|;
  }

  lemma Associative<T>(a: seq<T>, b: seq<T>, c: seq<T>)
    ensures a + (b + c) == (a + b) + c
  {}

  /** A signed number where an unsigned 64-bit number is expected wraps below zero. */
  function AsSize(x: int): (r: int)
    ensures x >= 0 ==> r == x
    ensures -0x1_0000_0000_0000_0000 <= x ==> r >= 0
    ensures (r - x) % 0x1_0000_0000_0000_0000 == 0
  {
    if x < 0 then x + 0x1_0000_0000_0000_0000 else x
  }

  lemma MulMonotone(a: int, b: int, n: int)
    requires a <= b && n >= 0
    ensures a * n <= b * n
  {
    assert b * n == a * n + (b - a) * n;
  }

  lemma DivUnique(a: int, n: int, q: int)
    requires n > 0 && q * n <= a < q * n + n
    ensures a / n == q
  {
    var r := a / n;
    assert r * n <= a < r * n + n;
    if r < q {
      MulMonotone(r + 1, q, n);
    } else if r > q {
      MulMonotone(q + 1, r, n);
    }
  }
}

/** Optional values and the integer arithmetic shared by the other modules. */
module Arithmetic {

  datatype Option<+T> = None | Some(value: T)

  datatype Result<+T, +E> = Ok(value: T) | Err(error: E)

  /** One past the largest value of the source's `std::size_t` and `uint64_t`. */
  const WORD: nat := 0x1_0000_0000_0000_0000

  function Min(a: int, b: int): int {
    if a <= b then a else b
  }

  function Max(a: int, b: int): int {
    if a <= b then b else a
  }

  /** Unsigned 64-bit subtraction: it wraps when b exceeds a. */
  function Sub64(a: nat, b: nat): nat {
    (a - b) % WORD
  }

  lemma Sub64Exact(a: nat, b: nat)
    requires b <= a < WORD
    ensures Sub64(a, b) == a - b
  {
  }

  /** n blocks of b, by repeated addition; the invariants only ever add one block at a time. */
  function Blocks(n: nat, b: nat): nat {
    if n == 0 then 0 else Blocks(n - 1, b) + b
  }

  lemma {:induction false} BlocksProduct(n: nat, b: nat)
    ensures Blocks(n, b) == n * b
  {
    if n > 0 {
      BlocksProduct(n - 1, b);
    }
  }

  function CeilDiv(a: nat, b: nat): nat
    requires b > 0
  {
    (a + b - 1) / b
  }

  /** q is the rounded-up quotient exactly when a lies in the q-th block of b. */
  lemma CeilDivUnique(a: nat, b: nat, q: nat)
    requires b > 0
    ensures q == CeilDiv(a, b) <==> (q - 1) * b < a <= q * b
  {
    var c := CeilDiv(a, b);
    DivBound(a + b - 1, b);
    assert (c + 1) * b == c * b + b;
    assert (c - 1) * b == c * b - b;
    assert (q - 1) * b == q * b - b;
    if q < c {
      MulMonotone(q, c - 1, b);
    } else if q > c {
      MulMonotone(c, q - 1, b);
    }
  }

  lemma MulMonotone(x: int, y: int, b: nat)
    requires x <= y
    ensures x * b <= y * b
  {
    assert (y - x) * b >= 0;
  }

  lemma MulStrict(x: int, y: int, k: nat)
    requires x < y && k > 0
    ensures k * x < k * y
  {
    assert k * (y - x) > 0;
  }

  /** The one rearrangement of products that the proofs about schedules need. */
  lemma MulRegroup(x: int, y: int, z: int)
    ensures (x * y) * z == x * (y * z) == y * (x * z)
  {
  }

  lemma DivBound(a: nat, b: nat)
    requires b > 0
    ensures a / b * b <= a < (a / b + 1) * b
  {
    assert a == a / b * b + a % b;
  }

  lemma MulCancel(x: int, y: int, b: nat)
    requires x * b < y * b
    ensures x < y
  {
    if y <= x {
      MulMonotone(y, x, b);
    }
  }
}

/** Fixed-width host integers and the bit-level arithmetic the GEMM host code relies on:
    `size_t` and `cl_ulong` are 64-bit unsigned, `cl_int` is 32-bit signed. */
module Machine {

  /** 2^64, one more than the largest `size_t`. */
  const SIZE_T_MOD: nat := 0x1_0000_0000_0000_0000
  /** `numeric_limits<size_t>::max()`. */
  const SIZE_MAX: nat := 0xFFFF_FFFF_FFFF_FFFF
  /** `numeric_limits<cl_int>::max()`. */
  const INT32_MAX: nat := 0x7FFF_FFFF

  type SizeT = x: nat | x < 0x1_0000_0000_0000_0000
  type ULong = x: nat | x < 0x1_0000_0000_0000_0000
  type Int32 = x: int | -0x8000_0000 <= x <= 0x7FFF_FFFF

  datatype Result<+T, +E> = Ok(value: T) | Err(error: E)

  /** Bitwise AND of two non-negative integers, bit by bit from the least significant. */
  function BitAnd(x: nat, y: nat): (r: nat)
    ensures r <= x && r <= y
  {
    if x == 0 || y == 0 then 0
    else 2 * BitAnd(x / 2, y / 2) + (if x % 2 == 1 && y % 2 == 1 then 1 else 0)
  }

  predicate IsPowerOfTwo(a: nat)
  {
    a == 1 || (a > 1 && a % 2 == 0 && IsPowerOfTwo(a / 2))
  }

  lemma {:induction false} BitAndSelf(y: nat)
    ensures BitAnd(y, y) == y
  {
    if y != 0 {
      BitAndSelf(y / 2);
    }
  }

  /** The C idiom `(a & (a - 1)) == 0` recognises exactly the powers of two among positive a. */
  lemma {:induction false} PowerOfTwoMaskTest(a: nat)
    requires a > 0
    ensures BitAnd(a, a - 1) == 0 <==> IsPowerOfTwo(a)
  {
    if a > 1 {
      if a % 2 == 1 {
        assert (a - 1) / 2 == a / 2;
        BitAndSelf(a / 2);
        assert BitAnd(a, a - 1) == 2 * (a / 2) + 0;
      } else {
        assert (a - 1) / 2 == a / 2 - 1;
        assert BitAnd(a, a - 1) == 2 * BitAnd(a / 2, a / 2 - 1);
        PowerOfTwoMaskTest(a / 2);
      }
    }
  }

  lemma {:induction false} PowerOfTwoProduct(a: nat, b: nat)
    requires IsPowerOfTwo(a) && IsPowerOfTwo(b)
    ensures IsPowerOfTwo(a * b)
  {
    if a > 1 {
      PowerOfTwoProduct(a / 2, b);
      var c := (a / 2) * b;
      assert a * b == 2 * c by {
        assert a == 2 * (a / 2);
      }
      assert c >= 1 by {
        assert a / 2 >= 1 && b >= 1;
      }
      assert (2 * c) / 2 == c;
    }
  }

  lemma SizeTModIsPowerOfTwo()
    ensures IsPowerOfTwo(SIZE_T_MOD)
  {
    assert IsPowerOfTwo(2);
    PowerOfTwoProduct(2, 2);
    PowerOfTwoProduct(4, 4);
    PowerOfTwoProduct(16, 16);
    PowerOfTwoProduct(256, 256);
    PowerOfTwoProduct(65536, 65536);
    PowerOfTwoProduct(0x1_0000_0000, 0x1_0000_0000);
  }

  /** A power of two m has all bits below it set in m - 1, so masking with it keeps x < m. */
  lemma {:induction false} BitAndAllOnes(x: nat, m: nat)
    requires IsPowerOfTwo(m) && x < m
    ensures BitAnd(x, m - 1) == x
  {
    if m > 1 && x > 0 {
      assert (m - 1) / 2 == m / 2 - 1;
      assert (m - 1) % 2 == 1;
      BitAndAllOnes(x / 2, m / 2);
    }
  }

  lemma HalfMod(x: nat, a: nat)
    requires a > 0 && a % 2 == 0
    ensures x % a == 2 * ((x / 2) % (a / 2)) + x % 2
  {
    var h := a / 2;
    var q := (x / 2) / h;
    var r := (x / 2) % h;
    assert x / 2 == q * h + r;
    assert x == 2 * (x / 2) + x % 2;
    assert 2 * (q * h) == q * a by {
      assert a == 2 * h;
    }
    assert x == q * a + (2 * r + x % 2);
    DivModUnique(x, a, q, 2 * r + x % 2);
  }

  lemma DivModUnique(x: nat, a: nat, q: nat, r: nat)
    requires a > 0 && r < a && x == q * a + r
    ensures x / a == q && x % a == r
  {
    var q', r' := x / a, x % a;
    assert x == q' * a + r' && r' < a;
    if q' < q {
      assert q * a == q' * a + (q - q') * a;
      MulAtLeastOne(q - q', a);
    } else if q < q' {
      assert q' * a == q * a + (q' - q) * a;
      MulAtLeastOne(q' - q, a);
    }
  }

  /** Quotient and remainder by n are determined by the value: q*n + p with p < n is unique. */
  lemma MulAddUnique(q: nat, p: nat, r: nat, k: nat, n: nat)
    requires p < n && k < n && q * n + p == r * n + k
    ensures q == r && p == k
  {
    DivModUnique(q * n + p, n, q, p);
    DivModUnique(r * n + k, n, r, k);
  }

  lemma DivModDecompose(x: nat, a: nat)
    requires a > 0
    ensures x == (x / a) * a + x % a
  {
  }

  lemma MulAtLeastOne(d: nat, a: nat)
    requires d >= 1
    ensures d * a >= a
  {
    assert d * a == a + (d - 1) * a;
  }

  /** Masking with the complement of a - 1 (a a power of two, within an m-bit word) clears the
      bits below a, that is, rounds x down to a multiple of a. */
  lemma {:induction false} BitAndClearsLowBits(x: nat, m: nat, a: nat)
    requires IsPowerOfTwo(a) && IsPowerOfTwo(m) && a <= m && x < m
    ensures BitAnd(x, m - a) == x - x % a
  {
    if a == 1 {
      BitAndAllOnes(x, m);
    } else {
      assert IsPowerOfTwo(a / 2) && a % 2 == 0;
      assert m > 1;
      assert IsPowerOfTwo(m / 2) && m % 2 == 0;
      var y := m - a;
      assert y % 2 == 0 && y / 2 == m / 2 - a / 2;
      if x == 0 {
        assert BitAnd(x, y) == 0;
      } else if y == 0 {
        DivModUnique(x, a, 0, x);
      } else {
        assert x / 2 < m / 2;
        assert BitAnd(x, y) == 2 * BitAnd(x / 2, y / 2);
        BitAndClearsLowBits(x / 2, m / 2, a / 2);
        assert BitAnd(x / 2, y / 2) == x / 2 - (x / 2) % (a / 2);
        HalfMod(x, a);
        HalfRoundDown(x, a);
      }
    }
  }

  lemma HalfRoundDown(x: nat, a: nat)
    requires a > 0 && a % 2 == 0
    requires x % a == 2 * ((x / 2) % (a / 2)) + x % 2
    ensures 2 * (x / 2 - (x / 2) % (a / 2)) == x - x % a
  {
  }

  /** Largest r with r * r <= n. */
  function FloorSqrt(n: nat): (r: nat)
    ensures r * r <= n < (r + 1) * (r + 1)
  {
    if n < 4 then (if n == 0 then 0 else 1)
    else
      var s := FloorSqrt(n / 4);
      SqrtStep(n, s);
      if (2 * s + 1) * (2 * s + 1) <= n then 2 * s + 1 else 2 * s
  }

  lemma SqrtStep(n: nat, s: nat)
    requires s * s <= n / 4 < (s + 1) * (s + 1)
    ensures (2 * s) * (2 * s) <= n < (2 * s + 2) * (2 * s + 2)
  {
    assert (2 * s) * (2 * s) == 4 * (s * s);
    assert (2 * s + 2) * (2 * s + 2) == 4 * ((s + 1) * (s + 1));
  }

  lemma MulMono(a: nat, b: nat, c: nat, d: nat)
    requires a <= b && c <= d
    ensures a * c <= b * d
  {
    assert a * c <= b * c by {
      assert b * c - a * c == (b - a) * c;
    }
    assert b * c <= b * d by {
      assert b * d - b * c == b * (d - c);
    }
  }

  /** The characterisation r*r <= n < (r+1)*(r+1) determines the square root. */
  lemma FloorSqrtUnique(n: nat, r: nat)
    requires r * r <= n < (r + 1) * (r + 1)
    ensures FloorSqrt(n) == r
  {
    var f := FloorSqrt(n);
    if f < r {
      MulMono(f + 1, r, f + 1, r);
    } else if f > r {
      MulMono(r + 1, f, r + 1, f);
    }
  }

  lemma FloorSqrtMonotone(m: nat, n: nat)
    requires m <= n
    ensures FloorSqrt(m) <= FloorSqrt(n)
  {
    var a, b := FloorSqrt(m), FloorSqrt(n);
    if a > b {
      MulMono(b + 1, a, b + 1, a);
    }
  }

  /** Bounds on a quotient carried back to the dividend. */
  lemma DivBounds(n: nat, e: nat, t: nat)
    requires e > 0
    ensures t <= n / e ==> t * e <= n
    ensures n / e < t ==> n < t * e
  {
    var q := n / e;
    assert n == q * e + n % e;
    if t <= q {
      MulMono(t, q, e, e);
    } else {
      assert q + 1 <= t;
      assert (q + 1) * e == q * e + e;
      MulMono(q + 1, t, e, e);
    }
  }

  lemma DivMonotone(a: nat, b: nat, e: nat)
    requires e > 0 && a <= b
    ensures a / e <= b / e
  {
    DivBounds(a, e, a / e);
    DivBounds(b, e, a / e);
  }

  lemma MulCancel(x: nat, y: nat, e: nat)
    requires e > 0
    ensures x * e <= y * e ==> x <= y
    ensures x * e < y * e ==> x < y
  {
    if x > y {
      assert (y + 1) * e == y * e + e;
      MulMono(y + 1, x, e, e);
    } else if x == y {
    }
  }

  /** Rounding down to a multiple of a: x - x % a is that multiple, and it is more than x - a. */
  lemma RoundDown(x: nat, a: nat)
    requires a > 0
    ensures (x - x % a) % a == 0 && x - x % a <= x < x - x % a + a
  {
    assert x == (x / a) * a + x % a;
    DivModUnique((x / a) * a, a, x / a, 0);
  }
}

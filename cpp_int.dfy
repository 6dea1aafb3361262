/**
 * The C++ integer semantics the plugin relies on: the range of a 32-bit
 * `int`, division and remainder that truncate toward zero, and the
 * two's-complement bit pattern of an `int`.
 */
module CppInt {
  const IntMin: int := -0x8000_0000
  const IntMax: int := 0x7FFF_FFFF
  const TwoTo32: int := 0x1_0000_0000

  predicate IsInt32(x: int) {
    IntMin <= x <= IntMax
  }

  function Abs(x: int): (r: nat)
    ensures r == x || r == -x
  {
    if x < 0 then -x else x
  }

  lemma DivBounds(a: nat, b: nat)
    requires b > 0
    ensures (a / b) * b <= a < (a / b + 1) * b
  {
  }

  /** `a / b` in C++: the exact quotient rounded toward zero. */
  function TruncDiv(a: int, b: int): (q: int)
    requires b != 0
    ensures Abs(q) * Abs(b) <= Abs(a) < (Abs(q) + 1) * Abs(b)
    ensures q == 0 || ((q < 0) <==> ((a < 0) != (b < 0)))
  {
    var q := Abs(a) / Abs(b);
    DivBounds(Abs(a), Abs(b));
    if (a < 0) != (b < 0) then -q else q
  }

  /** `a % b` in C++: what remains after the truncated quotient; it takes the sign of a. */
  function TruncMod(a: int, b: int): (r: int)
    requires b != 0
    ensures a == TruncDiv(a, b) * b + r
    ensures Abs(r) < Abs(b)
    ensures r == 0 || ((r < 0) <==> (a < 0))
  {
    var q := TruncDiv(a, b);
    var r := a - q * b;
    assert q * b == Abs(q) * Abs(b) || q * b == -(Abs(q) * Abs(b)) by {
      if q < 0 {
        assert q * b == -(Abs(q) * b);
      } else {
        assert q * b == Abs(q) * b;
      }
    }
    r
  }

  /** Division truncates toward zero, so it commutes with negation. */
  lemma TruncDivNegation(a: int, b: int)
    requires b != 0
    ensures TruncDiv(-a, b) == -TruncDiv(a, b)
    ensures TruncMod(-a, b) == -TruncMod(a, b)
  {
  }

  /** On non-negative operands C++ and Euclidean division agree. */
  lemma TruncDivNonNegative(a: nat, b: nat)
    requires b > 0
    ensures TruncDiv(a, b) == a / b && TruncMod(a, b) == a % b
  {
  }

  /** The two's-complement bit pattern of an `int`, read as an unsigned number. */
  function Unsigned(x: int): (u: nat)
    requires IsInt32(x)
    ensures u < TwoTo32
    ensures (u - x) % TwoTo32 == 0
  {
    if x < 0 then x + TwoTo32 else x
  }

  /** The `int` whose two's-complement bit pattern, read as an unsigned number, is u. */
  function Signed(u: nat): (x: int)
    requires u < TwoTo32
    ensures IsInt32(x)
  {
    if u > IntMax then u - TwoTo32 else u
  }

  /** The two readings of a bit pattern are inverse to each other. */
  lemma SignedUnsigned(x: int, u: nat)
    requires IsInt32(x) && u < TwoTo32
    ensures Signed(Unsigned(x)) == x
    ensures Unsigned(Signed(u)) == u
  {
  }

  function Pow2(n: nat): (r: nat)
    ensures r > 0
  {
    if n == 0 then 1 else 2 * Pow2(n - 1)
  }

  lemma Pow2Of32()
    ensures Pow2(32) == TwoTo32
  {
    assert Pow2(8) == 0x100;
    assert Pow2(16) == 0x100 * Pow2(8);
    assert Pow2(24) == 0x100 * Pow2(16);
    assert Pow2(32) == 0x100 * Pow2(24);
  }

  datatype BitOp = BitXor | BitAnd | BitOr

  function BitOf(op: BitOp, p: bool, q: bool): bool {
    match op
    case BitXor => p != q
    case BitAnd => p && q
    case BitOr => p || q
  }

  /** The low k bits of `m op n`, computed one bit at a time from the lowest. */
  function Bits(op: BitOp, m: nat, n: nat, k: nat): (r: nat)
    ensures r < Pow2(k)
  {
    if k == 0 then 0
    else (if BitOf(op, m % 2 == 1, n % 2 == 1) then 1 else 0) + 2 * Bits(op, m / 2, n / 2, k - 1)
  }

  /** `x ^ a`, `x & a` and `x | a` on `int`: the operator applied to the two's-complement bits. */
  function Bitwise(op: BitOp, x: int, a: int): (r: int)
    requires IsInt32(x) && IsInt32(a)
    ensures IsInt32(r)
  {
    Pow2Of32();
    Signed(Bits(op, Unsigned(x), Unsigned(a), 32))
  }

  /** Reduction modulo 2^32 into the `int` range, as a conversion from a wider integer does. */
  function Wrap(x: int): (r: int)
    ensures IsInt32(r)
    ensures (r - x) % TwoTo32 == 0
    ensures IsInt32(x) ==> r == x
  {
    var m := x % TwoTo32;
    if m > IntMax then m - TwoTo32 else m
  }
}

/**
 * `var_watch`: a wrapper around a reference to a variable that remembers
 * whether any write through it changed the variable's value. The model
 * fixes the watched type to `int`, as the numeric configuration items use
 * it; arithmetic that C++ leaves undefined on `int` (signed overflow,
 * division by zero, shifting by 32 or more) is excluded by `requires`.
 */
module Watch {
  import opened CppInt

  /** The watched variable: the `T&` the watch writes through. */
  class Var {
    var value: int

    constructor (v: int)
      ensures value == v
    {
      value := v;
    }
  }

  /** The compound assignment operators. */
  datatype Op = Add | Sub | Mul | Div | Rem | Shl | Shr | Xor | And | Or

  /** When `x op= a` on an `int` has a defined result. */
  predicate Defined(op: Op, x: int, a: int)
    requires IsInt32(x) && IsInt32(a)
  {
    match op
    case Add => IsInt32(x + a)
    case Sub => IsInt32(x - a)
    case Mul => IsInt32(x * a)
    case Div => a != 0 && !(x == IntMin && a == -1)
    case Rem => a != 0 && !(x == IntMin && a == -1)
    case Shl => 0 <= a < 32
    case Shr => 0 <= a < 32
    case _ => true
  }

  lemma MulAtLeast(q: nat, a: nat, k: nat)
    requires a >= k
    ensures q * a >= q * k
  {
  }

  /** `x / a` on `int` stays in range once `INT_MIN / -1` is excluded. */
  lemma QuotientInRange(x: int, a: int)
    requires IsInt32(x) && IsInt32(a) && a != 0 && !(x == IntMin && a == -1)
    ensures IsInt32(TruncDiv(x, a))
  {
    var q := TruncDiv(x, a);
    var qa, aa, xa := Abs(q), Abs(a), Abs(x);
    assert qa * aa <= xa <= -IntMin;
    MulAtLeast(qa, aa, 1);
    if qa > IntMax {
      if aa >= 2 {
        MulAtLeast(qa, aa, 2);
        assert false;
      }
      assert aa == 1 && xa == -IntMin;
      assert a == 1 && x == IntMin;
    }
  }

  /** `x >> a` on `int`: an arithmetic shift, halving a times and rounding toward minus infinity. */
  function ShiftRight(x: int, a: nat): (r: int)
    requires IsInt32(x)
    ensures IsInt32(r)
    ensures x >= 0 ==> 0 <= r <= x
    ensures x < 0 ==> x <= r < 0
  {
    if a == 0 then x else ShiftRight(x, a - 1) / 2
  }

  /**
   * The value of `x op a` on `int`: division and remainder truncate, a left
   * shift is taken modulo 2^32 and a right shift rounds toward minus
   * infinity, as C++20 defines them; the bitwise operators act on the two's
   * complement bits.
   */
  function Apply(op: Op, x: int, a: int): (r: int)
    requires IsInt32(x) && IsInt32(a) && Defined(op, x, a)
    ensures IsInt32(r)
  {
    match op
    case Add => x + a
    case Sub => x - a
    case Mul => x * a
    case Div => QuotientInRange(x, a); TruncDiv(x, a)
    case Rem => TruncMod(x, a)
    case Shl => Wrap(x * Pow2(a))
    case Shr => ShiftRight(x, a)
    case Xor => Bitwise(BitXor, x, a)
    case And => Bitwise(BitAnd, x, a)
    case Or => Bitwise(BitOr, x, a)
  }

  class VarWatch {
    const ref: Var
    var modified: bool

    /** `var_watch(var)`: a fresh watch reports no change. */
    constructor (v: Var)
      ensures ref == v && !modified
    {
      ref := v;
      modified := false;
    }

    /** `changed()`. */
    method Changed() returns (b: bool)
      ensures b == modified
    {
      b := modified;
    }

    /** `reset()`: forgets earlier changes and leaves the variable alone. */
    method Reset()
      modifies this
      ensures !modified
    {
      modified := false;
    }

    /** `value()`, and equally `operator*`: a read that leaves the flag alone. */
    method Value() returns (v: int)
      ensures v == ref.value
    {
      v := ref.value;
    }

    /** `operator=`: stores the value; the flag is set when it differs from the old one. */
    method Assign(val: int)
      modifies this, ref
      ensures ref.value == val
      ensures modified == (old(modified) || val != old(ref.value))
    {
      var prev := ref.value;
      ref.value := val;
      if prev != ref.value {
        modified := true;
      }
    }

    /** Prefix `++`; the watch itself is what it returns. */
    method PreIncrement()
      requires IsInt32(ref.value + 1)
      modifies this, ref
      ensures ref.value == old(ref.value) + 1
      ensures modified
    {
      var prev := ref.value;
      ref.value := ref.value + 1;
      if prev != ref.value {
        modified := true;
      }
    }

    /** Prefix `--`. */
    method PreDecrement()
      requires IsInt32(ref.value - 1)
      modifies this, ref
      ensures ref.value == old(ref.value) - 1
      ensures modified
    {
      var prev := ref.value;
      ref.value := ref.value - 1;
      if prev != ref.value {
        modified := true;
      }
    }

    /** Postfix `++`: returns the value before the increment. */
    method PostIncrement() returns (result: int)
      requires IsInt32(ref.value + 1)
      modifies this, ref
      ensures result == old(ref.value)
      ensures ref.value == old(ref.value) + 1
      ensures modified
    {
      var prev := ref.value;
      result := ref.value;
      ref.value := ref.value + 1;
      if prev != ref.value {
        modified := true;
      }
    }

    /** Postfix `--`: returns the value before the decrement. */
    method PostDecrement() returns (result: int)
      requires IsInt32(ref.value - 1)
      modifies this, ref
      ensures result == old(ref.value)
      ensures ref.value == old(ref.value) - 1
      ensures modified
    {
      var prev := ref.value;
      result := ref.value;
      ref.value := ref.value - 1;
      if prev != ref.value {
        modified := true;
      }
    }

    /**
     * The compound assignments `+=` … `|=`: the variable takes the value of
     * `old op arg`, and the flag is set when that differs from the old value.
     */
    method Compound(op: Op, arg: int)
      requires IsInt32(ref.value) && IsInt32(arg) && Defined(op, ref.value, arg)
      modifies this, ref
      ensures ref.value == Apply(op, old(ref.value), arg)
      ensures modified == (old(modified) || ref.value != old(ref.value))
    {
      var prev := ref.value;
      ref.value := Apply(op, ref.value, arg);
      if prev != ref.value {
        modified := true;
      }
    }
  }

  /** `-=` undoes `+=`. */
  lemma AddThenSubtract(x: int, a: int)
    requires IsInt32(x) && IsInt32(a) && Defined(Add, x, a)
    ensures Defined(Sub, Apply(Add, x, a), a) && Apply(Sub, Apply(Add, x, a), a) == x
  {
  }

  lemma MulMonotone(b: nat, c: nat, a: nat)
    requires b <= c
    ensures b * a <= c * a
  {
  }

  /** `/=` undoes `*=` by a non-zero factor, when the product may be divided. */
  lemma MultiplyThenDivide(x: int, a: int)
    requires IsInt32(x) && IsInt32(a) && Defined(Mul, x, a) && a != 0 && !(x * a == IntMin && a == -1)
    ensures Defined(Div, Apply(Mul, x, a), a) && Apply(Div, Apply(Mul, x, a), a) == x
  {
    var p := x * a;
    var q := TruncDiv(p, a);
    var qa, aa, xa := Abs(q), Abs(a), Abs(x);
    assert Abs(p) == xa * aa;
    assert qa * aa <= xa * aa < (qa + 1) * aa;
    if qa < xa {
      MulMonotone(qa + 1, xa, aa);
    } else if qa > xa {
      MulMonotone(xa + 1, qa, aa);
    }
    assert qa == xa;
    if x != 0 {
      assert (p < 0) == ((x < 0) != (a < 0));
    }
  }

  lemma {:induction false} XorTwiceBits(m: nat, n: nat, k: nat)
    requires m < Pow2(k)
    ensures Bits(BitXor, Bits(BitXor, m, n, k), n, k) == m
  {
    if k > 0 {
      var r := Bits(BitXor, m, n, k);
      XorTwiceBits(m / 2, n / 2, k - 1);
      assert r % 2 == (if (m % 2 == 1) != (n % 2 == 1) then 1 else 0);
      assert r / 2 == Bits(BitXor, m / 2, n / 2, k - 1);
    }
  }

  /** `^=` with the same argument twice gives the value back. */
  lemma XorTwice(x: int, a: int)
    requires IsInt32(x) && IsInt32(a)
    ensures Apply(Xor, Apply(Xor, x, a), a) == x
  {
    Pow2Of32();
    var b := Bits(BitXor, Unsigned(x), Unsigned(a), 32);
    SignedUnsigned(x, b);
    XorTwiceBits(Unsigned(x), Unsigned(a), 32);
  }

  /**
   * Arguments that leave the value as it is: adding or subtracting 0,
   * multiplying or dividing by 1, shifting by 0. A compound assignment with
   * one of these leaves the change flag as it was.
   */
  lemma NeutralArithmetic(x: int)
    requires IsInt32(x)
    ensures Apply(Add, x, 0) == x && Apply(Sub, x, 0) == x
    ensures Apply(Mul, x, 1) == x && Apply(Div, x, 1) == x
    ensures Apply(Shl, x, 0) == x && Apply(Shr, x, 0) == x
  {
    var q := TruncDiv(x, 1);
    assert Abs(q) * 1 <= Abs(x) < (Abs(q) + 1) * 1;
  }

  lemma {:induction false} NeutralBits(m: nat, k: nat)
    requires m < Pow2(k)
    ensures Bits(BitOr, m, 0, k) == m && Bits(BitXor, m, 0, k) == m
    ensures Bits(BitAnd, m, Pow2(k) - 1, k) == m
  {
    if k > 0 {
      NeutralBits(m / 2, k - 1);
      assert (Pow2(k) - 1) % 2 == 1 && (Pow2(k) - 1) / 2 == Pow2(k - 1) - 1;
    }
  }

  /** Or-ing or xor-ing 0 and and-ing all ones leave the value as it is. */
  lemma NeutralBitwise(x: int)
    requires IsInt32(x)
    ensures Apply(Or, x, 0) == x && Apply(Xor, x, 0) == x && Apply(And, x, -1) == x
  {
    Pow2Of32();
    SignedUnsigned(x, 0);
    NeutralBits(Unsigned(x), 32);
  }
}

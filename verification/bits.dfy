/** Go's unsigned bit operations on non-negative integers: `&` defined bit by
    bit, `<<` and `>>` as repeated doubling and halving, and the `uint8`
    conversion, which keeps the low eight bits. */
module Bits {

  function Pow2(k: nat): (p: nat)
    ensures p > 0
  {
    if k == 0 then 1 else 2 * Pow2(k - 1)
  }
  /** `a & b`, one bit at a time from the least significant end. */
  function BitAnd(a: nat, b: nat): nat
  {
    if a == 0 || b == 0 then 0
    else 2 * BitAnd(a / 2, b / 2) + (if a % 2 == 1 && b % 2 == 1 then 1 else 0)
  }
  /** `a << k`. */
  function Shl(a: nat, k: nat): nat
  {
    if k == 0 then a else 2 * Shl(a, k - 1)
  }
  /** `a >> k`. */
  function Shr(a: nat, k: nat): nat
  {
    if k == 0 then a else Shr(a / 2, k - 1)
  }
  /** `k` one bits: `1<<k - 1`. */
  function Ones(k: nat): nat
  {
    if k == 0 then 0 else 2 * Ones(k - 1) + 1
  }
  /** The low `k` bits of `a`, bit by bit. */
  function LowBits(a: nat, k: nat): nat
  {
    if k == 0 then 0 else 2 * LowBits(a / 2, k - 1) + a % 2
  }
  lemma MulMonotone(x: nat, y: nat, d: nat)
    requires x <= y
    ensures x * d <= y * d
  {
    assert y * d == x * d + (y - x) * d;
  }
  /** Division is determined by the quotient-remainder decomposition. */
  lemma DivModUnique(a: nat, d: nat, q: nat, r: nat)
    requires d > 0 && r < d && a == q * d + r
    ensures a / d == q && a % d == r
  {
    var q', r' := a / d, a % d;
    assert a == q' * d + r';
    if q' > q {
      MulMonotone(q + 1, q', d);
    } else if q' < q {
      MulMonotone(q' + 1, q, d);
    }
  }
  /** Dividing by `2p` is halving, then dividing by `p`. */
  lemma HalveThenDivide(a: nat, p: nat)
    requires p > 0
    ensures a / (2 * p) == (a / 2) / p
    ensures a % (2 * p) == 2 * ((a / 2) % p) + a % 2
  {
    var q, r := (a / 2) / p, (a / 2) % p;
    assert a / 2 == q * p + r;
    assert a == q * (2 * p) + (2 * r + a % 2);
    DivModUnique(a, 2 * p, q, 2 * r + a % 2);
  }
  /** `a >> k` is `a / 2^k`. */
  lemma {:induction false} ShrIsDivision(a: nat, k: nat)
    ensures Shr(a, k) == a / Pow2(k)
  {
    if k > 0 {
      ShrIsDivision(a / 2, k - 1);
      HalveThenDivide(a, Pow2(k - 1));
    }
  }
  /** The low `k` bits are the remainder modulo `2^k`. */
  lemma {:induction false} LowBitsIsRemainder(a: nat, k: nat)
    ensures LowBits(a, k) == a % Pow2(k)
  {
    if k > 0 {
      LowBitsIsRemainder(a / 2, k - 1);
      HalveThenDivide(a, Pow2(k - 1));
    }
  }
  /** Masking with `k` one bits keeps the low `k` bits. */
  lemma {:induction false} AndOnes(a: nat, k: nat)
    ensures BitAnd(a, Ones(k)) == LowBits(a, k)
  {
    if k > 0 {
      AndOnes(a / 2, k - 1);
      var b := Ones(k);
      assert b / 2 == Ones(k - 1) && b % 2 == 1;
    }
  }
  /** Masking with `m << j` is masking `a >> j` with `m`, shifted back up. */
  lemma {:induction false} AndShifted(a: nat, m: nat, j: nat)
    ensures BitAnd(a, Shl(m, j)) == Shl(BitAnd(Shr(a, j), m), j)
  {
    if j > 0 {
      AndShifted(a / 2, m, j - 1);
      var b := Shl(m, j);
      assert b / 2 == Shl(m, j - 1) && b % 2 == 0;
      if a == 0 {
        ShrOfZero(j);
        ShlOfZero(j);
      }
    }
  }
  lemma {:induction false} ShrOfZero(j: nat)
    ensures Shr(0, j) == 0
  {
    if j > 0 { ShrOfZero(j - 1); }
  }
  lemma {:induction false} ShlOfZero(j: nat)
    ensures Shl(0, j) == 0
  {
    if j > 0 { ShlOfZero(j - 1); }
  }
  /** `>> j` undoes `<< j`. */
  lemma {:induction false} ShrShl(a: nat, j: nat)
    ensures Shr(Shl(a, j), j) == a
  {
    if j > 0 {
      ShrShl(a, j - 1);
      ShrShlOne(Shl(a, j - 1), j - 1);
    }
  }
  lemma ShrShlOne(b: nat, j: nat)
    ensures Shr(2 * b, j + 1) == Shr(b, j)
  {
  }

  /** `uint8(a)`: truncation to the low eight bits. */
  function Uint8(a: nat): (r: nat)
    ensures r < 256
    ensures a < 256 ==> r == a
  {
    a % 256
  }

  /** `(a & (m << j)) >> j` is `(a >> j) & m`. */
  lemma MaskThenShift(a: nat, m: nat, j: nat)
    ensures Shr(BitAnd(a, Shl(m, j)), j) == BitAnd(Shr(a, j), m)
  {
    AndShifted(a, m, j);
    ShrShl(BitAnd(Shr(a, j), m), j);
  }

  /** `uint8(x & 0xff)` is `x % 256`. */
  lemma LowByte(x: nat)
    ensures Uint8(BitAnd(x, Ones(8))) == x % 256
  {
    AndOnes(x, 8);
    LowBitsIsRemainder(x, 8);
    var p := Pow2(8);
    assert p == 256;
    var low := BitAnd(x, Ones(8));
    assert low == x % 256;
  }

  /** `uint8((a & (0xff << j)) >> j)` is the byte of `a` starting at bit `j`. */
  lemma ByteAt(a: nat, j: nat)
    ensures Uint8(Shr(BitAnd(a, Shl(Ones(8), j)), j)) == (a / Pow2(j)) % 256
  {
    MaskThenShift(a, Ones(8), j);
    LowByte(Shr(a, j));
    ShrIsDivision(a, j);
  }
}

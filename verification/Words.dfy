/** The machine words the tables compute with: `u32` and `i32` values as
    integers, their bitwise operators written out bit by bit, and what the
    operators amount to for the masks and shifts the tables use. */
module Words {
  const U32_SIZE: int := 0x1_0000_0000

  type u32 = x: int | 0 <= x < 0x1_0000_0000
  type i32 = x: int | -0x8000_0000 <= x < 0x8000_0000
  type byte = x: int | 0 <= x < 0x100

  datatype Option<T> = None | Some(value: T)

  /** What a call that may panic did. A panic ends the program. */
  datatype Outcome = Done | Panicked

  function Max(a: int, b: int): int {
    if a >= b then a else b
  }

  /** Signed `+` and `*` panic on a result that is no `i32`. */
  predicate IsI32(x: int) {
    -0x8000_0000 <= x < 0x8000_0000
  }

  /** `toU32` of an `i32`: the same bits read as unsigned. */
  function ToU32(x: int): u32 {
    x % U32_SIZE
  }

  /** `toI32` of a `u32`: the same bits read as signed. */
  function ToI32(x: u32): i32 {
    if x < 0x8000_0000 then x else x - U32_SIZE
  }

  /** A wrapping sum is the sum, wrapped. */
  lemma WrapAdd(x: int, y: int)
    ensures ToU32(ToU32(x) + ToU32(y)) == ToU32(x + y)
  {
  }

  /** `x & m` for a mask `m >= 0`; `x` may be negative, in two's complement. */
  function And(x: int, m: nat): (r: nat)
    ensures r <= m
    decreases m
  {
    if m == 0 then 0 else (x % 2) * (m % 2) + 2 * And(x / 2, m / 2)
  }

  function Or(x: nat, y: nat): nat
    decreases x + y
  {
    if x == 0 then y
    else if y == 0 then x
    else (if x % 2 + y % 2 > 0 then 1 else 0) + 2 * Or(x / 2, y / 2)
  }

  function Exp2(k: nat): (r: nat)
    ensures r > 0
  {
    if k == 0 then 1 else 2 * Exp2(k - 1)
  }

  /** The low `width` bits of `x ^ y`. */
  function Xor(x: nat, y: nat, width: nat): (r: nat)
    ensures r < Exp2(width)
  {
    if width == 0 then 0
    else (if x % 2 != y % 2 then 1 else 0) + 2 * Xor(x / 2, y / 2, width - 1)
  }

  lemma Exp2Of32()
    ensures Exp2(8) == 0x100 && Exp2(24) == 0x100_0000 && Exp2(32) == U32_SIZE
  {
    assert Exp2(8) == 0x100;
    assert Exp2(16) == 0x1_0000;
    assert Exp2(24) == 0x100_0000;
    assert Exp2(32) == U32_SIZE;
  }

  // ---- Bits ----

  /** Bit `k` of `x` is set. */
  predicate Bit(x: nat, k: nat) {
    x / Exp2(k) % 2 == 1
  }

  lemma MulSpread(d: int, n: int)
    requires n > 0
    ensures d >= 1 ==> d * n >= n
    ensures d <= -1 ==> d * n <= -n
  {
  }

  lemma ModUnique(x: int, q: int, r: int, n: int)
    requires 0 <= r < n && x == q * n + r
    ensures x % n == r
  {
    assert x == x / n * n + x % n;
    assert (q - x / n) * n == x % n - r;
    MulSpread(q - x / n, n);
  }

  lemma DivTwice(x: nat, e: nat)
    requires e > 0
    ensures x / (2 * e) == x / 2 / e
  {
    var q, r := x / 2 / e, x / 2 % e;
    assert x == 2 * (q * e + r) + x % 2;
    assert 2 * (q * e) == q * (2 * e);
    ModUnique(x, q, 2 * r + x % 2, 2 * e);
    assert x == x / (2 * e) * (2 * e) + x % (2 * e);
    MulSpread(x / (2 * e) - q, 2 * e);
  }

  lemma BitStep(x: nat, k: nat)
    ensures Bit(x, 0) <==> x % 2 == 1
    ensures Bit(x, k + 1) <==> Bit(x / 2, k)
  {
    assert Exp2(0) == 1;
    DivTwice(x, Exp2(k));
  }

  /** `x ^ y`, bit by bit. */
  lemma {:induction false} XorBits(x: nat, y: nat, width: nat, k: nat)
    requires k < width
    ensures Bit(Xor(x, y, width), k) <==> Bit(x, k) != Bit(y, k)
  {
    hide Bit;
    var r := Xor(x, y, width);
    BitStep(x, if k > 0 then k - 1 else 0);
    BitStep(y, if k > 0 then k - 1 else 0);
    BitStep(r, if k > 0 then k - 1 else 0);
    if k > 0 {
      XorBits(x / 2, y / 2, width - 1, k - 1);
    }
  }

  lemma HalfMod(x: int, h: int)
    requires h > 0
    ensures x % (2 * h) == x % 2 + 2 * ((x / 2) % h)
  {
    var q, r := (x / 2) / h, (x / 2) % h;
    assert x == 2 * (q * h + r) + x % 2;
    assert 2 * (q * h) == q * (2 * h);
    ModUnique(x, q, 2 * r + x % 2, 2 * h);
  }

  lemma ExpTwice(k: nat)
    ensures k > 0 ==> Exp2(k) == 2 * Exp2(k - 1)
  {
  }

  lemma ModHalves(x: nat, width: nat)
    requires width > 0
    ensures x % Exp2(width) % 2 == x % 2 && x % Exp2(width) / 2 == x / 2 % Exp2(width - 1)
  {
    hide Exp2;
    ExpTwice(width);
    HalfMod(x, Exp2(width - 1));
  }

  /** `x << n` in `width` bits: bit `k` comes from bit `k - n`, and the low ones are clear. */
  lemma {:induction false} ShiftLeftBits(x: nat, n: nat, width: nat, k: nat)
    requires k < width
    ensures Bit(x * Exp2(n) % Exp2(width), k) <==> k >= n && Bit(x, k - n)
    decreases n + k
  {
    hide Bit;
    var y := x * Exp2(n);
    ModHalves(y, width);
    var j := if k > 0 then k - 1 else 0;
    BitStep(y % Exp2(width), j);
    if n == 0 {
      assert y == x;
      BitStep(x, j);
      if k > 0 {
        ShiftLeftBits(x / 2, 0, width - 1, k - 1);
        assert x / 2 * Exp2(0) == x / 2;
      }
    } else {
      assert y == 2 * (x * Exp2(n - 1));
      if k > 0 {
        ShiftLeftBits(x, n - 1, width - 1, k - 1);
      }
    }
  }

  /** `x >>> n`. */
  function ShiftRight(x: nat, n: nat): nat {
    if n == 0 then x else ShiftRight(x / 2, n - 1)
  }

  lemma {:induction false} ShiftRightDivides(x: nat, n: nat)
    ensures ShiftRight(x, n) == x / Exp2(n)
  {
    if n > 0 {
      ShiftRightDivides(x / 2, n - 1);
      DivTwice(x, Exp2(n - 1));
    }
  }

  /** `x >>> n`: bit `k` comes from bit `k + n`. */
  lemma {:induction false} ShiftRightBits(x: nat, n: nat, k: nat)
    ensures Bit(ShiftRight(x, n), k) <==> Bit(x, k + n)
  {
    hide Bit;
    if n > 0 {
      ShiftRightBits(x / 2, n - 1, k);
      BitStep(x, k + n - 1);
    }
  }

  predicate Pow2(n: nat) {
    n == 1 || (n > 1 && n % 2 == 0 && Pow2(n / 2))
  }

  /** Two powers of two less than a factor of two apart are equal or in order. */
  lemma {:induction false} Pow2Gap(n: nat, m: nat)
    requires Pow2(n) && Pow2(m) && n < 2 * m
    ensures n <= m
  {
    if m > 1 && n > 1 {
      Pow2Gap(n / 2, m / 2);
    }
  }

  /** Masking with a power of two less one is the remainder, of negative numbers too. */
  lemma {:induction false} AndMask(x: int, n: nat)
    requires Pow2(n)
    ensures And(x, n - 1) == x % n
    decreases n
  {
    if n > 1 {
      var h := n / 2;
      assert n == 2 * h && (n - 1) / 2 == h - 1 && (n - 1) % 2 == 1;
      AndMask(x / 2, h);
      HalfMod(x, h);
    }
  }

  /** Words with no bits in common are joined by adding them. */
  lemma {:induction false} OrDisjoint(a: nat, b: nat, k: nat)
    requires b < Exp2(k)
    ensures Or(a * Exp2(k), b) == a * Exp2(k) + b
  {
    if k > 0 && a > 0 {
      var x := a * Exp2(k);
      assert x == 2 * (a * Exp2(k - 1));
      assert x / 2 == a * Exp2(k - 1) && x % 2 == 0;
      OrDisjoint(a, b / 2, k - 1);
      assert a * Exp2(k - 1) > 0;
    }
  }
}

/** Integer helpers of src/common/Math.{h,cpp}: bit tricks stated on naturals. */
module DawnMath {

  function Pow2(k: nat): (r: nat)
    ensures r >= 1
  {
    if k == 0 then 1 else 2 * Pow2(k - 1)
  }

  /** Floor logarithm: the index of the highest set bit. */
  function Log2(v: nat): (r: nat)
    requires v != 0
    ensures Pow2(r) <= v < Pow2(r + 1)
  {
    if v <= 1 then 0 else 1 + Log2(v / 2)
  }

  /** Bitwise and of two naturals. */
  function BitAnd(x: nat, y: nat): nat {
    if x == 0 || y == 0 then 0 else (x % 2) * (y % 2) + 2 * BitAnd(x / 2, y / 2)
  }

  predicate IsPowerOfTwo(n: nat)
    requires n != 0
  {
    BitAnd(n, n - 1) == 0
  }

  function NextPowerOfTwo(n: nat): nat {
    if n <= 1 then 1 else Pow2(Log2(n - 1) + 1)
  }

  /** `(value + (alignment - 1)) & ~(alignment - 1)` in words of `width` bits. */
  function AlignBits(width: nat, value: nat, alignment: nat): nat
    requires 1 <= alignment <= Pow2(width)
  {
    BitAnd(value + (alignment - 1), Pow2(width) - 1 - (alignment - 1))
  }

  /** The least multiple of `alignment` that is not below `value`. */
  function Align(value: nat, alignment: nat): nat
    requires alignment >= 1
  {
    value + (0 - value) % alignment
  }

  lemma {:induction false} Pow2Monotone(a: nat, b: nat)
    requires a <= b
    ensures Pow2(a) <= Pow2(b)
    ensures a < b ==> 2 * Pow2(a) <= Pow2(b)
    decreases b
  {
    if a < b { Pow2Monotone(a, b - 1); }
  }

  lemma {:induction false} Pow2Add(a: nat, b: nat)
    ensures Pow2(a + b) == Pow2(a) * Pow2(b)
  {
    if a > 0 { Pow2Add(a - 1, b); }
  }

  lemma Pow2At64()
    ensures Pow2(16) == 0x1_0000 && Pow2(32) == 0x1_0000_0000 && Pow2(64) == 0x1_0000_0000_0000_0000
  {
    assert Pow2(8) == 256;
    Pow2Add(8, 8);
    Pow2Add(16, 16);
    Pow2Add(32, 32);
  }

  lemma {:induction false} Pow2Log2(k: nat)
    ensures Log2(Pow2(k)) == k
  {
    if k > 0 { Pow2Log2(k - 1); }
  }

  lemma BitAndBelow(h: nat)
    requires h >= 1
    ensures BitAnd(2 * h, 2 * h - 1) == 2 * BitAnd(h, h - 1)
    ensures BitAnd(2 * h + 1, 2 * h) == 2 * BitAnd(h, h)
  {
    assert (2 * h - 1) / 2 == h - 1 && 2 * h / 2 == h && (2 * h + 1) / 2 == h;
    assert 2 * h % 2 == 0 && (2 * h + 1) % 2 == 1;
  }

  /** The bit trick recognises exactly the powers of two. */
  lemma {:induction false} BitAndZeroPowerOfTwo(n: nat)
    requires n != 0
    ensures IsPowerOfTwo(n) <==> n == Pow2(Log2(n))
  {
    if n > 1 {
      var h := n / 2;
      BitAndBelow(h);
      assert Log2(n) == 1 + Log2(h);
      assert Pow2(1 + Log2(h)) == 2 * Pow2(Log2(h));
      if n == 2 * h {
        BitAndZeroPowerOfTwo(h);
      } else {
        BitAndSelf(h);
      }
    }
  }

  lemma {:induction false} BitAndSelf(n: nat)
    ensures BitAnd(n, n) == n
  {
    if n != 0 { BitAndSelf(n / 2); }
  }

  /** NextPowerOfTwo is the least power of two that is not below its argument. */
  lemma NextPowerOfTwoIsLeast(n: nat, k: nat)
    ensures n <= NextPowerOfTwo(n)
    ensures exists j :: NextPowerOfTwo(n) == Pow2(j)
    ensures n <= Pow2(k) ==> NextPowerOfTwo(n) <= Pow2(k)
  {
    if n <= 1 {
      assert NextPowerOfTwo(n) == Pow2(0);
    } else {
      var j := Log2(n - 1);
      assert NextPowerOfTwo(n) == Pow2(j + 1);
      if n <= Pow2(k) {
        if k <= j { Pow2Monotone(k, j); }
        Pow2Monotone(j + 1, k);
      }
    }
  }

  /** Clearing the low k bits of a w-bit word rounds down to a multiple of Pow2(k). */
  lemma {:induction false} BitAndHighMask(width: nat, x: nat, k: nat)
    requires k <= width
    requires x < Pow2(width)
    ensures Pow2(k) <= Pow2(width)
    ensures BitAnd(x, Pow2(width) - Pow2(k)) == x / Pow2(k) * Pow2(k)
  {
    Pow2Monotone(k, width);
    if k == width {
      SmallDiv(x, Pow2(k));
    } else if k == 0 {
      BitAndAllOnes(width, x);
    } else {
      BitAndHighMask(width - 1, x / 2, k - 1);
      Pow2Monotone(k - 1, width - 1);
      BitAndDoubled(x, Pow2(width - 1) - Pow2(k - 1));
      HalfDiv(x, Pow2(k - 1));
      DoubleProduct(x / 2 / Pow2(k - 1), Pow2(k - 1));
    }
  }

  lemma BitAndDoubled(x: nat, h: nat)
    ensures BitAnd(x, 2 * h) == 2 * BitAnd(x / 2, h)
  {
    if x != 0 && h != 0 { assert 2 * h / 2 == h && 2 * h % 2 == 0; }
  }

  lemma DoubleProduct(q: nat, d: nat)
    ensures 2 * (q * d) == q * (2 * d)
  {
  }

  lemma SmallDiv(x: nat, d: nat)
    requires x < d
    ensures x / d * d == 0
  {
    assert x / d == 0;
  }

  lemma HalfDiv(x: nat, d: nat)
    requires d >= 1
    ensures x / (2 * d) == x / 2 / d
  {
    var q := x / (2 * d);
    var r := x % (2 * d);
    assert x == 2 * d * q + r;
    assert x / 2 == d * q + r / 2;
    DivUnique(x / 2, d, q, r / 2);
  }

  lemma DivUnique(x: int, d: int, q: int, r: int)
    requires x == d * q + r && 0 <= r < d
    ensures x / d == q && x % d == r
  {
    var q', r' := x / d, x % d;
    assert x == d * q' + r';
    assert d * (q - q') == r' - r;
    ProductGap(d, q - q');
  }

  lemma ProductGap(d: int, t: int)
    requires d >= 1
    ensures t >= 1 ==> d * t >= d
    ensures t <= -1 ==> d * t <= -d
  {
  }

  lemma {:induction false} BitAndAllOnes(width: nat, x: nat)
    requires x < Pow2(width)
    ensures BitAnd(x, Pow2(width) - 1) == x
  {
    if x != 0 { BitAndAllOnes(width - 1, x / 2); }
  }

  /** The bit trick computes the least aligned value that is not below `value`. */
  lemma AlignBitsIsAlign(width: nat, value: nat, alignment: nat)
    requires alignment != 0 && IsPowerOfTwo(alignment)
    requires value + (alignment - 1) < Pow2(width)
    ensures alignment <= Pow2(width)
    ensures AlignBits(width, value, alignment) == Align(value, alignment)
  {
    BitAndZeroPowerOfTwo(alignment);
    var k := Log2(alignment);
    if k > width { Pow2Monotone(width, k); }
    Pow2Monotone(k, width);
    BitAndHighMask(width, value + (alignment - 1), k);
    AlignByDivision(value, alignment);
  }

  lemma AlignByDivision(value: nat, alignment: nat)
    requires alignment >= 1
    ensures Align(value, alignment) == (value + (alignment - 1)) / alignment * alignment
  {
    var x := value + (alignment - 1);
    var q, r := x / alignment, x % alignment;
    assert x == alignment * q + r;
    DivUnique(0 - value, alignment, -q, alignment - 1 - r);
  }

  lemma AlignIsLeast(value: nat, alignment: nat)
    requires alignment >= 1
    ensures value <= Align(value, alignment) < value + alignment
    ensures Align(value, alignment) % alignment == 0
    ensures forall m: nat :: m % alignment == 0 && value <= m ==> Align(value, alignment) <= m
  {
    var q := (0 - value) / alignment;
    assert 0 - value == alignment * q + (0 - value) % alignment;
    var x := Align(value, alignment);
    MultipleMod(-q, alignment);
    assert x == -q * alignment;
    forall m: nat | m % alignment == 0 && value <= m
      ensures x <= m
    {
      NoMultipleBetween(x, m, alignment);
    }
  }

  /** Two multiples of d that are less than d apart are equal. */
  lemma NoMultipleBetween(x: int, y: int, d: int)
    requires d >= 1 && x % d == 0 && y % d == 0
    ensures x < y + d ==> x <= y
  {
    var p, q := x / d, y / d;
    assert x == d * p && y == d * q;
    assert x - y == d * (p - q);
    ProductGap(d, p - q);
  }

  lemma MultipleMod(q: int, d: int)
    requires d >= 1
    ensures q * d % d == 0
  {
    DivUnique(q * d, d, q, 0);
  }

  lemma ModTransitive(x: nat, y: nat, z: nat)
    requires y >= 1 && z >= 1 && x % y == 0 && y % z == 0
    ensures x % z == 0
  {
    var p, q := x / y, y / z;
    assert x == y * p && y == z * q;
    assert x == (p * q) * z;
    MultipleMod(p * q, z);
  }

  lemma ModSum(x: int, y: int, d: int)
    requires d >= 1 && x % d == 0 && y % d == 0
    ensures (x + y) % d == 0
    ensures (x - y) % d == 0
  {
    var p, q := x / d, y / d;
    assert x == p * d && y == q * d;
    assert x + y == (p + q) * d;
    assert x - y == (p - q) * d;
    MultipleMod(p + q, d);
    MultipleMod(p - q, d);
  }

  lemma {:induction false} Pow2Divides(a: nat, b: nat)
    requires a <= b
    ensures Pow2(b) % Pow2(a) == 0
    decreases b
  {
    if a == b {
      DivUnique(Pow2(a), Pow2(a), 1, 0);
    } else {
      Pow2Divides(a, b - 1);
      ModSum(Pow2(b - 1), Pow2(b - 1), Pow2(a));
    }
  }

  lemma MulMonotone(a: int, b: int, c: int, d: int)
    requires 0 <= a <= b && 0 <= c <= d
    ensures 0 <= a * c <= b * d
  {
    assert b * d - a * c == (b - a) * c + b * (d - c);
  }

  lemma SmallMod(x: int, m: int)
    requires 0 <= x < m
    ensures x % m == x
  {
  }

  /** Digits: a number below d * n has a quotient below n. */
  lemma DivBelow(x: nat, d: nat, n: nat)
    requires d >= 1 && x < d * n
    ensures x / d < n && x == x / d * d + x % d && x % d < d
  {
    if x / d >= n { MulMonotone(d, d, n, x / d); }
  }
}

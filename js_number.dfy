/**
 * The few pieces of JavaScript number semantics the client relies on,
 * written out over unbounded integers: the ToInt32 conversion behind `|0`
 * and `<<`, the truncating remainder `%`, and strings as sequences of
 * UTF-16 code units.
 */
module JsNumber {

  const TWO_32: int := 0x1_0000_0000
  const TWO_31: int := 0x8000_0000

  /** A UTF-16 code unit, what `charCodeAt` and `length` work with. */
  type CodeUnit = c: int | 0 <= c < 0x1_0000

  /** A JavaScript string: a sequence of UTF-16 code units. */
  type JsString = seq<CodeUnit>

  predicate IsInt32(x: int) {
    -TWO_31 <= x < TWO_31
  }

  /** ToInt32: reduce modulo 2^32 and read the result as a signed 32-bit value. */
  function ToInt32(x: int): (r: int)
    ensures IsInt32(r)
    ensures (x - r) % TWO_32 == 0
  {
    var u := x % TWO_32;
    if u < TWO_31 then u else u - TWO_32
  }

  /** ToInt32 is determined by the residue: any 32-bit value congruent to x is ToInt32(x). */
  lemma ToInt32Unique(x: int, y: int)
    requires IsInt32(y)
    requires (x - y) % TWO_32 == 0
    ensures ToInt32(x) == y
  {
    var q := (x - y) / TWO_32;
    assert x == q * TWO_32 + y;
    if y >= 0 {
      ModOfMultiplePlus(q, y);
    } else {
      ModOfMultiplePlus(q - 1, y + TWO_32);
      assert x == (q - 1) * TWO_32 + (y + TWO_32);
    }
  }

  lemma ModOfMultiplePlus(q: int, r: int)
    requires 0 <= r < TWO_32
    ensures (q * TWO_32 + r) % TWO_32 == r
  {
  }

  /** Adding a multiple of 2^32 does not change ToInt32. */
  lemma ToInt32AddMultiple(x: int, k: int)
    ensures ToInt32(x + k * TWO_32) == ToInt32(x)
  {
    var y := ToInt32(x);
    var q := (x - y) / TWO_32;
    assert x - y == q * TWO_32;
    assert x + k * TWO_32 - y == (q + k) * TWO_32;
    ToInt32Unique(x + k * TWO_32, y);
  }

  /** Values already in the signed 32-bit range are left alone. */
  lemma ToInt32OfInt32(x: int)
    requires IsInt32(x)
    ensures ToInt32(x) == x
  {
    ToInt32Unique(x, x);
  }

  function Pow2(n: nat): (r: nat)
    ensures r >= 1
  {
    if n == 0 then 1 else 2 * Pow2(n - 1)
  }

  /**
   * `x << n`: both operands are converted (the count to its low five bits),
   * and the product is read back as a signed 32-bit value.
   */
  function ShiftLeft(x: int, n: nat): (r: int)
    ensures IsInt32(r)
    ensures (r - x * Pow2(n % 32)) % TWO_32 == 0
  {
    var a := ToInt32(x);
    var k := Pow2(n % 32);
    ShiftCongruent(x, a, k);
    ToInt32(a * k)
  }

  /** Scaling a value congruent to x gives, once reduced, a value congruent to x scaled. */
  lemma ShiftCongruent(x: int, a: int, k: int)
    requires (x - a) % TWO_32 == 0
    ensures (ToInt32(a * k) - x * k) % TWO_32 == 0
  {
    var b := ToInt32(a * k);
    var q := (x - a) / TWO_32;
    assert a == x - q * TWO_32;
    var p := (a * k - b) / TWO_32;
    assert b == a * k - p * TWO_32;
    assert b - x * k == (-q * k - p) * TWO_32;
    ModOfMultiplePlus(-q * k - p, 0);
  }

  /** `x << 5` is congruent to 32 * x modulo 2^32, so it may stand for 32 * x under ToInt32. */
  lemma ShiftLeft5(x: int, y: int)
    ensures ToInt32(ShiftLeft(x, 5) + y) == ToInt32(32 * x + y)
  {
    assert Pow2(5) == 32;
    var a := ToInt32(x);
    var q := (x - a) / TWO_32;
    assert a == x - q * TWO_32;
    var b := ShiftLeft(x, 5);
    assert b == ToInt32(32 * a);
    var p := (32 * a - b) / TWO_32;
    assert b == 32 * a - p * TWO_32;
    assert b + y == (32 * x + y) + (-32 * q - p) * TWO_32;
    ToInt32AddMultiple(32 * x + y, -32 * q - p);
  }

  /** `x | 0`, the idiom the source uses to convert to a 32-bit integer. */
  function BitOrZero(x: int): (r: int)
    ensures IsInt32(r)
    ensures IsInt32(x) ==> r == x
  {
    ToInt32OfInt32Cond(x);
    ToInt32(x)
  }

  lemma ToInt32OfInt32Cond(x: int)
    ensures IsInt32(x) ==> ToInt32(x) == x
  {
    if IsInt32(x) {
      ToInt32OfInt32(x);
    }
  }

  function Abs(x: int): (r: nat)
    ensures r == x || r == -x
  {
    if x < 0 then -x else x
  }

  /** The quotient of JavaScript integer division, truncated toward zero. */
  function JsQuot(a: int, b: int): int
    requires b != 0
  {
    var q := Abs(a) / Abs(b);
    if (a < 0) == (b < 0) then q else -q
  }

  /**
   * The JavaScript remainder `a % b` on integers: the quotient is truncated
   * toward zero, so the result takes the sign of the dividend.
   */
  function JsRem(a: int, b: int): (r: int)
    requires b != 0
    ensures a == JsQuot(a, b) * b + r
    ensures Abs(r) < Abs(b)
    ensures a >= 0 ==> r >= 0
    ensures a <= 0 ==> r <= 0
  {
    var m := Abs(a) % Abs(b);
    RemSign(a, b, m);
    if a < 0 then -m else m
  }

  lemma RemSign(a: int, b: int, m: int)
    requires b != 0
    requires m == Abs(a) % Abs(b)
    ensures a == JsQuot(a, b) * b + (if a < 0 then -m else m)
  {
    var q := Abs(a) / Abs(b);
    assert Abs(a) == q * Abs(b) + m;
    if a < 0 && b < 0 {
      assert a == q * b - m;
    } else if a < 0 {
      assert a == (-q) * b - m;
    } else if b < 0 {
      assert a == (-q) * b + m;
    }
  }
}

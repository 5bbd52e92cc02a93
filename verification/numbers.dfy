/** The 32-bit signed integers of C# (`int`) and their unchecked arithmetic. */
module Numbers {

  const MinInt32: int := -0x8000_0000
  const MaxInt32: int := 0x7FFF_FFFF
  const Modulus: int := 0x1_0000_0000

  /** The values of C#'s `int`. */
  type Int32 = x: int | MinInt32 <= x <= MaxInt32

  /** A .NET string: its `Length` is an `int`, so it holds at most `int.MaxValue` characters. */
  type NetString = s: string | |s| <= MaxInt32

  /** Two's-complement truncation of an exact result to 32 bits, as unchecked `+` and `++` do. */
  function Wrap(x: int): (r: Int32)
    ensures MinInt32 <= x <= MaxInt32 ==> r == x
    ensures exists q :: x == r + q * Modulus
  {
    var r := (x - MinInt32) % Modulus + MinInt32;
    assert x == r + ((x - MinInt32) / Modulus) * Modulus;
    r
  }

  /** Truncation only sees a value modulo 2^32. */
  lemma WrapShift(y: int, q: int)
    ensures Wrap(y - q * Modulus) == Wrap(y)
  {
    var x := y - MinInt32;
    var d, r := x / Modulus, x % Modulus;
    assert x == d * Modulus + r;
    assert x - q * Modulus == (d - q) * Modulus + r;
  }

  /** Truncating after an addition is the same as truncating once at the end. */
  lemma WrapAdd(a: int, b: int)
    ensures Wrap(Wrap(a) + b) == Wrap(a + b)
  {
    var q := (a - MinInt32) / Modulus;
    assert Wrap(a) == a - q * Modulus;
    assert Wrap(a) + b == (a + b) - q * Modulus;
    WrapShift(a + b, q);
  }

  /** C#'s unchecked `a + b` on two `int`s: an exact sum outside the range wraps once. */
  function Add(a: Int32, b: Int32): (r: Int32)
    ensures MinInt32 <= a + b <= MaxInt32 ==> r == a + b
    ensures 0 <= a && 0 <= b ==> (r < 0 <==> a + b > MaxInt32)
  {
    if a + b > MaxInt32 then a + b - Modulus
    else if a + b < MinInt32 then a + b + Modulus
    else a + b
  }

  /** `Add` is the exact sum truncated to 32 bits. */
  lemma AddIsWrap(a: Int32, b: Int32)
    ensures Add(a, b) == Wrap(a + b)
  {
    if a + b > MaxInt32 {
      WrapShift(a + b, 1);
    } else if a + b < MinInt32 {
      WrapShift(a + b, -1);
    }
  }

  /** How many times `Add(a, b)` wraps: +1 past `int.MaxValue`, -1 below `int.MinValue`. */
  function Carry(a: Int32, b: Int32): int {
    if a + b > MaxInt32 then 1 else if a + b < MinInt32 then -1 else 0
  }

  /** Adding `b` three times with wrap-around gives the exact `a + 3 * b`, truncated. */
  lemma AddThrice(a: Int32, b: Int32)
    ensures Add(Add(Add(a, b), b), b) == Wrap(a + 3 * b)
  {
    var once := Add(a, b);
    var twice := Add(once, b);
    var carries := Carry(a, b) + Carry(once, b) + Carry(twice, b);
    assert Add(twice, b) == a + 3 * b - carries * Modulus;
    WrapShift(a + 3 * b, carries);
  }
}

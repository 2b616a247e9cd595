/** Python's integer division, modulo, ceiling division and list slicing, which
    differ from Dafny's Euclidean operators for negative operands. */
module PyMath {

  /** Python `a // b`. */
  function FloorDiv(a: int, b: int): (q: int)
    requires b != 0
    ensures b > 0 ==> b * q <= a < b * q + b
    ensures b < 0 ==> b * q >= a > b * q + b
  {
    if b > 0 then a / b else (-a) / (-b)
  }

  /** Python `a % b`: the remainder has the sign of `b`. */
  function Mod(a: int, b: int): (r: int)
    requires b != 0
    ensures a == b * FloorDiv(a, b) + r
    ensures b > 0 ==> 0 <= r < b
    ensures b < 0 ==> b < r <= 0
  {
    a - b * FloorDiv(a, b)
  }

  /** `math.ceil(a / b)`, computed exactly. */
  function CeilDiv(a: int, b: int): (q: int)
    requires b != 0
    ensures b > 0 ==> b * q >= a > b * q - b
  {
    -FloorDiv(-a, b)
  }

  /** Python's normalisation of a slice bound against a sequence of length `n`. */
  function SliceBound(x: int, n: nat): (r: nat)
    ensures r <= n
    ensures 0 <= x <= n ==> r == x
  {
    if x < 0 then (if x + n < 0 then 0 else x + n) else if x > n then n else x
  }

  /** Python `s[start:stop]`. */
  function Slice<T>(s: seq<T>, start: int, stop: int): (r: seq<T>)
    ensures 0 <= start <= stop <= |s| ==> r == s[start..stop]
    ensures 0 <= start && |s| <= stop ==> r == s[SliceBound(start, |s|)..]
    ensures |r| <= |s|
  {
    var a := SliceBound(start, |s|);
    var b := SliceBound(stop, |s|);
    if a < b then s[a..b] else []
  }

  /** A positive multiple is at least the multiplier. */
  lemma {:induction false} MulAtLeast(b: int, d: int)
    requires b > 0 && d >= 1
    ensures b * d >= b
    decreases d
  {
    if d > 1 {
      MulAtLeast(b, d - 1);
      assert b * d == b * (d - 1) + b;
    }
  }

  /** Euclidean division is determined by quotient and remainder. */
  lemma DivUnique(a: int, b: int, q: int, r: int)
    requires b > 0 && a == b * q + r && 0 <= r < b
    ensures a / b == q
  {
    var q0 := a / b;
    if q > q0 {
      MulAtLeast(b, q - q0);
    } else if q < q0 {
      MulAtLeast(b, q0 - q);
    }
  }

  /** For a positive divisor the Python operators agree with Dafny's, and the
      ceiling is the quotient, plus one when there is a remainder. */
  lemma PositiveDivisor(a: int, b: int)
    requires b > 0
    ensures FloorDiv(a, b) == a / b && Mod(a, b) == a % b
    ensures CeilDiv(a, b) == if a % b == 0 then a / b else a / b + 1
  {
    var q := a / b;
    var r := a % b;
    if r == 0 {
      DivUnique(-a, b, -q, 0);
    } else {
      DivUnique(-a, b, -q - 1, b - r);
    }
  }
}

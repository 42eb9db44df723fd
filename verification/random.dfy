/** The animation's two random helpers, `random_float` and `random_int`.
    Every call of the platform's random generator is replaced by an explicit
    draw, so both helpers become pure functions of that draw. */
module Random {

  /** One value of the platform's uniform generator: a real in [0, 1). */
  type Draw = r: real | 0.0 <= r < 1.0

  /** `random_float(min, max)`: scales a draw onto the half-open interval
      from `lo` towards `hi` (reversed when `hi < lo`). */
  function RandomFloat(r: Draw, lo: real, hi: real): (x: real)
    ensures lo < hi ==> lo <= x < hi
    ensures lo == hi ==> x == lo
    ensures hi < lo ==> hi < x <= lo
  {
    Scale(r, hi - lo) + lo
  }

  /** `random_int(min, max)`: the floor of `random_float(min, max)`, so for
      `lo < hi` an integer from `lo` to `hi - 1`; `hi` itself never comes out. */
  function RandomInt(r: Draw, lo: int, hi: int): (k: int)
    ensures lo < hi ==> lo <= k < hi
    ensures lo == hi ==> k == lo
    ensures hi < lo ==> hi <= k <= lo
  {
    RandomFloat(r, lo as real, hi as real).Floor
  }

  /** The fraction `r` of the signed width `w`: it lies between 0 (included)
      and `w` (excluded). */
  function Scale(r: Draw, w: real): (o: real)
    ensures w > 0.0 ==> 0.0 <= o < w
    ensures w < 0.0 ==> w < o <= 0.0
    ensures w == 0.0 ==> o == 0.0
  {
    if w > 0.0 then Fraction(r, w)
    else if w < 0.0 then -Fraction(r, -w)
    else 0.0
  }

  /** The fraction `r` of a positive width `v` stays below that width. */
  function Fraction(r: Draw, v: real): (o: real)
    requires v > 0.0
    ensures 0.0 <= o < v
  {
    ProductSigns(r, v);
    ProductSigns(1.0 - r, v);
    r * v
  }

  /** Sign facts about a product with a positive right factor. */
  lemma ProductSigns(a: real, b: real)
    requires b > 0.0
    ensures a > 0.0 <==> a * b > 0.0
    ensures a >= 0.0 <==> a * b >= 0.0
  {
  }

  /** Every value of [lo, hi) is produced by some draw: `random_float` covers its whole range. */
  lemma RandomFloatOnto(lo: real, hi: real, x: real)
    requires lo <= x < hi
    ensures exists r: Draw :: RandomFloat(r, lo, hi) == x
  {
    var r := (x - lo) / (hi - lo);
    assert r * (hi - lo) == x - lo;
    ProductSigns(r, hi - lo);
    ProductSigns(1.0 - r, hi - lo);
    assert RandomFloat(r, lo, hi) == x;
  }

  /** Every integer from `lo` to `hi - 1` is produced by some draw; together
      with the contract of `RandomInt` the range is exactly [lo, hi - 1]. */
  lemma RandomIntOnto(lo: int, hi: int, k: int)
    requires lo <= k < hi
    ensures exists r: Draw :: RandomInt(r, lo, hi) == k
  {
    RandomFloatOnto(lo as real, hi as real, k as real);
    var r: Draw :| RandomFloat(r, lo as real, hi as real) == k as real;
    assert RandomInt(r, lo, hi) == k;
  }

  /** A larger draw never yields a smaller `random_float` on an increasing interval. */
  lemma RandomFloatMonotone(r1: Draw, r2: Draw, lo: real, hi: real)
    requires r1 <= r2 && lo <= hi
    ensures RandomFloat(r1, lo, hi) <= RandomFloat(r2, lo, hi)
  {
    if lo < hi {
      ProductSigns(r2 - r1, hi - lo);
    }
  }
}

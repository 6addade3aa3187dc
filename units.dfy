/**
 * Unit conversions between document twips and screen pixels, and the
 * rounding and unsigned-wrap helpers the tile geometry relies on
 * (src/electron/office/lok_callback.h and the float-to-integer conversions
 * the C++ code performs implicitly).  Floats are modelled as reals.
 */
module Units {
  /** Twips per pixel at zoom 1: a twip is 1/1440 inch, a pixel 1/96. */
  const TwipPerPx: real := 15.0

  /** Largest value of a 32-bit `unsigned int`, also `kInvalidTileIndex`. */
  const U32Max: nat := 0xFFFF_FFFF

  /** Pixels at `zoom` to twips. */
  function PixelToTwip(px: real, zoom: real): real
    requires zoom != 0.0
  {
    px / zoom * TwipPerPx
  }

  /** Twips to pixels at `zoom`. */
  function TwipToPixel(twips: real, zoom: real): real
  {
    twips / TwipPerPx * zoom
  }

  /** Converting to twips and back gives the pixel value again. */
  lemma PixelTwipRoundTrip(px: real, zoom: real)
    requires zoom != 0.0
    ensures TwipToPixel(PixelToTwip(px, zoom), zoom) == px
  {
    calc {
      TwipToPixel(PixelToTwip(px, zoom), zoom);
      (px / zoom * TwipPerPx) / TwipPerPx * zoom;
      { assert (px / zoom * TwipPerPx) / TwipPerPx == px / zoom; }
      px / zoom * zoom;
    }
  }

  /** Converting to pixels and back gives the twip value again. */
  lemma TwipPixelRoundTrip(twips: real, zoom: real)
    requires zoom != 0.0
    ensures PixelToTwip(TwipToPixel(twips, zoom), zoom) == twips
  {
    calc {
      PixelToTwip(TwipToPixel(twips, zoom), zoom);
      (twips / TwipPerPx * zoom) / zoom * TwipPerPx;
      { assert (twips / TwipPerPx * zoom) / zoom == twips / TwipPerPx; }
      twips / TwipPerPx * TwipPerPx;
    }
  }

  /** At a non-negative zoom, more twips never give fewer pixels. */
  lemma TwipToPixelMonotone(a: real, b: real, zoom: real)
    requires a <= b && zoom >= 0.0
    ensures TwipToPixel(a, zoom) <= TwipToPixel(b, zoom)
  {
    assert a / TwipPerPx <= b / TwipPerPx;
    assert (b / TwipPerPx - a / TwipPerPx) * zoom >= 0.0;
  }

  /** Both conversions are linear in the value converted. */
  lemma ConversionsLinear(a: real, b: real, x: real, y: real, zoom: real)
    requires zoom != 0.0
    ensures TwipToPixel(a * x + b * y, zoom) == a * TwipToPixel(x, zoom) + b * TwipToPixel(y, zoom)
    ensures PixelToTwip(a * x + b * y, zoom) == a * PixelToTwip(x, zoom) + b * PixelToTwip(y, zoom)
  {
    assert (a * x + b * y) / TwipPerPx == a * (x / TwipPerPx) + b * (y / TwipPerPx);
    assert (a * x + b * y) / zoom == a * (x / zoom) + b * (y / zoom);
  }

  /** `std::floor`. */
  function Floor(x: real): (r: int)
    ensures r as real <= x < r as real + 1.0
  {
    x.Floor
  }

  /** `std::ceil`: the least integer not below `x`. */
  function Ceil(x: real): (r: int)
    ensures r as real - 1.0 < x <= r as real
  {
    if x.Floor as real == x then x.Floor else x.Floor + 1
  }

  /** The conversion of a float to an integer type: truncation toward zero. */
  function Trunc(x: real): (r: int)
    ensures x >= 0.0 ==> r as real <= x < r as real + 1.0
    ensures x < 0.0 ==> r as real - 1.0 < x <= r as real
  {
    if x >= 0.0 then x.Floor else -((-x).Floor)
  }

  /** `std::round`: to the nearest integer, halves away from zero. */
  function Round(x: real): (r: int)
    ensures r as real - 0.5 <= x <= r as real + 0.5
  {
    if x >= 0.0 then (x + 0.5).Floor else -((-x + 0.5).Floor)
  }

  /** Ceil is monotone. */
  lemma CeilMonotone(a: real, b: real)
    requires a <= b
    ensures Ceil(a) <= Ceil(b)
  {
  }

  /** Floor is monotone. */
  lemma FloorMonotone(a: real, b: real)
    requires a <= b
    ensures Floor(a) <= Floor(b)
  {
  }

  /**
   * `n - 1` on a 32-bit unsigned value: 0 wraps round to `U32Max`.
   */
  function UnsignedPred(n: nat): (r: nat)
    ensures n <= U32Max ==> r <= U32Max && (r + 1) % (U32Max + 1) == n
  {
    if n == 0 then U32Max else n - 1
  }

  /** Multiplying by a natural number keeps the order. */
  lemma MulMonotone(a: int, b: int, c: nat)
    requires a <= b
    ensures a * c <= b * c
  {
    var d := b - a;
    assert b * c == a * c + d * c;
  }

  /** A product of naturals is 0 only when a factor is. */
  lemma MulZero(a: nat, b: nat)
    requires a * b == 0
    ensures a == 0 || b == 0
  {
    if a > 0 && b > 0 {
      MulMonotone(1, a, b);
    }
  }

  /** A multiple of `c` strictly between `-c` and `c` is 0. */
  lemma MulZeroBand(c: nat, k: int)
    requires c > 0 && -(c as int) < c * k < c
    ensures k == 0
  {
    if k >= 1 {
      MulMonotone(1, k, c);
    } else if k <= -1 {
      MulMonotone(k, -1, c);
    }
  }

  /** `n == q * d + r` with `r < d` fixes the quotient and the remainder. */
  lemma DivModUnique(n: nat, d: nat, q: nat, r: nat)
    requires d > 0 && r < d && n == q * d + r
    ensures n / d == q && n % d == r
  {
    var q', r' := n / d, n % d;
    assert n == q' * d + r';
    assert (q' - q) * d == q' * d - q * d;
    assert d * (q' - q) == (q' - q) * d;
    MulZeroBand(d, q' - q);
  }

  /** `std::abs` on a float. */
  function Abs(x: real): real { if x < 0.0 then -x else x }

  function Min(a: int, b: int): int { if a <= b then a else b }
  function Max(a: int, b: int): int { if a >= b then a else b }
}

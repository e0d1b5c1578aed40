/** The integer placement arithmetic of the drawers and of the logo: box
    halves, paddings, insets, shrunken lengths and the snapped logo offset.
    Each float ratio of the source is an exact fraction here, and each
    `int(...)` conversion is written out. */
module Geometry {

  type Pos = n: int | n > 0 witness 1

  /** A non-negative ratio such as 0.25, as the exact fraction num / den. */
  datatype Ratio = Ratio(num: nat, den: Pos)

  /** Python's int(a / b) for b > 0: the quotient truncated toward zero, so
      q * b lies between 0 and a, less than b away from a. */
  function TruncDiv(a: int, b: Pos): (q: int)
    ensures 0 <= a ==> 0 <= q * b <= a < q * b + b
    ensures a < 0 ==> a <= q * b <= 0 && q * b < a + b
  {
    if a >= 0 then
      QuotientBounds(a, b);
      a / b
    else
      QuotientBounds(-a, b);
      NegatedProduct((-a) / b, b);
      -((-a) / b)
  }

  /** For a >= 0 the floor quotient q = a / b has 0 <= q * b <= a < q * b + b. */
  lemma QuotientBounds(a: nat, b: Pos)
    ensures 0 <= (a / b) * b <= a < (a / b) * b + b
  {
    DivBounds(a, b);
    MulSign(a / b, b);
  }

  lemma NegatedProduct(m: int, b: int)
    ensures (-m) * b == -(m * b)
  {
  }

  /** Floor division of an integer by a positive one, as products. */
  lemma DivBounds(a: int, b: Pos)
    ensures (a / b) * b <= a < (a / b) * b + b
  {
  }

  /** A product with a positive factor k has the sign of the other factor,
      and is at least k away from zero when that factor is not zero. */
  lemma {:induction false} MulSign(x: int, k: Pos)
    ensures x > 0 ==> x * k >= k
    ensures x == 0 ==> x * k == 0
    ensures x < 0 ==> x * k + k <= 0
    decreases k
  {
    if k > 1 {
      MulSign(x, k - 1);
      assert x * k == x * (k - 1) + x;
    }
  }

  /** Cancelling a positive factor from an inequality. */
  lemma LessByFactor(a: int, b: int, k: Pos)
    requires a * k <= b * k
    ensures a <= b
  {
    MulSign(b - a, k);
    assert (b - a) * k == b * k - a * k;
  }

  lemma StrictByFactor(a: int, b: int, k: Pos)
    requires a * k < b * k
    ensures a < b
  {
    MulSign(b - a, k);
    assert (b - a) * k == b * k - a * k;
  }

  /** Multiplying an inequality by a non-negative factor. */
  lemma MulLeq(x: nat, a: int, b: int)
    requires a <= b
    ensures x * a <= x * b
  {
    if x > 0 {
      MulSign(b - a, x);
      assert (b - a) * x == x * b - x * a;
    }
  }

  lemma ProductNat(a: nat, b: nat)
    ensures a * b >= 0
  {
    MulLeq(a, 0, b);
  }

  /** int(x * ratio) for x >= 0: the floor of the exact product. */
  function Scale(x: nat, ratio: Ratio): (y: nat)
    ensures y * ratio.den <= x * ratio.num < y * ratio.den + ratio.den
    ensures ratio.num <= ratio.den ==> y <= x
  {
    ProductNat(x, ratio.num);
    QuotientBounds(x * ratio.num, ratio.den);
    var y := x * ratio.num / ratio.den;
    if ratio.num <= ratio.den then
      MulLeq(x, ratio.num, ratio.den);
      LessByFactor(y, x, ratio.den);
      y
    else
      y
  }

  /** int(n / 2) for n >= 0: RoundedModuleDrawer's corner_width and the bar
      drawers' half_height / half_width. Two halves fill all of `n` but, when
      `n` is odd, its last pixel. */
  function Half(n: nat): (h: nat)
    ensures 2 * h <= n <= 2 * h + 1
    ensures n % 2 == 1 <==> 2 * h == n - 1
  {
    n / 2
  }

  /** CircleModuleDrawer.initialize: padding = int(box_size * padding_ratio). */
  function CirclePadding(box: nat, ratio: Ratio): (p: nat)
    ensures p * ratio.den <= box * ratio.num < p * ratio.den + ratio.den
  {
    Scale(box, ratio)
  }

  /** The circle tile has side box_size - 2 * padding. It is never wider than
      the box, and a padding ratio of at most one half never makes it
      negative (a negative side is Image.new's ValueError). */
  lemma CircleSideBounds(box: nat, ratio: Ratio)
    ensures box - 2 * CirclePadding(box, ratio) <= box
    ensures 2 * ratio.num <= ratio.den ==> 0 <= box - 2 * CirclePadding(box, ratio)
  {
    var p := CirclePadding(box, ratio);
    if 2 * ratio.num <= ratio.den {
      MulLeq(box, 2 * ratio.num, ratio.den);
      assert (2 * p) * ratio.den <= box * ratio.den;
      LessByFactor(2 * p, box, ratio.den);
    }
  }

  /** A possibly negative exact fraction num / den, such as a float offset
      of the source. */
  datatype Fraction = Fraction(num: int, den: Pos)

  function Negate(f: Fraction): Fraction {
    Fraction(-f.num, f.den)
  }

  /** The largest integer not above f. */
  function Floor(f: Fraction): (n: int)
    ensures n * f.den <= f.num < n * f.den + f.den
  {
    DivBounds(f.num, f.den);
    f.num / f.den
  }

  /** The smallest integer not below f. */
  function Ceil(f: Fraction): (n: int)
    ensures n * f.den - f.den < f.num <= n * f.den
  {
    DivBounds(-f.num, f.den);
    NegatedProduct((-f.num) / f.den, f.den);
    -((-f.num) / f.den)
  }

  /** Two integers that both bracket v between k * den and k * den + den are
      equal. */
  lemma BracketUnique(a: int, b: int, v: int, den: Pos)
    requires a * den <= v < a * den + den
    requires b * den <= v < b * den + den
    ensures a == b
  {
    assert (b + 1) * den == b * den + den;
    assert (a + 1) * den == a * den + den;
    StrictByFactor(a, b + 1, den);
    StrictByFactor(b, a + 1, den);
  }

  /** The ceiling is the floor, or one more when f is not whole. */
  lemma FloorCeil(f: Fraction)
    ensures Floor(f) <= Ceil(f) <= Floor(f) + 1
    ensures Ceil(f) == Floor(f) <==> f.num % f.den == 0
    ensures Ceil(Negate(f)) == -Floor(f)
  {
    var fl, ce := Floor(f), Ceil(f);
    assert (fl + 1) * f.den == fl * f.den + f.den;
    assert (ce - 1) * f.den == ce * f.den - f.den;
    StrictByFactor(ce - 1, fl + 1, f.den);
    StrictByFactor(fl, ce + 1, f.den);
    DivBounds(f.num, f.den);
    if f.num % f.den == 0 {
      assert f.num == fl * f.den;
      LessByFactor(ce, fl, f.den);
    } else {
      assert f.num != fl * f.den;
    }
    var nc := Ceil(Negate(f));
    NegatedProduct(nc, f.den);
    BracketUnique(-nc, fl, f.num, f.den);
  }

  /** Pillow's (int) cast of the float corner x + f: truncation toward zero,
      which is the floor for a non-negative corner and the ceiling for a
      negative one. */
  function TruncShift(x: int, f: Fraction): (c: int)
    ensures 0 <= x * f.den + f.num ==> c == x + Floor(f)
    ensures x * f.den + f.num < 0 ==> c == x + Ceil(f)
  {
    var a := x * f.den + f.num;
    var c := TruncDiv(a, f.den);
    ShiftedBracket(c, x, f);
    if 0 <= a then
      BracketUnique(c - x, Floor(f), f.num, f.den);
      c
    else
      CeilBracket(f);
      BracketUnique(c - x - 1, Ceil(f) - 1, f.num - 1, f.den);
      c
  }

  lemma ShiftedBracket(c: int, x: int, f: Fraction)
    ensures (c - x) * f.den == c * f.den - x * f.den
    ensures (c - x - 1) * f.den == c * f.den - x * f.den - f.den
  {
  }

  /** The ceiling n of f, as a floor bracket: (n - 1) * den <= num - 1. */
  lemma CeilBracket(f: Fraction)
    ensures (Ceil(f) - 1) * f.den <= f.num - 1 < (Ceil(f) - 1) * f.den + f.den
  {
    var n := Ceil(f);
    assert (n - 1) * f.den == n * f.den - f.den;
  }

  /** GappedSquareModuleDrawer.initialize: delta = (1 - size_ratio) *
      box_size / 2, kept exact. For a size ratio between 0 and 1 it lies
      between 0 and half the box. */
  function GappedInset(box: nat, sizeRatio: Ratio): (d: Fraction)
    ensures d.num * (2 * sizeRatio.den) == (sizeRatio.den - sizeRatio.num) * box * d.den
    ensures sizeRatio.num <= sizeRatio.den ==> 0 <= d.num && 2 * d.num <= box * d.den
  {
    var den, num := sizeRatio.den, sizeRatio.num;
    var d := Fraction((den - num) * box, 2 * den);
    if num <= den then
      ProductNat(den - num, box);
      MulLeq(box, den - num, den);
      assert 2 * d.num == 2 * (den * box) - 2 * (num * box);
      d
    else
      d
  }

  /** The bar drawers' delta = int((1 - shrink) * half), truncated toward zero
      (it is negative when shrink exceeds 1). */
  function BarInset(half: nat, shrink: Ratio): (d: int)
    ensures shrink.num <= shrink.den ==> 0 <= d && d * shrink.den <= (shrink.den - shrink.num) * half
    ensures shrink.num > shrink.den ==> d <= 0
  {
    var den, num := shrink.den, shrink.num;
    var a := (den - num) * half;
    var d := TruncDiv(a, den);
    MulSign(d, den);
    if num <= den then
      ProductNat(den - num, half);
      d
    else
      MulLeq(half, den - num, 0);
      d
  }

  /** A bar tile, inset by `delta` and `int(2 * half * shrink)` long across
      the bar, stays inside the module box when ratio <= 1: its near margin
      is `delta` and its far margin `2 * half - delta - len` is between
      `delta` and `delta + 2`. */
  lemma {:induction false} BarFits(half: nat, shrink: Ratio)
    requires shrink.num <= shrink.den
    ensures var d, len := BarInset(half, shrink), Scale(2 * half, shrink);
      0 <= d && 2 * d + len <= 2 * half && 2 * half - 2 <= 2 * d + len
  {
    var den, num := shrink.den, shrink.num;
    var d, len := BarInset(half, shrink), Scale(2 * half, shrink);
    var a := (den - num) * half;
    ProductNat(den - num, half);
    assert d * den <= a < d * den + den;
    assert len * den <= 2 * half * num < len * den + den;
    assert 2 * a + 2 * half * num == (2 * half) * den;
    assert (2 * d + len) * den == 2 * (d * den) + len * den;
    LessByFactor(2 * d + len, 2 * half, den);
    assert (2 * d + len + 3) * den == 2 * (d * den) + len * den + 3 * den;
    StrictByFactor(2 * half, 2 * d + len + 3, den);
  }

  /** Where draw_embeded_image puts the logo: `offset` is both coordinates of
      its top-left corner and `side` the side it is resized to. */
  datatype Placement = Placement(offset: int, side: nat)

  /** logo_offset = int((int(total/2) - int(logo_width_ish/2)) / box_size) *
      box_size and logo_width = total - 2 * logo_offset, with logo_width_ish =
      int(total * ratio). The offset lies on a module boundary and the logo is
      centred: both margins equal the offset. When the unsnapped logo fits,
      so does the placed one, and snapping changes its side by less than two
      modules. */
  function LogoPlacement(total: nat, ratio: Ratio, box: Pos): (pl: Placement)
    ensures pl.offset % box == 0
    ensures pl.offset + pl.side + pl.offset == total
    ensures Scale(total, ratio) <= total ==>
      0 <= pl.offset && pl.offset + pl.side <= total &&
      Scale(total, ratio) <= pl.side + 1 && pl.side <= Scale(total, ratio) + 2 * box
    ensures Scale(total, ratio) > total ==> pl.offset <= 0
  {
    var ish := Scale(total, ratio);
    var diff := Half(total) - Half(ish);
    var q := TruncDiv(diff, box);
    ModOfMultiple(q, box);
    var offset := q * box;
    Placement(offset, total - 2 * offset)
  }

  lemma ModOfMultiple(q: int, b: Pos)
    ensures (q * b) % b == 0
  {
    var m := q * b;
    DivBounds(m, b);
    MulSign(q - m / b, b);
    assert (q - m / b) * b == m - (m / b) * b;
  }

  // The default arguments of the drawers' and the image's constructors.

  /** GappedSquareModuleDrawer's size_ratio, VerticalBarsDrawer's
      horizontal_shrink and HorizontalBarsDrawer's vertical_shrink: 0.8. */
  const DefaultShrink: Ratio := Ratio(4, 5)
  /** CircleModuleDrawer's padding_ratio: 0.15. */
  const DefaultPadding: Ratio := Ratio(3, 20)
  /** RoundedModuleDrawer's radius_ratio: 1. */
  const DefaultRadius: Ratio := Ratio(1, 1)
  /** StyledPilImage's embeded_image_ratio: 0.25. */
  const DefaultLogoRatio: Ratio := Ratio(1, 4)

  /** With the default padding ratio the circle's side is never negative, so
      CircleModuleDrawer() initialises for every box size. */
  lemma DefaultCircleFits(box: nat)
    ensures 0 <= box - 2 * CirclePadding(box, DefaultPadding) <= box
  {
    CircleSideBounds(box, DefaultPadding);
  }

  /** The default ratio 0.8 is at most 1, so the default gapped square keeps
      a gap of at most half the box and the default bars fit in the module. */
  lemma DefaultShrinkFits(box: nat, half: nat)
    ensures DefaultShrink.num <= DefaultShrink.den
    ensures var d := GappedInset(box, DefaultShrink); 0 <= d.num && 2 * d.num <= box * d.den
    ensures var d, len := BarInset(half, DefaultShrink), Scale(2 * half, DefaultShrink);
      0 <= d && 2 * d + len <= 2 * half && 2 * half - 2 <= 2 * d + len
  {
    BarFits(half, DefaultShrink);
  }
}

/** C arithmetic shared by the image kernels. */
module PixelMath {

  /** Division that rounds toward zero. */
  function Quotient(a: int, b: int): int
    requires b > 0
  {
    if a >= 0 then a / b else -((-a) / b)
  }

  function Clamp(x: int, maxval: int): int { if x < 0 then 0 else if x > maxval then maxval else x }

  /** w is p moved by x parts of a level, of which a level has `parts`: on the side of p less than a level short of
      the whole move, or stopped at the end of the scale. */
  predicate Settles(p: int, x: int, parts: int, w: int, maxval: int) {
    0 <= w <= maxval &&
    ((if x >= 0 then parts * (w - p) <= x < parts * (w - p) + parts
      else parts * (w - p) - parts < x <= parts * (w - p)) ||
     (w == 0 && parts * p + x < 0) ||
     (w == maxval && parts * p + x > parts * maxval))
  }

  lemma QuotientIs(x: int, parts: int)
    requires parts > 0
    ensures var q := Quotient(x, parts);
            if x >= 0 then parts * q <= x < parts * q + parts else parts * q - parts < x <= parts * q
  {
    if x < 0 {
      var r := (-x) / parts;
      assert parts * r <= -x < parts * r + parts;
      assert parts * (-r) == -(parts * r);
    }
  }

  lemma Product(parts: int, a: int, b: int)
    requires parts > 0
    ensures parts * (a + b) == parts * a + parts * b && parts * (a - b) == parts * a - parts * b
    ensures a >= 0 <==> parts * a >= 0
    ensures a > 0 <==> parts * a >= parts
    ensures a < 0 <==> parts * a <= -parts
  {
    if a > 0 {
      assert parts * a >= parts * 1;
    } else if a < 0 {
      assert parts * a <= parts * -1;
    }
  }

  /** Adding the quotient and stopping at the ends of the scale settles. */
  lemma QuotientSettles(p: int, x: int, parts: int, maxval: int)
    requires 0 <= maxval && parts > 0
    ensures Settles(p, x, parts, Clamp(p + Quotient(x, parts), maxval), maxval)
  {
    var q := Quotient(x, parts);
    QuotientIs(x, parts);
    hide Quotient;
    Product(parts, p, q);
    Product(parts, p + q, maxval);
    Product(parts, p + q - maxval, p);
    Product(parts, maxval, p);
  }

  /** And a value on the scale settles in one way only. */
  lemma SettlesOnce(p: int, x: int, parts: int, w: int, w': int, maxval: int)
    requires parts > 0 && 0 <= p <= maxval && Settles(p, x, parts, w, maxval) && Settles(p, x, parts, w', maxval)
    ensures w == w'
  {
    Product(parts, w, p);
    Product(parts, w', p);
    Product(parts, w - w', p);
    Product(parts, w, w');
    Product(parts, maxval - w, p);
    Product(parts, maxval - w', p);
    Product(parts, maxval, w);
    Product(parts, maxval, w');
  }
}

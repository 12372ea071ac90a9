/** shared/torrent.go: how a poster is scaled to fit, with two truncating divisions and two clamps. */
module Poster {
  /** `n` scaled by `max / by`, rounded down. */
  function Portion(n: nat, max: nat, by': nat): nat
    requires by' > 0
  {
    n * max / by'
  }

  function AtLeastOne(n: nat): nat { if n < 1 then 1 else n }

  /** First the width is brought down, then the height that leaves. */
  function Fitted(x: nat, y: nat, max: nat): (nat, nat)
    requires x > 0 && y > 0 && max > 0
  {
    var (w, h) := if x > max then (max, AtLeastOne(Portion(y, max, x))) else (x, y);
    if h > max then (AtLeastOne(Portion(w, max, h)), max) else (w, h)
  }

  // ----- Products and quotients

  lemma Grows(a: nat, b: nat, d: nat)
    requires a <= b
    ensures a * d <= b * d
  {
  }

  lemma Cancels(a: nat, b: nat, d: nat)
    requires a * d < b * d
    ensures a < b
  {
    if b <= a { Grows(b, a, d); }
  }

  lemma OneMore(a: nat, d: nat)
    ensures (a + 1) * d == a * d + d
  {
  }

  lemma Divided(a: nat, d: nat)
    requires d > 0
    ensures a / d * d <= a < a / d * d + d
  {
  }

  lemma Shrinks(n: nat, max: nat, by': nat)
    requires 0 < max <= by'
    ensures Portion(n, max, by') <= n
  {
    Divided(n * max, by');
    var q := Portion(n, max, by');
    hide Portion;
    Grows(max, by', n);
    OneMore(n, by');
    Cancels(q, n + 1, by');
  }

  // ----- One picture

  /** Both sides lie between 1 and the limit, neither grows, a picture that fits is left alone, and a scaled one
      touches the limit. */
  lemma FitsAndTouches(x: nat, y: nat, max: nat)
    requires x > 0 && y > 0 && max > 0
    ensures var (w, h) := Fitted(x, y, max);
            && 1 <= w <= max && 1 <= h <= max
            && w <= x && h <= y
            && ((w, h) == (x, y) <==> x <= max && y <= max)
            && (x > max || y > max ==> w == max || h == max)
  {
    hide Portion;
    if x > max { Shrinks(y, max, x); }
    var (w, h) := if x > max then (max, AtLeastOne(Portion(y, max, x))) else (x, y);
    if h > max { Shrinks(w, max, h); }
  }

  /** Scaling a scaled picture changes nothing. */
  lemma Idempotent(x: nat, y: nat, max: nat)
    requires x > 0 && y > 0 && max > 0
    ensures var (w, h) := Fitted(x, y, max); w > 0 && h > 0 && Fitted(w, h, max) == (w, h)
  {
    hide Fitted;
    FitsAndTouches(x, y, max);
    var (w, h) := Fitted(x, y, max);
    FitsAndTouches(w, h, max);
  }

  // ----- Two truncations

  /** When the width was brought down and the height still is too large, the width is computed from the
      truncated height. It is the one the proportions give, or one pixel more. */
  lemma TwoTruncations(x: nat, y: nat, max: nat)
    requires x > 0 && y > 0 && max > 0 && Portion(y, max, x) > max
    ensures var w := Portion(max, max, Portion(y, max, x));
            Portion(x, max, y) <= w <= Portion(x, max, y) + 1
  {
    Divided(y * max, x);
    Divided(x * max, y);
    var h, d := Portion(y, max, x), Portion(x, max, y);
    Divided(max * max, h);
    var w := Portion(max, max, h);
    hide Portion;
    Taller(x, y, max, h);
    Lower(x, y, max, h, d, w);
    Upper(x, y, max, h, d, w);
  }

  lemma Taller(x: nat, y: nat, max: nat, h: nat)
    requires h > max && h * x <= y * max
    ensures x == 0 || y > x
  {
    if x > 0 {
      Grows(max + 1, h, x);
      OneMore(max, x);
      assert x * max < y * max;
      Cancels(x, y, max);
    }
  }

  lemma Lower(x: nat, y: nat, max: nat, h: nat, d: nat, w: nat)
    requires h * x <= y * max && d * y <= x * max && max * max < w * h + h && y > 0
    ensures d <= w
  {
    Grows(d * y, x * max, h);
    Grows(h * x, y * max, max);
    Swap(d, y, h);
    Swap(x, max, h);
    Rotate(h, x, max);
    Swap(y, max, max);
    assert d * h * y <= max * max * y;
    OneMore(w, h);
    Grows(max * max + 1, (w + 1) * h, y);
    OneMore(max * max, y);
    Cancels(d * h, (w + 1) * h, y);
    Cancels(d, w + 1, h);
  }

  lemma Swap(a: nat, b: nat, c: nat)
    ensures a * b * c == a * c * b && a * b * c == b * c * a
  {
  }

  lemma Rotate(a: nat, b: nat, c: nat)
    ensures a * b * c == b * c * a
  {
  }

  lemma Upper(x: nat, y: nat, max: nat, h: nat, d: nat, w: nat)
    requires x < y && max < h && 0 < h
    requires y * max < h * x + x && x * max < d * y + y && w * h <= max * max
    ensures w <= d + 1
  {
    // max * max * y < h * (x * max) + x * max < h * (d + 1) * y + h * y
    OneMore(d, y);
    Grows(y * max + 1, h * x + x, max);
    OneMore(y * max, max);
    Spread(h, x, max);
    Grows(x * max + 1, (d + 1) * y, h);
    OneMore(x * max, h);
    Grows(x, y, max);
    Grows(max, h, y);
    Swap(y, max, max);
    assert max * max * y < (d + 1) * y * h + y * h;
    Collect(d, y, h);
    Cancels(max * max, (d + 2) * h, y);
    Cancels(w, d + 2, h);
  }

  lemma Spread(h: nat, x: nat, max: nat)
    ensures (h * x + x) * max == x * max * h + x * max
  {
  }

  lemma Collect(d: nat, y: nat, h: nat)
    ensures (d + 1) * y * h + y * h == (d + 2) * h * y
  {
  }

  /** It is one pixel more exactly when what the truncated height lost, in proportion, makes up for what the
      width would have lost. */
  lemma OneMorePixelExactly(x: nat, y: nat, max: nat)
    requires x > 0 && y > 0 && max > 0 && Portion(y, max, x) > max
    ensures var h := Portion(y, max, x);
            Portion(max, max, h) == Portion(x, max, y) + 1 <==> h * (y - x * max % y) <= y * max % x * max
  {
    TwoTruncations(x, y, max);
    Divided(x * max, y);
    Divided(y * max, x);
    var h, d := Portion(y, max, x), Portion(x, max, y);
    Divided(max * max, h);
    var w := Portion(max, max, h);
    Weighed(x, y, max, h, d, w, y * max % x, x * max % y);
  }

  lemma Weighed(x: nat, y: nat, max: nat, h: nat, d: nat, w: nat, r: nat, q: nat)
    requires y * max == h * x + r && x * max == d * y + q && q < y && h > 0
    requires w * h <= max * max < w * h + h && d <= w <= d + 1
    ensures w == d + 1 <==> h * (y - q) <= r * max
  {
    Balance(x, y, max, h, d, r, q);
    OneMore(w, h);
    if (d + 1) * h <= max * max {
      Cancels(d + 1, w + 1, h);
      Grows((d + 1) * h, max * max, y);
    } else {
      Grows(max * max + 1, (d + 1) * h, y);
      OneMore(max * max, y);
    }
  }

  lemma Balance(x: nat, y: nat, max: nat, h: nat, d: nat, r: nat, q: nat)
    requires y * max == h * x + r && x * max == d * y + q && q < y
    ensures max * max * y - (d + 1) * h * y == r * max - h * (y - q)
  {
    Swap(y, max, max);
    assert y * max * max == (h * x + r) * max;
    Distribute(h * x, r, max);
    Rotate(h, x, max);
    assert h * x * max == (d * y + q) * h;
    Distribute(d * y, q, h);
    Swap(d, y, h);
    Distribute(d * h, h, y);
    OneMore(d, h);
    Minus(h, y, q);
  }

  lemma Distribute(a: nat, b: nat, c: nat)
    ensures (a + b) * c == a * c + b * c
  {
  }

  lemma Minus(h: nat, y: nat, q: nat)
    ensures h * (y - q) == y * h - q * h
  {
  }

  // ----- Proportions

  /** A quotient and its clamp, as products. */
  lemma Clamped(n: nat, max: nat, by': nat)
    requires by' > 0
    ensures Portion(n, max, by') == 0 <==> n * max < by'
    ensures n * max >= by' ==> Portion(n, max, by') * by' <= n * max < (Portion(n, max, by') + 1) * by'
    ensures n * max < by' ==> AtLeastOne(Portion(n, max, by')) == 1
    ensures n * max >= by' ==> AtLeastOne(Portion(n, max, by')) == Portion(n, max, by')
  {
    Divided(n * max, by');
    var q := Portion(n, max, by');
    OneMore(q, by');
    if q > 0 { Grows(1, q, by'); }
  }

  /** The height is still too large. */
  lemma StillTall(y: nat, max: nat, x: nat)
    requires x > 0
    ensures Portion(y, max, x) > max <==> y * max >= (max + 1) * x
  {
    Divided(y * max, x);
    var q := Portion(y, max, x);
    OneMore(q, x);
    if q > max { Grows(max + 1, q, x); } else { Grows(q + 1, max + 1, x); }
  }

  /** The proportions of a picture are kept, up to truncation. */
  lemma Proportions(x: nat, y: nat, max: nat)
    requires x > 0 && y > 0 && max > 0
    ensures var (w, h) := Fitted(x, y, max);
            && (x > max && y * max < (max + 1) * x ==>
                  w == max && if y * max < x then h == 1 else h * x <= y * max < (h + 1) * x)
            && (x <= max < y ==> h == max && if x * max < y then w == 1 else w * y <= x * max < (w + 1) * y)
            && (x > max && y * max >= (max + 1) * x ==> h == max && (w - 1) * y <= x * max < (w + 1) * y)
  {
    if x > max {
      StillTall(y, max, x);
      Clamped(y, max, x);
      if y * max >= (max + 1) * x { BothDown(x, y, max); }
    } else if y > max {
      Clamped(x, max, y);
    }
  }

  lemma BothDown(x: nat, y: nat, max: nat)
    requires y > 0 && max > 0 && x > max && y * max >= (max + 1) * x
    ensures Fitted(x, y, max).1 == max
    ensures var w := Fitted(x, y, max).0; (w - 1) * y <= x * max < (w + 1) * y
  {
    StillTall(y, max, x);
    TwoTruncations(x, y, max);
    Divided(x * max, y);
    var w, d := Fitted(x, y, max).0, Portion(x, max, y);
    hide Fitted;
    OneMore(d, y);
    Grows(w - 1, d, y);
    Grows(d + 1, w + 1, y);
  }

  /** When width and height were brought down in turn, the width is one pixel more than the proportions give exactly
      when it was clamped, or when what the truncated height lost makes up for what the width would have lost. */
  lemma ExtraPixelExactly(x: nat, y: nat, max: nat)
    requires x > max > 0 && y > 0 && y * max >= (max + 1) * x
    ensures var w, h := Fitted(x, y, max).0, y * max / x;
            x * max < w * y <==> max * max < h || h * (y - x * max % y) <= y * max % x * max
  {
    StillTall(y, max, x);
    TwoTruncations(x, y, max);
    OneMorePixelExactly(x, y, max);
    var h, d := Portion(y, max, x), Portion(x, max, y);
    Clamped(max, max, h);
    Divided(x * max, y);
    OneMore(d, y);
    Exceeds(Fitted(x, y, max).0, d, x * max, y);
  }

  lemma Exceeds(w: nat, d: nat, n: nat, y: nat)
    requires d * y <= n < d * y + y && d <= w <= d + 1
    ensures n < w * y <==> w == d + 1
  {
  }

  /** The size of the picture that is encoded. Both sides lie between 1 and the limit, neither grows, a picture
      that fits is left alone, and a scaled one touches the limit. */
  method Fit(origX: nat, origY: nat, maxSize: nat) returns (newX: nat, newY: nat)
    requires origX > 0 && origY > 0 && maxSize > 0
    ensures (newX, newY) == Fitted(origX, origY, maxSize)
    ensures 1 <= newX <= maxSize && 1 <= newY <= maxSize && newX <= origX && newY <= origY
    ensures (newX, newY) == (origX, origY) <==> origX <= maxSize && origY <= maxSize
    ensures origX > maxSize || origY > maxSize ==> newX == maxSize || newY == maxSize
    ensures origX > maxSize && origY * maxSize < (maxSize + 1) * origX ==>
              newX == maxSize &&
              if origY * maxSize < origX then newY == 1 else newY * origX <= origY * maxSize < (newY + 1) * origX
    ensures origX <= maxSize < origY ==>
              newY == maxSize &&
              if origX * maxSize < origY then newX == 1 else newX * origY <= origX * maxSize < (newX + 1) * origY
    ensures origX > maxSize && origY * maxSize >= (maxSize + 1) * origX ==>
              newY == maxSize && (newX - 1) * origY <= origX * maxSize < (newX + 1) * origY
    ensures origX > maxSize && origY * maxSize >= (maxSize + 1) * origX ==>
              var h := origY * maxSize / origX;
              (origX * maxSize < newX * origY <==>
               maxSize * maxSize < h || h * (origY - origX * maxSize % origY) <= origY * maxSize % origX * maxSize)
  {
    hide Portion;
    FitsAndTouches(origX, origY, maxSize);
    Proportions(origX, origY, maxSize);
    if origX > maxSize && origY * maxSize >= (maxSize + 1) * origX { ExtraPixelExactly(origX, origY, maxSize); }
    newX, newY := origX, origY;
    if maxSize < origX || maxSize < origY {
      if origX > maxSize {
        newY := Portion(origY, maxSize, origX);
        if newY < 1 { newY := 1; }
        newX := maxSize;
      }
      if newY > maxSize {
        newX := Portion(newX, maxSize, newY);
        if newX < 1 { newX := 1; }
        newY := maxSize;
      }
    }
  }
}

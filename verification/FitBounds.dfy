/**
 * Fitting content into bounds (rdc_tool/preview_window.py, fit_size_within_bounds and fit_content_rect),
 * over exact reals with Python's rounding of halves to the even neighbour.
 */
module FitBounds {
  function AtLeastOne(n: int): (r: int)
    ensures 1 <= r && n <= r && (r == n || r == 1)
  {
    if n < 1 then 1 else n
  }

  /** `int(value or fallback)`. */
  function Or(value: int, fallback: int): int {
    if value == 0 then fallback else value
  }

  /** `round`. */
  function Rounded(x: real): (r: int)
    ensures -0.5 <= r as real - x <= 0.5
    ensures r as real - x == 0.5 || r as real - x == -0.5 ==> r % 2 == 0
  {
    var below := x.Floor;
    var rest := x - below as real;
    if rest < 0.5 then below
    else if 0.5 < rest then below + 1
    else if below % 2 == 0 then below
    else below + 1
  }

  function Least(a: real, b: real): real {
    if b < a then b else a
  }

  function Scale(width: int, height: int, boundWidth: int, boundHeight: int): (s: real)
    requires 1 <= width && 1 <= height && 1 <= boundWidth && 1 <= boundHeight
  {
    Least(Least(1.0, Ratio(boundWidth, width)), Ratio(boundHeight, height))
  }

  function FitSize(contentWidth: int, contentHeight: int, maxWidth: int, maxHeight: int): (int, int) {
    var width := AtLeastOne(Or(contentWidth, 1));
    var height := AtLeastOne(Or(contentHeight, 1));
    FitPositive(width, height, AtLeastOne(Or(maxWidth, width)), AtLeastOne(Or(maxHeight, height)))
  }

  function FitPositive(width: int, height: int, boundWidth: int, boundHeight: int): (int, int)
    requires 1 <= width && 1 <= height && 1 <= boundWidth && 1 <= boundHeight
  {
    var scale := Scale(width, height, boundWidth, boundHeight);
    (Side(width, scale), Side(height, scale))
  }

  function Side(size: int, scale: real): (r: int)
    ensures 1 <= r
    ensures r as real - size as real * scale >= -0.5
    ensures 1 < r ==> r as real - size as real * scale <= 0.5
  {
    AtLeastOne(Rounded(size as real * scale))
  }

  function Ratio(bound: int, size: int): real
    requires 1 <= size
  {
    bound as real / size as real
  }

  datatype Rect = Rect(x: int, y: int, width: int, height: int)

  function FitContentRect(clientWidth: int, clientHeight: int, contentWidth: int, contentHeight: int): Rect {
    var targetWidth := AtLeastOne(Or(clientWidth, 1));
    var targetHeight := AtLeastOne(Or(clientHeight, 1));
    var (width, height) := FitSize(contentWidth, contentHeight, targetWidth, targetHeight);
    var x := (targetWidth - width) / 2;
    var y := (targetHeight - height) / 2;
    Rect(if x < 0 then 0 else x, if y < 0 then 0 else y, width, height)
  }

  // ----- Rounding

  lemma RoundedExact(n: int)
    ensures Rounded(n as real) == n
  {
  }

  lemma RoundedMonotone(x: real, y: real)
    requires x <= y
    ensures Rounded(x) <= Rounded(y)
  {
  }

  lemma RatioTimes(bound: int, size: int)
    requires 1 <= size
    ensures size as real * Ratio(bound, size) == bound as real
  {
  }

  lemma TimesMonotone(size: int, a: real, b: real)
    requires 1 <= size && a <= b
    ensures size as real * a <= size as real * b
  {
  }

  /** One side: never beyond its bound, never enlarged. */
  lemma SideFits(size: int, bound: int, scale: real)
    requires 1 <= size && 1 <= bound
    requires scale <= 1.0 && scale <= Ratio(bound, size)
    ensures Side(size, scale) <= bound && Side(size, scale) <= size
  {
    RatioTimes(bound, size);
    SideAtMost(size, scale, Ratio(bound, size), bound);
    SideAtMost(size, scale, 1.0, size);
  }

  lemma SideAtMost(size: int, scale: real, limit: real, most: int)
    requires 1 <= size && 1 <= most && scale <= limit && size as real * limit == most as real
    ensures Side(size, scale) <= most
  {
    TimesMonotone(size, scale, limit);
    RoundedMonotone(size as real * scale, most as real);
    RoundedExact(most);
  }

  lemma SideMeets(size: int, bound: int)
    requires 1 <= size && 1 <= bound
    ensures Side(size, Ratio(bound, size)) == bound
  {
    RatioTimes(bound, size);
    RoundedExact(bound);
  }

  lemma RatioBelowOne(size: int, bound: int)
    requires 1 <= size && 1 <= bound
    ensures Ratio(bound, size) < 1.0 <==> bound < size
  {
    RatioTimes(bound, size);
    FactorBelowOne(size, bound, Ratio(bound, size));
  }

  lemma FactorBelowOne(size: int, bound: int, factor: real)
    requires 1 <= size && size as real * factor == bound as real
    ensures factor < 1.0 <==> bound < size
  {
    if factor < 1.0 {
      assert size as real * (1.0 - factor) > 0.0;
    } else {
      TimesMonotone(size, 1.0, factor);
    }
  }

  lemma ScaleIsLeast(width: int, height: int, boundWidth: int, boundHeight: int)
    requires 1 <= width && 1 <= height && 1 <= boundWidth && 1 <= boundHeight
    ensures var scale := Scale(width, height, boundWidth, boundHeight);
            var x, y := Ratio(boundWidth, width), Ratio(boundHeight, height);
            && scale <= 1.0 && scale <= x && scale <= y
            && (if width <= boundWidth && height <= boundHeight then scale == 1.0 else scale == x || scale == y)
  {
    RatioBelowOne(width, boundWidth);
    RatioBelowOne(height, boundHeight);
  }

  lemma SideUnscaled(size: int)
    requires 1 <= size
    ensures Side(size, 1.0) == size
  {
    RoundedExact(size);
    assert size as real * 1.0 == size as real;
  }

  // ----- Main results

  /** The bound that an argument stands for: zero means none, and anything below one counts as one. */
  function BoundOf(argument: int, size: int): int {
    if argument == 0 then size else AtLeastOne(argument)
  }

  /** Within bounds and never enlarged; unchanged when it fits; otherwise one side meets its bound exactly. */
  lemma FitIsTight(contentWidth: int, contentHeight: int, maxWidth: int, maxHeight: int)
    ensures var (w, h) := FitSize(contentWidth, contentHeight, maxWidth, maxHeight);
            var width, height := AtLeastOne(contentWidth), AtLeastOne(contentHeight);
            var boundWidth, boundHeight := BoundOf(maxWidth, width), BoundOf(maxHeight, height);
            && 1 <= w <= boundWidth && w <= width
            && 1 <= h <= boundHeight && h <= height
            && (if width <= boundWidth && height <= boundHeight then w == width && h == height
                else w == boundWidth || h == boundHeight)
  {
    var width, height := AtLeastOne(contentWidth), AtLeastOne(contentHeight);
    PositiveFitIsTight(width, height, BoundOf(maxWidth, width), BoundOf(maxHeight, height));
  }

  lemma PositiveFitIsTight(width: int, height: int, boundWidth: int, boundHeight: int)
    requires 1 <= width && 1 <= height && 1 <= boundWidth && 1 <= boundHeight
    ensures var (w, h) := FitPositive(width, height, boundWidth, boundHeight);
            && 1 <= w <= boundWidth && w <= width
            && 1 <= h <= boundHeight && h <= height
            && (if width <= boundWidth && height <= boundHeight then w == width && h == height
                else w == boundWidth || h == boundHeight)
  {
    var scale := Scale(width, height, boundWidth, boundHeight);
    ScaleIsLeast(width, height, boundWidth, boundHeight);
    TightAt(width, height, boundWidth, boundHeight, scale);
  }

  lemma TightAt(width: int, height: int, boundWidth: int, boundHeight: int, scale: real)
    requires 1 <= width && 1 <= height && 1 <= boundWidth && 1 <= boundHeight
    requires scale <= 1.0 && scale <= Ratio(boundWidth, width) && scale <= Ratio(boundHeight, height)
    requires if width <= boundWidth && height <= boundHeight then scale == 1.0
             else scale == Ratio(boundWidth, width) || scale == Ratio(boundHeight, height)
    ensures Side(width, scale) <= boundWidth && Side(width, scale) <= width
    ensures Side(height, scale) <= boundHeight && Side(height, scale) <= height
    ensures if width <= boundWidth && height <= boundHeight
            then Side(width, scale) == width && Side(height, scale) == height
            else Side(width, scale) == boundWidth || Side(height, scale) == boundHeight
  {
    SideFits(width, boundWidth, scale);
    SideFits(height, boundHeight, scale);
    if width <= boundWidth && height <= boundHeight {
      SideUnscaled(width);
      SideUnscaled(height);
    } else if scale == Ratio(boundWidth, width) {
      SideMeets(width, boundWidth);
    } else {
      SideMeets(height, boundHeight);
    }
  }

  /** In full: the tighter bound is met, and the other side is scaled alike and rounded, but at least one. */
  lemma FitIs(width: int, height: int, boundWidth: int, boundHeight: int)
    requires 1 <= width && 1 <= height && 1 <= boundWidth && 1 <= boundHeight
    requires boundWidth < width || boundHeight < height
    ensures var (w, h) := FitPositive(width, height, boundWidth, boundHeight);
      if boundWidth * height <= boundHeight * width
      then w == boundWidth && h == Side(height, Ratio(boundWidth, width))
      else h == boundHeight && w == Side(width, Ratio(boundHeight, height))
  {
    ScaleIs(width, height, boundWidth, boundHeight);
    SideMeets(width, boundWidth);
    SideMeets(height, boundHeight);
  }

  lemma ScaleIs(width: int, height: int, boundWidth: int, boundHeight: int)
    requires 1 <= width && 1 <= height && 1 <= boundWidth && 1 <= boundHeight
    requires boundWidth < width || boundHeight < height
    ensures Scale(width, height, boundWidth, boundHeight) ==
      if boundWidth * height <= boundHeight * width then Ratio(boundWidth, width) else Ratio(boundHeight, height)
  {
    RatioBelowOne(width, boundWidth);
    RatioBelowOne(height, boundHeight);
    RatioOrder(width, height, boundWidth, boundHeight);
  }

  lemma RatioOrder(width: int, height: int, boundWidth: int, boundHeight: int)
    requires 1 <= width && 1 <= height
    ensures Ratio(boundWidth, width) <= Ratio(boundHeight, height)
       <==> boundWidth * height <= boundHeight * width
  {
    var x, y := Ratio(boundWidth, width), Ratio(boundHeight, height);
    RatioTimes(boundWidth, width);
    RatioTimes(boundHeight, height);
    CrossOrder(width as real, height as real, x, y);
    assert (boundWidth * height) as real == boundWidth as real * height as real;
    assert (boundHeight * width) as real == boundHeight as real * width as real;
  }

  lemma CrossOrder(w: real, h: real, x: real, y: real)
    requires 0.0 < w && 0.0 < h
    ensures x <= y <==> w * x * h <= h * y * w
  {
    assert h * y * w - w * x * h == (w * h) * (y - x);
    assert 0.0 < w * h;
  }

  lemma CrossError(w: real, h: real, a: real, b: real)
    requires 0.0 < w && 0.0 < h && -0.5 <= a <= 0.5 && -0.5 <= b <= 0.5
    ensures -(w + h) <= 2.0 * (a * h - b * w) <= w + h
  {
    HalfOf(a, h);
    HalfOf(b, w);
  }

  lemma HalfOf(a: real, h: real)
    requires 0.0 < h && -0.5 <= a <= 0.5
    ensures -h <= 2.0 * (a * h) <= h
  {
    assert 0.0 <= (0.5 - a) * h && (0.5 - a) * h == 0.5 * h - a * h;
    assert 0.0 <= (0.5 + a) * h && (0.5 + a) * h == 0.5 * h + a * h;
  }

  /** The aspect ratio survives up to rounding, unless a side was raised to one. */
  lemma FitKeepsAspect(width: int, height: int, boundWidth: int, boundHeight: int)
    requires 1 <= width && 1 <= height && 1 <= boundWidth && 1 <= boundHeight
    requires NotRaised(width, Scale(width, height, boundWidth, boundHeight))
    requires NotRaised(height, Scale(width, height, boundWidth, boundHeight))
    ensures var (w, h) := FitPositive(width, height, boundWidth, boundHeight);
            -(width + height) <= 2 * (w * height - h * width) <= width + height
  {
    AspectAt(width, height, Scale(width, height, boundWidth, boundHeight));
  }

  predicate NotRaised(size: int, scale: real) {
    1 <= Rounded(size as real * scale)
  }

  lemma AspectAt(width: int, height: int, scale: real)
    requires 1 <= width && 1 <= height && NotRaised(width, scale) && NotRaised(height, scale)
    ensures -(width + height) <= 2 * (Side(width, scale) * height - Side(height, scale) * width) <= width + height
  {
    AspectError(width, height, scale);
  }

  lemma AspectError(width: int, height: int, scale: real)
    requires 1 <= width && 1 <= height
    ensures var w, h := Rounded(width as real * scale), Rounded(height as real * scale);
            -(width + height) <= 2 * (w * height - h * width) <= width + height
  {
    ScaleCancels(width as real, height as real, scale);
    RoundedCross(width, height, width as real * scale, height as real * scale);
  }

  /** The common scale cancels out of the cross products. */
  lemma ScaleCancels(w: real, h: real, scale: real)
    ensures (w * scale) * h == (h * scale) * w
  {
  }

  lemma RoundedCross(width: int, height: int, x: real, y: real)
    requires 1 <= width && 1 <= height && x * height as real == y * width as real
    ensures -(width + height) <= 2 * (Rounded(x) * height - Rounded(y) * width) <= width + height
  {
    var w, h := Rounded(x), Rounded(y);
    CrossError(width as real, height as real, w as real - x, h as real - y);
    ProductOf(w, height);
    ProductOf(h, width);
    Spread(w as real, x, height as real);
    Spread(h as real, y, width as real);
  }

  lemma ProductOf(a: int, b: int)
    ensures (a * b) as real == a as real * b as real
  {
  }

  lemma Spread(a: real, b: real, c: real)
    ensures (a - b) * c == a * c - b * c
  {
  }

  /** The centred rectangle lies inside the client area, with margins that differ by at most one. */
  lemma RectIsCentred(clientWidth: int, clientHeight: int, contentWidth: int, contentHeight: int)
    ensures var r := FitContentRect(clientWidth, clientHeight, contentWidth, contentHeight);
            var w, h := AtLeastOne(clientWidth), AtLeastOne(clientHeight);
            && 0 <= r.x && r.x + r.width <= w && 0 <= (w - r.x - r.width) - r.x <= 1
            && 0 <= r.y && r.y + r.height <= h && 0 <= (h - r.y - r.height) - r.y <= 1
            && (r.width, r.height) == FitSize(contentWidth, contentHeight, w, h)
            && 1 <= r.width && 1 <= r.height
  {
    var w, h := AtLeastOne(clientWidth), AtLeastOne(clientHeight);
    FitIsTight(contentWidth, contentHeight, w, h);
  }
}

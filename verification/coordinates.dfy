/**
 Window coordinates: a window's logical rectangle is scaled into the captured desktop and clipped
 to it; a point given relative to the clipped rectangle is mapped back to the logical desktop.
 */
module Coordinates {
  import opened Prelude

  const I32_MIN: int := -0x8000_0000
  const I32_MAX: int := 0x7fff_ffff
  const U32_MAX: int := 0xffff_ffff
  const I64_MIN: int := -0x8000_0000_0000_0000
  const I64_MAX: int := 0x7fff_ffff_ffff_ffff

  type int32 = x: int | I32_MIN <= x <= I32_MAX
  type uint32 = x: int | 0 <= x <= U32_MAX

  datatype Rect = Rect(x: int32, y: int32, width: uint32, height: uint32)
  datatype Point = Point(x: int32, y: int32)

  datatype RectError =
    | UnusableBounds | NoMonitor | EmptyGeometry | UnevenScale | MissingOrigin | EmptyBounds | OutsideCapture
    | BadX | BadY | BadWidth | BadHeight

  /** `v` lies among the `size` positions from `origin` on. */
  predicate Within(v: int, origin: int, size: int) {
    origin <= v < origin + size
  }

  predicate Inside(x: int, y: int, r: Rect) {
    Within(x, r.x, r.width) && Within(y, r.y, r.height)
  }

  // ----- machine arithmetic -----

  function Clamp(v: int, low: int, high: int): (r: int)
    requires low <= high
    ensures low <= r <= high && (low <= v <= high ==> r == v)
  {
    if v < low then low else if v > high then high else v
  }

  function Max(a: int, b: int): int { if a < b then b else a }

  function Min(a: int, b: int): int { if a < b then a else b }

  /** Division of machine integers: the quotient is cut off towards zero. */
  function TruncatingDiv(a: int, b: int): int
    requires b > 0
  {
    if a >= 0 then a / b else -((-a) / b)
  }

  function FloorDiv(a: int, b: int): (r: int)
    requires b > 0
    ensures r * b <= a < r * b + b
  {
    a / b
  }

  function CeilDiv(a: int, b: int): (r: int)
    requires b > 0
    ensures r * b - b < a <= r * b
  {
    -((-a) / b)
  }

  // ----- clipping -----

  /** Exactly the part of the rectangle that lies in the capture; the only error is that there is none. */
  function ClipCaptureRect(rect: Rect, captureWidth: uint32, captureHeight: uint32): (r: Result<Rect, RectError>)
    ensures r.Err? ==> r.error == OutsideCapture
    ensures r.Ok? ==> r.value.width > 0 && r.value.height > 0 && r.value.x >= 0 && r.value.y >= 0
    ensures forall x, y ::
              (r.Ok? && Inside(x, y, r.value)) <==>
              (Inside(x, y, rect) && 0 <= x < captureWidth && 0 <= y < captureHeight)
  {
    var left := Max(rect.x, 0);
    var top := Max(rect.y, 0);
    var right := Min(rect.x + rect.width, captureWidth);
    var bottom := Min(rect.y + rect.height, captureHeight);
    if right <= left || bottom <= top then Err(OutsideCapture)
    else if !(I32_MIN <= left <= I32_MAX) then Err(BadX)
    else if !(I32_MIN <= top <= I32_MAX) then Err(BadY)
    else if !(0 <= right - left <= U32_MAX) then Err(BadWidth)
    else if !(0 <= bottom - top <= U32_MAX) then Err(BadHeight)
    else Ok(Rect(left, top, right - left, bottom - top))
  }

  // ----- scaling into the capture -----

  datatype Monitor = Monitor(x: int32, y: int32, width: int32, height: int32)

  /** The logical desktop: all x in [left, right), all y in [top, bottom). */
  datatype Desktop = Desktop(left: int, top: int, right: int, bottom: int)

  predicate IsUsable(m: Monitor) {
    m.width > 0 && m.height > 0
  }

  predicate Contains(d: Desktop, m: Monitor) {
    d.left <= m.x && m.x + m.width <= d.right && d.top <= m.y && m.y + m.height <= d.bottom
  }

  datatype Side = Left | Right | Top | Bottom

  predicate Reaches(d: Desktop, m: Monitor, side: Side) {
    IsUsable(m) &&
    match side
    case Left => m.x == d.left
    case Right => m.x + m.width == d.right
    case Top => m.y == d.top
    case Bottom => m.y + m.height == d.bottom
  }

  predicate IsReached(d: Desktop, monitors: seq<Monitor>, side: Side) {
    exists i :: 0 <= i < |monitors| && Reaches(d, monitors[i], side)
  }

  /** The smallest rectangle around the usable monitors: it contains each, and one reaches each side. */
  ghost predicate IsDesktopOf(d: Desktop, monitors: seq<Monitor>) {
    && (forall i | 0 <= i < |monitors| && IsUsable(monitors[i]) :: Contains(d, monitors[i]))
    && (forall side :: IsReached(d, monitors, side))
  }

  function Widened(d: Desktop, m: Monitor): Desktop {
    Desktop(Min(d.left, m.x), Min(d.top, m.y), Max(d.right, m.x + m.width), Max(d.bottom, m.y + m.height))
  }

  lemma WidenedIsDesktop(d: Desktop, monitors: seq<Monitor>, m: Monitor)
    requires IsDesktopOf(d, monitors) && IsUsable(m)
    ensures IsDesktopOf(Widened(d, m), monitors + [m])
  {
    var wide, more := Widened(d, m), monitors + [m];
    forall side ensures IsReached(wide, more, side) {
      assert IsReached(d, monitors, side);
      var i :| 0 <= i < |monitors| && Reaches(d, monitors[i], side);
      assert Reaches(wide, more[i], side) || Reaches(wide, more[|monitors|], side);
    }
  }

  lemma UnusableChangesNothing(d: Desktop, monitors: seq<Monitor>, m: Monitor)
    requires IsDesktopOf(d, monitors) && !IsUsable(m)
    ensures IsDesktopOf(d, monitors + [m])
  {
    var more := monitors + [m];
    forall side ensures IsReached(d, more, side) {
      assert IsReached(d, monitors, side);
      var i :| 0 <= i < |monitors| && Reaches(d, monitors[i], side);
      assert Reaches(d, more[i], side);
    }
  }

  lemma FirstIsDesktop(monitors: seq<Monitor>, m: Monitor)
    requires IsUsable(m) && forall i | 0 <= i < |monitors| :: !IsUsable(monitors[i])
    ensures IsDesktopOf(Desktop(m.x, m.y, m.x + m.width, m.y + m.height), monitors + [m])
  {
    var d, more := Desktop(m.x, m.y, m.x + m.width, m.y + m.height), monitors + [m];
    forall side ensures IsReached(d, more, side) {
      assert Reaches(d, more[|monitors|], side);
    }
  }

  method DesktopOf(monitors: seq<Monitor>) returns (d: Option<Desktop>)
    ensures d.None? <==> forall i | 0 <= i < |monitors| :: !IsUsable(monitors[i])
    ensures d.Some? ==> IsDesktopOf(d.value, monitors) && d.value.left < d.value.right && d.value.top < d.value.bottom
  {
    d := None;
    for n := 0 to |monitors|
      invariant d.None? <==> forall i | 0 <= i < n :: !IsUsable(monitors[i])
      invariant d.Some? ==>
                  IsDesktopOf(d.value, monitors[..n]) && d.value.left < d.value.right && d.value.top < d.value.bottom
    {
      var m := monitors[n];
      assert monitors[..n + 1] == monitors[..n] + [m];
      if !IsUsable(m) {
        if d.Some? {
          UnusableChangesNothing(d.value, monitors[..n], m);
        }
      } else if d.None? {
        FirstIsDesktop(monitors[..n], m);
        d := Some(Desktop(m.x, m.y, m.x + m.width, m.y + m.height));
      } else {
        WidenedIsDesktop(d.value, monitors[..n], m);
        d := Some(Widened(d.value, m));
      }
    }
    assert monitors[..|monitors|] == monitors;
  }

  datatype WindowBounds = WindowBounds(x: Option<int32>, y: Option<int32>, width: uint32, height: uint32)

  predicate IsUniform(d: Desktop, captureWidth: int, captureHeight: int)
  {
    var w, h := d.right - d.left, d.bottom - d.top;
    var skew := captureWidth * h - captureHeight * w;
    (if skew < 0 then -skew else skew) * 100 <= w * h
  }

  function Distance(a: real, b: real): (r: real)
    ensures r >= 0.0 && (r == a - b || r == b - a)
  {
    if a < b then b - a else a - b
  }

  /** The comparison of integers decides whether both axes are scaled alike, up to one hundredth. */
  lemma UniformMeansEqualScales(d: Desktop, captureWidth: int, captureHeight: int)
    requires d.left < d.right && d.top < d.bottom
    ensures IsUniform(d, captureWidth, captureHeight) <==>
              Distance(captureWidth as real / (d.right - d.left) as real,
                       captureHeight as real / (d.bottom - d.top) as real) <= 0.01
  {
    var (w, h) := (d.right - d.left, d.bottom - d.top);
    var (p, q) := (captureWidth as real / w as real, captureHeight as real / h as real);
    var skew := captureWidth * h - captureHeight * w;
    CastProduct(captureWidth, h);
    CastProduct(captureHeight, w);
    CastProduct(w, h);
    assert p * w as real == captureWidth as real && q * h as real == captureHeight as real;
    SkewOfScales(p, q, w as real, h as real);
    assert skew as real == (p - q) * (w * h) as real;
    SkewDecides(skew as real, p, q, (w * h) as real);
    assert (if skew < 0 then -skew else skew) as real == if skew as real < 0.0 then -(skew as real) else skew as real;
  }

  lemma CastProduct(a: int, b: int)
    ensures (a * b) as real == a as real * b as real
  {
  }

  lemma SkewOfScales(p: real, q: real, w: real, h: real)
    ensures p * w * h - q * h * w == (p - q) * (w * h)
  {
  }

  lemma SkewDecides(skew: real, p: real, q: real, area: real)
    requires area > 0.0 && skew == (p - q) * area
    ensures (if skew < 0.0 then -skew else skew) * 100.0 <= area <==> Distance(p, q) <= 0.01
  {
    HundredthOf(Distance(p, q), area);
    assert Distance(p, q) * area == if skew < 0.0 then -skew else skew by {
      if p < q {
        assert (q - p) * area == -skew;
      } else {
        assert (p - q) * area == skew;
      }
    }
  }

  lemma HundredthOf(a: real, b: real)
    requires b > 0.0
    ensures a <= 0.01 <==> a * b * 100.0 <= b
  {
    if a <= 0.01 {
      assert (0.01 - a) * b >= 0.0;
    } else {
      assert (a - 0.01) * b > 0.0;
    }
  }

  /** `size` positions from `left` on are the fewest whole pixels around the `extent` units from `offset` on,
      when `num` pixels make up `den` units. */
  predicate Covers(left: int, size: int, offset: int, extent: int, num: int, den: int) {
    && left * den <= offset * num < (left + 1) * den
    && (left + size - 1) * den < (offset + extent) * num <= (left + size) * den
  }

  /** The scaled start and end of a span, rounded outwards and cut to 64 bits. */
  function ScaledSpan(offset: int, extent: int, num: int, den: int): (span: (int, int))
    requires den > 0
    ensures I32_MIN <= span.0 <= I32_MAX && 0 <= span.1 - span.0 <= U32_MAX ==>
              Covers(span.0, span.1 - span.0, offset, extent, num, den)
  {
    (Clamp(FloorDiv(offset * num, den), I64_MIN, I64_MAX), Clamp(CeilDiv((offset + extent) * num, den), I64_MIN, I64_MAX))
  }

  /** The window's logical rectangle scaled to the capture, grown to whole pixels. */
  function ScaledWindowRect(d: Desktop, bounds: WindowBounds, captureWidth: uint32, captureHeight: uint32)
    : (r: Result<Rect, RectError>)
    ensures r.Ok? ==>
              && d.left < d.right && d.top < d.bottom && captureWidth > 0 && captureHeight > 0
              && IsUniform(d, captureWidth, captureHeight)
              && bounds.x.Some? && bounds.y.Some? && bounds.width > 0 && bounds.height > 0
              && Covers(r.value.x, r.value.width, bounds.x.value - d.left, bounds.width, captureWidth, d.right - d.left)
              && Covers(r.value.y, r.value.height, bounds.y.value - d.top, bounds.height, captureHeight, d.bottom - d.top)
  {
    var w, h := d.right - d.left, d.bottom - d.top;
    if w <= 0 || h <= 0 || captureWidth == 0 || captureHeight == 0 then Err(EmptyGeometry)
    else if !IsUniform(d, captureWidth, captureHeight) then Err(UnevenScale)
    else if bounds.x.None? || bounds.y.None? then Err(MissingOrigin)
    else if bounds.width == 0 || bounds.height == 0 then Err(EmptyBounds)
    else
      var (left, right) := ScaledSpan(bounds.x.value - d.left, bounds.width, captureWidth, w);
      var (top, bottom) := ScaledSpan(bounds.y.value - d.top, bounds.height, captureHeight, h);
      if !(0 <= right - left <= U32_MAX) then Err(BadWidth)
      else if !(0 <= bottom - top <= U32_MAX) then Err(BadHeight)
      else if !(I32_MIN <= left <= I32_MAX) then Err(BadX)
      else if !(I32_MIN <= top <= I32_MAX) then Err(BadY)
      else Ok(Rect(left, top, right - left, bottom - top))
  }

  /** At most one span of whole pixels covers. */
  lemma CoveringIsUnique(left: int, size: int, offset: int, extent: int, num: int, den: int)
    requires den > 0 && Covers(left, size, offset, extent, num, den)
    ensures left == FloorDiv(offset * num, den) && left + size == CeilDiv((offset + extent) * num, den)
  {
    WholeIsUnique(left, FloorDiv(offset * num, den), offset * num, den);
    WholeIsUnique(left + size - 1, CeilDiv((offset + extent) * num, den) - 1, (offset + extent) * num - 1, den);
  }

  lemma WholeIsUnique(a: int, b: int, v: int, den: int)
    requires den > 0 && a * den <= v < a * den + den && b * den <= v < b * den + den
    ensures a == b
  {
    if a < b {
      ProductMonotone(a + 1, b, den);
      assert false;
    }
    if b < a {
      ProductMonotone(b + 1, a, den);
      assert false;
    }
  }

  /** Wherever a rectangle in machine range covers the scaled window, it is the one returned. */
  lemma CoveringRectIsReturned(d: Desktop, bounds: WindowBounds, captureWidth: uint32, captureHeight: uint32, r: Rect)
    requires d.left < d.right && d.top < d.bottom && captureWidth > 0 && captureHeight > 0
    requires IsUniform(d, captureWidth, captureHeight)
    requires bounds.x.Some? && bounds.y.Some? && bounds.width > 0 && bounds.height > 0
    requires Covers(r.x, r.width, bounds.x.value - d.left, bounds.width, captureWidth, d.right - d.left)
    requires Covers(r.y, r.height, bounds.y.value - d.top, bounds.height, captureHeight, d.bottom - d.top)
    ensures ScaledWindowRect(d, bounds, captureWidth, captureHeight) == Ok(r)
  {
    CoveringIsUnique(r.x, r.width, bounds.x.value - d.left, bounds.width, captureWidth, d.right - d.left);
    CoveringIsUnique(r.y, r.height, bounds.y.value - d.top, bounds.height, captureHeight, d.bottom - d.top);
  }

  method LogicalWindowCropRect(bounds: WindowBounds, monitors: seq<Monitor>, captureWidth: uint32, captureHeight: uint32)
    returns (r: Result<Rect, RectError>, ghost desktop: Desktop)
    ensures r == Err(NoMonitor) <==> forall i | 0 <= i < |monitors| :: !IsUsable(monitors[i])
    ensures r != Err(NoMonitor) ==>
              && IsDesktopOf(desktop, monitors)
              && r == ScaledWindowRect(desktop, bounds, captureWidth, captureHeight)
  {
    var d := DesktopOf(monitors);
    if d.None? {
      return Err(NoMonitor), Desktop(0, 0, 0, 0);
    }
    desktop := d.value;
    r := ScaledWindowRect(d.value, bounds, captureWidth, captureHeight);
  }

  // ----- mapping back -----

  /** The position that divides the target as `value` divides the source. */
  function MapCoordinate(value: int32, sourceOrigin: int32, sourceSize: uint32, targetOrigin: int32, targetSize: uint32)
    : int32
  {
    var offset := value - sourceOrigin;
    var scaled := TruncatingDiv(Clamp(offset * targetSize, I64_MIN, I64_MAX), Max(sourceSize, 1));
    Clamp(targetOrigin + scaled, I32_MIN, I32_MAX)
  }

  lemma QuotientBelow(a: int, b: int, c: int)
    requires b > 0 && 0 <= a < b * c
    ensures 0 <= a / b < c
  {
  }

  lemma ProductMonotone(a: int, b: int, c: int)
    requires a <= b && c >= 0
    ensures a * c <= b * c
  {
  }

  lemma QuotientMonotone(a: int, b: int, c: int)
    requires c > 0 && 0 <= a <= b
    ensures 0 <= a / c <= b / c
  {
    var p, q := FloorDiv(a, c), FloorDiv(b, c);
    if p > q {
      ProductMonotone(q + 1, p, c);
      assert false;
    }
  }

  /** A position within the source maps to a position within the target, saturated and clamped or not. */
  lemma MapStaysWithin(value: int32, sourceOrigin: int32, sourceSize: uint32, targetOrigin: int32, targetSize: uint32)
    requires Within(value, sourceOrigin, sourceSize) && targetSize > 0
    ensures Within(MapCoordinate(value, sourceOrigin, sourceSize, targetOrigin, targetSize), targetOrigin, targetSize)
  {
    var offset := value - sourceOrigin;
    var product := Clamp(offset * targetSize, I64_MIN, I64_MAX);
    assert 0 <= offset * targetSize < sourceSize * targetSize by {
      ProductMonotone(offset + 1, sourceSize, targetSize);
    }
    QuotientBelow(product, sourceSize, targetSize);
  }

  /** Moving the source position right never moves the target position left. */
  lemma MapIsMonotone(a: int32, b: int32, sourceOrigin: int32, sourceSize: uint32, targetOrigin: int32, targetSize: uint32)
    requires a <= b
    ensures MapCoordinate(a, sourceOrigin, sourceSize, targetOrigin, targetSize)
         <= MapCoordinate(b, sourceOrigin, sourceSize, targetOrigin, targetSize)
  {
    var pa := Clamp((a - sourceOrigin) * targetSize, I64_MIN, I64_MAX);
    var pb := Clamp((b - sourceOrigin) * targetSize, I64_MIN, I64_MAX);
    ProductMonotone(a - sourceOrigin, b - sourceOrigin, targetSize);
    var n := Max(sourceSize, 1);
    if pa >= 0 {
      QuotientMonotone(pa, pb, n);
    } else if pb < 0 {
      QuotientMonotone(-pb, -pa, n);
    } else {
      QuotientMonotone(0, -pa, n);
      QuotientMonotone(0, pb, n);
    }
  }

  /** The quotient the mapping computes when nothing saturates. */
  function Proportion(offset: int, sourceSize: int, targetSize: int): int
    requires sourceSize > 0
  {
    offset * targetSize / sourceSize
  }

  /** Within the source the mapping is the plain proportion exactly when that survives the 64-bit
      product and the 32-bit result. */
  lemma MapIsProportionExactly(value: int32, sourceOrigin: int32, sourceSize: uint32, targetOrigin: int32, targetSize: uint32)
    requires Within(value, sourceOrigin, sourceSize)
    ensures var plain := Proportion(value - sourceOrigin, sourceSize, targetSize);
            MapCoordinate(value, sourceOrigin, sourceSize, targetOrigin, targetSize) == targetOrigin + plain <==>
            plain <= I64_MAX / sourceSize && targetOrigin + plain <= I32_MAX
  {
    var offset := value - sourceOrigin;
    ProductMonotone(0, offset, targetSize);
    QuotientMonotone(0, offset * targetSize, sourceSize);
    if offset * targetSize <= I64_MAX {
      QuotientMonotone(offset * targetSize, I64_MAX, sourceSize);
    } else {
      QuotientMonotone(I64_MAX, offset * targetSize, sourceSize);
    }
  }
}

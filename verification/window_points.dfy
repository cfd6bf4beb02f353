/**
 Points of a window: clicks and scrolls given relative to the visible part of the window, and the
 point of the logical desktop that each of them stands for.
 */
module WindowPoints {
  import opened Prelude
  import opened Coordinates

  datatype WindowCoordinateMap = WindowCoordinateMap(captureRect: Rect, fullCaptureRect: Rect, portalRect: Option<Rect>)
  {
    function PortalPoint(p: Point): Option<Point> {
      if portalRect.None? then None
      else
        var (full, portal) := (fullCaptureRect, portalRect.value);
        Some(Point(MapCoordinate(p.x, full.x, full.width, portal.x, portal.width),
                   MapCoordinate(p.y, full.y, full.height, portal.y, portal.height)))
    }
  }

  function WindowCropRect(bounds: WindowBounds): Option<Rect> {
    if bounds.x.None? || bounds.y.None? || bounds.width == 0 || bounds.height == 0 then None
    else Some(Rect(bounds.x.value, bounds.y.value, bounds.width, bounds.height))
  }

  /** The visible part is the window's rectangle clipped to the capture; where the monitors are
      known, that rectangle is the scaled logical one. */
  predicate IsMapOf(coords: WindowCoordinateMap, bounds: WindowBounds, desktop: Option<Desktop>,
                    captureWidth: uint32, captureHeight: uint32)
  {
    && WindowCropRect(bounds).Some?
    && ClipCaptureRect(coords.fullCaptureRect, captureWidth, captureHeight) == Ok(coords.captureRect)
    && (desktop.None? ==> coords.portalRect.None? && coords.fullCaptureRect == WindowCropRect(bounds).value)
    && (desktop.Some? ==>
          && coords.portalRect == WindowCropRect(bounds)
          && ScaledWindowRect(desktop.value, bounds, captureWidth, captureHeight) == Ok(coords.fullCaptureRect))
  }

  /** The window's rectangle in the capture exists and some part of it lies in the capture. */
  predicate IsVisible(bounds: WindowBounds, desktop: Option<Desktop>, captureWidth: uint32, captureHeight: uint32) {
    && WindowCropRect(bounds).Some?
    && var full := if desktop.None? then Ok(WindowCropRect(bounds).value)
                   else ScaledWindowRect(desktop.value, bounds, captureWidth, captureHeight);
       full.Ok? && ClipCaptureRect(full.value, captureWidth, captureHeight).Ok?
  }

  /** The map exists exactly when the bounds are usable, the scaled rectangle exists where the monitors
      are known, and a part of the window is visible; the desktop is that of the monitors. */
  method WindowCoordinateMapForDimensions(bounds: WindowBounds, monitors: Option<seq<Monitor>>,
                                          captureWidth: uint32, captureHeight: uint32)
    returns (r: Result<WindowCoordinateMap, RectError>, ghost desktop: Option<Desktop>)
    ensures r == Err(UnusableBounds) <==> WindowCropRect(bounds).None?
    ensures r == Err(NoMonitor) <==>
              WindowCropRect(bounds).Some? && monitors.Some? && forall i | 0 <= i < |monitors.value| :: !IsUsable(monitors.value[i])
    ensures r !in {Err(UnusableBounds), Err(NoMonitor)} ==>
              && (desktop.Some? <==> monitors.Some?)
              && (desktop.Some? ==> IsDesktopOf(desktop.value, monitors.value))
              && (r.Ok? <==> IsVisible(bounds, desktop, captureWidth, captureHeight))
    ensures r.Ok? ==> IsMapOf(r.value, bounds, desktop, captureWidth, captureHeight)
  {
    desktop := None;
    var logical := WindowCropRect(bounds);
    if logical.None? {
      return Err(UnusableBounds), None;
    }
    var full, portal := logical.value, None;
    if monitors.Some? {
      var scaled, d := LogicalWindowCropRect(bounds, monitors.value, captureWidth, captureHeight);
      desktop := Some(d);
      if scaled.Err? {
        return Err(scaled.error), desktop;
      }
      full, portal := scaled.value, logical;
    }
    var clipped := ClipCaptureRect(full, captureWidth, captureHeight);
    if clipped.Err? {
      return Err(clipped.error), desktop;
    }
    r := Ok(WindowCoordinateMap(clipped.value, full, portal));
  }

  // ----- relative points -----

  datatype PointError = NeedsBoth | EmptyTarget | OutsideTarget | Overflow

  /** The click or scroll parameters, whose point the request handler rewrites in place. */
  class PointParams {
    var x: Option<int32>
    var y: Option<int32>

    constructor (x: Option<int32>, y: Option<int32>)
      ensures this.x == x && this.y == y
    {
      this.x, this.y := x, y;
    }

    predicate IsRelativeTo(rect: Rect)
      reads this
    {
      x.Some? && y.Some? && Within(x.value, 0, rect.width) && Within(y.value, 0, rect.height)
    }

    /** A click is accepted exactly when it lies in the rectangle and its absolute point exists. */
    method ApplyWindowRelativeClick(rect: Rect) returns (r: Result<(), PointError>)
      modifies this
      ensures r.Ok? <==>
                old(IsRelativeTo(rect)) && rect.x + old(x).value <= I32_MAX && rect.y + old(y).value <= I32_MAX
      ensures r.Ok? ==> x == Some(rect.x + old(x).value) && y == Some(rect.y + old(y).value)
      ensures r.Err? ==> unchanged(this)
      ensures r == Err(NeedsBoth) <==> old(x).None? || old(y).None?
      ensures r == Err(EmptyTarget) <==> old(x).Some? && old(y).Some? && (rect.width == 0 || rect.height == 0)
      ensures r == Err(Overflow) <==> old(IsRelativeTo(rect)) && Max(rect.x + old(x).value, rect.y + old(y).value) > I32_MAX
    {
      if x.None? || y.None? {
        return Err(NeedsBoth);
      }
      if rect.width == 0 || rect.height == 0 {
        return Err(EmptyTarget);
      }
      if x.value < 0 || y.value < 0 || x.value >= rect.width || y.value >= rect.height {
        return Err(OutsideTarget);
      }
      var (absoluteX, absoluteY) := (rect.x + x.value, rect.y + y.value);
      if absoluteX > I32_MAX || absoluteY > I32_MAX {
        return Err(Overflow);
      }
      x, y := Some(absoluteX), Some(absoluteY);
      r := Ok(());
    }

    /** A scroll is accepted exactly when it lies in the rectangle; its absolute point saturates. */
    method ApplyWindowRelativeScroll(rect: Rect) returns (r: Result<(), PointError>)
      modifies this
      ensures r.Ok? <==> old(IsRelativeTo(rect))
      ensures r.Ok? ==> x == Some(Min(rect.x + old(x).value, I32_MAX)) && y == Some(Min(rect.y + old(y).value, I32_MAX))
      ensures r.Err? ==> unchanged(this) && r != Err(Overflow)
      ensures r == Err(NeedsBoth) <==> old(x).None? || old(y).None?
      ensures r == Err(EmptyTarget) <==> old(x).Some? && old(y).Some? && (rect.width == 0 || rect.height == 0)
    {
      if x.None? || y.None? {
        return Err(NeedsBoth);
      }
      if rect.width == 0 || rect.height == 0 {
        return Err(EmptyTarget);
      }
      if x.value < 0 || y.value < 0 || x.value >= rect.width || y.value >= rect.height {
        return Err(OutsideTarget);
      }
      x, y := Some(SaturatingAdd(rect.x, x.value)), Some(SaturatingAdd(rect.y, y.value));
      r := Ok(());
    }

    /** Without a point of its own a scroll goes to the middle of the rectangle; the point saturates. */
    method ApplyWindowCenterScroll(rect: Rect) returns (r: Result<(), PointError>)
      modifies this
      ensures r.Ok? <==> rect.width > 0 && rect.height > 0
      ensures r.Ok? ==>
                x == Some(Min(rect.x + rect.width / 2, I32_MAX)) && y == Some(Min(rect.y + rect.height / 2, I32_MAX))
      ensures r.Err? ==> unchanged(this) && r == Err(EmptyTarget)
    {
      if rect.width == 0 || rect.height == 0 {
        return Err(EmptyTarget);
      }
      x, y := Some(SaturatingAdd(rect.x, rect.width / 2)), Some(SaturatingAdd(rect.y, rect.height / 2));
      r := Ok(());
    }
  }

  function SaturatingAdd(a: int32, b: int32): int32 {
    Clamp(a + b, I32_MIN, I32_MAX)
  }

  /** Saturated or not, an accepted scroll and the default centre stay in the rectangle. */
  lemma ScrollPointInside(rect: Rect, dx: int32, dy: int32)
    requires Within(dx, 0, rect.width) && Within(dy, 0, rect.height)
    ensures Inside(Min(rect.x + dx, I32_MAX), Min(rect.y + dy, I32_MAX), rect)
    ensures Within(rect.width / 2, 0, rect.width) && Within(rect.height / 2, 0, rect.height)
  {
    assert rect.width / 2 < rect.width && rect.height / 2 < rect.height;
  }

  // ----- the way back to the logical desktop -----

  /** Every point of the visible part stands for a point of the logical window. */
  lemma PortalPointInsideWindow(coords: WindowCoordinateMap, bounds: WindowBounds, desktop: Desktop,
                                captureWidth: uint32, captureHeight: uint32, p: Point)
    requires IsMapOf(coords, bounds, Some(desktop), captureWidth, captureHeight) && Inside(p.x, p.y, coords.captureRect)
    ensures var q := coords.PortalPoint(p);
            && q.Some?
            && Within(q.value.x, bounds.x.value, bounds.width) && Within(q.value.y, bounds.y.value, bounds.height)
  {
    var full := coords.fullCaptureRect;
    assert Inside(p.x, p.y, full);
    MapStaysWithin(p.x, full.x, full.width, bounds.x.value, bounds.width);
    MapStaysWithin(p.y, full.y, full.height, bounds.y.value, bounds.height);
  }

  /** One axis, in pixels times units: with `num` pixels for `den` units, the position reached from
      the pixel `offset` into a covering span is off by less than one unit and one pixel downwards,
      and by less than one pixel upwards. */
  lemma ProportionError(left: int, size: int, start: int, extent: int, num: int, den: int, offset: int)
    requires num > 0 && den > 0 && extent > 0 && 0 <= offset < size
    requires Covers(left, size, start, extent, num, den)
    ensures var error := num * (start + Proportion(offset, size, extent)) - (left + offset) * den;
            -num - den < error < den
  {
    var q := Proportion(offset, size, extent);
    var a := start * num - left * den;
    var error := num * q + a - offset * den;
    assert num * (start + q) - (left + offset) * den == error by {
      assert num * (start + q) == start * num + num * q;
      assert (left + offset) * den == left * den + offset * den;
    }
    assert 0 <= a < den;
    SpanScale(left, size, start, extent, num, den);
    QuotientTimes(offset, size, extent, num);
    ErrorAbove(size, extent, num, den, offset, q, a);
    ErrorBelow(size, extent, num, den, offset, q, a);
  }

  /** The scaled extent fills the span up to the two rounded ends. */
  lemma SpanScale(left: int, size: int, start: int, extent: int, num: int, den: int)
    requires Covers(left, size, start, extent, num, den)
    ensures var a := start * num - left * den;
            size * den - den - a < extent * num <= size * den - a
  {
    assert (start + extent) * num == start * num + extent * num;
    assert (left + size) * den == left * den + size * den;
    assert (left + size - 1) * den == left * den + size * den - den;
  }

  lemma QuotientTimes(offset: int, size: int, extent: int, num: int)
    requires size > 0 && num > 0
    ensures var q := Proportion(offset, size, extent);
            num * q * size <= offset * (extent * num) < num * q * size + num * size
  {
    var q := FloorDiv(offset * extent, size);
    assert q == Proportion(offset, size, extent);
    ProductMonotone(q * size, offset * extent, num);
    ProductMonotone(offset * extent + 1, q * size + size, num);
    assert offset * extent * num == offset * (extent * num);
    assert q * size * num == num * q * size;
    assert (q * size + size) * num == num * q * size + num * size;
    assert (offset * extent + 1) * num == offset * extent * num + num;
  }

  lemma ErrorAbove(size: int, extent: int, num: int, den: int, offset: int, q: int, a: int)
    requires 0 <= offset < size && 0 <= a < den && num > 0
    requires extent * num <= size * den - a && num * q * size <= offset * (extent * num)
    ensures num * q + a - offset * den < den
  {
    var error := num * q + a - offset * den;
    ProductMonotone(extent * num, size * den - a, offset);
    assert error * size == num * q * size + a * size - offset * den * size;
    assert (size * den - a) * offset == offset * den * size - a * offset;
    assert error * size <= a * (size - offset);
    ProductMonotone(size - offset, size, a);
    if error >= den {
      ProductMonotone(a + 1, error, size);
      assert false;
    }
  }

  lemma ErrorBelow(size: int, extent: int, num: int, den: int, offset: int, q: int, a: int)
    requires 0 <= offset < size && 0 <= a < den && num > 0
    requires size * den - den - a < extent * num && offset * (extent * num) < num * q * size + num * size
    ensures -num - den < num * q + a - offset * den
  {
    var error := num * q + a - offset * den;
    ProductMonotone(size * den - den - a, extent * num, offset);
    assert error * size == num * q * size + a * size - offset * den * size;
    assert (size * den - den - a) * offset == offset * den * size - den * offset - a * offset;
    assert error * size > a * (size - offset) - num * size - den * offset;
    ProductMonotone(offset, size, den);
    ProductMonotone(0, size - offset, a);
    assert (-num - den) * size == -(num * size) - den * size;
    if error <= -num - den {
      ProductMonotone(error, -num - den, size);
      assert false;
    }
  }

  /** The logical position whose scaled image is `pixel`, when `num` pixels show `den` units from `origin` on. */
  function ExactPosition(origin: int, pixel: int, num: int, den: int): (r: real)
    requires num > 0
    ensures (r - origin as real) * num as real == (pixel * den) as real
  {
    DivideTimes((pixel * den) as real, num as real);
    origin as real + (pixel * den) as real / num as real
  }

  /** How many units one pixel shows. */
  function PixelSize(num: int, den: int): (r: real)
    requires num > 0
    ensures r * num as real == den as real
  {
    DivideTimes(den as real, num as real);
    den as real / num as real
  }

  lemma DivideTimes(a: real, b: real)
    requires b != 0.0
    ensures a / b * b == a
  {
  }

  /** `v` misses `exact` by less than one unit and one pixel downwards, and by less than one pixel upwards. */
  predicate IsNear(v: int, exact: real, pixel: real) {
    -1.0 - pixel < v as real - exact < pixel
  }

  lemma ErrorInUnits(v: int, origin: int, pixel: int, num: int, den: int)
    requires num > 0 && den > 0
    requires -num - den < num * (v - origin) - pixel * den < den
    ensures IsNear(v, ExactPosition(origin, pixel, num, den), PixelSize(num, den))
  {
    CastProduct(num, v - origin);
    NearFromEquations(v as real, origin as real, ExactPosition(origin, pixel, num, den), PixelSize(num, den),
                      num as real, (pixel * den) as real, den as real);
  }

  lemma NearFromEquations(v: real, origin: real, exact: real, unit: real, n: real, shown: real, d: real)
    requires n > 0.0 && (exact - origin) * n == shown && unit * n == d
    requires -n - d < n * (v - origin) - shown < d
    ensures -1.0 - unit < v - exact < unit
  {
    var total := n * (v - origin) - shown;
    assert (v - exact) * n == total;
    assert (v - exact - unit) * n == total - d < 0.0;
    assert (v - exact + 1.0 + unit) * n == total + n + d > 0.0;
    SignOfFactor(v - exact - unit, n);
    SignOfFactor(v - exact + 1.0 + unit, n);
  }

  lemma SignOfFactor(a: real, n: real)
    requires n > 0.0
    ensures a * n < 0.0 ==> a < 0.0
    ensures a * n > 0.0 ==> a > 0.0
  {
  }

  /** The mapping survives the 64-bit product and the 32-bit result. */
  predicate Unsaturated(offset: int, size: int, target: int, extent: int)
    requires size > 0
  {
    var plain := Proportion(offset, size, extent);
    plain <= I64_MAX / size && target + plain <= I32_MAX
  }

  /** Windows of at most 2^31 pixels and units that end within 32 bits never saturate. */
  lemma OrdinaryWindowsDoNotSaturate(offset: int, size: int, target: int, extent: int)
    requires 0 <= offset < size <= 0x8000_0000 && 0 < extent <= 0x8000_0000 && target + extent - 1 <= I32_MAX
    ensures Unsaturated(offset, size, target, extent)
  {
    ProductMonotone(offset + 1, size, extent);
    ProductMonotone(size, 0x8000_0000, extent);
    ProductMonotone(0, offset, extent);
    QuotientBelow(offset * extent, size, extent);
    QuotientMonotone(offset * extent, I64_MAX, size);
  }

  lemma AxisError(pixel: int32, left: int32, size: uint32, origin: int, target: int32, extent: uint32, num: int, den: int)
    requires num > 0 && den > 0 && extent > 0 && Within(pixel, left, size)
    requires Covers(left, size, target - origin, extent, num, den)
    requires Unsaturated(pixel - left, size, target, extent)
    ensures IsNear(MapCoordinate(pixel, left, size, target, extent), ExactPosition(origin, pixel, num, den),
                   PixelSize(num, den))
  {
    var plain := Proportion(pixel - left, size, extent);
    MapIsProportionExactly(pixel, left, size, target, extent);
    ProportionError(left, size, target - origin, extent, num, den, pixel - left);
    assert num * (target - origin + plain) == num * (target + plain - origin);
    ErrorInUnits(target + plain, origin, pixel, num, den);
  }

  /** Where nothing saturates, the point a visible pixel stands for is as near to its exact place
      on the desktop as rounding allows, on each axis. */
  lemma PortalPointIsNear(coords: WindowCoordinateMap, bounds: WindowBounds, d: Desktop,
                          captureWidth: uint32, captureHeight: uint32, p: Point)
    requires IsMapOf(coords, bounds, Some(d), captureWidth, captureHeight) && Inside(p.x, p.y, coords.captureRect)
    requires var full := coords.fullCaptureRect;
             && Inside(p.x, p.y, full)
             && Unsaturated(p.x - full.x, full.width, bounds.x.value, bounds.width)
             && Unsaturated(p.y - full.y, full.height, bounds.y.value, bounds.height)
    ensures var q := coords.PortalPoint(p);
            && q.Some? && captureWidth > 0 && captureHeight > 0
            && IsNear(q.value.x, ExactPosition(d.left, p.x, captureWidth, d.right - d.left),
                      PixelSize(captureWidth, d.right - d.left))
            && IsNear(q.value.y, ExactPosition(d.top, p.y, captureHeight, d.bottom - d.top),
                      PixelSize(captureHeight, d.bottom - d.top))
  {
    var full := coords.fullCaptureRect;
    AxisError(p.x, full.x, full.width, d.left, bounds.x.value, bounds.width, captureWidth, d.right - d.left);
    AxisError(p.y, full.y, full.height, d.top, bounds.y.value, bounds.height, captureHeight, d.bottom - d.top);
  }

  // ----- exactly when the point is near -----

  /** The farthest position an axis of the window can be mapped to: the 64-bit product and the 32-bit
      result stop there, whatever the pixel. */
  function Ceiling(size: int, target: int): int
    requires size > 0
  {
    Min(target + I64_MAX / size, I32_MAX)
  }

  /** Within the source the mapping is the plain proportion, cut off at the ceiling. */
  lemma MapIsCutProportion(pixel: int32, left: int32, size: uint32, target: int32, extent: uint32)
    requires Within(pixel, left, size)
    ensures MapCoordinate(pixel, left, size, target, extent) ==
            Min(target + Proportion(pixel - left, size, extent), Ceiling(size, target))
  {
    var offset := pixel - left;
    ProductMonotone(0, offset, extent);
    QuotientMonotone(0, offset * extent, size);
    if offset * extent <= I64_MAX {
      QuotientMonotone(offset * extent, I64_MAX, size);
    } else {
      QuotientMonotone(I64_MAX, offset * extent, size);
    }
  }

  /** On one axis of a visible pixel: the mapped point is near exactly when the exact position is less
      than one unit and one pixel beyond the ceiling; and what saturation takes away from a near
      point is less than one unit and two pixels. */
  lemma AxisIsNearExactly(pixel: int32, left: int32, size: uint32, origin: int, target: int32, extent: uint32,
                          num: int, den: int)
    requires num > 0 && den > 0 && extent > 0 && Within(pixel, left, size)
    requires Covers(left, size, target - origin, extent, num, den)
    ensures var mapped := MapCoordinate(pixel, left, size, target, extent);
            var exact := ExactPosition(origin, pixel, num, den);
            && (IsNear(mapped, exact, PixelSize(num, den)) <==>
                exact < Ceiling(size, target) as real + 1.0 + PixelSize(num, den))
            && (IsNear(mapped, exact, PixelSize(num, den)) ==>
                (target + Proportion(pixel - left, size, extent) - mapped) as real < 1.0 + 2.0 * PixelSize(num, den))
  {
    var plain := target + Proportion(pixel - left, size, extent);
    ProportionError(left, size, target - origin, extent, num, den, pixel - left);
    assert num * (target - origin + Proportion(pixel - left, size, extent)) == num * (plain - origin);
    ErrorInUnits(plain, origin, pixel, num, den);
    MapIsCutProportion(pixel, left, size, target, extent);
    CutIsNear(plain, Ceiling(size, target), ExactPosition(origin, pixel, num, den), PixelSize(num, den));
  }

  /** Cutting a near position off at `ceiling`. */
  lemma CutIsNear(plain: int, ceiling: int, exact: real, pixel: real)
    requires IsNear(plain, exact, pixel)
    ensures IsNear(Min(plain, ceiling), exact, pixel) <==> exact < ceiling as real + 1.0 + pixel
    ensures IsNear(Min(plain, ceiling), exact, pixel) ==> (plain - Min(plain, ceiling)) as real < 1.0 + 2.0 * pixel
  {
  }

  /** `v` is near the exact position of `pixel` exactly when that is less than one unit and one pixel
      beyond the ceiling of a window of `size` pixels that begins at `target`. */
  predicate IsNearBelowCeiling(v: int, pixel: int, size: int, target: int, origin: int, num: int, den: int)
    requires size > 0 && num > 0
  {
    var (exact, unit) := (ExactPosition(origin, pixel, num, den), PixelSize(num, den));
    IsNear(v, exact, unit) <==> exact < Ceiling(size, target) as real + 1.0 + unit
  }

  /** `q` is where pixel `p` lies on the desktop, up to rounding and the ceiling, on each axis. */
  predicate IsPlaceOf(q: Point, p: Point, full: Rect, bounds: WindowBounds, d: Desktop,
                      captureWidth: uint32, captureHeight: uint32)
  {
    && bounds.x.Some? && bounds.y.Some? && captureWidth > 0 && captureHeight > 0 && full.width > 0 && full.height > 0
    && IsNearBelowCeiling(q.x, p.x, full.width, bounds.x.value, d.left, captureWidth, d.right - d.left)
    && IsNearBelowCeiling(q.y, p.y, full.height, bounds.y.value, d.top, captureHeight, d.bottom - d.top)
  }

  /** For every visible pixel of every mapped window: the portal point is near its exact place on an axis
      exactly when that place is less than one unit and one pixel beyond the window's ceiling. */
  lemma PortalPointIsNearExactly(coords: WindowCoordinateMap, bounds: WindowBounds, d: Desktop,
                                 captureWidth: uint32, captureHeight: uint32, p: Point)
    requires IsMapOf(coords, bounds, Some(d), captureWidth, captureHeight) && Inside(p.x, p.y, coords.captureRect)
    ensures Inside(p.x, p.y, coords.fullCaptureRect) && coords.PortalPoint(p).Some?
    ensures IsPlaceOf(coords.PortalPoint(p).value, p, coords.fullCaptureRect, bounds, d, captureWidth, captureHeight)
  {
    var full := coords.fullCaptureRect;
    assert Inside(p.x, p.y, full);
    AxisIsNearExactly(p.x, full.x, full.width, d.left, bounds.x.value, bounds.width, captureWidth, d.right - d.left);
    AxisIsNearExactly(p.y, full.y, full.height, d.top, bounds.y.value, bounds.height, captureHeight, d.bottom - d.top);
  }

  // ----- the whole chain -----

  /** What a request handler does with its parameters before it asks for the portal point. */
  datatype Placement = Click | Scroll | CentreScroll

  /** The pixel of the capture that a click or scroll at `x`, `y` in `rect` means. */
  predicate IsPixelOf(px: Option<int32>, py: Option<int32>, placement: Placement, rect: Rect,
                      x: Option<int32>, y: Option<int32>)
  {
    match placement
    case Click => x.Some? && y.Some? && px == Some(rect.x + x.value) && py == Some(rect.y + y.value)
    case Scroll =>
      x.Some? && y.Some? && px == Some(Min(rect.x + x.value, I32_MAX)) && py == Some(Min(rect.y + y.value, I32_MAX))
    case CentreScroll =>
      px == Some(Min(rect.x + rect.width / 2, I32_MAX)) && py == Some(Min(rect.y + rect.height / 2, I32_MAX))
  }

  /** A click or scroll from its relative point to the desktop. When it is accepted, its parameters hold the
      pixel it means, which is visible; the target is where that pixel lies and inside the logical window. */
  method PortalTarget(coords: WindowCoordinateMap, params: PointParams, placement: Placement,
                      ghost bounds: WindowBounds, ghost desktop: Option<Desktop>,
                      ghost captureWidth: uint32, ghost captureHeight: uint32)
    returns (target: Result<Option<Point>, PointError>)
    requires IsMapOf(coords, bounds, desktop, captureWidth, captureHeight)
    modifies params
    ensures placement.CentreScroll? ==> target.Ok?
    ensures placement.Scroll? ==> (target.Ok? <==> old(params.IsRelativeTo(coords.captureRect)))
    ensures placement.Click? ==>
              (target.Ok? <==>
                && old(params.IsRelativeTo(coords.captureRect))
                && coords.captureRect.x + old(params.x).value <= I32_MAX
                && coords.captureRect.y + old(params.y).value <= I32_MAX)
    ensures target.Ok? ==>
              && IsPixelOf(params.x, params.y, placement, coords.captureRect, old(params.x), old(params.y))
              && Inside(params.x.value, params.y.value, coords.captureRect)
              && target.value == coords.PortalPoint(Point(params.x.value, params.y.value))
              && (target.value.Some? <==> desktop.Some?)
    ensures target.Ok? && desktop.Some? ==>
              var (p, q) := (Point(params.x.value, params.y.value), target.value.value);
              && Within(q.x, bounds.x.value, bounds.width) && Within(q.y, bounds.y.value, bounds.height)
              && IsPlaceOf(q, p, coords.fullCaptureRect, bounds, desktop.value, captureWidth, captureHeight)
    ensures target.Err? ==> unchanged(params)
  {
    var rect := coords.captureRect;
    ghost var (x, y) := (params.x, params.y);
    var applied: Result<(), PointError>;
    match placement {
      case Click => applied := params.ApplyWindowRelativeClick(rect);
      case Scroll => applied := params.ApplyWindowRelativeScroll(rect);
      case CentreScroll => applied := params.ApplyWindowCenterScroll(rect);
    }
    if applied.Err? {
      return Err(applied.error);
    }
    var p := Point(params.x.value, params.y.value);
    if placement.Scroll? {
      ScrollPointInside(rect, x.value, y.value);
    } else if placement.CentreScroll? {
      CentreIsRelative(rect);
      ScrollPointInside(rect, rect.width / 2, rect.height / 2);
    }
    if desktop.Some? {
      PortalPointInsideWindow(coords, bounds, desktop.value, captureWidth, captureHeight, p);
      PortalPointIsNearExactly(coords, bounds, desktop.value, captureWidth, captureHeight, p);
    }
    target := Ok(coords.PortalPoint(p));
  }

  lemma CentreIsRelative(rect: Rect)
    requires rect.width > 0 && rect.height > 0
    ensures Within(rect.width / 2, 0, rect.width) && Within(rect.height / 2, 0, rect.height)
  {
  }

  const FAR_BOUNDS := WindowBounds(Some(I32_MIN), Some(0), U32_MAX, 1)
  const FAR_MAP := WindowCoordinateMap(Rect(0, 0, I32_MAX, 1), Rect(I32_MIN, 0, U32_MAX, 1),
                                       Some(Rect(I32_MIN, 0, U32_MAX, 1)))

  /** An instance of failure: on an unscaled desktop, a window that begins far to the left sends the last
      visible pixel to the first column, which is its ceiling. */
  lemma SaturatedPointIsFar()
    ensures IsMapOf(FAR_MAP, FAR_BOUNDS, Some(Desktop(0, 0, I32_MAX, 1)), I32_MAX, 1)
    ensures Inside(I32_MAX - 1, 0, FAR_MAP.captureRect)
    ensures FAR_MAP.PortalPoint(Point(I32_MAX - 1, 0)) == Some(Point(0, 0))
    ensures !IsNear(0, ExactPosition(0, I32_MAX - 1, I32_MAX, I32_MAX), PixelSize(I32_MAX, I32_MAX))
  {
    FarMapIsMap();
    LastPixelSaturates();
  }

  lemma FarMapIsMap()
    ensures IsMapOf(FAR_MAP, FAR_BOUNDS, Some(Desktop(0, 0, I32_MAX, 1)), I32_MAX, 1)
  {
    var d := Desktop(0, 0, I32_MAX, 1);
    assert ScaledSpan(I32_MIN, U32_MAX, I32_MAX, I32_MAX) == (I32_MIN, I32_MIN + U32_MAX);
    assert ScaledSpan(0, 1, 1, 1) == (0, 1);
    assert ScaledWindowRect(d, FAR_BOUNDS, I32_MAX, 1) == Ok(Rect(I32_MIN, 0, U32_MAX, 1));
    assert ClipCaptureRect(Rect(I32_MIN, 0, U32_MAX, 1), I32_MAX, 1) == Ok(Rect(0, 0, I32_MAX, 1));
  }

  lemma LastPixelSaturates()
    ensures FAR_MAP.PortalPoint(Point(I32_MAX - 1, 0)) == Some(Point(0, 0))
    ensures !Unsaturated(I32_MAX - 1 - I32_MIN, U32_MAX, I32_MIN, U32_MAX)
  {
    assert I64_MAX / U32_MAX == 0x8000_0000;
  }
}

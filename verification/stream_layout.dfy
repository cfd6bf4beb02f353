/**
 From a captured pixel to a monitor shared with the remote desktop portal: the capture is mapped
 onto the bounding box of the monitors, and the point found is handed on relative to its stream.
 */
module StreamLayout {
  import opened Prelude
  import opened Coordinates

  datatype Scale = Finite(value: real) | NonFinite

  datatype LogicalMonitor = LogicalMonitor(rect: Monitor, scale: Scale)

  datatype PortalStream = PortalStream(nodeId: nat, position: Option<(int32, int32)>, size: Option<(int32, int32)>)

  /** The sum of two 32-bit integers, wrapped around. */
  function WrappingAdd(a: int32, b: int32): int32 {
    var sum := a + b;
    if sum > I32_MAX then sum - 0x1_0000_0000 else if sum < I32_MIN then sum + 0x1_0000_0000 else sum
  }

  predicate ContainsGlobalPoint(s: PortalStream, p: Point) {
    && s.position.Some? && s.size.Some?
    && var ((x, y), (width, height)) := (s.position.value, s.size.value);
       p.x >= x && p.y >= y && p.x < WrappingAdd(x, width) && p.y < WrappingAdd(y, height)
  }

  /** A point to send: relative to a stream, or none; a negative stream size ends in a panic. */
  datatype StreamPoint = Outside | Panic | At(nodeId: nat, x: int, y: int)

  function RelativePoint(s: PortalStream, p: Point): StreamPoint {
    var (x, y) := if s.position.Some? then s.position.value else (0, 0);
    var (width, height) := if s.size.Some? then s.size.value else (I32_MAX, I32_MAX);
    if width <= 0 || height <= 0 then Panic
    else At(s.nodeId, Clamp(p.x - x, 0, width - 1), Clamp(p.y - y, 0, height - 1))
  }

  function MapAbsolutePoint(streams: seq<PortalStream>, p: Point): StreamPoint {
    if streams == [] then Outside
    else if ContainsGlobalPoint(streams[0], p) then RelativePoint(streams[0], p)
    else MapAbsolutePoint(streams[1..], p)
  }

  // ----- from the capture to the desktop -----

  function MapCaptureAxis(value: int32, captureSize: uint32, targetOrigin: int, targetSize: int): int32
    requires captureSize > 0
  {
    var scaled := TruncatingDiv(Clamp(value * targetSize, I64_MIN, I64_MAX), captureSize);
    Clamp(Clamp(targetOrigin + scaled, I64_MIN, I64_MAX), I32_MIN, I32_MAX)
  }

  /** `q` units are where `value` of `captureSize` pixels lies among `targetSize` units, rounded down. */
  predicate IsFloorOf(q: int, value: int, captureSize: int, targetSize: int) {
    q * captureSize <= value * targetSize < (q + 1) * captureSize
  }

  /** The farthest the 64-bit product lets a pixel be placed, counted from the origin. */
  function Reach(captureSize: int): (r: int)
    requires captureSize > 0
    ensures r * captureSize <= I64_MAX < (r + 1) * captureSize
  {
    FloorDiv(I64_MAX, captureSize)
  }

  /** `v` is the place of pixel `value`, or the end of the reach when its place lies farther. */
  predicate IsPlaced(v: int, value: int, captureSize: int, origin: int, targetSize: int)
    requires captureSize > 0
  {
    if value * targetSize < (Reach(captureSize) + 1) * captureSize then IsFloorOf(v - origin, value, captureSize, targetSize)
    else v == origin + Reach(captureSize)
  }

  /** Every pixel is placed, unless the 32-bit clamp cuts its place off; and its place is the scaled one
      exactly when neither the 64-bit product nor the 32-bit result saturates. */
  lemma CaptureAxisIsPlaced(value: int32, captureSize: uint32, origin: int32, targetSize: int)
    requires 0 <= value < captureSize && targetSize > 0
    ensures var v := MapCaptureAxis(value, captureSize, origin, targetSize);
            && (v < I32_MAX ==> IsPlaced(v, value, captureSize, origin, targetSize))
            && (IsFloorOf(v - origin, value, captureSize, targetSize) <==>
                && value * targetSize < (Reach(captureSize) + 1) * captureSize
                && value * targetSize < (I32_MAX - origin + 1) * captureSize)
  {
    var product := value * targetSize;
    var (plain, reach) := (FloorDiv(product, captureSize), Reach(captureSize));
    ProductMonotone(0, value, targetSize);
    AtMostQuotient(product, captureSize, reach);
    AtMostQuotient(product, captureSize, I32_MAX - origin);
    QuotientMonotone(Min(product, I64_MAX), I64_MAX, captureSize);
    if product > I64_MAX {
      QuotientMonotone(I64_MAX, product, captureSize);
    }
    assert MapCaptureAxis(value, captureSize, origin, targetSize) == Min(origin + Min(plain, reach), I32_MAX);
    IsQuotient(Min(Min(plain, reach), I32_MAX - origin), product, captureSize);
  }

  lemma AtMostQuotient(a: int, b: int, q: int)
    requires b > 0
    ensures a / b <= q <==> a < (q + 1) * b
  {
    var r := FloorDiv(a, b);
    if r <= q {
      ProductMonotone(r + 1, q + 1, b);
    } else {
      ProductMonotone(q + 1, r, b);
    }
  }

  lemma IsQuotient(q: int, a: int, b: int)
    requires b > 0
    ensures q * b <= a < (q + 1) * b <==> q == a / b
  {
    if q * b <= a < (q + 1) * b {
      assert (q + 1) * b == q * b + b;
      WholeIsUnique(q, FloorDiv(a, b), a, b);
    }
  }

  function Rects(layout: seq<LogicalMonitor>): seq<Monitor> {
    seq(|layout|, i requires 0 <= i < |layout| => layout[i].rect)
  }

  predicate HasRect(s: PortalStream) {
    s.position.Some? && s.size.Some? && s.size.value.0 > 0 && s.size.value.1 > 0
  }

  function StreamRects(streams: seq<PortalStream>): seq<Monitor>
    requires forall i | 0 <= i < |streams| :: HasRect(streams[i])
  {
    seq(|streams|, i requires 0 <= i < |streams| =>
      assert HasRect(streams[i]);
      var ((x, y), (width, height)) := (streams[i].position.value, streams[i].size.value);
      Monitor(x, y, width, height))
  }

  /** The streams share exactly the monitors, each with its own rectangle. */
  predicate SharesLayout(streams: seq<PortalStream>, layout: seq<LogicalMonitor>) {
    && (forall i | 0 <= i < |streams| :: HasRect(streams[i]))
    && layout != []
    && (forall i | 0 <= i < |layout| :: IsUsable(layout[i].rect))
    && multiset(StreamRects(streams)) == multiset(Rects(layout))
  }

  predicate HasScale(m: LogicalMonitor) {
    m.scale.Finite? && m.scale.value > 0.0
  }

  predicate HasUnknownScale(layout: seq<LogicalMonitor>) {
    |layout| > 1 && exists i :: 0 <= i < |layout| && !HasScale(layout[i])
  }

  predicate ScaleLikeFirst(layout: seq<LogicalMonitor>, i: nat)
    requires i < |layout|
  {
    layout[i].scale.Finite? && layout[0].scale.Finite? && Distance(layout[i].scale.value, layout[0].scale.value) <= 0.01
  }

  predicate ScalesAgree(layout: seq<LogicalMonitor>) {
    |layout| > 1 && !HasUnknownScale(layout) ==> forall i | 0 <= i < |layout| :: ScaleLikeFirst(layout, i)
  }

  predicate IsInCapture(x: int32, y: int32, captureWidth: uint32, captureHeight: uint32) {
    && 0 <= x < Min(captureWidth, I32_MAX) && 0 <= y < Min(captureHeight, I32_MAX)
  }

  predicate IsShared(streams: seq<PortalStream>, p: Point) {
    exists i :: 0 <= i < |streams| && ContainsGlobalPoint(streams[i], p)
  }

  function CapturePoint(d: Desktop, x: int32, y: int32, captureWidth: uint32, captureHeight: uint32): Point
    requires captureWidth > 0 && captureHeight > 0
  {
    Point(MapCaptureAxis(x, captureWidth, d.left, d.right - d.left),
          MapCaptureAxis(y, captureHeight, d.top, d.bottom - d.top))
  }

  /** When a captured pixel is accepted, with `d` the bounding box of the monitors. */
  predicate Accepts(streams: seq<PortalStream>, layout: seq<LogicalMonitor>, d: Desktop,
                    x: int32, y: int32, captureWidth: uint32, captureHeight: uint32)
  {
    && IsInCapture(x, y, captureWidth, captureHeight)
    && SharesLayout(streams, layout)
    && ScalesAgree(layout)
    && (HasUnknownScale(layout) ==> captureWidth == d.right - d.left && captureHeight == d.bottom - d.top)
    && IsUniform(d, captureWidth, captureHeight)
    && IsShared(streams, CapturePoint(d, x, y, captureWidth, captureHeight))
  }

  method MapCapturePointToStreamLayout(streams: seq<PortalStream>, layout: seq<LogicalMonitor>, x: int32, y: int32,
                                       captureWidth: uint32, captureHeight: uint32)
    returns (point: Option<Point>, ghost d: Desktop)
    ensures SharesLayout(streams, layout) && IsInCapture(x, y, captureWidth, captureHeight) ==>
              IsDesktopOf(d, Rects(layout)) && d.left < d.right && d.top < d.bottom
    ensures point.Some? <==> Accepts(streams, layout, d, x, y, captureWidth, captureHeight)
    ensures point.Some? ==>
              && IsInCapture(x, y, captureWidth, captureHeight) && SharesLayout(streams, layout) && ScalesAgree(layout)
              && IsShared(streams, point.value) && d.left < d.right && d.top < d.bottom
              && Distance(captureWidth as real / (d.right - d.left) as real,
                          captureHeight as real / (d.bottom - d.top) as real) <= 0.01
              && (HasUnknownScale(layout) ==> captureWidth == d.right - d.left && captureHeight == d.bottom - d.top)
    ensures point.Some? ==>
              && captureWidth > 0 && captureHeight > 0
              && IsPlaced(point.value.x, x, captureWidth, d.left, d.right - d.left)
              && IsPlaced(point.value.y, y, captureHeight, d.top, d.bottom - d.top)
    ensures point.Some? ==> point == Some(CapturePoint(d, x, y, captureWidth, captureHeight))
  {
    d := Desktop(0, 0, 0, 0);
    if !IsInCapture(x, y, captureWidth, captureHeight) || !SharesLayout(streams, layout) {
      return None, d;
    }
    var box := DesktopOf(Rects(layout));
    assert IsUsable(Rects(layout)[0]) && box.Some?;
    d := box.value;
    var (width, height) := (box.value.right - box.value.left, box.value.bottom - box.value.top);
    var unknownScale := HasUnknownScale(layout);
    if |layout| > 1 && !unknownScale {
      for i := 0 to |layout|
        invariant forall j | 0 <= j < i :: ScaleLikeFirst(layout, j)
      {
        assert HasScale(layout[i]) && HasScale(layout[0]);
        if Distance(layout[i].scale.value, layout[0].scale.value) > 0.01 {
          assert !ScaleLikeFirst(layout, i);
          return None, d;
        }
      }
    }
    if unknownScale && (captureWidth != width || captureHeight != height) {
      return None, d;
    }
    if !IsUniform(box.value, captureWidth, captureHeight) {
      return None, d;
    }
    var found := CapturePoint(box.value, x, y, captureWidth, captureHeight);
    point := if IsShared(streams, found) then Some(found) else None;
    if point.Some? {
      AcceptedPointIsPlaced(streams, layout, d, x, y, captureWidth, captureHeight);
      UniformMeansEqualScales(d, captureWidth, captureHeight);
    }
  }

  // ----- what acceptance guarantees -----

  /** The point lies in a stream, counted from the stream's origin and inside its size. */
  predicate Reproduces(s: PortalStream, sent: StreamPoint, p: Point) {
    && HasRect(s) && sent.At? && sent.nodeId == s.nodeId
    && s.position.value.0 + sent.x == p.x && s.position.value.1 + sent.y == p.y
    && 0 <= sent.x < s.size.value.0 && 0 <= sent.y < s.size.value.1
  }

  /** A stream of positive size that contains a point ends within 32 bits, so no clamp touches the point. */
  lemma ContainedPointIsReproduced(s: PortalStream, p: Point)
    requires HasRect(s) && ContainsGlobalPoint(s, p)
    ensures Reproduces(s, RelativePoint(s, p), p)
    ensures s.position.value.0 + s.size.value.0 <= I32_MAX && s.position.value.1 + s.size.value.1 <= I32_MAX
  {
  }

  lemma {:induction false} SharedPointIsReproduced(streams: seq<PortalStream>, p: Point)
    requires forall i | 0 <= i < |streams| :: HasRect(streams[i])
    requires IsShared(streams, p)
    ensures exists i :: 0 <= i < |streams| && Reproduces(streams[i], MapAbsolutePoint(streams, p), p)
  {
    if ContainsGlobalPoint(streams[0], p) {
      ContainedPointIsReproduced(streams[0], p);
      assert Reproduces(streams[0], MapAbsolutePoint(streams, p), p);
    } else {
      var i :| 0 <= i < |streams| && ContainsGlobalPoint(streams[i], p);
      assert ContainsGlobalPoint(streams[1..][i - 1], p);
      SharedPointIsReproduced(streams[1..], p);
      var j :| 0 <= j < |streams[1..]| && Reproduces(streams[1..][j], MapAbsolutePoint(streams[1..], p), p);
      assert Reproduces(streams[j + 1], MapAbsolutePoint(streams, p), p);
    }
  }

  /** An accepted pixel is placed on both axes: the 32-bit clamp would have put it outside every stream. */
  lemma AcceptedPointIsPlaced(streams: seq<PortalStream>, layout: seq<LogicalMonitor>, d: Desktop,
                              x: int32, y: int32, captureWidth: uint32, captureHeight: uint32)
    requires Accepts(streams, layout, d, x, y, captureWidth, captureHeight)
    requires IsDesktopOf(d, Rects(layout)) && d.left < d.right && d.top < d.bottom
    ensures var p := CapturePoint(d, x, y, captureWidth, captureHeight);
            && IsPlaced(p.x, x, captureWidth, d.left, d.right - d.left)
            && IsPlaced(p.y, y, captureHeight, d.top, d.bottom - d.top)
  {
    var p := CapturePoint(d, x, y, captureWidth, captureHeight);
    var i :| 0 <= i < |streams| && ContainsGlobalPoint(streams[i], p);
    ContainedPointIsReproduced(streams[i], p);
    BoxOriginIs32Bit(d, Rects(layout));
    CaptureAxisIsPlaced(x, captureWidth, d.left, d.right - d.left);
    CaptureAxisIsPlaced(y, captureHeight, d.top, d.bottom - d.top);
  }

  /** An accepted pixel is at its scaled place on an axis exactly when the 64-bit product reaches that far. */
  lemma AcceptedPointIsScaledExactly(streams: seq<PortalStream>, layout: seq<LogicalMonitor>, d: Desktop,
                                     x: int32, y: int32, captureWidth: uint32, captureHeight: uint32)
    requires Accepts(streams, layout, d, x, y, captureWidth, captureHeight)
    requires IsDesktopOf(d, Rects(layout)) && d.left < d.right && d.top < d.bottom
    ensures var (p, w, h) := (CapturePoint(d, x, y, captureWidth, captureHeight), d.right - d.left, d.bottom - d.top);
            && (IsFloorOf(p.x - d.left, x, captureWidth, w) <==> x * w < (Reach(captureWidth) + 1) * captureWidth)
            && (IsFloorOf(p.y - d.top, y, captureHeight, h) <==> y * h < (Reach(captureHeight) + 1) * captureHeight)
  {
    AcceptedPointIsPlaced(streams, layout, d, x, y, captureWidth, captureHeight);
    EndOfReach(x, captureWidth, d.right - d.left);
    EndOfReach(y, captureHeight, d.bottom - d.top);
  }

  lemma EndOfReach(value: int, captureSize: int, targetSize: int)
    requires captureSize > 0
    ensures IsFloorOf(Reach(captureSize), value, captureSize, targetSize) ==>
              value * targetSize < (Reach(captureSize) + 1) * captureSize
  {
  }

  const FAR_LAYOUT := [
    LogicalMonitor(Monitor(I32_MIN, 0, I32_MAX, 3), Finite(1.0)),
    LogicalMonitor(Monitor(-1, 0, I32_MAX, 3), Finite(1.0)),
    LogicalMonitor(Monitor(I32_MAX - 1, 0, I32_MAX, 3), Finite(1.0))]

  const FAR_STREAMS := [
    PortalStream(0, Some((I32_MIN, 0)), Some((I32_MAX, 3))),
    PortalStream(1, Some((-1, 0)), Some((I32_MAX, 3))),
    PortalStream(2, Some((I32_MAX - 1, 0)), Some((I32_MAX, 3)))]

  const FAR_DESKTOP := Desktop(I32_MIN, 0, 2 * I32_MAX - 1, 3)

  /** An instance of the failure: on a very wide desktop a pixel is accepted and sent to column 0, although
      its scaled place is more than a billion units to the right. */
  lemma AcceptedPixelOutOfReach()
    ensures IsDesktopOf(FAR_DESKTOP, Rects(FAR_LAYOUT))
    ensures Accepts(FAR_STREAMS, FAR_LAYOUT, FAR_DESKTOP, I32_MAX - 1, 0, U32_MAX, 2)
    ensures CapturePoint(FAR_DESKTOP, I32_MAX - 1, 0, U32_MAX, 2) == Point(0, 0)
    ensures IsFloorOf(0x3fff_fffc - FAR_DESKTOP.left, I32_MAX - 1, U32_MAX, FAR_DESKTOP.right - FAR_DESKTOP.left)
  {
    var rects := Rects(FAR_LAYOUT);
    assert rects == [FAR_LAYOUT[0].rect, FAR_LAYOUT[1].rect, FAR_LAYOUT[2].rect];
    assert StreamRects(FAR_STREAMS) == rects;
    forall side ensures IsReached(FAR_DESKTOP, rects, side) {
      assert Reaches(FAR_DESKTOP, rects[0], side) || Reaches(FAR_DESKTOP, rects[2], side);
    }
    assert ContainsGlobalPoint(FAR_STREAMS[1], Point(0, 0));
  }

  /** An accepted pixel is always sent: some stream reproduces its desktop point without clamping. */
  lemma AcceptedPointIsSent(streams: seq<PortalStream>, layout: seq<LogicalMonitor>, d: Desktop,
                            x: int32, y: int32, captureWidth: uint32, captureHeight: uint32)
    requires Accepts(streams, layout, d, x, y, captureWidth, captureHeight)
    ensures var p := CapturePoint(d, x, y, captureWidth, captureHeight);
            exists i :: 0 <= i < |streams| && Reproduces(streams[i], MapAbsolutePoint(streams, p), p)
  {
    SharedPointIsReproduced(streams, CapturePoint(d, x, y, captureWidth, captureHeight));
  }

  /** A shared point is handed on to the first stream that contains it. */
  lemma {:induction false} FirstStreamIsSent(streams: seq<PortalStream>, p: Point) returns (i: nat)
    requires IsShared(streams, p)
    ensures i < |streams| && ContainsGlobalPoint(streams[i], p)
    ensures forall j | 0 <= j < i :: !ContainsGlobalPoint(streams[j], p)
    ensures MapAbsolutePoint(streams, p) == RelativePoint(streams[i], p)
  {
    if ContainsGlobalPoint(streams[0], p) {
      i := 0;
    } else {
      var k :| 0 <= k < |streams| && ContainsGlobalPoint(streams[k], p);
      assert ContainsGlobalPoint(streams[1..][k - 1], p);
      var rest := FirstStreamIsSent(streams[1..], p);
      i := rest + 1;
      forall j | 0 <= j < i ensures !ContainsGlobalPoint(streams[j], p) {
        assert j > 0 ==> streams[j] == streams[1..][j - 1];
      }
    }
  }

  /** A point that no stream contains is refused, never sent somewhere else. */
  lemma {:induction false} UnsharedPointIsOutside(streams: seq<PortalStream>, p: Point)
    ensures !IsShared(streams, p) ==> MapAbsolutePoint(streams, p) == Outside
  {
    if streams != [] && !IsShared(streams, p) {
      assert !ContainsGlobalPoint(streams[0], p);
      assert forall i | 0 <= i < |streams[1..]| :: streams[1..][i] == streams[i + 1];
      UnsharedPointIsOutside(streams[1..], p);
    }
  }

  /** A pixel of the capture maps into the target, saturated and clamped or not. */
  lemma CaptureAxisStaysWithin(value: int32, captureSize: uint32, targetOrigin: int32, targetSize: int)
    requires 0 <= value < captureSize && targetSize > 0
    ensures Within(MapCaptureAxis(value, captureSize, targetOrigin, targetSize), targetOrigin, targetSize)
  {
    ProductMonotone(value + 1, captureSize, targetSize);
    ProductMonotone(0, value, targetSize);
    QuotientBelow(Clamp(value * targetSize, I64_MIN, I64_MAX), captureSize, targetSize);
  }

  /** Moving right on the capture never moves left on the desktop. */
  lemma CaptureAxisIsMonotone(a: int32, b: int32, captureSize: uint32, targetOrigin: int, targetSize: int)
    requires 0 <= a <= b && captureSize > 0 && targetSize >= 0
    ensures MapCaptureAxis(a, captureSize, targetOrigin, targetSize) <= MapCaptureAxis(b, captureSize, targetOrigin, targetSize)
  {
    ProductMonotone(a, b, targetSize);
    ProductMonotone(0, a, targetSize);
    QuotientMonotone(Clamp(a * targetSize, I64_MIN, I64_MAX), Clamp(b * targetSize, I64_MIN, I64_MAX), captureSize);
  }

  /** On an unscaled capture the axis map is the translation by the origin, up to the 32-bit clamp. */
  lemma UnscaledAxisIsTranslation(value: int32, size: uint32, targetOrigin: int32)
    requires 0 <= value < size
    ensures MapCaptureAxis(value, size, targetOrigin, size) == Clamp(targetOrigin + value, I32_MIN, I32_MAX)
  {
    ProductMonotone(value, I32_MAX, size);
    ProductMonotone(0, value, size);
    assert value * size / size == value by {
      var q := FloorDiv(value * size, size);
      if q < value {
        ProductMonotone(q + 1, value, size);
        assert false;
      }
      if q > value {
        ProductMonotone(value + 1, q, size);
        assert false;
      }
    }
  }

  /** When the monitors' scales are unknown, acceptance means the pixel is moved and not scaled:
      the clamp would have put it outside every stream. */
  lemma UnknownScaleMeansTranslation(streams: seq<PortalStream>, layout: seq<LogicalMonitor>, d: Desktop,
                                     x: int32, y: int32, captureWidth: uint32, captureHeight: uint32)
    requires Accepts(streams, layout, d, x, y, captureWidth, captureHeight) && HasUnknownScale(layout)
    requires IsDesktopOf(d, Rects(layout))
    ensures var p := CapturePoint(d, x, y, captureWidth, captureHeight);
            p.x == d.left + x && p.y == d.top + y
  {
    var p := CapturePoint(d, x, y, captureWidth, captureHeight);
    BoxOriginIs32Bit(d, Rects(layout));
    UnscaledAxisIsTranslation(x, captureWidth, d.left);
    UnscaledAxisIsTranslation(y, captureHeight, d.top);
    var i :| 0 <= i < |streams| && ContainsGlobalPoint(streams[i], p);
    ContainedPointIsReproduced(streams[i], p);
  }

  lemma BoxOriginIs32Bit(d: Desktop, monitors: seq<Monitor>)
    requires IsDesktopOf(d, monitors)
    ensures I32_MIN <= d.left <= I32_MAX && I32_MIN <= d.top <= I32_MAX
  {
    assert IsReached(d, monitors, Left) && IsReached(d, monitors, Top);
  }

  /** Every accepted pixel lands in the bounding box of the monitors. */
  lemma AcceptedPointInBox(streams: seq<PortalStream>, layout: seq<LogicalMonitor>, d: Desktop,
                           x: int32, y: int32, captureWidth: uint32, captureHeight: uint32)
    requires Accepts(streams, layout, d, x, y, captureWidth, captureHeight)
    requires IsDesktopOf(d, Rects(layout)) && d.left < d.right && d.top < d.bottom
    ensures var p := CapturePoint(d, x, y, captureWidth, captureHeight);
            d.left <= p.x < d.right && d.top <= p.y < d.bottom
  {
    BoxOriginIs32Bit(d, Rects(layout));
    CaptureAxisStaysWithin(x, captureWidth, d.left, d.right - d.left);
    CaptureAxisStaysWithin(y, captureHeight, d.top, d.bottom - d.top);
  }

  /** A single shared monitor that ends within 32 bits accepts every pixel of an unscaled capture. */
  lemma SingleMonitorAcceptsEveryPixel(s: PortalStream, m: LogicalMonitor, x: int32, y: int32)
    requires HasRect(s) && s.position == Some((m.rect.x, m.rect.y)) && s.size == Some((m.rect.width, m.rect.height))
    requires 0 <= x < m.rect.width && 0 <= y < m.rect.height
    requires m.rect.x + m.rect.width <= I32_MAX && m.rect.y + m.rect.height <= I32_MAX
    ensures var r := m.rect;
            Accepts([s], [m], Desktop(r.x, r.y, r.x + r.width, r.y + r.height), x, y, r.width, r.height)
  {
    var r := m.rect;
    var d := Desktop(r.x, r.y, r.x + r.width, r.y + r.height);
    UnscaledAxisIsTranslation(x, r.width, r.x);
    UnscaledAxisIsTranslation(y, r.height, r.y);
    assert StreamRects([s]) == [r] == Rects([m]);
    assert ContainsGlobalPoint([s][0], CapturePoint(d, x, y, r.width, r.height));
    assert IsUniform(d, r.width, r.height) by {
      ProductMonotone(0, r.width, r.height);
    }
  }
}

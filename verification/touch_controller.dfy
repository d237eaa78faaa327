/** The touch controller of app.js: the Move/Resize buttons, a two-finger
    pinch that rescales incrementally, a one-finger drag, a debounce after
    each touch start, and the save guard and load defaults of a design.

    The script keeps its state in closure variables; here it is one immutable
    record, and each DOM handler is a pure function from the record (and the
    event's data) to the next record. Time stamps and touch distances come in
    as parameters, in place of `Date.now()` and `Math.sqrt`. */
module TouchController {
  import opened Outcomes
  import opened Numeric
  import opened JsNumber
  import opened Geometry
  import opened Modes

  /** A non-negative length, as `Math.sqrt` returns. */
  type Distance = d: real | 0.0 <= d witness 0.0

  /** The constants of the gesture arithmetic. */
  datatype TouchConfig = TouchConfig(
    scaleRange: Range,   // bounds of the pinch scale
    axisRange: Range,    // bounds of the dragged x and y
    debounceMs: int)     // moves this soon after a touch start are ignored
  {
    predicate Valid() {
      scaleRange.Valid() && axisRange.Valid() && 0 <= debounceMs
    }
  }

  /** The constants app.js uses: scale in [0.3, 5], x and y in [-2, 2],
      100 ms. */
  const AppConfig := TouchConfig(Range(0.3, 5.0), Range(-2.0, 2.0), 100)

  /** World units per screen pixel of drag, a literal in app.js. */
  const DragSensitivity := 0.005

  /** A screen point (`clientX`, `clientY`). */
  datatype Point = Point(x: real, y: real)

  /** The touches of an event as far as the handlers tell them apart: exactly
      one (where it is), exactly two (how far apart), or any other count. */
  datatype Touches = Single(at: Point) | Pair(distance: Distance) | OtherCount

  /** Where the image sits before anything moves it, and the load fallback. */
  const DefaultPosition := Vec3(0.0, 0.0, -2.0)

  datatype TouchState = TouchState(
    imageUrl: Option<string>,          // currentImageUrl
    modes: ModeFlags,                  // isMoving, isResizing
    scale: real,                       // currentScale
    position: Vec3,                    // currentPosition
    pinchDistance: Option<Distance>,   // initialDistance
    anchor: Option<Point>,             // lastTouchX, lastTouchY
    touchStart: Option<int>)           // touchStartTime, in milliseconds

  const Initial := TouchState(None, Idle, 1.0, DefaultPosition, None, None, None)

  /** What a design saved to local storage can hold, as far as loading reads it. */
  datatype SavedDesign = SavedDesign(image: Option<string>, position: Option<Vec3>, scale: Option<real>)

  datatype TouchEvent =
    | ResizeButton
    | MoveButton
    | TouchStart(now: int, touches: Touches)
    | TouchMove(now: int, touches: Touches)
    | TouchEnd
    | ImageRead(url: string)                    // the file reader delivered a data URL
    | LoadDesign(saved: Option<SavedDesign>)    // None: nothing stored, or it did not parse

  /** The clamp invariants the handlers maintain, and mode exclusivity. */
  predicate InBox(cfg: TouchConfig, p: Vec3) {
    cfg.axisRange.Contains(p.x) && cfg.axisRange.Contains(p.y)
  }

  predicate Inv(cfg: TouchConfig, s: TouchState) {
    s.modes.Exclusive() && cfg.scaleRange.Contains(s.scale) && InBox(cfg, s.position)
  }

  lemma InitialInv()
    ensures Inv(AppConfig, Initial)
  {
  }

  // ---------------------------------------------------------------------
  // Touch start and end

  /** handleTouchStart: stamp the time; two touches record their distance
      whatever the mode, one touch records the drag anchor only when moving. */
  function HandleTouchStart(s: TouchState, now: int, t: Touches): (r: TouchState)
    ensures r.touchStart == Some(now)
    ensures t.Pair? ==> r.pinchDistance == Some(t.distance) && r.anchor == s.anchor
    ensures t.Single? && s.modes.isMoving ==> r.anchor == Some(t.at) && r.pinchDistance == s.pinchDistance
    ensures t.Single? && !s.modes.isMoving ==> r.anchor == s.anchor && r.pinchDistance == s.pinchDistance
    ensures t.OtherCount? ==> r.anchor == s.anchor && r.pinchDistance == s.pinchDistance
    ensures r.modes == s.modes && r.scale == s.scale && r.position == s.position && r.imageUrl == s.imageUrl
  {
    var stamped := s.(touchStart := Some(now));
    match t
    case Pair(d) => stamped.(pinchDistance := Some(d))
    case Single(p) => if s.modes.isMoving then stamped.(anchor := Some(p)) else stamped
    case OtherCount => stamped
  }

  /** handleTouchEnd: forget the pinch distance and nothing else; the modes
      stay as they were and so does the drag anchor. */
  function HandleTouchEnd(s: TouchState): (r: TouchState)
    ensures r.pinchDistance.None?
    ensures r.modes == s.modes && r.scale == s.scale && r.position == s.position
    ensures r.anchor == s.anchor && r.touchStart == s.touchStart && r.imageUrl == s.imageUrl
  {
    s.(pinchDistance := None)
  }

  // ---------------------------------------------------------------------
  // Pinch

  /** The pinch formula of handleTouchMove in JavaScript arithmetic: current
      over recorded distance (`null` divides as 0), times the scale, clamped.
      A zero or missing recorded distance makes the ratio infinite, which the
      clamp turns into the maximum scale, or NaN, which it lets through. */
  function PinchScale(cfg: TouchConfig, scale: real, start: Option<Distance>, distance: Distance): (n: Num)
    ensures n.NaN? <==> start.GetOr(0.0) == 0.0 && (distance == 0.0 || scale == 0.0)
    ensures !n.NaN? ==> n.Finite? && (cfg.scaleRange.Valid() ==> cfg.scaleRange.Contains(n.v))
    ensures (start.GetOr(0.0) == 0.0 && distance > 0.0 && scale > 0.0 && cfg.scaleRange.Valid())
              ==> n == Finite(cfg.scaleRange.hi)
  {
    ClampNum(Mul(Div(distance, start.GetOr(0.0)), scale), cfg.scaleRange)
  }

  /** With a recorded distance the pinch is the exact clamped product. */
  lemma PinchExact(cfg: TouchConfig, scale: real, d0: Distance, d: Distance)
    requires d0 > 0.0
    ensures PinchScale(cfg, scale, Some(d0), d) == Finite(Clamp(d / d0 * scale, cfg.scaleRange))
  {
  }

  /** Holding the fingers still keeps an in-range scale exactly. */
  lemma PinchStillKeepsScale(cfg: TouchConfig, scale: real, d: Distance)
    requires d > 0.0 && cfg.scaleRange.Valid() && cfg.scaleRange.Contains(scale)
    ensures PinchScale(cfg, scale, Some(d), d) == Finite(scale)
  {
    PinchExact(cfg, scale, d, d);
    assert d / d * scale == scale;
  }

  /** Spreading the fingers never shrinks a positive in-range scale and
      pinching them together never grows it. */
  lemma PinchDirection(cfg: TouchConfig, scale: real, d0: Distance, d: Distance)
    requires d0 > 0.0 && scale > 0.0
    requires cfg.scaleRange.Valid() && cfg.scaleRange.Contains(scale)
    ensures d >= d0 ==> PinchScale(cfg, scale, Some(d0), d).v >= scale
    ensures d <= d0 ==> PinchScale(cfg, scale, Some(d0), d).v <= scale
  {
    PinchExact(cfg, scale, d0, d);
    RatioAgainstOne(d, d0);
    ScaledClampDirection(d / d0, scale, cfg.scaleRange);
  }

  /** Clamping a scale multiplied by a factor of at least one never lands
      below the scale, and by a factor of at most one never above it. */
  lemma ScaledClampDirection(f: real, scale: real, r: Range)
    requires scale > 0.0 && r.Valid() && r.Contains(scale)
    ensures f >= 1.0 ==> Clamp(f * scale, r) >= scale
    ensures f <= 1.0 ==> Clamp(f * scale, r) <= scale
  {
    var x := f * scale;
    if f >= 1.0 {
      MulMonotone(1.0, f, scale);
      assert x >= scale;
      ClampNonExpansive(x, scale, r);
    }
    if f <= 1.0 {
      MulMonotone(f, 1.0, scale);
      assert x <= scale;
      ClampNonExpansive(x, scale, r);
    }
  }

  lemma RatioAgainstOne(d: real, d0: real)
    requires d0 > 0.0
    ensures d >= d0 ==> d / d0 >= 1.0
    ensures d <= d0 ==> d / d0 <= 1.0
  {
  }

  // ---------------------------------------------------------------------
  // Drag

  /** The drag of handleTouchMove: the finger's pixel delta since the anchor,
      times the sensitivity, is added to x and subtracted from y (screen y
      grows downwards), then x and y are each clamped; z is left alone. */
  function DragTo(cfg: TouchConfig, p: Vec3, from: Point, to: Point): (q: Vec3)
    ensures cfg.axisRange.Valid() ==> InBox(cfg, q)
    ensures q.z == p.z
    ensures cfg.axisRange.Valid() && cfg.axisRange.Contains(p.x) ==>
              (to.x >= from.x ==> p.x <= q.x) && (to.x <= from.x ==> q.x <= p.x)
    ensures cfg.axisRange.Valid() && cfg.axisRange.Contains(p.y) ==>
              (to.y >= from.y ==> q.y <= p.y) && (to.y <= from.y ==> p.y <= q.y)
    ensures var x := p.x + (to.x - from.x) * DragSensitivity;
            && (cfg.axisRange.Valid() && cfg.axisRange.Contains(x) ==> q.x == x)
            && (x <= cfg.axisRange.lo ==> q.x == cfg.axisRange.lo)
            && (cfg.axisRange.Valid() && x >= cfg.axisRange.hi ==> q.x == cfg.axisRange.hi)
    ensures var y := p.y - (to.y - from.y) * DragSensitivity;
            && (cfg.axisRange.Valid() && cfg.axisRange.Contains(y) ==> q.y == y)
            && (y <= cfg.axisRange.lo ==> q.y == cfg.axisRange.lo)
            && (cfg.axisRange.Valid() && y >= cfg.axisRange.hi ==> q.y == cfg.axisRange.hi)
  {
    Vec3(DragAxis(p.x, (to.x - from.x) * DragSensitivity, cfg.axisRange),
         DragAxis(p.y, -((to.y - from.y) * DragSensitivity), cfg.axisRange),
         p.z)
  }

  /** One coordinate of a drag: the offset added, then clamped. From a
      coordinate in range the result moves in the offset's direction. */
  function DragAxis(v: real, delta: real, r: Range): (c: real)
    ensures r.Valid() ==> r.Contains(c)
    ensures r.Valid() && r.Contains(v + delta) ==> c == v + delta
    ensures v + delta <= r.lo ==> c == r.lo
    ensures r.Valid() && v + delta >= r.hi ==> c == r.hi
    ensures r.Valid() && r.Contains(v) ==> (0.0 <= delta ==> v <= c) && (delta <= 0.0 ==> c <= v)
  {
    if r.Valid() && r.Contains(v) then
      ClampNonExpansive(v + delta, v, r);
      Clamp(v + delta, r)
    else
      Clamp(v + delta, r)
  }

  /** A drag that does not reach the box edge is undone by dragging back. */
  lemma DragReversible(cfg: TouchConfig, p: Vec3, a: Point, b: Point)
    requires cfg.Valid() && InBox(cfg, p)
    requires InBox(cfg, Vec3(p.x + (b.x - a.x) * DragSensitivity, p.y - (b.y - a.y) * DragSensitivity, p.z))
    ensures DragTo(cfg, DragTo(cfg, p, a, b), b, a) == p
  {
    var q := DragTo(cfg, p, a, b);
    assert q.x == p.x + (b.x - a.x) * DragSensitivity;
    assert q.y == p.y - (b.y - a.y) * DragSensitivity;
  }

  // ---------------------------------------------------------------------
  // Touch move

  /** The move arrived within the debounce window of the last touch start.
      Before any touch start the stamp is `undefined`, the difference is NaN
      and the comparison is false. */
  predicate Debounced(cfg: TouchConfig, s: TouchState, now: int) {
    s.touchStart.Some? && now - s.touchStart.value < cfg.debounceMs
  }

  predicate PinchApplies(s: TouchState, t: Touches) {
    s.modes.isResizing && t.Pair?
  }

  predicate DragApplies(s: TouchState, t: Touches) {
    !PinchApplies(s, t) && s.modes.isMoving && t.Single?
  }

  /** handleTouchMove. Debounced moves, and moves whose mode and touch count
      match neither branch, change nothing. The pinch makes the current
      distance the new reference; the drag makes the current touch the new
      anchor. A NaN scale (0/0) or a drag from an anchor never recorded
      (`undefined` coordinates) is `NonFinite`. */
  function HandleTouchMove(cfg: TouchConfig, s: TouchState, now: int, t: Touches): (o: Outcome<TouchState>)
    ensures Debounced(cfg, s, now) ==> o == Next(s)
    ensures !PinchApplies(s, t) && !DragApplies(s, t) ==> o == Next(s)
    ensures o.NonFinite? <==>
              (!Debounced(cfg, s, now) &&
               ((PinchApplies(s, t) && PinchScale(cfg, s.scale, s.pinchDistance, t.distance).NaN?)
                || (DragApplies(s, t) && s.anchor.None?)))
    ensures o.Next? ==> o.state.modes == s.modes && o.state.imageUrl == s.imageUrl
                        && o.state.touchStart == s.touchStart
    ensures o.Next? && !Debounced(cfg, s, now) && PinchApplies(s, t) ==>
              && o.state.pinchDistance == Some(t.distance)
              && o.state.scale == PinchScale(cfg, s.scale, s.pinchDistance, t.distance).v
              && (cfg.scaleRange.Valid() ==> cfg.scaleRange.Contains(o.state.scale))
              && o.state.position == s.position && o.state.anchor == s.anchor
    ensures o.Next? && !Debounced(cfg, s, now) && DragApplies(s, t) ==>
              && o.state.anchor == Some(t.at)
              && o.state.position == DragTo(cfg, s.position, s.anchor.value, t.at)
              && o.state.scale == s.scale && o.state.pinchDistance == s.pinchDistance
  {
    if Debounced(cfg, s, now) then Next(s)
    else if PinchApplies(s, t) then
      match PinchScale(cfg, s.scale, s.pinchDistance, t.distance)
      case Finite(k) => Next(s.(scale := k, pinchDistance := Some(t.distance)))
      case _ => NonFinite
    else if DragApplies(s, t) then
      match s.anchor
      case Some(a) => Next(s.(position := DragTo(cfg, s.position, a, t.at), anchor := Some(t.at)))
      case None => NonFinite
    else Next(s)
  }

  /** A pinch whose fingers have not moved since the last sample leaves an
      in-range scale as it was. */
  lemma PinchIdempotent(cfg: TouchConfig, s: TouchState, now: int, d: Distance)
    requires cfg.Valid() && Inv(cfg, s) && !Debounced(cfg, s, now)
    requires s.modes.isResizing && s.pinchDistance == Some(d) && d > 0.0
    ensures HandleTouchMove(cfg, s, now, Pair(d)) == Next(s)
  {
    PinchStillKeepsScale(cfg, s.scale, d);
  }

  /** A pinch from distance 100 to 200 at scale 1 gives 2, and a further
      pinch to 2000 saturates at 5. */
  lemma PinchScenario(s: TouchState, now: int)
    requires s.modes.isResizing && s.scale == 1.0 && s.pinchDistance == Some(100.0)
    requires !Debounced(AppConfig, s, now)
    ensures HandleTouchMove(AppConfig, s, now, Pair(200.0)).Next?
    ensures HandleTouchMove(AppConfig, s, now, Pair(200.0)).state.scale == 2.0
    ensures HandleTouchMove(AppConfig, HandleTouchMove(AppConfig, s, now, Pair(200.0)).state, now, Pair(2000.0))
              == Next(s.(scale := 5.0, pinchDistance := Some(2000.0)))
  {
    PinchExact(AppConfig, 1.0, 100.0, 200.0);
    assert 200.0 / 100.0 * 1.0 == 2.0;
    PinchExact(AppConfig, 2.0, 200.0, 2000.0);
    assert 2000.0 / 200.0 * 2.0 == 20.0;
  }

  /** A drag of (+50, -30) pixels from the centre moves x by +0.25 and y by
      +0.15. */
  lemma DragScenario(s: TouchState, now: int, a: Point)
    requires s.modes.isMoving && !s.modes.isResizing && s.anchor == Some(a)
    requires !Debounced(AppConfig, s, now)
    requires s.position.x == 0.0 && s.position.y == 0.0
    ensures HandleTouchMove(AppConfig, s, now, Single(Point(a.x + 50.0, a.y - 30.0)))
              == Next(s.(position := Vec3(0.25, 0.15, s.position.z), anchor := Some(Point(a.x + 50.0, a.y - 30.0))))
  {
  }

  /** After the fingers lift, a two-finger move in Resizing mode with no new
      touch start divides by the cleared (`null`) distance: the scale jumps
      to the maximum rather than being left alone. */
  lemma PinchAfterTouchEndSaturates(cfg: TouchConfig, s: TouchState, now: int, d: Distance)
    requires cfg.Valid() && Inv(cfg, s) && 0.0 < cfg.scaleRange.lo
    requires s.modes.isResizing && !Debounced(cfg, s, now) && d > 0.0
    ensures HandleTouchMove(cfg, HandleTouchEnd(s), now, Pair(d)) ==
              Next(s.(scale := cfg.scaleRange.hi, pinchDistance := Some(d)))
  {
  }

  // ---------------------------------------------------------------------
  // Save and load

  /** `!currentImageUrl`: no image, or the empty string. */
  predicate HasImage(s: TouchState) {
    s.imageUrl.Some? && s.imageUrl.value != ""
  }

  /** saveDesign: refuses without an image; otherwise records the image,
      position and scale (the download and the time stamp are not modelled). */
  function SaveDesign(s: TouchState): (r: Option<SavedDesign>)
    ensures r.Some? <==> HasImage(s)
    ensures r.Some? ==> r.value.image == s.imageUrl && r.value.position == Some(s.position)
                        && r.value.scale == Some(s.scale)
  {
    if HasImage(s) then Some(SavedDesign(s.imageUrl, Some(s.position), Some(s.scale))) else None
  }

  /** `design.scale || 1`: a missing or zero scale (both falsy) loads as 1. */
  function LoadedScale(scale: Option<real>): (k: real)
    ensures k != 0.0
    ensures scale.Some? && scale.value != 0.0 ==> k == scale.value
    ensures scale.None? || scale.value == 0.0 ==> k == 1.0
  {
    if scale.Some? && scale.value != 0.0 then scale.value else 1.0
  }

  /** loadSavedDesign: with nothing (readable) stored, nothing changes;
      otherwise image, position and scale are taken from the design, with
      position (0, 0, -2) and scale 1 as fallbacks. Modes and gesture
      bookkeeping are untouched. */
  function LoadSavedDesign(s: TouchState, saved: Option<SavedDesign>): (r: TouchState)
    ensures saved.None? ==> r == s
    ensures saved.Some? ==> r.imageUrl == saved.value.image
    ensures saved.Some? && saved.value.position.None? ==> r.position == DefaultPosition
    ensures saved.Some? && saved.value.position.Some? ==> r.position == saved.value.position.value
    ensures saved.Some? ==> r.scale == LoadedScale(saved.value.scale)
    ensures r.modes == s.modes && r.pinchDistance == s.pinchDistance
    ensures r.anchor == s.anchor && r.touchStart == s.touchStart
  {
    match saved
    case None => s
    case Some(d) =>
      s.(imageUrl := d.image, position := d.position.GetOr(DefaultPosition), scale := LoadedScale(d.scale))
  }

  /** Loading what was saved restores image, position and scale, provided
      the scale is not 0 (which would load as 1). Invariant states qualify
      whenever the scale range excludes 0. */
  lemma SaveLoadRoundTrip(cfg: TouchConfig, s: TouchState, t: TouchState)
    requires HasImage(s)
    requires s.scale != 0.0 || (Inv(cfg, s) && 0.0 < cfg.scaleRange.lo)
    ensures SaveDesign(s).Some?
    ensures LoadSavedDesign(t, SaveDesign(s)).imageUrl == s.imageUrl
    ensures LoadSavedDesign(t, SaveDesign(s)).position == s.position
    ensures LoadSavedDesign(t, SaveDesign(s)).scale == s.scale
  {
  }

  // ---------------------------------------------------------------------
  // Size display

  /** The label updateDimensionDisplay shows: the side in metres of a unit
      plane at this scale, and the side in pixels of a 1000-pixel canvas,
      rounded (the two-decimal text formatting is not modelled). */
  datatype SizeLabel = SizeLabel(meters: real, pixels: int)

  function DimensionDisplay(scale: real): (l: SizeLabel)
    ensures l.meters == scale
    ensures l.pixels as real - 0.5 <= 1000.0 * scale < l.pixels as real + 0.5
  {
    SizeLabel(1.0 * scale, JsRound(1000.0 * scale))
  }

  /** Every scale the pinch can produce shows between 300 and 5000 pixels. */
  lemma DisplayWithinCanvasBounds(scale: real)
    requires AppConfig.scaleRange.Contains(scale)
    ensures 300 <= DimensionDisplay(scale).pixels <= 5000
  {
    var n := DimensionDisplay(scale).pixels;
    assert n as real > 299.5 && n as real <= 5000.5;
  }

  // ---------------------------------------------------------------------
  // Events

  /** Events whose effect keeps the invariant: all but a load of a design
      whose (defaulted) scale or position lies outside the bounds. */
  predicate Admissible(cfg: TouchConfig, e: TouchEvent) {
    match e
    case LoadDesign(Some(d)) =>
      cfg.scaleRange.Contains(LoadedScale(d.scale)) && InBox(cfg, d.position.GetOr(DefaultPosition))
    case _ => true
  }

  /** One event. Every event but a touch move is total; every event keeps
      the invariant when it is admissible. */
  function Step(cfg: TouchConfig, s: TouchState, e: TouchEvent): (o: Outcome<TouchState>)
    ensures !e.TouchMove? ==> o.Next?
    ensures cfg.Valid() && Inv(cfg, s) && Admissible(cfg, e) && o.Next? ==> Inv(cfg, o.state)
    ensures e.ResizeButton? ==> o.Next? && o.state.modes.isResizing && !o.state.modes.isMoving
    ensures e.MoveButton? ==> o.Next? && o.state.modes.isMoving && !o.state.modes.isResizing
    ensures e.ResizeButton? ==> o == Next(s.(modes := ActivateResize(s.modes)))
    ensures e.MoveButton? ==> o == Next(s.(modes := ActivateMove(s.modes)))
    ensures e.TouchStart? ==> o == Next(HandleTouchStart(s, e.now, e.touches))
    ensures e.TouchMove? ==> o == HandleTouchMove(cfg, s, e.now, e.touches)
    ensures e.TouchEnd? ==> o == Next(HandleTouchEnd(s))
    ensures e.ImageRead? ==> o == Next(s.(imageUrl := Some(e.url)))
    ensures e.LoadDesign? ==> o == Next(LoadSavedDesign(s, e.saved))
  {
    match e
    case ResizeButton => Next(s.(modes := ActivateResize(s.modes)))
    case MoveButton => Next(s.(modes := ActivateMove(s.modes)))
    case TouchStart(now, t) => Next(HandleTouchStart(s, now, t))
    case TouchMove(now, t) => HandleTouchMove(cfg, s, now, t)
    case TouchEnd => Next(HandleTouchEnd(s))
    case ImageRead(url) => Next(s.(imageUrl := Some(url)))
    case LoadDesign(saved) => Next(LoadSavedDesign(s, saved))
  }

  /** A sequence of events, stopping at the first non-finite one. */
  function Run(cfg: TouchConfig, s: TouchState, es: seq<TouchEvent>): Outcome<TouchState>
    decreases |es|
  {
    if |es| == 0 then Next(s)
    else match Step(cfg, s, es[0])
      case Next(t) => Run(cfg, t, es[1..])
      case NonFinite => NonFinite
  }

  /** Over any sequence of admissible events the scale stays within its
      bounds, x and y stay within the box, and at most one mode is active. */
  lemma {:induction false} RunKeepsInv(cfg: TouchConfig, s: TouchState, es: seq<TouchEvent>)
    requires cfg.Valid() && Inv(cfg, s)
    requires forall i :: 0 <= i < |es| ==> Admissible(cfg, es[i])
    ensures Run(cfg, s, es).Next? ==> Inv(cfg, Run(cfg, s, es).state)
    decreases |es|
  {
    if |es| > 0 {
      match Step(cfg, s, es[0])
      case Next(t) =>
        assert forall i :: 0 <= i < |es[1..]| ==> Admissible(cfg, es[1..][i]) by {
          forall i | 0 <= i < |es[1..]| ensures Admissible(cfg, es[1..][i]) {
            assert es[1..][i] == es[i + 1];
          }
        }
        RunKeepsInv(cfg, t, es[1..]);
      case NonFinite =>
    }
  }

  /** Without touch moves nothing becomes non-finite. */
  lemma {:induction false} RunWithoutMovesIsFinite(cfg: TouchConfig, s: TouchState, es: seq<TouchEvent>)
    requires forall i :: 0 <= i < |es| ==> !es[i].TouchMove?
    ensures Run(cfg, s, es).Next?
    decreases |es|
  {
    if |es| > 0 {
      assert !es[0].TouchMove?;
      var t := Step(cfg, s, es[0]).state;
      assert forall i :: 0 <= i < |es[1..]| ==> !es[1..][i].TouchMove? by {
        forall i | 0 <= i < |es[1..]| ensures !es[1..][i].TouchMove? {
          assert es[1..][i] == es[i + 1];
        }
      }
      RunWithoutMovesIsFinite(cfg, t, es[1..]);
    }
  }
}

/** The pointer-resize rule of main.js: while resizing, vertical pointer
    movement proposes a clamped new plane width, which is applied (and the
    plane rebuilt) only when it differs from the current width by more than
    a threshold; releasing the pointer ends resizing. The Place and Move
    buttons set and clear the placed flag.

    Pointer deltas and the decoded image size come in as parameters; the
    THREE scene and the WebXR button are not modelled. */
module PointerResize {
  import opened Outcomes
  import opened Numeric
  import opened Geometry

  /** The constants of the resize rule. */
  datatype ResizeConfig = ResizeConfig(
    widthRange: Range,   // bounds of the plane width, metres
    sensitivity: real,   // metres per pixel of vertical pointer movement
    threshold: real)     // smallest width change that is applied
  {
    predicate Valid() { widthRange.Valid() && 0.0 < sensitivity && 0.0 <= threshold }
  }

  /** main.js: width in [0.1, 3.0], 0.005 m per pixel, 0.01 m threshold. */
  const MainConfig := ResizeConfig(Range(0.1, 3.0), 0.005, 0.01)

  const InitialWidth := 0.5
  /** Where every rebuilt plane is put. */
  const MeshPosition := Vec3(0.0, 0.0, -2.0)

  datatype PlaneMesh = PlaneMesh(width: real, height: real, position: Vec3)

  datatype PointerState = PointerState(
    hasPlaced: bool,
    isResizing: bool,
    width: real,              // currentImageWidth
    aspect: Positive,         // imageAspectRatio
    mesh: Option<PlaneMesh>)  // imageMesh

  const Initial := PointerState(false, false, InitialWidth, 1.0, None)

  /** createImageMesh: a plane of the given width whose height keeps the
      aspect ratio, put back at (0, 0, -2). */
  function CreateImageMesh(width: real, aspect: Positive): (m: PlaneMesh)
    ensures m.width == width && m.height * aspect == width
    ensures m.position == MeshPosition
  {
    PlaneMesh(width, width / aspect, MeshPosition)
  }

  /** The width a pointer move proposes: moving down (positive delta)
      narrows, moving up widens, clamped to the bounds. */
  function CandidateWidth(cfg: ResizeConfig, width: real, dy: real): (c: real)
    ensures cfg.widthRange.Valid() ==> cfg.widthRange.Contains(c)
    ensures cfg.Valid() && cfg.widthRange.Contains(width) ==>
              && (dy >= 0.0 ==> c <= width)
              && (dy <= 0.0 ==> c >= width)
              && Abs(c - width) <= Abs(dy * cfg.sensitivity)
    ensures cfg.widthRange.Valid() && cfg.widthRange.Contains(width - dy * cfg.sensitivity) ==>
              c == width - dy * cfg.sensitivity
    ensures width - dy * cfg.sensitivity <= cfg.widthRange.lo ==> c == cfg.widthRange.lo
    ensures cfg.widthRange.Valid() && width - dy * cfg.sensitivity >= cfg.widthRange.hi ==> c == cfg.widthRange.hi
  {
    var c := Clamp(width - dy * cfg.sensitivity, cfg.widthRange);
    if cfg.Valid() && cfg.widthRange.Contains(width) then
      ClampNonExpansive(width - dy * cfg.sensitivity, width, cfg.widthRange);
      assert Abs(width - dy * cfg.sensitivity - width) == Abs(dy * cfg.sensitivity);
      c
    else c
  }

  /** The pointermove handler. Without resizing or without a plane nothing
      changes; otherwise the candidate replaces the width (and the plane is
      rebuilt at the new width) exactly when it differs by more than the
      threshold. */
  function PointerMove(cfg: ResizeConfig, s: PointerState, dy: real): (r: PointerState)
    ensures !(s.isResizing && s.mesh.Some?) ==> r == s
    ensures r.width != s.width ==>
              && Abs(r.width - s.width) > cfg.threshold
              && r.width == CandidateWidth(cfg, s.width, dy)
              && r.mesh == Some(CreateImageMesh(r.width, s.aspect))
    ensures (s.isResizing && s.mesh.Some? && Abs(CandidateWidth(cfg, s.width, dy) - s.width) > cfg.threshold)
              ==> r.width == CandidateWidth(cfg, s.width, dy) && r.mesh == Some(CreateImageMesh(r.width, s.aspect))
    ensures Abs(CandidateWidth(cfg, s.width, dy) - s.width) <= cfg.threshold ==> r == s
    ensures r.hasPlaced == s.hasPlaced && r.isResizing == s.isResizing && r.aspect == s.aspect
  {
    if s.isResizing && s.mesh.Some? then
      var c := CandidateWidth(cfg, s.width, dy);
      if Abs(c - s.width) > cfg.threshold then
        s.(width := c, mesh := Some(CreateImageMesh(c, s.aspect)))
      else s
    else s
  }

  /** The width label: width and proportional height in centimetres (the
      one-decimal text formatting is not modelled). */
  datatype CmLabel = CmLabel(widthCm: real, heightCm: real)

  /** updateDimensionsDisplay: the label keeps the aspect ratio, and every
      width within the bounds shows between 10 and 300 cm. */
  function DimensionsDisplay(s: PointerState): (l: CmLabel)
    ensures l.heightCm * s.aspect == l.widthCm
    ensures l.widthCm == s.width * 100.0
    ensures MainConfig.widthRange.Contains(s.width) ==> 10.0 <= l.widthCm <= 300.0
  {
    CmLabel(s.width * 100.0, s.width / s.aspect * 100.0)
  }

  datatype PointerEvent =
    | ImageLoaded(imageWidth: Pixels, imageHeight: Pixels)
    | PlaceButton
    | MoveButton
    | ResizeButton
    | PointerMoved(dy: real)
    | PointerUp

  /** The width stays within its bounds and the plane, once built, always
      matches the current width and aspect ratio. */
  predicate Inv(cfg: ResizeConfig, s: PointerState) {
    && cfg.widthRange.Contains(s.width)
    && (s.mesh.Some? ==> s.mesh.value == CreateImageMesh(s.width, s.aspect))
  }

  lemma InitialInv()
    ensures Inv(MainConfig, Initial)
  {
  }

  /** One event. Loading an image takes its aspect ratio and builds the
      plane at the current width; Place sets and Move clears the placed
      flag; Resize starts and pointer-up ends resizing. */
  function Step(cfg: ResizeConfig, s: PointerState, e: PointerEvent): (r: PointerState)
    ensures e.PlaceButton? ==> r.hasPlaced && r.width == s.width && r.mesh == s.mesh
    ensures e.MoveButton? ==> !r.hasPlaced && r.width == s.width && r.mesh == s.mesh
    ensures e.ResizeButton? ==> r.isResizing && r.width == s.width
    ensures e.PointerUp? ==> !r.isResizing && r.width == s.width && r.mesh == s.mesh
    ensures e.ImageLoaded? ==>
              && r.aspect * e.imageHeight as real == e.imageWidth as real
              && r.mesh == Some(CreateImageMesh(s.width, r.aspect))
              && r.width == s.width
              && r.hasPlaced == s.hasPlaced && r.isResizing == s.isResizing
    ensures e.PlaceButton? ==> r == s.(hasPlaced := true)
    ensures e.MoveButton? ==> r == s.(hasPlaced := false)
    ensures e.ResizeButton? ==> r == s.(isResizing := true)
    ensures e.PointerUp? ==> r == s.(isResizing := false)
    ensures e.PointerMoved? ==> r == PointerMove(cfg, s, e.dy)
    ensures cfg.Valid() && Inv(cfg, s) ==> Inv(cfg, r)
  {
    match e
    case ImageLoaded(w, h) =>
      var aspect: Positive := w as real / h as real;
      s.(aspect := aspect, mesh := Some(CreateImageMesh(s.width, aspect)))
    case PlaceButton => s.(hasPlaced := true)
    case MoveButton => s.(hasPlaced := false)
    case ResizeButton => s.(isResizing := true)
    case PointerMoved(dy) => PointerMove(cfg, s, dy)
    case PointerUp => s.(isResizing := false)
  }

  function Run(cfg: ResizeConfig, s: PointerState, es: seq<PointerEvent>): PointerState
    decreases |es|
  {
    if |es| == 0 then s else Run(cfg, Step(cfg, s, es[0]), es[1..])
  }

  /** Over any sequence of events the width stays within its bounds and the
      plane matches it. */
  lemma {:induction false} RunKeepsInv(cfg: ResizeConfig, s: PointerState, es: seq<PointerEvent>)
    requires cfg.Valid() && Inv(cfg, s)
    ensures Inv(cfg, Run(cfg, s, es))
    decreases |es|
  {
    if |es| > 0 {
      RunKeepsInv(cfg, Step(cfg, s, es[0]), es[1..]);
    }
  }

  /** A pointer move too small to pass the threshold on its own. */
  predicate Small(cfg: ResizeConfig, e: PointerEvent) {
    e.PointerMoved? ==> Abs(e.dy * cfg.sensitivity) <= cfg.threshold
  }

  /** Small moves do not accumulate: however many moves each below the
      threshold arrive, interleaved with any other events, the width never
      changes, because each is compared against the unchanged width. */
  lemma {:induction false} SmallMovesDoNotAccumulate(cfg: ResizeConfig, s: PointerState, es: seq<PointerEvent>)
    requires cfg.Valid() && cfg.widthRange.Contains(s.width)
    requires forall i :: 0 <= i < |es| ==> Small(cfg, es[i])
    ensures Run(cfg, s, es).width == s.width
    decreases |es|
  {
    if |es| > 0 {
      var t := Step(cfg, s, es[0]);
      assert Small(cfg, es[0]);
      assert t.width == s.width;
      assert forall i :: 0 <= i < |es[1..]| ==> Small(cfg, es[1..][i]) by {
        forall i | 0 <= i < |es[1..]| ensures Small(cfg, es[1..][i]) {
          assert es[1..][i] == es[i + 1];
        }
      }
      SmallMovesDoNotAccumulate(cfg, t, es[1..]);
    }
  }

  /** The converse of the threshold: while resizing a built plane, a move
      whose unclamped width stays in bounds and exceeds the threshold sets
      the width to exactly `width - dy * sensitivity`. */
  lemma LargeMoveResizes(cfg: ResizeConfig, s: PointerState, dy: real)
    requires cfg.Valid() && s.isResizing && s.mesh.Some?
    requires cfg.widthRange.Contains(s.width - dy * cfg.sensitivity)
    requires Abs(dy * cfg.sensitivity) > cfg.threshold
    ensures PointerMove(cfg, s, dy).width == s.width - dy * cfg.sensitivity
    ensures PointerMove(cfg, s, dy).mesh == Some(CreateImageMesh(s.width - dy * cfg.sensitivity, s.aspect))
  {
    assert Abs(s.width - dy * cfg.sensitivity - s.width) == Abs(dy * cfg.sensitivity);
  }

  /** After the pointer is released, pointer moves change nothing until the
      Resize button is pressed again. */
  lemma {:induction false} ReleasedPointerIsInert(cfg: ResizeConfig, s: PointerState, dys: seq<real>)
    requires !s.isResizing
    ensures Run(cfg, s, seq(|dys|, i requires 0 <= i < |dys| => PointerMoved(dys[i]))) == s
    decreases |dys|
  {
    var es := seq(|dys|, i requires 0 <= i < |dys| => PointerMoved(dys[i]));
    if |dys| > 0 {
      assert es[1..] == seq(|dys[1..]|, i requires 0 <= i < |dys[1..]| => PointerMoved(dys[1..][i]));
      ReleasedPointerIsInert(cfg, s, dys[1..]);
    }
  }
}

/** The select-driven placement state machine of index.js: an uploaded image
    becomes a hidden plane, the first controller select places it on the
    reticle (or in front of the camera on an iPhone 8 Plus that sees no
    surface), and later selects move it to the reticle or resize it from the
    controller's distance, according to the Move/Resize buttons. Each
    rendered frame shows or hides the reticle according to the hit test.

    Hit-test results, the camera, the controller distance and the decoded
    image size come in as parameters; the WebXR session, THREE scene and
    canvas drawing are not modelled. */
module SelectPlacement {
  import opened Outcomes
  import opened Numeric
  import opened Geometry
  import opened Modes

  /** The constants of the resize rule. */
  datatype SelectConfig = SelectConfig(
    sizeRange: Range,      // bounds of the uniform mesh scale
    distanceFactor: real)  // scale per metre of controller-to-reticle distance
  {
    predicate Valid() { sizeRange.Valid() && 0.0 < distanceFactor }
  }

  /** index.js: `MIN_SIZE` 0.1, `MAX_SIZE` 2.0, factor 0.8. */
  const IndexConfig := SelectConfig(Range(0.1, 2.0), 0.8)

  /** Width in metres of a freshly uploaded image's plane. */
  const DefaultWidth := 0.5
  /** Metres in front of the camera for the fallback placement. */
  const FallbackDistance := 1.2
  const MetersToCm := 100.0

  /** The reticle. The hit pose is written into its `matrix` (its automatic
      matrix update is off), while its `local` position and quaternion
      fields keep whatever they were created with. */
  datatype Reticle = Reticle(visible: bool, matrix: Pose, local: Pose)

  /** The image plane: geometry width and height, scale, pose, visibility. */
  datatype ImageMesh = ImageMesh(width: real, height: real, scale: Vec3, pose: Pose, visible: bool)

  datatype XrState = XrState(
    mesh: Option<ImageMesh>,   // imageMesh
    aspect: Positive,          // imageAspectRatio
    modes: ModeFlags,          // isMoving, isResizing
    reticle: Reticle,
    inSession: bool)           // arSession

  const Initial := XrState(None, 1.0, Idle, Reticle(false, IdentityPose, IdentityPose), false)

  // ---------------------------------------------------------------------
  // Upload: texture downscaling and the plane

  datatype Dims = Dims(width: int, height: int)

  /** The texture side limit: 1024 pixels on an iPhone 8 Plus, 2048 elsewhere. */
  function MaxTextureSide(iPhone8Plus: bool): Pixels {
    if iPhone8Plus then 1024 else 2048
  }

  /** The ratio m/l of a limit below the side is in (0, 1) and maps l to m. */
  lemma RatioBelowOne(m: real, l: real)
    requires 0.0 < m < l
    ensures 0.0 < m / l < 1.0
    ensures l * (m / l) == m
  {
    MulCancel(m / l, 1.0, l);
  }

  /** Shrinking by q = m/long, where `long` is the longer side and exceeds
      m: q is the smaller of the two ratios, the longer side lands exactly
      on m, and the shorter one on a value that neither exceeds m nor grows. */
  lemma ShrinkReal(long: real, short: real, m: real)
    requires 0.0 < short <= long && 0.0 < m < long
    ensures m / long <= m / short
    ensures long * (m / long) == m
    ensures 0.0 <= short * (m / long) <= short
    ensures short * (m / long) <= m
  {
    var q := m / long;
    RatioBelowOne(m, long);
    MulMonotone(short, long, q);
    MulMonotone(q, 1.0, short);
    assert (m / short) * short == m;
    MulCancel(q, m / short, short);
  }

  /** The integer facts of the shrink: floors of the scaled sides. */
  lemma ShrinkLongerSide(long: Pixels, short: Pixels, m: Pixels)
    requires short <= long && m < long
    ensures var q := m as real / long as real;
            && Min(q, m as real / short as real) == q
            && Min(m as real / short as real, q) == q
            && (long as real * q).Floor == m
            && 0 <= (short as real * q).Floor <= short
            && (short as real * q).Floor <= m
  {
    ShrinkReal(long as real, short as real, m as real);
    var f := (short as real * (m as real / long as real)).Floor;
    assert f as real <= short as real * (m as real / long as real);
    assert f as real <= short as real;
  }

  /** A side scaled by m/l floors to 0 exactly when it is more than l/m
      times too short: s * m < l. */
  lemma FloorZeroIff(s: Pixels, m: Pixels, l: Pixels)
    ensures (s as real * (m as real / l as real)).Floor == 0 <==> s * m < l
  {
    var x := s as real * (m as real / l as real);
    assert (m as real / l as real) * l as real == m as real;
    assert x * l as real == (s * m) as real;
    if s * m < l {
      if x >= 1.0 {
        MulMonotone(1.0, x, l as real);
      }
    } else if x < 1.0 {
      assert (1.0 - x) * l as real > 0.0;
    }
  }

  /** Each factor is at least 1, so a product is at least either factor. */
  lemma ProductCovers(a: Pixels, b: Pixels)
    ensures a * b >= a && a * b >= b
  {
    assert a * b - a == a * (b - 1) >= 0;
    assert a * b - b == (a - 1) * b >= 0;
  }

  /** The sides a shrinking texture gets: each scaled by the smaller ratio
      to `m` and floored. */
  function ShrunkDims(w: Pixels, h: Pixels, m: Pixels): Dims {
    var ratio := Min(m as real / w as real, m as real / h as real);
    Dims((w as real * ratio).Floor, (h as real * ratio).Floor)
  }

  lemma ShrunkDimsFacts(w: Pixels, h: Pixels, m: Pixels)
    requires w > m || h > m
    ensures var d := ShrunkDims(w, h, m);
            && 0 <= d.width <= m && 0 <= d.height <= m
            && d.width <= w && d.height <= h
            && (h <= w ==>
                  d.width == m && d.height as real <= h as real * (m as real / w as real) < d.height as real + 1.0)
            && (w <= h ==>
                  d.height == m && d.width as real <= w as real * (m as real / h as real) < d.width as real + 1.0)
  {
    if h <= w {
      ShrinkLongerSide(w, h, m);
    }
    if w <= h {
      ShrinkLongerSide(h, w, m);
    }
  }

  /** A shrunk side is 0 exactly when the other side is more than `m`
      times longer. */
  lemma ShrunkDimsZero(w: Pixels, h: Pixels, m: Pixels)
    requires w > m || h > m
    ensures var d := ShrunkDims(w, h, m);
            && (d.width == 0 <==> w * m < h)
            && (d.height == 0 <==> h * m < w)
  {
    if h <= w {
      ShrinkLongerSide(w, h, m);
      assert ShrunkDims(w, h, m) == Dims(m, (h as real * (m as real / w as real)).Floor);
      FloorZeroIff(h, m, w);
      ProductCovers(w, m);
    } else {
      ShrinkLongerSide(h, w, m);
      assert ShrunkDims(w, h, m) == Dims((w as real * (m as real / h as real)).Floor, m);
      FloorZeroIff(w, m, h);
      ProductCovers(h, m);
    }
  }

  /** The downscale branch of handleImageUpload: a texture with a side over
      `m` is shrunk by the smaller of the two ratios to `m`, each side then
      floored; a texture that fits is kept. Both results fit, neither side
      grows, the longer side becomes exactly `m`, and the shorter is its
      proportional value truncated to whole pixels; a side truncates to 0
      exactly when the other side is more than `m` times longer. */
  function Downscale(w: Pixels, h: Pixels, m: Pixels): (d: Dims)
    ensures w <= m && h <= m ==> d == Dims(w, h)
    ensures d.width == 0 <==> w * m < h
    ensures d.height == 0 <==> h * m < w
    ensures 0 <= d.width <= m && 0 <= d.height <= m
    ensures d.width <= w && d.height <= h
    ensures ((w > m || h > m) && h <= w) ==>
              d.width == m
              && d.height as real <= h as real * (m as real / w as real) < d.height as real + 1.0
    ensures ((w > m || h > m) && w <= h) ==>
              d.height == m
              && d.width as real <= w as real * (m as real / h as real) < d.width as real + 1.0
  {
    if w > m || h > m then
      ShrunkDimsFacts(w, h, m);
      ShrunkDimsZero(w, h, m);
      ShrunkDims(w, h, m)
    else
      ProductCovers(w, m);
      ProductCovers(h, m);
      Dims(w, h)
  }

  /** createImageMesh: a hidden plane of the given width whose height keeps
      the image's aspect ratio, at unit scale and the default pose. */
  function CreateImageMesh(width: real, aspect: Positive): (m: ImageMesh)
    ensures m.width == width && m.height * aspect == width
    ensures !m.visible && m.scale == Uniform(1.0) && m.pose == IdentityPose
  {
    ImageMesh(width, width / aspect, Uniform(1.0), IdentityPose, false)
  }

  /** The aspect ratio of a texture with both sides positive. */
  function AspectOf(width: int, height: int): (a: Positive)
    requires 0 < width && 0 < height
    ensures a * height as real == width as real
  {
    width as real / height as real
  }

  /** handleImageUpload once the image has decoded: downscale, take the
      aspect ratio of the texture and replace any previous plane with a new
      hidden one 0.5 m wide. A texture so elongated that a side floors to 0
      pixels would give a zero or infinite aspect ratio: `NonFinite`. */
  function UploadImage(s: XrState, w: Pixels, h: Pixels, iPhone8Plus: bool): (o: Outcome<XrState>)
    ensures var d := Downscale(w, h, MaxTextureSide(iPhone8Plus));
            o.NonFinite? <==> d.width == 0 || d.height == 0
    ensures var d := Downscale(w, h, MaxTextureSide(iPhone8Plus));
            o.Next? ==> o.state.aspect * d.height as real == d.width as real
    ensures o.Next? ==> o.state.mesh.Some? && o.state.mesh.value == CreateImageMesh(DefaultWidth, o.state.aspect)
    ensures o.Next? ==> o.state.modes == s.modes && o.state.reticle == s.reticle && o.state.inSession == s.inSession
  {
    UploadDims(s, Downscale(w, h, MaxTextureSide(iPhone8Plus)))
  }

  /** The upload once the texture sides are known. */
  function UploadDims(s: XrState, d: Dims): (o: Outcome<XrState>)
    ensures o.NonFinite? <==> d.width <= 0 || d.height <= 0
    ensures o.Next? ==> o.state.aspect * d.height as real == d.width as real
    ensures o.Next? ==> o.state.mesh.Some? && o.state.mesh.value == CreateImageMesh(DefaultWidth, o.state.aspect)
    ensures o.Next? ==> o.state.modes == s.modes && o.state.reticle == s.reticle && o.state.inSession == s.inSession
  {
    if d.width <= 0 || d.height <= 0 then NonFinite
    else
      var aspect := AspectOf(d.width, d.height);
      Next(s.(aspect := aspect, mesh := Some(CreateImageMesh(DefaultWidth, aspect))))
  }

  // ---------------------------------------------------------------------
  // Size display

  /** The centimetre label: each side's scaled geometry size, in whole
      centimetres. */
  datatype CmLabel = CmLabel(widthCm: int, heightCm: int)

  /** updateDimensionsDisplay: no label without a mesh; otherwise each side
      rounded to the nearest centimetre. */
  function DimensionsDisplay(s: XrState): (l: Option<CmLabel>)
    ensures l.Some? <==> s.mesh.Some?
    ensures l.Some? ==>
              var m := s.mesh.value;
              var w := m.scale.x * m.width * MetersToCm;
              var h := m.scale.y * m.height * MetersToCm;
              l.value.widthCm as real - 0.5 <= w < l.value.widthCm as real + 0.5
              && l.value.heightCm as real - 0.5 <= h < l.value.heightCm as real + 0.5
  {
    match s.mesh
    case None => None
    case Some(m) =>
      Some(CmLabel(JsRound(m.scale.x * m.width * MetersToCm), JsRound(m.scale.y * m.height * MetersToCm)))
  }

  /** A freshly uploaded plane resized to any allowed scale shows a width
      between 5 and 100 cm. */
  lemma ResizedWidthLabelBounds(s: XrState, c: real)
    requires s.mesh.Some? && s.mesh.value.width == DefaultWidth
    requires s.mesh.value.scale == Uniform(c) && IndexConfig.sizeRange.Contains(c)
    ensures 5 <= DimensionsDisplay(s).value.widthCm <= 100
  {
    var n := DimensionsDisplay(s).value.widthCm;
    assert 5.0 <= c * DefaultWidth * MetersToCm <= 100.0;
    assert n as real > 4.5 && n as real <= 100.5;
  }

  // ---------------------------------------------------------------------
  // Select

  datatype Camera = Camera(position: Vec3, direction: Vec3, orientation: Quat)

  /** What a select event sees besides the state: the device, the camera
      (its position, unit viewing direction and orientation) and, when a
      controller exists, its distance to the reticle. */
  datatype SelectInput = SelectInput(iPhone8Plus: bool, camera: Camera, controllerDistance: Option<real>)

  /** The fallback pose: 1.2 m along the viewing direction, turned like the camera. */
  function FallbackPose(c: Camera): (p: Pose)
    ensures p.orientation == c.orientation
    ensures p.position.x - c.position.x == FallbackDistance * c.direction.x
    ensures p.position.y - c.position.y == FallbackDistance * c.direction.y
    ensures p.position.z - c.position.z == FallbackDistance * c.direction.z
    ensures SquaredNorm(c.direction) == 1.0 ==>
              SquaredNorm(Sub(p.position, c.position)) == FallbackDistance * FallbackDistance
  {
    var d := Sub(Add(c.position, Scale(c.direction, FallbackDistance)), c.position);
    assert d == Scale(c.direction, FallbackDistance);
    assert SquaredNorm(d) == FallbackDistance * FallbackDistance * SquaredNorm(c.direction);
    Pose(Add(c.position, Scale(c.direction, FallbackDistance)), c.orientation)
  }

  /** The resize rule: 0.8 times the controller distance, clamped. */
  function ResizeScale(cfg: SelectConfig, distance: real): (k: real)
    ensures cfg.sizeRange.Valid() ==> cfg.sizeRange.Contains(k)
    ensures (cfg.sizeRange.Valid() && cfg.sizeRange.Contains(distance * cfg.distanceFactor))
              ==> k == distance * cfg.distanceFactor
    ensures cfg.Valid() && 0.0 <= distance <= cfg.sizeRange.lo / cfg.distanceFactor ==> k == cfg.sizeRange.lo
    ensures distance * cfg.distanceFactor <= cfg.sizeRange.lo ==> k == cfg.sizeRange.lo
    ensures cfg.sizeRange.Valid() && distance * cfg.distanceFactor >= cfg.sizeRange.hi ==> k == cfg.sizeRange.hi
  {
    if cfg.Valid() && 0.0 <= distance <= cfg.sizeRange.lo / cfg.distanceFactor then
      MulMonotone(distance, cfg.sizeRange.lo / cfg.distanceFactor, cfg.distanceFactor);
      assert cfg.sizeRange.lo / cfg.distanceFactor * cfg.distanceFactor == cfg.sizeRange.lo;
      Clamp(distance * cfg.distanceFactor, cfg.sizeRange)
    else
      Clamp(distance * cfg.distanceFactor, cfg.sizeRange)
  }

  /** A select with the reticle pose read as `reticlePose`. In priority
      order: no mesh, nothing; a hidden mesh is placed (reticle pose, or the
      camera fallback on an iPhone 8 Plus when the reticle is hidden), shown,
      and the reticle hidden, whatever the mode; a placed mesh in Moving mode
      takes the reticle pose when the reticle is visible; in Resizing mode
      it takes the uniform resize scale when a controller exists and the
      reticle is visible. Otherwise nothing changes. */
  function SelectWith(cfg: SelectConfig, s: XrState, reticlePose: Pose, input: SelectInput): (r: XrState)
    ensures s.mesh.None? ==> r == s
    ensures r.mesh.Some? <==> s.mesh.Some?
    ensures r.modes == s.modes && r.aspect == s.aspect && r.inSession == s.inSession
    ensures r.reticle.matrix == s.reticle.matrix && r.reticle.local == s.reticle.local
    ensures s.mesh.Some? ==> r.mesh.value.visible
    ensures s.mesh.Some? ==> r.mesh.value.width == s.mesh.value.width && r.mesh.value.height == s.mesh.value.height
    ensures s.mesh.Some? && !s.mesh.value.visible ==>
              && !r.reticle.visible
              && r.mesh.value.scale == s.mesh.value.scale
              && r.mesh.value.pose == (if input.iPhone8Plus && !s.reticle.visible
                                       then FallbackPose(input.camera) else reticlePose)
    ensures s.mesh.Some? && s.mesh.value.visible ==> r.reticle == s.reticle
    ensures s.mesh.Some? && s.mesh.value.visible && s.modes.isMoving ==>
              && r.mesh.value.scale == s.mesh.value.scale
              && r.mesh.value.pose == (if s.reticle.visible then reticlePose else s.mesh.value.pose)
    ensures s.mesh.Some? && s.mesh.value.visible && !s.modes.isMoving && s.modes.isResizing ==>
              && r.mesh.value.pose == s.mesh.value.pose
              && r.mesh.value.scale == (if input.controllerDistance.Some? && s.reticle.visible
                                        then Uniform(ResizeScale(cfg, input.controllerDistance.value))
                                        else s.mesh.value.scale)
    ensures s.mesh.Some? && s.mesh.value.visible && !s.modes.isMoving && !s.modes.isResizing ==> r == s
  {
    match s.mesh
    case None => s
    case Some(m) =>
      if !m.visible then
        var p := if input.iPhone8Plus && !s.reticle.visible then FallbackPose(input.camera) else reticlePose;
        s.(mesh := Some(m.(pose := p, visible := true)), reticle := s.reticle.(visible := false))
      else if s.modes.isMoving then
        if s.reticle.visible then s.(mesh := Some(m.(pose := reticlePose))) else s
      else if s.modes.isResizing then
        if input.controllerDistance.Some? && s.reticle.visible then
          s.(mesh := Some(m.(scale := Uniform(ResizeScale(cfg, input.controllerDistance.value)))))
        else s
      else s
  }

  /** onSelect as written: it copies the reticle's position and quaternion
      fields, which the render loop never updates. */
  function OnSelectAsWritten(cfg: SelectConfig, s: XrState, input: SelectInput): (r: XrState)
    ensures (s.mesh.Some? && !s.mesh.value.visible && !(input.iPhone8Plus && !s.reticle.visible))
              ==> r.mesh.Some? && r.mesh.value.pose == s.reticle.local
    ensures (s.mesh.Some? && s.mesh.value.visible && s.modes.isMoving && s.reticle.visible)
              ==> r.mesh.Some? && r.mesh.value.pose == s.reticle.local
  {
    SelectWith(cfg, s, s.reticle.local, input)
  }

  /** onSelect as intended: the reticle pose is the hit pose the render loop
      stored in the reticle's matrix. */
  function OnSelect(cfg: SelectConfig, s: XrState, input: SelectInput): (r: XrState)
    ensures (s.mesh.Some? && !s.mesh.value.visible && !(input.iPhone8Plus && !s.reticle.visible))
              ==> r.mesh.Some? && r.mesh.value.pose == s.reticle.matrix
    ensures (s.mesh.Some? && s.mesh.value.visible && s.modes.isMoving && s.reticle.visible)
              ==> r.mesh.Some? && r.mesh.value.pose == s.reticle.matrix
  {
    SelectWith(cfg, s, s.reticle.matrix, input)
  }

  /** The first select on a hidden mesh places it and never resizes it, even
      in Resizing mode with a controller in range. */
  lemma PlacementBeforeResize(cfg: SelectConfig, s: XrState, input: SelectInput)
    requires s.mesh.Some? && !s.mesh.value.visible && s.modes.isResizing
    requires input.controllerDistance.Some? && s.reticle.visible
    ensures OnSelect(cfg, s, input).mesh.value.scale == s.mesh.value.scale
    ensures OnSelect(cfg, s, input).mesh.value.visible
  {
  }

  // ---------------------------------------------------------------------
  // Frames and the session

  /** What the hit test offers in a frame: no hit-test source (or no
      results API), no results, a first result without a pose, or a pose. */
  datatype HitTest = NoHitSource | NoHits | HitWithoutPose | Hit(pose: Pose)

  /** The reticle part of render: outside a session, or without a frame,
      nothing changes; a hit pose shows the reticle and stores the pose in
      its matrix; no source or no results hide it; a result without a pose
      changes nothing. Nothing else in the state changes. */
  function RenderFrame(s: XrState, frame: Option<HitTest>): (r: XrState)
    ensures !s.inSession || frame.None? ==> r == s
    ensures s.inSession && frame.Some? && frame.value.Hit? ==>
              r.reticle.visible && r.reticle.matrix == frame.value.pose
    ensures s.inSession && frame.Some? && (frame.value.NoHits? || frame.value.NoHitSource?) ==>
              !r.reticle.visible && r.reticle.matrix == s.reticle.matrix
    ensures frame == Some(HitWithoutPose) ==> r == s
    ensures r.reticle.local == s.reticle.local
    ensures r.mesh == s.mesh && r.modes == s.modes && r.aspect == s.aspect && r.inSession == s.inSession
  {
    if !s.inSession then s
    else match frame
      case None => s
      case Some(NoHitSource) => s.(reticle := s.reticle.(visible := false))
      case Some(NoHits) => s.(reticle := s.reticle.(visible := false))
      case Some(HitWithoutPose) => s
      case Some(Hit(p)) => s.(reticle := s.reticle.(visible := true, matrix := p))
  }

  /** During a session, after a frame the reticle is visible exactly when the
      frame had a hit pose, or had a pose-less result while already visible. */
  lemma ReticleFollowsHitTest(s: XrState, h: HitTest)
    requires s.inSession
    ensures RenderFrame(s, Some(h)).reticle.visible <==> h.Hit? || (h.HitWithoutPose? && s.reticle.visible)
  {
  }

  /** startAR succeeded. */
  function StartSession(s: XrState): (r: XrState)
    ensures r.inSession
    ensures r.mesh == s.mesh && r.modes == s.modes && r.reticle == s.reticle && r.aspect == s.aspect
  {
    s.(inSession := true)
  }

  /** onSessionEnd: the session is over and the mesh, if any, is hidden
      (keeping its pose, scale and size); nothing else changes. */
  function EndSession(s: XrState): (r: XrState)
    ensures !r.inSession
    ensures r.mesh.Some? <==> s.mesh.Some?
    ensures r.mesh.Some? ==> !r.mesh.value.visible && r.mesh.value == s.mesh.value.(visible := false)
    ensures r.modes == s.modes && r.reticle == s.reticle && r.aspect == s.aspect
  {
    match s.mesh
    case None => s.(inSession := false)
    case Some(m) => s.(inSession := false, mesh := Some(m.(visible := false)))
  }

  /** After a session ends, the next session's first select places the
      plane again rather than moving or resizing it. */
  lemma SessionEndRearmsPlacement(cfg: SelectConfig, s: XrState, input: SelectInput)
    requires s.mesh.Some? && s.modes.isResizing && input.controllerDistance.Some?
    ensures var r := OnSelect(cfg, StartSession(EndSession(s)), input);
            r.mesh.value.visible && r.mesh.value.scale == s.mesh.value.scale && !r.reticle.visible
  {
  }

  // ---------------------------------------------------------------------
  // The placed object across events

  datatype XrEvent =
    | MoveButton
    | ResizeButton
    | ImageDecoded(width: Pixels, height: Pixels, iPhone8Plus: bool)
    | SessionStarted
    | SessionEnded
    | Frame(hit: Option<HitTest>)
    | Select(input: SelectInput)

  /** The plane keeps the aspect ratio and a uniform scale that is either
      the initial unit scale or a clamped resize result. */
  predicate MeshOk(cfg: SelectConfig, aspect: Positive, m: ImageMesh) {
    && m.height * aspect == m.width
    && m.scale == Uniform(m.scale.x)
    && (m.scale.x == 1.0 || cfg.sizeRange.Contains(m.scale.x))
  }

  predicate Inv(cfg: SelectConfig, s: XrState) {
    && s.modes.Exclusive()
    && (s.mesh.Some? ==> MeshOk(cfg, s.aspect, s.mesh.value))
  }

  lemma InitialInv(cfg: SelectConfig)
    ensures Inv(cfg, Initial)
  {
  }

  /** Which reticle pose a select reads: the position and quaternion
      fields, as the script does, or the hit pose held in the matrix, as it
      intends. */
  datatype ReticleRead = CreationFields | HitMatrix

  /** One event. The select handler reads the reticle as `read` says. */
  function Step(cfg: SelectConfig, read: ReticleRead, s: XrState, e: XrEvent): (o: Outcome<XrState>)
    ensures !e.ImageDecoded? ==> o.Next?
    ensures e.MoveButton? ==> o == Next(s.(modes := ActivateMove(s.modes)))
    ensures e.ResizeButton? ==> o == Next(s.(modes := ActivateResize(s.modes)))
    ensures e.ImageDecoded? ==> o == UploadImage(s, e.width, e.height, e.iPhone8Plus)
    ensures e.SessionStarted? ==> o == Next(StartSession(s))
    ensures e.SessionEnded? ==> o == Next(EndSession(s))
    ensures e.Frame? ==> o == Next(RenderFrame(s, e.hit))
    ensures e.Select? && read.CreationFields? ==> o == Next(OnSelectAsWritten(cfg, s, e.input))
    ensures e.Select? && read.HitMatrix? ==> o == Next(OnSelect(cfg, s, e.input))
    ensures cfg.Valid() && Inv(cfg, s) && o.Next? ==> Inv(cfg, o.state)
  {
    match e
    case MoveButton => Next(s.(modes := ActivateMove(s.modes)))
    case ResizeButton => Next(s.(modes := ActivateResize(s.modes)))
    case ImageDecoded(w, h, iPhone) => UploadImage(s, w, h, iPhone)
    case SessionStarted => Next(StartSession(s))
    case SessionEnded => Next(EndSession(s))
    case Frame(hit) => Next(RenderFrame(s, hit))
    case Select(input) =>
      match read
      case CreationFields => Next(OnSelectAsWritten(cfg, s, input))
      case HitMatrix => Next(OnSelect(cfg, s, input))
  }

  function Run(cfg: SelectConfig, read: ReticleRead, s: XrState, es: seq<XrEvent>): Outcome<XrState>
    decreases |es|
  {
    if |es| == 0 then Next(s)
    else match Step(cfg, read, s, es[0])
      case Next(t) => Run(cfg, read, t, es[1..])
      case NonFinite => NonFinite
  }

  /** Over any sequence of events the plane keeps its aspect ratio and a
      uniform scale within the size bounds (or the initial unit scale), and
      at most one mode is active. */
  lemma {:induction false} RunKeepsInv(cfg: SelectConfig, read: ReticleRead, s: XrState, es: seq<XrEvent>)
    requires cfg.Valid() && Inv(cfg, s)
    ensures Run(cfg, read, s, es).Next? ==> Inv(cfg, Run(cfg, read, s, es).state)
    decreases |es|
  {
    if |es| > 0 {
      match Step(cfg, read, s, es[0])
      case Next(t) => RunKeepsInv(cfg, read, t, es[1..]);
      case NonFinite =>
    }
  }

  /** The event for a press of one of the two mode buttons. */
  function ButtonEvent(b: Button): XrEvent {
    match b
    case MovePress => MoveButton
    case ResizePress => ResizeButton
  }

  /** The mode buttons work in either order: a run of button presses
      changes only the modes, and after a non-empty run exactly the mode of
      the last press is active. */
  lemma {:induction false} ButtonsLastPressWins(cfg: SelectConfig, read: ReticleRead, s: XrState, bs: seq<Button>)
    ensures Run(cfg, read, s, seq(|bs|, i requires 0 <= i < |bs| => ButtonEvent(bs[i])))
              == Next(s.(modes := PressAll(s.modes, bs)))
    ensures |bs| > 0 ==>
              var m := PressAll(s.modes, bs);
              && m.Exclusive()
              && (m.isMoving <==> bs[|bs| - 1] == MovePress)
              && (m.isResizing <==> bs[|bs| - 1] == ResizePress)
    decreases |bs|
  {
    LastPressWins(s.modes, bs);
    var es := seq(|bs|, i requires 0 <= i < |bs| => ButtonEvent(bs[i]));
    if |bs| > 0 {
      var t := s.(modes := Press(s.modes, bs[0]));
      assert Step(cfg, read, s, es[0]) == Next(t);
      assert es[1..] == seq(|bs[1..]|, i requires 0 <= i < |bs[1..]| => ButtonEvent(bs[1..][i]));
      ButtonsLastPressWins(cfg, read, t, bs[1..]);
      assert t.(modes := PressAll(t.modes, bs[1..])) == s.(modes := PressAll(s.modes, bs));
    }
  }

  // ---------------------------------------------------------------------
  // The reticle placement defect

  /** As written, a hit rendered at any pose is ignored by the placing
      select: the plane lands on the pose the reticle was created with. */
  lemma AsWrittenPlacementIgnoresHit(cfg: SelectConfig, s: XrState, p: Pose, input: SelectInput)
    requires s.inSession && s.mesh.Some? && !s.mesh.value.visible
    ensures OnSelectAsWritten(cfg, RenderFrame(s, Some(Hit(p))), input).mesh.value.pose == s.reticle.local
  {
  }

  /** A concrete case: from the start, upload a 100x100 image, start the
      session, see a surface one metre ahead, select. As written the plane
      is placed at the origin, not on the surface. */
  lemma AsWrittenPlacesAtOrigin(input: SelectInput)
    ensures var hit := Pose(Vec3(0.0, 0.0, -1.0), IdentityQuat);
            var s0 := UploadImage(Initial, 100, 100, false).state;
            var s1 := RenderFrame(StartSession(s0), Some(Hit(hit)));
            && OnSelectAsWritten(IndexConfig, s1, input).mesh.value.pose == IdentityPose
            && OnSelectAsWritten(IndexConfig, s1, input).mesh.value.pose != hit
  {
    var s0 := UploadImage(Initial, 100, 100, false);
    assert s0.Next?;
  }

  /** The same session as an event trace: upload, start, a frame that hits
      one metre ahead, select. Reading the creation fields places the plane
      at the origin; reading the hit matrix places it on the surface. */
  lemma TracePlacement(input: SelectInput)
    ensures var hit := Pose(Vec3(0.0, 0.0, -1.0), IdentityQuat);
            var es := [ImageDecoded(100, 100, false), SessionStarted, Frame(Some(Hit(hit))), Select(input)];
            var asWritten := Run(IndexConfig, CreationFields, Initial, es);
            var intended := Run(IndexConfig, HitMatrix, Initial, es);
            && asWritten.Next? && asWritten.state.mesh.Some?
            && asWritten.state.mesh.value.pose == IdentityPose
            && intended.Next? && intended.state.mesh.Some?
            && intended.state.mesh.value.pose == hit
  {
    var hit := Pose(Vec3(0.0, 0.0, -1.0), IdentityQuat);
    var s0 := UploadImage(Initial, 100, 100, false);
    assert s0.Next?;
    TraceRun(CreationFields, input, hit);
    TraceRun(HitMatrix, input, hit);
  }

  /** The trace above unrolled: its run ends with one select on the state
      after the frame. */
  lemma TraceRun(read: ReticleRead, input: SelectInput, hit: Pose)
    ensures var es := [ImageDecoded(100, 100, false), SessionStarted, Frame(Some(Hit(hit))), Select(input)];
            var s0 := UploadImage(Initial, 100, 100, false);
            && s0.Next?
            && Run(IndexConfig, read, Initial, es)
               == Step(IndexConfig, read, RenderFrame(StartSession(s0.state), Some(Hit(hit))), Select(input))
  {
    var es := [ImageDecoded(100, 100, false), SessionStarted, Frame(Some(Hit(hit))), Select(input)];
    var s0 := UploadImage(Initial, 100, 100, false);
    assert s0.Next?;
    var s1 := StartSession(s0.state);
    var s2 := RenderFrame(s1, Some(Hit(hit)));
    assert Step(IndexConfig, read, Initial, es[0]) == s0;
    assert Step(IndexConfig, read, s0.state, SessionStarted) == Next(s1);
    assert Step(IndexConfig, read, s1, Frame(Some(Hit(hit)))) == Next(s2);
    var t := Step(IndexConfig, read, s2, Select(input));
    assert t.Next?;
    assert Run(IndexConfig, read, t.state, []) == t;
    assert Run(IndexConfig, read, s2, [Select(input)]) == t;
    assert es[1..][1..][1..] == [Select(input)];
    assert Run(IndexConfig, read, s1, es[1..][1..]) == t;
    assert es[1..][1..] == [Frame(Some(Hit(hit))), Select(input)];
    assert Run(IndexConfig, read, s0.state, es[1..]) == t;
    assert es[1..] == [SessionStarted, Frame(Some(Hit(hit))), Select(input)];
  }

  /** As intended, the placing select puts the plane on the hit pose of the
      last frame. */
  lemma PlacementFollowsHit(cfg: SelectConfig, s: XrState, p: Pose, input: SelectInput)
    requires s.inSession && s.mesh.Some? && !s.mesh.value.visible
    ensures OnSelect(cfg, RenderFrame(s, Some(Hit(p))), input).mesh.value.pose == p
    ensures OnSelect(cfg, RenderFrame(s, Some(Hit(p))), input).mesh.value.visible
  {
  }
}

# Gesture and placement controllers of an AR image-placement app

This project models the gesture and placement logic in three of the app's
scripts. Each script lets a user upload a photo, put it in an augmented-reality
scene as a textured plane, and move or resize it. Each controller is an
immutable state record plus one pure transition function per DOM or XR event.
Bounds, sensitivities and thresholds are configuration values, instantiated
per script, except app.js's drag sensitivity: the script writes it as the
literal 0.005, and the model has it as the constant `DragSensitivity`.

- `TouchController` (app.js) has the Move/Resize buttons, the two-finger
  pinch, the one-finger drag and the 100 ms debounce. It also models touch
  end and the save guard and load defaults of a stored design. The pinch is
  computed in JavaScript number arithmetic (`JsNumber`). Dividing by a
  cleared or zero finger distance is therefore modelled as the script
  behaves: the scale saturates at its maximum, or becomes NaN at 0/0.
- `SelectPlacement` (index.js, the live code from line 288) has the mode
  buttons, texture downscaling, the aspect-preserving plane and the
  centimetre label. It also has the controller-select state machine
  (place, then move, then resize), reticle visibility per rendered frame,
  and session start and end. The event model takes as a parameter which
  reticle pose select reads. `CreationFields` is the script as written.
  `HitMatrix` is the corrected reading described under Findings.
- `PointerResize` (main.js) has the pointer-drag width rule with its clamp
  and its 0.01 m change threshold, pointer release, the Place/Move flag,
  plane rebuilding and the label.
- Shared modules:
  - `Numeric`: ranges, the `Math.max(lo, Math.min(x, hi))` clamp,
    `Math.round`.
  - `Geometry`: vectors and poses.
  - `Modes`: the mutually exclusive Moving/Resizing flag pair used by
    app.js and index.js.
  - `Outcomes`: `Option`, and the `NonFinite` outcome for events after
    which the script's arithmetic leaves the finite reals.

Notable behaviours of the scripts:
- A pinch with a zero or cleared starting distance is not skipped.
- Touch end clears the pinch distance but not the drag anchor.
- There is no separate Placing mode: index.js places on the first select
  of a hidden plane.
- A saved scale of 0 does not round-trip, because it loads as 1.

## Model

| member | source | states |
|---|---|---|
| Numeric.Clamp | main.js:90 | the clamped value lies in the range, equals the input when the input is in range, and saturates at the nearer bound otherwise |
| Numeric.JsRound | index.js:506-507 | `Math.round` gives the integer within half a unit, with halves rounded up |
| Numeric.JsRoundUnique | app.js:146 | no other integer meets that half-unit bracket, so the rounding is determined |
| JsNumber.Div | app.js:117 | division by zero gives NaN exactly for 0/0 and +infinity for a positive numerator; otherwise the quotient times the divisor is the dividend |
| JsNumber.Mul | app.js:118 | a finite value times s is the exact product; infinity times zero is NaN; NaN propagates; an infinity keeps its sign for positive s and flips it for negative s |
| JsNumber.ClampNum | app.js:118 | the min/max clamp lets NaN through, turns the infinities into the bounds and agrees with the real clamp on finite values |
| Modes.ActivateMove | app.js:89-94 | after the Move button only Moving is active |
| Modes.ActivateResize | app.js:82-87 | after the Resize button only Resizing is active |
| Modes.LastPressWins | index.js:396-408 | after any non-empty sequence of button presses exactly the last pressed mode is active and the flags are exclusive |
| TouchController.InitialInv | app.js:18-24 | the initial scale 1 and position (0, 0, -2) satisfy the clamp invariants, and the modes are exclusive |
| TouchController.HandleTouchStart | app.js:96-107 | touch start stamps the time; two touches record their distance in any mode; one touch records the anchor only in Moving mode; transform and modes are untouched |
| TouchController.HandleTouchEnd | app.js:136-138 | touch end clears the pinch distance and leaves modes, scale, position and anchor untouched |
| TouchController.PinchScale | app.js:117-118 | the pinch result is NaN exactly when the recorded distance is zero or null and the current distance or the scale is zero; otherwise it is in [min, max]; a zero or null start with positive distance and scale saturates at max |
| TouchController.PinchExact | app.js:117-118 | with a positive recorded distance the pinch is the clamped product of the distance ratio and the scale |
| TouchController.PinchStillKeepsScale | app.js:117-118 | an unchanged finger distance keeps an in-range scale exactly |
| TouchController.PinchDirection | app.js:117-118 | spreading the fingers never shrinks and pinching never grows a positive in-range scale |
| TouchController.DragTo | app.js:123-129 | the drag keeps x and y in the box and z unchanged, moves x with the finger and y against it, applies exactly the pixel delta times 0.005 when the box does not intervene, and stops at the box edge on an overshoot |
| TouchController.DragReversible | app.js:124-129 | a drag that stays inside the box is undone by the reverse drag |
| TouchController.HandleTouchMove | app.js:109-134 | a move in the debounce window, or one matching neither branch, changes nothing; a pinch sets the scale to the pinch result, keeps it in range and makes the current distance the new reference; a drag moves the anchor to the current touch; NonFinite exactly for a 0/0 pinch or a drag with no recorded anchor |
| TouchController.PinchIdempotent | app.js:117-120 | a pinch whose distance equals the recorded one leaves the whole state unchanged |
| TouchController.PinchScenario | app.js:112-120 | pinching 100 to 200 at scale 1 gives 2, and a further pinch to 2000 clamps to 5 |
| TouchController.DragScenario | app.js:122-132 | a (+50, -30) pixel drag moves the image by (+0.25, +0.15) |
| TouchController.PinchAfterTouchEndSaturates | app.js:112-138 | after touch end, a two-finger move in Resizing mode with no new touch start jumps the scale to the maximum |
| TouchController.SaveDesign | app.js:151-181 | the save guard: a record is produced exactly when an image is loaded, and it holds that image, position and scale |
| TouchController.LoadedScale | app.js:204 | a missing or zero saved scale loads as 1; any other saved scale is kept; the loaded scale is never 0 |
| TouchController.LoadSavedDesign | app.js:197-210 | nothing stored changes nothing; otherwise image, position (default (0, 0, -2)) and scale (default 1) are loaded and modes and gesture bookkeeping are untouched |
| TouchController.SaveLoadRoundTrip | app.js:169-204 | loading a saved design restores image, position and scale whenever the scale is non-zero, which every invariant state satisfies |
| TouchController.DimensionDisplay | app.js:144-149 | the label shows the scale in metres and the nearest whole number of pixels for a 1000-pixel canvas |
| TouchController.DisplayWithinCanvasBounds | app.js:146 | every allowed scale shows between 300 and 5000 pixels |
| TouchController.Step | app.js:37-48 | each event goes to its handler: the buttons change only the mode flags; touch start, move and end, the image read and the design load run their handlers; every event but a touch move is total; each admissible event keeps scale and position within bounds and the modes exclusive |
| TouchController.RunKeepsInv | app.js:82-138 | over any sequence of admissible events the clamp invariants and mode exclusivity hold after every event |
| TouchController.RunWithoutMovesIsFinite | app.js:82-138 | only touch moves can lead to a non-finite state |
| SelectPlacement.Downscale | index.js:449-457 | both downscaled sides fit in the limit and neither grows; the longer side becomes the limit exactly and the shorter its proportional value truncated; a fitting texture is unchanged; a side truncates to 0 exactly when the other side is more than the limit times longer |
| SelectPlacement.CreateImageMesh | index.js:486-500 | the new plane has the given width, height times aspect equal to the width, unit scale, the default pose, and is hidden |
| SelectPlacement.UploadImage | index.js:449-474 | the aspect ratio is that of the downscaled texture and a fresh hidden 0.5 m plane replaces the old one; NonFinite exactly when a downscaled side is 0 |
| SelectPlacement.DimensionsDisplay | index.js:504-510 | no label without a mesh; otherwise each side is the scaled geometry size rounded to the nearest centimetre |
| SelectPlacement.ResizedWidthLabelBounds | index.js:590-592 | a default plane at any allowed resize scale shows a width between 5 and 100 cm |
| SelectPlacement.FallbackPose | index.js:568-571 | the fallback position is the camera position plus 1.2 times the viewing direction, turned like the camera; for a unit viewing direction it lies exactly 1.2 m from the camera |
| SelectPlacement.ResizeScale | index.js:589-590 | the resize scale is always in [0.1, 2.0], equals 0.8 times the distance when that is in range, and saturates at the minimum for short and at the maximum for long distances |
| SelectPlacement.SelectWith | index.js:561-595 | select changes nothing without a mesh; places, shows and hides the reticle on a hidden mesh whatever the mode; otherwise moves only in Moving mode with a visible reticle and resizes only in Resizing mode with a controller and visible reticle; modes and plane size never change |
| SelectPlacement.OnSelectAsWritten | index.js:574-575 | as written, placement and moving copy the reticle's position and quaternion fields, not the hit pose |
| SelectPlacement.OnSelect | index.js:574-585 | placement and moving put the plane on the reticle's hit pose |
| SelectPlacement.PlacementBeforeResize | index.js:564-593 | the first select on a hidden plane places it and does not resize it, even in Resizing mode |
| SelectPlacement.RenderFrame | index.js:624-667 | outside a session or without a frame nothing changes; a hit pose shows the reticle there; no source or no results hide it; a pose-less result changes nothing; mesh and modes are untouched |
| SelectPlacement.ReticleFollowsHitTest | index.js:650-666 | in a session, the reticle is visible after a frame exactly when the frame had a hit pose, or a pose-less result while already visible |
| SelectPlacement.StartSession | index.js:524-528 | starting a session changes only the session flag |
| SelectPlacement.EndSession | index.js:597-605 | ending the session hides the plane, keeping its pose, scale and size, and changes nothing else |
| SelectPlacement.SessionEndRearmsPlacement | index.js:603-605 | after a session ends, the next session's first select places the plane again instead of resizing it |
| SelectPlacement.InitialInv | index.js:293-303 | the initial state satisfies the plane invariant |
| SelectPlacement.Step | index.js:396-667 | dispatches the mode buttons, image upload, session start and end, the render loop and select; a select runs the as-written or the intended reticle read as chosen; only an image upload can be non-finite, and every event keeps the aspect-consistent plane with a uniform in-range scale and exclusive modes |
| SelectPlacement.ButtonsLastPressWins | index.js:396-408 | a run of mode-button presses changes only the modes, and after a non-empty run exactly the last-pressed mode is active |
| SelectPlacement.RunKeepsInv | index.js:486-593 | over any event sequence, whichever reticle read select uses, the plane keeps its aspect ratio and a uniform scale that is 1 or within [0.1, 2.0] |
| SelectPlacement.AsWrittenPlacementIgnoresHit | index.js:574-575 | as written, a placing select after a hit at any pose puts the plane at the reticle's creation pose |
| SelectPlacement.AsWrittenPlacesAtOrigin | index.js:658-659 | concretely, a hit one metre ahead still places the plane at the origin |
| SelectPlacement.PlacementFollowsHit | index.js:574-578 | as intended, a placing select after a hit puts the visible plane on that hit pose |
| SelectPlacement.TracePlacement | index.js:561-659 | the event trace upload, session start, a frame hitting (0, 0, -1), select ends with the plane at the origin as written and at the hit as intended |
| PointerResize.CreateImageMesh | main.js:30-43 | the rebuilt plane has the given width, aspect-preserving height and position (0, 0, -2) |
| PointerResize.CandidateWidth | main.js:89-90 | the proposed width is the width minus delta times 0.005 when that is in [0.1, 3.0], and the nearer bound otherwise; moving down never widens and moving up never narrows an in-range width |
| PointerResize.PointerMove | main.js:87-96 | without resizing or a plane nothing changes; the width changes exactly when the candidate differs by more than 0.01, and then the plane is rebuilt at it |
| PointerResize.DimensionsDisplay | main.js:45-49 | the label keeps the aspect ratio and shows in-range widths as 10 to 300 cm |
| PointerResize.InitialInv | main.js:23-28 | the initial width 0.5 satisfies the width invariant |
| PointerResize.Step | main.js:51-100 | Place sets and Move clears the placed flag, Resize sets and pointer-up clears the resizing flag, each changing nothing else; a pointer move runs the resize rule; an image load takes its aspect and rebuilds the plane, keeping both flags; every event keeps the width in bounds and the plane matching it |
| PointerResize.RunKeepsInv | main.js:87-96 | over any event sequence the width stays in [0.1, 3.0] and the plane matches it |
| PointerResize.SmallMovesDoNotAccumulate | main.js:91-94 | any number of sub-threshold moves, mixed with other events, never change the width |
| PointerResize.LargeMoveResizes | main.js:88-94 | while resizing a built plane, a move that stays in bounds and exceeds the threshold sets the width to exactly width minus delta times 0.005 and rebuilds the plane |
| PointerResize.ReleasedPointerIsInert | main.js:98-100 | after pointer-up, pointer moves change nothing |

## Left out

- DOM and UI effects are not modelled: button highlight classes, the spinner, alerts, the orientation warning and panel visibility.
- File reading, image decoding and canvas drawing are not modelled. Decoded image sizes and data URLs are event parameters.
- The PNG download in app.js saveDesign is not modelled, and neither are the save record's `dimensions` and `timestamp` fields. Loading never reads them.
- Time and finger distance are parameters. `Date.now()` becomes a millisecond stamp. The `Math.sqrt` finger distance becomes a non-negative real.
- Finite JavaScript numbers are exact reals, so double rounding is not modelled. For example, `w * (maxSize / w)` could floor to one pixel below the limit.
- Signed zero and the `toFixed` label formatting are not modelled.
- NaN and the infinities appear only where the scripts reach them: the app.js pinch, a drag with no recorded anchor, and a degenerate texture. After such an event the model stops with `NonFinite` and does not follow the state further.
- TouchController.SaveDesign: app.js writes the record inside the image's asynchronous `onload`. So a record is written only if the data URL decodes, and it holds the position and scale current at that moment, not at the click. The model produces the record at the click, from the state then.
- Decoded image sides are at least one pixel (`Pixels`). For a zero side, main.js and index.js would compute an aspect ratio of 0 or infinity, which the model does not follow.
- TouchController.LoadSavedDesign: a stored position object that lacks `x` or `y` is not modelled. A position is either present and complete or missing.
- SelectPlacement.UploadImage: returns `NonFinite` where the source builds a plane of zero or infinite height. This happens for a texture so elongated that one side floors to 0 pixels.
- WebXR session and hit-test source negotiation in index.js are not modelled. This includes a hit-test source that is requested only once and never reset. Hit-test availability is a per-frame parameter.
- The camera's viewing direction is an input. Three.js normalises it, but the model does not require a unit vector: `FallbackPose` states the 1.2 m distance only for a unit direction.
- The iPhone 8 Plus detection is not modelled. Whether the device is one is a parameter.
- Other index.js setup is not modelled: the controller grip model, renderer settings, window resize and XR support checks.
- The distance from the XR controller to the reticle is a parameter of the select event.
- The commented-out first version at the top of index.js is dead code and is not modelled.
- src/index.ts, src/main.js and script.js are scene and attribute wiring with no logic of their own. script.js's height rule duplicates the one modelled from index.js.
- main.js `hasPlaced` is set and cleared but never read by the script. The model records it and nothing depends on it.

## Findings

| source | as written | input that shows it | evidently intended | confidence | as-written member | corrected member |
|---|---|---|---|---|---|---|
| index.js:574-575 | Placement copies `reticle.position` and `reticle.quaternion`. The render loop only writes the hit pose into `reticle.matrix` (index.js:659), with the reticle's automatic matrix update off (index.js:383). So those fields keep the reticle's creation pose. The move branch (index.js:583-584) and the resize distance (index.js:589) read the same stale fields. | Upload a 100x100 image, start the session, render a frame that hits a surface at (0, 0, -1), then select. The plane is placed at the origin, not on the surface (`AsWrittenPlacesAtOrigin`, `AsWrittenPlacementIgnoresHit`, and as an event trace `TracePlacement`). | Take the plane's pose from the hit pose held in the reticle's matrix. `PlacementFollowsHit` proves that the plane then lands on the last hit pose. | high; not executed | SelectPlacement.OnSelectAsWritten | SelectPlacement.OnSelect |

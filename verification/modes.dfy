/** The Move/Resize button pair shared by app.js and index.js: two boolean
    flags, each button setting its own flag and clearing the other. */
module Modes {

  datatype ModeFlags = ModeFlags(isMoving: bool, isResizing: bool) {
    /** At most one interaction mode is active. */
    predicate Exclusive() { !(isMoving && isResizing) }
  }

  /** Both flags start false. */
  const Idle := ModeFlags(false, false)

  datatype Button = MovePress | ResizePress

  /** The Move button handler. */
  function ActivateMove(m: ModeFlags): (r: ModeFlags)
    ensures r.isMoving && !r.isResizing
  {
    ModeFlags(true, false)
  }

  /** The Resize button handler. */
  function ActivateResize(m: ModeFlags): (r: ModeFlags)
    ensures r.isResizing && !r.isMoving
  {
    ModeFlags(false, true)
  }

  function Press(m: ModeFlags, b: Button): ModeFlags {
    match b
    case MovePress => ActivateMove(m)
    case ResizePress => ActivateResize(m)
  }

  /** The flags after a sequence of button presses, in order. */
  function PressAll(m: ModeFlags, bs: seq<Button>): ModeFlags
    decreases |bs|
  {
    if |bs| == 0 then m else PressAll(Press(m, bs[0]), bs[1..])
  }

  /** Last press wins: after any non-empty sequence of presses exactly the
      mode of the last press is active and the other is cleared, whatever
      the starting flags were; an empty sequence changes nothing. */
  lemma {:induction false} LastPressWins(m: ModeFlags, bs: seq<Button>)
    ensures |bs| == 0 ==> PressAll(m, bs) == m
    ensures |bs| > 0 ==> PressAll(m, bs).Exclusive()
    ensures |bs| > 0 ==> (PressAll(m, bs).isMoving <==> bs[|bs| - 1] == MovePress)
    ensures |bs| > 0 ==> (PressAll(m, bs).isResizing <==> bs[|bs| - 1] == ResizePress)
    decreases |bs|
  {
    if |bs| > 1 {
      LastPressWins(Press(m, bs[0]), bs[1..]);
      assert bs[1..][|bs[1..]| - 1] == bs[|bs| - 1];
    }
  }
}

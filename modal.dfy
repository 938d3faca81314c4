/**
  The modal state of the machine (distance, motion and plane modes), the G codes
  that select each mode, and the coordinate transform that turns the axis words of
  a line into a target in the work frame and in the machine frame.
*/
module Modal {
  import opened Wrappers
  import opened Geometry

  /** G90 (absolute) or G91 (incremental). */
  datatype DistanceMode = Absolute | Incremental

  /** G0 rapid, G1 linear, G2 clockwise arc, G3 counter-clockwise arc. */
  datatype MotionMode = Rapid | Linear | ClockwiseArc | CounterClockwiseArc

  /** G17 (XY), G18 (ZX) or G19 (YZ). */
  datatype Plane = XY | ZX | YZ

  function DistanceCode(g: real): Option<DistanceMode> {
    if g == 90.0 then Some(Absolute) else if g == 91.0 then Some(Incremental) else None
  }

  function MotionCode(g: real): Option<MotionMode> {
    if g == 0.0 then Some(Rapid)
    else if g == 1.0 then Some(Linear)
    else if g == 2.0 then Some(ClockwiseArc)
    else if g == 3.0 then Some(CounterClockwiseArc)
    else None
  }

  function PlaneCode(g: real): Option<Plane> {
    if g == 17.0 then Some(XY) else if g == 18.0 then Some(ZX) else if g == 19.0 then Some(YZ) else None
  }

  /** G54 to G59 select a coordinate system, named by its code (`G55`). */
  function CoordinateSystemCode(g: real): (r: Option<string>)
    ensures r.Some? <==> g in {54.0, 55.0, 56.0, 57.0, 58.0, 59.0}
    ensures r.Some? ==> r.value == "G5" + [('0' as int + g.Floor - 50) as char]
  {
    if g == 54.0 then Some("G54")
    else if g == 55.0 then Some("G55")
    else if g == 56.0 then Some("G56")
    else if g == 57.0 then Some("G57")
    else if g == 58.0 then Some("G58")
    else if g == 59.0 then Some("G59")
    else None
  }

  /** The X, Y and Z words of a line, each present or absent. */
  datatype AxisWords = AxisWords(x: Option<real>, y: Option<real>, z: Option<real>)

  function AxisTarget(mode: DistanceMode, current: real, word: Option<real>): real {
    match word
    case None => current
    case Some(v) => if mode == Absolute then v else current + v
  }

  /**
    The work-frame target of a move from `posW`: in absolute mode a given axis word
    is the new coordinate, in incremental mode it is added to the current one, and an
    axis without a word keeps its coordinate.
  */
  function Target(mode: DistanceMode, posW: Vec3, words: AxisWords): (t: Vec3)
    ensures mode == Absolute ==>
      t == Vec3(words.x.GetOr(posW.x), words.y.GetOr(posW.y), words.z.GetOr(posW.z))
    ensures mode == Incremental ==>
      Sub(t, posW) == Vec3(words.x.GetOr(0.0), words.y.GetOr(0.0), words.z.GetOr(0.0))
  {
    Vec3(AxisTarget(mode, posW.x, words.x), AxisTarget(mode, posW.y, words.y), AxisTarget(mode, posW.z, words.z))
  }

  /** A line without axis words targets the current position and moves nowhere, in either mode. */
  lemma NoAxisWordsNoMove(mode: DistanceMode, posW: Vec3)
    ensures Target(mode, posW, AxisWords(None, None, None)) == posW
  {
  }

  /**
    When the position is consistent with the offset of the active coordinate system,
    the machine-frame target is consistent too, and the displacement is the same in
    both frames.
  */
  lemma DisplacementSameInBothFrames(posM: Vec3, posW: Vec3, targetW: Vec3, offset: Vec3)
    requires posW == Sub(posM, offset)
    ensures Sub(Add(targetW, offset), posM) == Sub(targetW, posW)
    ensures Sub(Add(targetW, offset), offset) == targetW
  {
  }
}

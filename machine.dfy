/**
  The machine object: the modal state, the position in both frames, the line being
  processed and the variable store, with one method per step of the per-line
  pipeline (`set_line`, `strip`, `tidy`, `split_lines`, `find_vars`,
  `substitute_vars`, `parse_state`, `override_feed`, `scale_spindle`,
  `fractionize`, `done`, `reset`).

  The coordinate-system table belongs to the caller and is held by reference, so
  a change the caller makes to it is seen at the next lookup. The callback is
  modelled as the log of the events it would have received.
*/
module Machine {
  import opened Wrappers
  import opened Geometry
  import opened Modal
  import opened Errors
  import Words
  import Normalizer
  import Variables
  import Overrides
  import Fractionizer

  /** The coordinate-system offsets, keyed by code (`G54`), as the caller owns them. */
  class OffsetTable {
    var offsets: map<string, Vec3>

    constructor(offsets: map<string, Vec3>)
      ensures this.offsets == offsets
    {
      this.offsets := offsets;
    }

    /** The caller's `cs_offsets[name] = offset`. */
    method Set(name: string, offset: Vec3)
      modifies this
      ensures offsets == old(offsets)[name := offset]
    {
      offsets := offsets[name := offset];
    }
  }

  const OnFeedChange := "on_feed_change"

  /** One call of the callback: the event name and its payload. */
  datatype Event = Event(name: string, payload: Option<real>)

  function IsArc(m: Option<MotionMode>): bool {
    m == Some(ClockwiseArc) || m == Some(CounterClockwiseArc)
  }

  class GcodeMachine {
    const table: OffsetTable

    // Modal state.
    var distanceMode: DistanceMode
    var motionMode: Option<MotionMode>
    var plane: Plane
    var cs: string

    // The position in the machine frame and in the work frame of `cs`.
    var posM: Vec3
    var posW: Vec3

    // What `parse_state` found on the last line.
    var targetW: Vec3
    var targetM: Vec3
    var distXyz: Vec3
    var containsFeed: bool
    var feedInCurrentLine: Option<real>
    var containsSpindle: bool
    var currentSpindleSpeed: Option<real>
    var offset: Vec3
    var radius: Option<real>

    var currentFeed: Option<real>
    var line: string
    var comment: string
    var vars: Variables.Store
    var events: seq<Event>

    // Settings the caller changes directly.
    var doFeedOverride: bool
    var requestFeed: real
    var spindleFactor: real
    var doFractionizeLines: bool
    var doFractionizeArcs: bool
    var fractLinearSegmentLen: real

    /** The work-frame position is the machine-frame position less the offset of the active system. */
    predicate Consistent()
      reads this, table
    {
      cs in table.offsets && posW == Sub(posM, table.offsets[cs])
    }

    /** The parsed target is the same point in both frames. */
    predicate TargetConsistent()
      reads this, table
    {
      cs in table.offsets && targetM == Add(targetW, table.offsets[cs])
    }

    /** A machine at `impos` in system `ics`, in G90, G0 and G17, with an empty store. */
    constructor(impos: Vec3, ics: string, table: OffsetTable)
      requires ics in table.offsets
      ensures this.table == table && Consistent() && TargetConsistent()
      ensures cs == ics && posM == impos && posW == Sub(impos, table.offsets[ics])
      ensures distanceMode == Absolute && motionMode == Some(Rapid) && plane == XY
      ensures vars == map[] && events == [] && currentFeed == None
      ensures line == "" && comment == ""
      ensures !doFeedOverride && !doFractionizeLines && !doFractionizeArcs
      ensures spindleFactor == 1.0 && fractLinearSegmentLen == 0.5
    {
      this.table := table;
      distanceMode, motionMode, plane, cs := Absolute, Some(Rapid), XY, ics;
      posM := impos;
      posW := Sub(impos, table.offsets[ics]);
      targetW, targetM, distXyz := Sub(impos, table.offsets[ics]), impos, Origin;
      containsFeed, feedInCurrentLine := false, None;
      containsSpindle, currentSpindleSpeed := false, None;
      offset, radius := Origin, None;
      currentFeed, line, comment, vars, events := None, "", "", map[], [];
      doFeedOverride, requestFeed, spindleFactor := false, 0.0, 1.0;
      doFractionizeLines, doFractionizeArcs, fractLinearSegmentLen := false, false, 0.5;
    }

    /**
      `reset`: empties the store, forgets the feed, returns to G0 and G90, and tells
      the callback that the feed is no longer known.
    */
    method Reset()
      modifies this`vars, this`currentFeed, this`motionMode, this`distanceMode, this`events
      ensures vars == map[] && currentFeed == None
      ensures motionMode == Some(Rapid) && distanceMode == Absolute
      ensures events == old(events) + [Event(OnFeedChange, None)]
    {
      vars, currentFeed := map[], None;
      motionMode, distanceMode := Some(Rapid), Absolute;
      events := events + [Event(OnFeedChange, None)];
    }

    /**
      The `current_cs` setter: the machine-frame position stays, the work-frame
      position follows the new system's offset; a system missing from the table is
      an error and changes nothing.
    */
    method SetCurrentCs(name: string) returns (o: Outcome<Error>)
      modifies this`cs, this`posW
      ensures name in table.offsets <==> o.Pass?
      ensures o.Pass? ==> cs == name && posW == Sub(posM, table.offsets[name]) && Consistent()
      ensures o.Fail? ==> o.error == UnknownCoordinateSystem(name) && unchanged(this)
    {
      if name in table.offsets {
        cs := name;
        posW := Sub(posM, table.offsets[name]);
        o := Pass;
      } else {
        o := Fail(UnknownCoordinateSystem(name));
      }
    }

    /**
      The `position_m` setter: the value is stored as given and the work-frame
      position follows; reading `posM` back gives the value.
    */
    method SetPositionM(p: Vec3) returns (o: Outcome<Error>)
      modifies this`posM, this`posW
      ensures cs in table.offsets <==> o.Pass?
      ensures o.Pass? ==> posM == p && posW == Sub(p, table.offsets[cs]) && Consistent()
      ensures o.Fail? ==> o.error == UnknownCoordinateSystem(cs) && unchanged(this)
    {
      if cs in table.offsets {
        posM := p;
        posW := Sub(p, table.offsets[cs]);
        o := Pass;
      } else {
        o := Fail(UnknownCoordinateSystem(cs));
      }
    }

    /** `set_line`: the command text without parenthesised groups, and the comment apart. */
    method SetLine(text: string)
      modifies this`line, this`comment
      ensures Normalizer.Parts(line, comment) == Normalizer.SplitOffComment(text)
      ensures forall k | 0 <= k < |line| :: line[k] != '(' && line[k] != ';'
      ensures comment == [] || comment[0] == ';'
    {
      var parts := Normalizer.SplitOffComment(text);
      line, comment := parts.line, parts.comment;
    }

    /** `strip`: no whitespace is left, and every other character is kept as often as it was. */
    method Strip()
      modifies this`line
      ensures line == Normalizer.Stripped(old(line))
      ensures Normalizer.NoWhitespace(line)
      ensures forall c | !Normalizer.IsWhitespace(c) :: multiset(line)[c] == multiset(old(line))[c]
    {
      line := Normalizer.Stripped(line);
    }

    /** `tidy`: codes padded to two digits, the whole line commented out when one is not supported. */
    method Tidy()
      modifies this`line
      ensures line == Normalizer.Tidy(old(line))
      ensures Normalizer.Tidy(line) == line
    {
      Normalizer.TidyIdempotent(line);
      line := Normalizer.Tidy(line);
    }

    /** `split_lines`: one line per command word, the comment on the first. */
    method SplitLines() returns (r: seq<string>)
      ensures r == Normalizer.SplitLines(line, comment)
      ensures |r| >= 1 && r[0] == Normalizer.Pieces(line)[0] + comment
      ensures Normalizer.Concat(Normalizer.Pieces(line)) == line
    {
      r := Normalizer.SplitLines(line, comment);
    }

    /**
      `find_vars`: an assignment binds its name to the canonical text of its value
      and becomes a comment; any other line declares the names it references.
      A value that is not a number is an error and changes nothing.
    */
    method FindVars() returns (o: Outcome<Error>)
      modifies this`line, this`vars
      ensures Variables.FindVars(old(line), old(vars)).Err? <==> o.Fail?
      ensures o.Fail? ==> o.error == Variables.FindVars(old(line), old(vars)).error && unchanged(this)
      ensures o.Pass? ==> Variables.Found(line, vars) == Variables.FindVars(old(line), old(vars)).value
      ensures o.Pass? && Variables.ValidStore(old(vars)) ==> Variables.ValidStore(vars)
    {
      match Variables.FindVars(line, vars)
      case Ok(found) =>
        line, vars := found.line, found.vars;
        o := Pass;
      case Err(e) =>
        o := Fail(e);
    }

    /**
      `substitute_vars`: every reference replaced by its value, or the empty line
      when some reference has no value; either way no `#` is left when the store
      holds canonical numbers.
    */
    method SubstituteVars()
      modifies this`line
      ensures line == Variables.Substitute(old(line), vars).GetOr([])
      ensures Variables.AllBound(vars, Variables.Refs(old(line))) ==> line == Variables.Substitute(old(line), vars).value
      ensures !Variables.AllBound(vars, Variables.Refs(old(line))) ==> line == []
      ensures Variables.ValidStore(vars) ==> Variables.NoHash(line)
    {
      match Variables.Substitute(line, vars)
      case Some(t) => line := t;
      case None => line := [];
    }

    /**
      `parse_state`: reads the words of the line and applies them; a line that
      does not read as words is an error and changes nothing.
    */
    method ParseState() returns (o: Outcome<Error>)
      modifies this`distanceMode, this`motionMode, this`plane, this`cs, this`posW
      modifies this`targetW, this`targetM, this`distXyz, this`offset, this`radius
      modifies this`containsFeed, this`feedInCurrentLine, this`containsSpindle, this`currentSpindleSpeed
      ensures Words.ReadLine(line).Err? ==> o == Fail(Words.ReadLine(line).error) && unchanged(this)
      ensures Words.ReadLine(line).Ok? ==> Applied(Words.ReadLine(line).value, o)
      ensures o.Pass? ==> TargetConsistent()
      ensures o.Pass? && (old(Consistent()) || Words.ReadLine(line).value.cs.Some?) ==>
        Consistent() && Sub(targetM, posM) == distXyz
    {
      match Words.ReadLine(line)
      case Err(e) =>
        o := Fail(e);
      case Ok(lw) =>
        o := ApplyWords(lw);
    }

    /**
      What the words of a line do to the machine: the last G code of each group
      sets its mode, a coordinate-system code switches the system, the axis words
      give the target, and the feed, spindle, arc centre and radius words are
      recorded; a system missing from the table is an error and changes nothing.
    */
    twostate predicate Applied(lw: Words.LineWords, new o: Outcome<Error>)
      reads this, table
    {
      MoveApplied(lw, o) && (o.Pass? ==> WordsApplied(lw))
    }

    /**
      The modes, the coordinate system and the move of a line: the target in the
      work frame, the same point in the machine frame, and the displacement.
    */
    twostate predicate MoveApplied(lw: Words.LineWords, new o: Outcome<Error>)
      reads this, table
    {
      var name := lw.cs.GetOr(old(cs));
      && (name !in table.offsets ==> o == Fail(UnknownCoordinateSystem(name)) && unchanged(this))
      && (name in table.offsets ==>
        && o == Pass
        && distanceMode == lw.distance.GetOr(old(distanceMode))
        && motionMode == (if lw.motion.Some? then lw.motion else old(motionMode))
        && plane == lw.plane.GetOr(old(plane))
        && cs == name
        && posM == old(posM)
        && posW == (if lw.cs.Some? then Sub(posM, table.offsets[name]) else old(posW))
        && targetW == Target(distanceMode, posW, lw.axes)
        && targetM == Add(targetW, table.offsets[name])
        && distXyz == Sub(targetW, posW))
    }

    /** The feed, spindle, arc centre and radius words of a line; the spindle speed stays when the line has none. */
    twostate predicate WordsApplied(lw: Words.LineWords)
      reads this
    {
      && containsFeed == lw.feed.Some? && feedInCurrentLine == lw.feed
      && containsSpindle == lw.spindle.Some?
      && currentSpindleSpeed == (if lw.spindle.Some? then lw.spindle else old(currentSpindleSpeed))
      && offset == lw.arcOffset && radius == lw.radius
    }

    method ApplyWords(lw: Words.LineWords) returns (o: Outcome<Error>)
      modifies this`distanceMode, this`motionMode, this`plane, this`cs, this`posW
      modifies this`targetW, this`targetM, this`distXyz, this`offset, this`radius
      modifies this`containsFeed, this`feedInCurrentLine, this`containsSpindle, this`currentSpindleSpeed
      ensures Applied(lw, o)
      ensures o.Pass? ==> TargetConsistent()
      ensures o.Pass? && (old(Consistent()) || lw.cs.Some?) ==> Consistent() && Sub(targetM, posM) == distXyz
    {
      o := ApplyMove(lw);
      if o.Pass? {
        SetLineWords(lw);
      }
    }

    method ApplyMove(lw: Words.LineWords) returns (o: Outcome<Error>)
      modifies this`distanceMode, this`motionMode, this`plane, this`cs, this`posW
      modifies this`targetW, this`targetM, this`distXyz
      ensures MoveApplied(lw, o)
      ensures o.Pass? ==> TargetConsistent()
      ensures o.Pass? && (old(Consistent()) || lw.cs.Some?) ==> Consistent() && Sub(targetM, posM) == distXyz
    {
      var name := lw.cs.GetOr(cs);
      if name !in table.offsets {
        o := Fail(UnknownCoordinateSystem(name));
        return;
      }
      SetModes(lw);
      if lw.cs.Some? {
        o := SetCurrentCs(name);
      }
      SetTarget(lw.axes);
      o := Pass;
    }

    /** The distance, motion and plane modes the line selects; a group the line does not name keeps its mode. */
    method SetModes(lw: Words.LineWords)
      modifies this`distanceMode, this`motionMode, this`plane
      ensures distanceMode == lw.distance.GetOr(old(distanceMode))
      ensures motionMode == (if lw.motion.Some? then lw.motion else old(motionMode))
      ensures plane == lw.plane.GetOr(old(plane))
    {
      distanceMode := lw.distance.GetOr(distanceMode);
      if lw.motion.Some? {
        motionMode := lw.motion;
      }
      plane := lw.plane.GetOr(plane);
    }

    /**
      The target of the axis words in the work frame, the same point in the machine
      frame of the active system, and the displacement, which is the same in both
      frames when the position is consistent.
    */
    method SetTarget(axes: AxisWords)
      requires cs in table.offsets
      modifies this`targetW, this`targetM, this`distXyz
      ensures targetW == Target(distanceMode, posW, axes)
      ensures targetM == Add(targetW, table.offsets[cs]) && TargetConsistent()
      ensures distXyz == Sub(targetW, posW)
      ensures Consistent() ==> Sub(targetM, posM) == distXyz
    {
      var off := table.offsets[cs];
      targetW := Target(distanceMode, posW, axes);
      targetM := Add(targetW, off);
      distXyz := Sub(targetW, posW);
      if Consistent() {
        DisplacementSameInBothFrames(posM, posW, targetW, off);
      }
    }

    /** The feed, spindle, arc centre and radius words of the line. */
    method SetLineWords(lw: Words.LineWords)
      modifies this`containsFeed, this`feedInCurrentLine, this`containsSpindle, this`currentSpindleSpeed
      modifies this`offset, this`radius
      ensures WordsApplied(lw)
    {
      containsFeed, feedInCurrentLine := lw.feed.Some?, lw.feed;
      containsSpindle := lw.spindle.Some?;
      if lw.spindle.Some? {
        currentSpindleSpeed := lw.spindle;
      }
      offset, radius := lw.arcOffset, lw.radius;
    }

    /**
      `done`: the parsed target becomes the position in both frames; after an arc
      the motion mode is cleared, after any other move it stays.
    */
    method Done()
      modifies this`posW, this`posM, this`motionMode
      ensures posW == old(targetW) && posM == old(targetM)
      ensures motionMode == if IsArc(old(motionMode)) then None else old(motionMode)
      ensures old(TargetConsistent()) ==> Consistent()
    {
      posW, posM := targetW, targetM;
      if IsArc(motionMode) {
        motionMode := None;
      }
    }

    /**
      `override_feed`: with the override on, the line's feed becomes the requested
      one and the callback hears the request; with it off, the callback hears the
      line's own feed, if it has one.
    */
    method OverrideFeed()
      modifies this`line, this`currentFeed, this`events
      ensures doFeedOverride ==>
        && line == Overrides.FeedRewrite(old(line), requestFeed)
        && currentFeed == Some(requestFeed)
        && events == old(events) + [Event(OnFeedChange, Some(requestFeed))]
      ensures !doFeedOverride && containsFeed ==>
        && line == old(line)
        && currentFeed == feedInCurrentLine
        && events == old(events) + [Event(OnFeedChange, feedInCurrentLine)]
      ensures !doFeedOverride && !containsFeed ==> unchanged(this)
    {
      if doFeedOverride {
        line := Overrides.FeedRewrite(line, requestFeed);
        currentFeed := Some(requestFeed);
        events := events + [Event(OnFeedChange, Some(requestFeed))];
      } else if containsFeed {
        currentFeed := feedInCurrentLine;
        events := events + [Event(OnFeedChange, feedInCurrentLine)];
      }
    }

    /** `scale_spindle`: a line with a spindle word gets the speed times the factor, written whole. */
    method ScaleSpindle()
      modifies this`line
      ensures containsSpindle && currentSpindleSpeed.Some? ==>
        line == Overrides.SpindleRewrite(old(line), currentSpindleSpeed.value, spindleFactor)
      ensures !(containsSpindle && currentSpindleSpeed.Some?) ==> line == old(line)
    {
      if containsSpindle && currentSpindleSpeed.Some? {
        line := Overrides.SpindleRewrite(line, currentSpindleSpeed.value, spindleFactor);
      }
    }

    /**
      `fractionize`: a G1 move, when lines are fractionized, becomes segments of at
      most the configured length from the position to the target; a G2 or G3 move,
      when arcs are fractionized, becomes one segment per given point on the arc and
      one to the target; any other line stays as it is.
    */
    method Fractionize(arcInterior: seq<Vec3>) returns (r: seq<string>)
      requires fractLinearSegmentLen > 0.0
      ensures motionMode == Some(Linear) && doFractionizeLines ==>
        r == Fractionizer.FractionizeLine(line, comment, posW, targetW, fractLinearSegmentLen)
      ensures IsArc(motionMode) && doFractionizeArcs ==>
        r == Fractionizer.FractionizeArc(line, comment, arcInterior, targetW, plane)
      ensures !(motionMode == Some(Linear) && doFractionizeLines) && !(IsArc(motionMode) && doFractionizeArcs) ==>
        r == [line + comment]
      ensures |r| >= 1
    {
      if motionMode == Some(Linear) && doFractionizeLines {
        var segments := Fractionizer.BuildLinearSegments(Fractionizer.Plan(posW, targetW, fractLinearSegmentLen));
        r := [Fractionizer.LineBegin + line + "]" + comment] + segments + [Fractionizer.LineEnd];
      } else if IsArc(motionMode) && doFractionizeArcs {
        r := Fractionizer.FractionizeArc(line, comment, arcInterior, targetW, plane);
      } else {
        r := [line + comment];
      }
    }
  }
}

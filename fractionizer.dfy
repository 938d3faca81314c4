/**
  `fractionize`: a move split into short straight segments, framed by marker
  comments that carry the original line.

  A straight move (`G1`) is cut into steps of at most the configured segment length,
  measured along the axis that moves farthest; every segment but the last ends a
  whole number of steps from the start, and the last ends exactly at the target. An
  arc (`G2`, `G3`) is written through the points the caller computed on it, then
  exactly through the target. The first segment carries `G1`; the others rely on
  the modal motion mode.
*/
module Fractionizer {
  import opened Wrappers
  import opened Decimal
  import opened Geometry
  import opened Modal
  import opened Words
  import opened Sequences

  const LineBegin := ";_gcm.line_begin["
  const LineEnd := ";_gcm.line_end"
  const ArcBegin := ";_gcm.arc_begin["
  const ArcEnd := ";_gcm.arc_end"

  function Abs(x: real): real { if x < 0.0 then -x else x }

  /** The largest displacement along a single axis. */
  function Longest(d: Vec3): (l: real)
    ensures Abs(d.x) <= l && Abs(d.y) <= l && Abs(d.z) <= l
    ensures l == Abs(d.x) || l == Abs(d.y) || l == Abs(d.z)
    ensures l == 0.0 <==> d == Origin
  {
    var m := if Abs(d.x) < Abs(d.y) then Abs(d.y) else Abs(d.x);
    if m < Abs(d.z) then Abs(d.z) else m
  }

  function Ceil(x: real): (n: int)
    ensures n as real - 1.0 < x <= n as real
  {
    if x.Floor as real == x then x.Floor else x.Floor + 1
  }

  /** The number of segments: the fewest steps of length `step` that cover the longest axis. */
  function StepCount(d: Vec3, step: real): (n: nat)
    requires step > 0.0
    ensures n as real * step >= Longest(d)
    ensures n > 0 ==> (n - 1) as real * step < Longest(d)
    ensures n == 0 <==> d == Origin
  {
    var l := Longest(d);
    var c := Ceil(l / step);
    CeilTimes(l, step, c);
    c
  }

  lemma CeilTimes(l: real, step: real, c: int)
    requires l >= 0.0 && step > 0.0
    requires c as real - 1.0 < l / step <= c as real
    ensures c >= 0 && c as real * step >= l && (c as real - 1.0) * step < l
    ensures c == 0 <==> l == 0.0
  {
    var x := l / step;
    assert x * step == l;
    MulMono(x, c as real, step);
    MulStrict(c as real - 1.0, x, step);
    if c == 0 {
      MulMono(x, 0.0, step);
    }
  }

  lemma MulMono(a: real, b: real, s: real)
    requires a <= b && s >= 0.0
    ensures a * s <= b * s
  {
  }

  lemma MulStrict(a: real, b: real, s: real)
    requires a < b && s > 0.0
    ensures a * s < b * s
  {
  }

  /**
    A straight move as it is cut: from `start` to `target` in `count` steps of at
    most `step` along the longest axis, whose displacement is `length`.
  */
  datatype Cut = Cut(start: Vec3, target: Vec3, step: real, count: nat, length: real)

  /** `count` is the fewest steps that cover `length`, and `length` bounds every axis's displacement. */
  predicate ValidCut(c: Cut) {
    && c.step > 0.0
    && Abs(c.target.x - c.start.x) <= c.length
    && Abs(c.target.y - c.start.y) <= c.length
    && Abs(c.target.z - c.start.z) <= c.length
    && c.count as real * c.step >= c.length
    && (c.count > 0 ==> (c.count - 1) as real * c.step < c.length)
    && (c.count == 0 <==> c.length == 0.0)
  }

  /** How the move from `start` to `target` is cut with segments of at most `step`. */
  function Plan(start: Vec3, target: Vec3, step: real): (c: Cut)
    requires step > 0.0
    ensures ValidCut(c) && c.start == start && c.target == target && c.step == step
    ensures c.count == 0 <==> start == target
  {
    var d := Sub(target, start);
    PlanValid(start, target, step, StepCount(d, step), Longest(d));
    Cut(start, target, step, StepCount(d, step), Longest(d))
  }

  lemma PlanValid(start: Vec3, target: Vec3, step: real, n: nat, l: real)
    requires step > 0.0
    requires Abs(target.x - start.x) <= l && Abs(target.y - start.y) <= l && Abs(target.z - start.z) <= l
    requires n as real * step >= l && (n > 0 ==> (n - 1) as real * step < l)
    requires n == 0 <==> l == 0.0
    requires l == 0.0 <==> start == target
    ensures ValidCut(Cut(start, target, step, n, l))
  {
  }

  /** One coordinate, `k` steps of the `n` along the way from `s` to `t`; from the last step on, `t` itself. */
  function Coordinate(s: real, t: real, n: nat, step: real, l: real, k: nat): real
    requires n == 0 || l > 0.0
  {
    if k >= n then t else s + k as real * (step / l) * (t - s)
  }

  /** The point `k` steps along the cut. */
  function LinearPoint(c: Cut, k: nat): Vec3
    requires ValidCut(c)
  {
    Vec3(Coordinate(c.start.x, c.target.x, c.count, c.step, c.length, k),
         Coordinate(c.start.y, c.target.y, c.count, c.step, c.length, k),
         Coordinate(c.start.z, c.target.z, c.count, c.step, c.length, k))
  }

  /** The words of the axes that move, at point `p`. */
  function MovingAxes(p: Vec3, d: Vec3): seq<Word> {
    (if d.x != 0.0 then [Word('X', p.x)] else [])
    + (if d.y != 0.0 then [Word('Y', p.y)] else [])
    + (if d.z != 0.0 then [Word('Z', p.z)] else [])
  }

  /** The words of segment `k` (from 1): `G1` on the first only, then the moving axes. */
  function LinearWords(c: Cut, k: nat): seq<Word>
    requires ValidCut(c)
  {
    (if k == 1 then [Word('G', 1.0)] else []) + MovingAxes(LinearPoint(c, k), Sub(c.target, c.start))
  }

  function LinearSegment(c: Cut, k: nat): string
    requires ValidCut(c)
  {
    Render(LinearWords(c, k))
  }

  function LinearSegments(c: Cut): (r: seq<string>)
    requires ValidCut(c)
    ensures |r| == c.count
  {
    seq(c.count, i requires i >= 0 => LinearSegment(c, i + 1))
  }

  /** The fractionized straight move: the opening marker with the original line and comment, the segments, the closing marker. */
  function FractionizeLine(line: string, comment: string, start: Vec3, target: Vec3, step: real): (r: seq<string>)
    requires step > 0.0
    ensures |r| == Plan(start, target, step).count + 2
    ensures r[0] == LineBegin + line + "]" + comment && r[|r| - 1] == LineEnd
    ensures forall k | 1 <= k < |r| - 1 :: r[k] == LinearSegment(Plan(start, target, step), k)
  {
    var c := Plan(start, target, step);
    FramedSegments(LineBegin + line + "]" + comment, c, LineEnd);
    [LineBegin + line + "]" + comment] + LinearSegments(c) + [LineEnd]
  }

  lemma FramedSegments(head: string, c: Cut, tail: string)
    requires ValidCut(c)
    ensures var r := [head] + LinearSegments(c) + [tail];
      |r| == c.count + 2 && r[0] == head && r[|r| - 1] == tail
      && forall k | 1 <= k < |r| - 1 :: r[k] == LinearSegment(c, k)
  {
    var s := LinearSegments(c);
    Framed(head, s, tail);
    forall k | 1 <= k <= |s|
      ensures ([head] + s + [tail])[k] == LinearSegment(c, k)
    {
      assert s[k - 1] == LinearSegment(c, k - 1 + 1);
    }
  }

  /** The segments of a cut, built one at a time. */
  method BuildLinearSegments(c: Cut) returns (segments: seq<string>)
    requires ValidCut(c)
    ensures segments == LinearSegments(c)
  {
    segments := [];
    var k := 1;
    while k <= c.count
      invariant 1 <= k <= c.count + 1
      invariant segments == LinearSegments(c)[..k - 1]
    {
      ghost var all := LinearSegments(c);
      TakeSnoc(all, k - 1);
      assert all[k - 1] == LinearSegment(c, k);
      segments := segments + [LinearSegment(c, k)];
      k := k + 1;
    }
    assert LinearSegments(c)[..c.count] == LinearSegments(c);
  }

  /**
    One coordinate moving from `a` to `b` on the way from `s` to `t`: strictly
    toward `t` and never past it, by at most `step`; it stays put when `s == t`.
  */
  predicate Advances(s: real, t: real, a: real, b: real, step: real) {
    && (s < t ==> a < b <= t)
    && (t < s ==> t <= b < a)
    && (s == t ==> a == b == s)
    && Abs(b - a) <= step
  }

  /** Each step of a cut coordinate advances it toward its target by at most one step. */
  lemma CoordinateAdvance(s: real, t: real, n: nat, step: real, l: real, k: nat)
    requires step > 0.0 && Abs(t - s) <= l
    requires n as real * step >= l && (n - 1) as real * step < l
    requires 1 <= k <= n
    ensures Advances(s, t, Coordinate(s, t, n, step, l, k - 1), Coordinate(s, t, n, step, l, k), step)
  {
    assert l > 0.0 by {
      MulMono(0.0, (n - 1) as real, step);
    }
    var t0, t1 := Done(k - 1, n, step, l), Done(k, n, step, l);
    FractionAdvance(k, n, step, l);
    if k == n {
      assert Coordinate(s, t, n, step, l, k) == s + t1 * (t - s);
    }
    AxisAdvance(s, t, l, step, t0, t1, Coordinate(s, t, n, step, l, k - 1), Coordinate(s, t, n, step, l, k));
  }

  /** Every segment of a cut advances every axis toward the target by at most one step. */
  lemma LinearAdvance(c: Cut, k: nat)
    requires ValidCut(c)
    requires 1 <= k <= c.count
    ensures var p, q := LinearPoint(c, k - 1), LinearPoint(c, k);
      && Advances(c.start.x, c.target.x, p.x, q.x, c.step)
      && Advances(c.start.y, c.target.y, p.y, q.y, c.step)
      && Advances(c.start.z, c.target.z, p.z, q.z, c.step)
  {
    AdvanceX(c, k);
    AdvanceY(c, k);
    AdvanceZ(c, k);
  }

  lemma AdvanceX(c: Cut, k: nat)
    requires ValidCut(c)
    requires 1 <= k <= c.count
    ensures Advances(c.start.x, c.target.x, LinearPoint(c, k - 1).x, LinearPoint(c, k).x, c.step)
  {
    CoordinateAdvance(c.start.x, c.target.x, c.count, c.step, c.length, k);
  }

  lemma AdvanceY(c: Cut, k: nat)
    requires ValidCut(c)
    requires 1 <= k <= c.count
    ensures Advances(c.start.y, c.target.y, LinearPoint(c, k - 1).y, LinearPoint(c, k).y, c.step)
  {
    CoordinateAdvance(c.start.y, c.target.y, c.count, c.step, c.length, k);
  }

  lemma AdvanceZ(c: Cut, k: nat)
    requires ValidCut(c)
    requires 1 <= k <= c.count
    ensures Advances(c.start.z, c.target.z, LinearPoint(c, k - 1).z, LinearPoint(c, k).z, c.step)
  {
    CoordinateAdvance(c.start.z, c.target.z, c.count, c.step, c.length, k);
  }

  /** The segments run from the start of the move to its target. */
  lemma LinearEnds(c: Cut)
    requires ValidCut(c)
    ensures LinearPoint(c, 0) == c.start
    ensures LinearPoint(c, c.count) == c.target
  {
  }

  predicate OnThousandths(p: Vec3) {
    HasPlaces(p.x, 3) && HasPlaces(p.y, 3) && HasPlaces(p.z, 3)
  }

  /**
    The last segment, read back as words, is the target's coordinates on the moving
    axes, exactly, when the target has at most three decimal places.
  */
  lemma LinearEndsAtTarget(c: Cut)
    requires ValidCut(c) && c.count > 0 && OnThousandths(c.target)
    ensures Tokenize(LinearSegment(c, c.count)) ==
      Ok((if c.count == 1 then [Word('G', 1.0)] else []) + MovingAxes(c.target, Sub(c.target, c.start)))
  {
    assert HasPlaces(1.0, 3) by {
      assert Scaled(1.0, 3) == 1000.0;
    }
    assert LinearPoint(c, c.count) == c.target;
    TokenizeRender(LinearWords(c, c.count));
  }

  lemma AxisAdvance(s: real, t: real, l: real, step: real, t0: real, t1: real, a: real, b: real)
    requires l > 0.0 && step > 0.0 && Abs(t - s) <= l
    requires 0.0 <= t0 < t1 <= 1.0 && t1 - t0 <= step / l
    requires a == s + t0 * (t - s) && b == s + t1 * (t - s)
    ensures Advances(s, t, a, b, step)
  {
    StepAlong(s, t - s, l, step, t0, t1, a, b);
  }

  /** The same step, for a displacement `dx` from `s`. */
  lemma StepAlong(s: real, dx: real, l: real, step: real, t0: real, t1: real, a: real, b: real)
    requires l > 0.0 && step > 0.0 && Abs(dx) <= l
    requires 0.0 <= t0 < t1 <= 1.0 && t1 - t0 <= step / l
    requires a == s + t0 * dx && b == s + t1 * dx
    ensures dx > 0.0 ==> a < b <= s + dx
    ensures dx < 0.0 ==> s + dx <= b < a
    ensures dx == 0.0 ==> a == b == s
    ensures Abs(b - a) <= step
  {
    var dt := t1 - t0;
    assert b - a == dt * dx;
    assert dt * Abs(dx) <= (step / l) * Abs(dx);
    assert (step / l) * Abs(dx) <= (step / l) * l;
    assert (step / l) * l == step;
    assert Abs(dt * dx) == dt * Abs(dx);
    if dx < 0.0 {
      assert t1 * dx >= dx;
    } else {
      assert t1 * dx <= dx;
    }
  }

  /** The fraction of the move done after `k` steps. */
  function Done(k: nat, n: nat, step: real, l: real): real
    requires l > 0.0
  {
    if k >= n then 1.0 else k as real * (step / l)
  }

  lemma FractionAdvance(k: nat, n: nat, step: real, l: real)
    requires l > 0.0 && step > 0.0
    requires n as real * step >= l && (n - 1) as real * step < l
    requires 1 <= k <= n
    ensures 0.0 <= Done(k - 1, n, step, l) < Done(k, n, step, l) <= 1.0
    ensures Done(k, n, step, l) - Done(k - 1, n, step, l) <= step / l
  {
    var u := step / l;
    assert u * l == step;
    var a := (k - 1) as real;
    assert Done(k - 1, n, step, l) == a * u;
    StepsBefore(a, (n - 1) as real, u, l, step);
    if k < n {
      assert Done(k, n, step, l) == k as real * u;
      StepsBefore(k as real, (n - 1) as real, u, l, step);
      assert k as real * u - a * u == u;
    } else {
      LastStep(a, u, l, step);
    }
  }

  /** A whole number of steps short of the last stays strictly inside the move. */
  lemma StepsBefore(a: real, b: real, u: real, l: real, step: real)
    requires l > 0.0 && step > 0.0 && u * l == step
    requires 0.0 <= a <= b && b * step < l
    ensures 0.0 <= a * u < 1.0
  {
    assert u > 0.0;
    MulMono(0.0, a, u);
    MulMono(a, b, step);
    BelowOne(a, u, l, step);
  }

  /** The last step, from `a` steps to the target, is at most one step long. */
  lemma LastStep(a: real, u: real, l: real, step: real)
    requires l > 0.0 && step > 0.0 && u * l == step
    requires (a + 1.0) * step >= l
    ensures 1.0 - a * u <= u
  {
    AtLeastOne(a + 1.0, u, l, step);
    assert (a + 1.0) * u == a * u + u;
  }

  /** `a * step < l` means `a` steps of `step / l` stay below the whole move. */
  lemma BelowOne(a: real, u: real, l: real, step: real)
    requires l > 0.0 && u * l == step && a * step < l
    ensures a * u < 1.0
  {
    assert a * u * l == a * step;
    if a * u >= 1.0 {
      MulMono(1.0, a * u, l);
    }
  }

  lemma AtLeastOne(a: real, u: real, l: real, step: real)
    requires l > 0.0 && u * l == step && a * step >= l
    ensures a * u >= 1.0
  {
    assert a * u * l == a * step;
    if a * u < 1.0 {
      MulStrict(a * u, 1.0, l);
    }
  }

  /** The two axes of a plane, in X, Y, Z order. */
  function PlaneAxes(plane: Plane): (axes: (nat, nat))
    ensures axes.0 < axes.1 < 3
  {
    match plane
    case XY => (0, 1)
    case ZX => (0, 2)
    case YZ => (1, 2)
  }

  function AxisLetter(i: nat): char
    requires i < 3
  {
    if i == 0 then 'X' else if i == 1 then 'Y' else 'Z'
  }

  /** Whether coordinate `i` is written differently at `p` and at `q`. */
  predicate Changed(p: Vec3, q: Vec3, i: nat)
    requires i < 3
  {
    FormatTrimmed(Axis(p, i)) != FormatTrimmed(Axis(q, i))
  }

  function AxisWord(p: Vec3, i: nat): Word
    requires i < 3
  {
    Word(AxisLetter(i), Axis(p, i))
  }

  /** The words of arc segment `j`: `G1` and both plane axes first, then only the plane axes whose text changed. */
  function ArcWords(points: seq<Vec3>, plane: Plane, j: nat): seq<Word>
    requires j < |points|
  {
    var (a, b) := PlaneAxes(plane);
    var p := points[j];
    if j == 0 then [Word('G', 1.0), AxisWord(p, a), AxisWord(p, b)]
    else
      (if Changed(points[j - 1], p, a) then [AxisWord(p, a)] else [])
      + (if Changed(points[j - 1], p, b) then [AxisWord(p, b)] else [])
  }

  function ArcSegments(points: seq<Vec3>, plane: Plane): (r: seq<string>)
    ensures |r| == |points|
  {
    seq(|points|, j requires 0 <= j < |points| => Render(ArcWords(points, plane, j)))
  }

  /**
    The fractionized arc through the caller's points on it and then the target:
    the opening marker, one segment per point, the closing marker.
  */
  function FractionizeArc(line: string, comment: string, interior: seq<Vec3>, target: Vec3, plane: Plane): (r: seq<string>)
    ensures |r| == |interior| + 3
    ensures r[0] == ArcBegin + line + "]" + comment && r[|r| - 1] == ArcEnd
    ensures r[|r| - 2] == Render(ArcWords(interior + [target], plane, |interior|))
  {
    [ArcBegin + line + "]" + comment] + ArcSegments(interior + [target], plane) + [ArcEnd]
  }

  /**
    An arc segment writes a plane axis exactly when the axis's text changed since
    the previous point (always, on the first segment), and writes the point's
    coordinate.
  */
  lemma ArcWordsParam(points: seq<Vec3>, plane: Plane, j: nat, i: nat)
    requires j < |points| && (i == PlaneAxes(plane).0 || i == PlaneAxes(plane).1)
    ensures Param(ArcWords(points, plane, j), AxisLetter(i)) ==
      if j == 0 || Changed(points[j - 1], points[j], i) then Some(Axis(points[j], i)) else None
  {
    var (a, b) := PlaneAxes(plane);
    var p, d := points[j], AxisLetter(i);
    var wa, wb := AxisWord(p, a), AxisWord(p, b);
    if j == 0 {
      FirstArcParam(wa, wb, d);
    } else {
      NextArcParam(Changed(points[j - 1], p, a), Changed(points[j - 1], p, b), wa, wb, d);
    }
  }

  lemma FirstArcParam(wa: Word, wb: Word, d: char)
    requires wa.letter != wb.letter && d != 'G'
    ensures Param([Word('G', 1.0), wa, wb], d) ==
      if d == wb.letter then Some(wb.value) else if d == wa.letter then Some(wa.value) else None
  {
    var g := Word('G', 1.0);
    assert Param([], d) == None;
    ParamSnoc([], g, d);
    ParamSnoc([g], wa, d);
    ParamSnoc([g, wa], wb, d);
    assert [g, wa, wb] == [g, wa] + [wb];
  }

  lemma NextArcParam(ca: bool, cb: bool, wa: Word, wb: Word, d: char)
    requires wa.letter != wb.letter
    ensures Param((if ca then [wa] else []) + (if cb then [wb] else []), d) ==
      if cb && d == wb.letter then Some(wb.value)
      else if ca && d == wa.letter then Some(wa.value)
      else None
  {
    var first := if ca then [wa] else [];
    assert Param([], d) == None;
    ParamSnoc([], wa, d);
    if cb {
      ParamSnoc(first, wb, d);
    } else {
      assert first + [] == first;
    }
  }

  /**
    The last arc segment reads back as exactly its words when the target has at
    most three decimal places, and it writes each plane axis whose text changed
    with the target's coordinate: after it, the controller is at the target.
  */
  lemma ArcEndsAtTarget(line: string, comment: string, interior: seq<Vec3>, target: Vec3, plane: Plane, i: nat)
    requires OnThousandths(target) && (i == PlaneAxes(plane).0 || i == PlaneAxes(plane).1)
    ensures var r := FractionizeArc(line, comment, interior, target, plane);
      Tokenize(r[|r| - 2]) == Ok(ArcWords(interior + [target], plane, |interior|))
    ensures Param(ArcWords(interior + [target], plane, |interior|), AxisLetter(i)) ==
      if interior == [] || Changed(interior[|interior| - 1], target, i) then Some(Axis(target, i)) else None
  {
    var points := interior + [target];
    var j := |interior|;
    assert points[j] == target;
    assert j > 0 ==> points[j - 1] == interior[|interior| - 1];
    ArcWordsWritable(points, plane, j);
    TokenizeRender(ArcWords(points, plane, j));
    ArcWordsParam(points, plane, j, i);
  }

  lemma WritableConcat(u: seq<Word>, v: seq<Word>)
    requires forall k | 0 <= k < |u| :: Writable(u[k])
    requires forall k | 0 <= k < |v| :: Writable(v[k])
    ensures forall k | 0 <= k < |u + v| :: Writable((u + v)[k])
  {
    forall k | 0 <= k < |u + v|
      ensures Writable((u + v)[k])
    {
      if k >= |u| {
        assert (u + v)[k] == v[k - |u|];
      }
    }
  }

  lemma ChangedWritable(ca: bool, cb: bool, wa: Word, wb: Word)
    requires Writable(wa) && Writable(wb)
    ensures var ws := (if ca then [wa] else []) + (if cb then [wb] else []);
      forall k | 0 <= k < |ws| :: Writable(ws[k])
  {
    WritableConcat(if ca then [wa] else [], if cb then [wb] else []);
  }

  /** The words of an arc segment whose point has at most three decimal places are written exactly. */
  lemma ArcWordsWritable(points: seq<Vec3>, plane: Plane, j: nat)
    requires j < |points| && OnThousandths(points[j])
    ensures var ws := ArcWords(points, plane, j);
      forall k | 0 <= k < |ws| :: Writable(ws[k])
  {
    var (a, b) := PlaneAxes(plane);
    var p := points[j];
    var g, wa, wb := Word('G', 1.0), AxisWord(p, a), AxisWord(p, b);
    assert Writable(g) by {
      assert Scaled(1.0, 3) == 1000.0;
    }
    assert Writable(wa) && Writable(wb);
    var ws := ArcWords(points, plane, j);
    if j == 0 {
      assert ws == [g, wa, wb];
      ListWritable(g, wa, wb);
    } else {
      var ca, cb := Changed(points[j - 1], p, a), Changed(points[j - 1], p, b);
      assert ws == (if ca then [wa] else []) + (if cb then [wb] else []);
      ChangedWritable(ca, cb, wa, wb);
    }
  }

  lemma ListWritable(g: Word, wa: Word, wb: Word)
    requires Writable(g) && Writable(wa) && Writable(wb)
    ensures forall k | 0 <= k < 3 :: Writable([g, wa, wb][k])
  {
  }
}

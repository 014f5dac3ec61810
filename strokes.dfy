/**
 * The stroke recorder of PaintAreaView.java: the drawing surface keeps the
 * stroke being drawn (`curPaintPath`) and the list of finished strokes
 * (`paths`). Coordinates are normalised to [0,1] by the surface size and are
 * modelled as exact reals.
 */
module Strokes {
  import opened ColorSpace

  /** The jitter threshold, in pixels, and the radius of a dot. */
  const THRESHOLD: real := 3.0
  const PAINT_RADIUS: real := 10.0

  datatype Point = Point(x: real, y: real)

  /** The midpoint of two points, where each smoothing segment ends. */
  function Mid(a: Point, b: Point): Point {
    Point((b.x + a.x) / 2.0, (b.y + a.y) / 2.0)
  }

  /** One element of a toolkit path: a move-to or a quadratic segment. */
  datatype PathOp = MoveTo(p: Point) | QuadTo(control: Point, end: Point)

  /**
   * The smoothed path of a point list, built from scratch: a move to the first
   * point, then for every further point one quadratic segment whose control point
   * is the point before it and whose end is the midpoint of the two.
   */
  function Geometry(points: seq<Point>): (r: seq<PathOp>)
    requires |points| >= 1
    ensures |r| == |points| && r[0] == MoveTo(points[0])
  {
    if |points| == 1 then [MoveTo(points[0])]
    else
      var n := |points|;
      Geometry(points[..n - 1]) + [QuadTo(points[n - 2], Mid(points[n - 2], points[n - 1]))]
  }

  /** The path has one element per point, and segment i is fixed by points i and i+1. */
  lemma {:induction false} GeometryShape(points: seq<Point>)
    requires |points| >= 1
    ensures |Geometry(points)| == |points|
    ensures Geometry(points)[0] == MoveTo(points[0])
    ensures forall i :: 0 <= i < |points| - 1 ==>
      Geometry(points)[i + 1] == QuadTo(points[i], Mid(points[i], points[i + 1]))
  {
    if |points| > 1 {
      var front := points[..|points| - 1];
      GeometryShape(front);
      forall i | 0 <= i < |points| - 1
        ensures Geometry(points)[i + 1] == QuadTo(points[i], Mid(points[i], points[i + 1]))
      {
        if i < |points| - 2 {
          assert Geometry(points)[i + 1] == Geometry(front)[i + 1];
          assert front[i] == points[i] && front[i + 1] == points[i + 1];
        }
      }
    }
  }

  /** Extending the point list by one point extends its path by exactly one segment. */
  lemma {:induction false} GeometryAppend(points: seq<Point>, p: Point)
    requires |points| >= 1
    ensures Geometry(points + [p]) ==
      Geometry(points) + [QuadTo(points[|points| - 1], Mid(points[|points| - 1], p))]
  {
    var q := points + [p];
    assert q[..|q| - 1] == points;
    assert q[|q| - 2] == points[|points| - 1] && q[|q| - 1] == p;
  }

  /** What `draw` hands to the canvas: a filled circle, or the path scaled to the surface. */
  datatype DrawCmd =
    | Circle(center: Point, radius: real, color: Color)
    | StrokePath(path: seq<PathOp>, color: Color)

  function ScalePoint(p: Point, sx: real, sy: real): Point {
    Point(p.x * sx, p.y * sy)
  }

  /** The path under the scale transform `Matrix.setScale(sx, sy)`. */
  function ScalePath(path: seq<PathOp>, sx: real, sy: real): (r: seq<PathOp>)
    ensures |r| == |path|
    ensures forall i :: 0 <= i < |path| ==> r[i] == match path[i]
      case MoveTo(p) => MoveTo(ScalePoint(p, sx, sy))
      case QuadTo(c, e) => QuadTo(ScalePoint(c, sx, sy), ScalePoint(e, sx, sy))
  {
    seq(|path|, i requires 0 <= i < |path| => match path[i]
      case MoveTo(p) => MoveTo(ScalePoint(p, sx, sy))
      case QuadTo(c, e) => QuadTo(ScalePoint(c, sx, sy), ScalePoint(e, sx, sy)))
  }

  /** The point list scaled point by point. */
  function ScalePoints(ps: seq<Point>, sx: real, sy: real): seq<Point> {
    seq(|ps|, i requires 0 <= i < |ps| => ScalePoint(ps[i], sx, sy))
  }

  /** Scaling commutes with taking the midpoint. */
  lemma MidScale(a: Point, b: Point, sx: real, sy: real)
    ensures ScalePoint(Mid(a, b), sx, sy) == Mid(ScalePoint(a, sx, sy), ScalePoint(b, sx, sy))
  {
    assert (b.x + a.x) / 2.0 * sx == (b.x * sx + a.x * sx) / 2.0;
    assert (b.y + a.y) / 2.0 * sy == (b.y * sy + a.y * sy) / 2.0;
  }

  /**
   * The scale transform is linear, so the drawn path of a stroke is the one its
   * points scaled to the surface would give: scaling the smoothed path is the same
   * as smoothing the scaled points.
   */
  lemma {:induction false} ScaleCommutes(ps: seq<Point>, sx: real, sy: real)
    requires |ps| >= 1
    ensures ScalePath(Geometry(ps), sx, sy) == Geometry(ScalePoints(ps, sx, sy))
  {
    var n := |ps|;
    if n > 1 {
      var front := ps[..n - 1];
      ScaleCommutes(front, sx, sy);
      MidScale(ps[n - 2], ps[n - 1], sx, sy);
      var qs := ScalePoints(ps, sx, sy);
      assert qs[..n - 1] == ScalePoints(front, sx, sy);
      var g := Geometry(front);
      var last := QuadTo(ps[n - 2], Mid(ps[n - 2], ps[n - 1]));
      assert Geometry(ps) == g + [last];
      assert ScalePath(g + [last], sx, sy) == ScalePath(g, sx, sy) + ScalePath([last], sx, sy);
    }
  }

  /** PaintPath: one stroke, its colour, its recorded points and the path built from them. */
  class PaintPath {
    var path: seq<PathOp>
    var color: Color
    var points: seq<Point>

    /** A stroke has at least one point, and its path is the one its points determine. */
    ghost predicate Valid()
      reads this
    {
      |points| >= 1 && path == Geometry(points)
    }

    /** A new stroke holds the one given point, and its path is a move to that point. */
    constructor (color: Color, x: real, y: real)
      ensures Valid()
      ensures this.color == color && points == [Point(x, y)] && path == [MoveTo(Point(x, y))]
    {
      this.color := color;
      points := [Point(x, y)];
      path := [MoveTo(Point(x, y))];
    }

    /**
     * `addPoint`: appends the point and one quadratic segment whose control point is
     * the previous last point and whose end is the midpoint of that point and the new one.
     */
    method AddPoint(x: real, y: real)
      requires Valid()
      modifies this
      ensures Valid()
      ensures points == old(points) + [Point(x, y)]
      ensures var last := old(points)[|old(points)| - 1];
        path == old(path) + [QuadTo(last, Mid(last, Point(x, y)))]
      ensures color == old(color)
    {
      var last := points[|points| - 1];
      GeometryAppend(points, Point(x, y));
      path := path + [QuadTo(Point(last.x, last.y), Point((x + last.x) / 2.0, (y + last.y) / 2.0))];
      points := points + [Point(x, y)];
    }

    /**
     * `draw`: a stroke of exactly one point is a dot of PAINT_RADIUS at that point scaled
     * to the surface; any longer stroke is its path under the scale transform.
     */
    function Draw(sx: real, sy: real): (cmd: DrawCmd)
      reads this
      requires Valid()
      ensures cmd.Circle? <==> |points| == 1
      ensures cmd.Circle? ==> cmd == Circle(ScalePoint(points[0], sx, sy), PAINT_RADIUS, color)
      ensures cmd.StrokePath? ==> cmd.color == color && |cmd.path| == |points|
      ensures cmd.StrokePath? ==> cmd.path == ScalePath(Geometry(points), sx, sy)
    {
      GeometryShape(points);
      if |points| == 1 then Circle(Point(points[0].x * sx, points[0].y * sy), PAINT_RADIUS, color)
      else StrokePath(ScalePath(path, sx, sy), color)
    }
  }

  /** Whether a move from `(lastX, lastY)` to `(x, y)` passes the per-axis jitter filter. */
  predicate Moved(lastX: real, lastY: real, x: real, y: real, width: int, height: int): (r: bool)
    requires width > 0 && height > 0
    ensures r <==> PixelDistance(lastX, x, width) > THRESHOLD || PixelDistance(lastY, y, height) > THRESHOLD
  {
    PixelThreshold(lastX, x, width);
    PixelThreshold(lastY, y, height);
    var dx := if x - lastX >= 0.0 then x - lastX else lastX - x;
    var dy := if y - lastY >= 0.0 then y - lastY else lastY - y;
    dx > THRESHOLD / (width as real) || dy > THRESHOLD / (height as real)
  }

  /** How far apart, in pixels, two normalised coordinates lie on an axis `size` pixels long. */
  function PixelDistance(a: real, b: real, size: int): real {
    (if b - a >= 0.0 then b - a else a - b) * size as real
  }

  /** A normalised distance beats `THRESHOLD / size` exactly when its pixel distance beats THRESHOLD. */
  lemma PixelThreshold(a: real, b: real, size: int)
    requires size > 0
    ensures (if b - a >= 0.0 then b - a else a - b) > THRESHOLD / (size as real) <==> PixelDistance(a, b, size) > THRESHOLD
  {
    var d := if b - a >= 0.0 then b - a else a - b;
    var w := size as real;
    assert THRESHOLD / w * w == THRESHOLD;
    if d > THRESHOLD / w {
      assert d * w > THRESHOLD / w * w;
    } else {
      assert d * w <= THRESHOLD / w * w;
    }
  }

  /** How a touch handler ended: normally, or by dereferencing a missing stroke. */
  datatype Outcome = Handled | NullDereference

  /** PaintAreaView's recording state. */
  class PaintAreaView {
    var paths: seq<PaintPath>
    var curPaintPath: PaintPath?
    var curColor: Color
    var lastX: real
    var lastY: real

    /** Every stroke is well formed, and the stroke in progress is not one of the finished ones. */
    ghost predicate Valid()
      reads this, paths, curPaintPath
    {
      && (forall i :: 0 <= i < |paths| ==> paths[i].Valid())
      && (curPaintPath != null ==> curPaintPath.Valid() && curPaintPath !in paths)
    }

    /** The persisted shape of the finished strokes: colour and point list of each. */
    ghost function Finished(): seq<(Color, seq<Point>)>
      reads this, paths
    {
      seq(|paths|, i reads this, paths requires 0 <= i < |paths| => (paths[i].color, paths[i].points))
    }

    constructor ()
      ensures Valid()
      ensures paths == [] && curPaintPath == null && curColor == 0 && lastX == 0.0 && lastY == 0.0
    {
      paths := [];
      curPaintPath := null;
      curColor := 0;
      lastX, lastY := 0.0, 0.0;
    }

    /** `setPaintColor`: the colour of the strokes started from now on. */
    method SetPaintColor(color: Color)
      modifies this
      ensures curColor == color
      ensures paths == old(paths) && curPaintPath == old(curPaintPath)
      ensures lastX == old(lastX) && lastY == old(lastY)
    {
      curColor := color;
    }

    /** `clear`: forgets every finished stroke. */
    method Clear()
      modifies this
      ensures paths == []
      ensures curPaintPath == old(curPaintPath) && curColor == old(curColor)
      ensures lastX == old(lastX) && lastY == old(lastY)
    {
      paths := [];
    }

    /** `onTouchDown`: starts a new one-point stroke in the current colour there. */
    method OnTouchDown(x: real, y: real)
      requires Valid()
      modifies this
      ensures Valid()
      ensures curPaintPath != null && fresh(curPaintPath)
      ensures curPaintPath.points == [Point(x, y)] && curPaintPath.color == curColor
      ensures lastX == x && lastY == y
      ensures paths == old(paths) && curColor == old(curColor)
    {
      curPaintPath := new PaintPath(curColor, x, y);
      lastX := x;
      lastY := y;
    }

    /**
     * `onTouchMove`: a sample that moved more than THRESHOLD pixels along either axis is
     * appended to the stroke and becomes the last sample; any other sample changes nothing.
     * With no stroke in progress, a moved sample dereferences null.
     */
    method OnTouchMove(x: real, y: real, width: int, height: int) returns (outcome: Outcome)
      requires Valid()
      requires width > 0 && height > 0
      modifies this, curPaintPath
      ensures Valid()
      ensures paths == old(paths) && curPaintPath == old(curPaintPath) && curColor == old(curColor)
      ensures var moved := Moved(old(lastX), old(lastY), x, y, width, height);
        outcome == (if moved && curPaintPath == null then NullDereference else Handled)
      ensures if Moved(old(lastX), old(lastY), x, y, width, height) && curPaintPath != null then
          && curPaintPath.points == old(curPaintPath.points) + [Point(x, y)]
          && curPaintPath.color == old(curPaintPath.color)
          && lastX == x && lastY == y
        else
          && (curPaintPath != null ==> unchanged(curPaintPath))
          && lastX == old(lastX) && lastY == old(lastY)
    {
      var dx := if x - lastX >= 0.0 then x - lastX else lastX - x;
      var dy := if y - lastY >= 0.0 then y - lastY else lastY - y;
      if dx > THRESHOLD / (width as real) || dy > THRESHOLD / (height as real) {
        if curPaintPath == null {
          return NullDereference;
        }
        curPaintPath.AddPoint(x, y);
        lastX := x;
        lastY := y;
      }
      return Handled;
    }

    /**
     * `onTouchUp`: the stroke in progress is appended to the finished strokes, earlier
     * ones untouched, and no stroke is in progress any more. Without a stroke in
     * progress, drawing it dereferences null.
     */
    method OnTouchUp() returns (outcome: Outcome)
      requires Valid()
      modifies this
      ensures Valid()
      ensures outcome == (if old(curPaintPath) == null then NullDereference else Handled)
      ensures old(curPaintPath) != null ==> paths == old(paths) + [old(curPaintPath)] && curPaintPath == null
      ensures old(curPaintPath) != null ==> Finished() == old(Finished()) + [(old(curPaintPath).color, old(curPaintPath).points)]
      ensures old(curPaintPath) == null ==> paths == old(paths) && curPaintPath == null
      ensures curColor == old(curColor) && lastX == old(lastX) && lastY == old(lastY)
    {
      if curPaintPath == null {
        return NullDereference;
      }
      paths := paths + [curPaintPath];
      curPaintPath := null;
      return Handled;
    }
  }

  /**
   * The sample sequence (0.10, 0.10), (0.10, 0.10001), (0.50, 0.50) on a 300 x 300 surface:
   * the second sample is under the 3-pixel threshold and dropped, the third is kept, and
   * the finished stroke has two points and one smoothing segment.
   */
  method JitterScenario() returns (finished: seq<Point>, path: seq<PathOp>)
    ensures finished == [Point(0.10, 0.10), Point(0.50, 0.50)]
    ensures path == [MoveTo(Point(0.10, 0.10)), QuadTo(Point(0.10, 0.10), Point(0.30, 0.30))]
  {
    var view := new PaintAreaView();
    view.OnTouchDown(0.10, 0.10);
    var o1 := view.OnTouchMove(0.10, 0.10001, 300, 300);
    assert o1 == Handled && view.curPaintPath.points == [Point(0.10, 0.10)];
    var o2 := view.OnTouchMove(0.50, 0.50, 300, 300);
    assert view.curPaintPath.points == [Point(0.10, 0.10), Point(0.50, 0.50)];
    var stroke := view.curPaintPath;
    var o3 := view.OnTouchUp();
    assert view.paths == [stroke] && view.curPaintPath == null;
    assert |stroke.path| == 2;
    assert stroke.Draw(300.0, 300.0).StrokePath?;
    finished, path := stroke.points, stroke.path;
  }
}

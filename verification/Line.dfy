/**
 Canvas::line of firmware/src/graphics/Canvas.cpp: the points it plots, how near
 they keep to the ideal line, and that the clip only takes points away.
 */
module Line {
  import opened Basics

  datatype Point = Point(x: int, y: int)

  datatype Rect = Rect(x: int, y: int, w: int, h: int)

  function Abs(v: int): nat { if v < 0 then -v else v }

  predicate Empty(r: Rect) { r.w <= 0 || r.h <= 0 }

  predicate Contains(r: Rect, p: Point) {
    r.x <= p.x < r.x + r.w && r.y <= p.y < r.y + r.h
  }

  function Intersect(a: Rect, b: Rect): Rect {
    var x0, y0 := Max(a.x, b.x), Max(a.y, b.y);
    var x1, y1 := Min(a.x + a.w, b.x + b.w), Min(a.y + a.h, b.y + b.h);
    if x1 <= x0 || y1 <= y0 then Rect(0, 0, 0, 0) else Rect(x0, y0, x1 - x0, y1 - y0)
  }

  /** An intersection holds just the points of both. */
  lemma IntersectHolds(a: Rect, b: Rect, p: Point)
    ensures Contains(Intersect(a, b), p) <==> Contains(a, p) && Contains(b, p)
  {
  }

  /** i steps along x and j along y have been made of dx and dy. The error term
      is a function of these, and so are the steps that come next. */
  function ErrorAt(dx: nat, dy: nat, i: nat, j: nat): int {
    (j + 1) * dx - (i + 1) * dy
  }

  predicate StepsX(dx: nat, dy: nat, i: nat, j: nat) { 2 * ErrorAt(dx, dy, i, j) > 0 - dy }
  predicate StepsY(dx: nat, dy: nat, i: nat, j: nat) { 2 * ErrorAt(dx, dy, i, j) < dx }

  /** At most half a step off the line, measured along the shorter side. */
  predicate Near(dx: nat, dy: nat, i: nat, j: nat) {
    i <= dx && j <= dy && 2 * Abs(dx * j - dy * i) <= Max(dx, dy)
  }

  lemma Times(a: int, b: int, c: int)
    ensures (a + b) * c == a * c + b * c && c * (a + b) == c * a + c * b
  {
  }

  lemma TimesRises(a: nat, b: nat, c: nat)
    requires a <= b
    ensures a * c <= b * c && c * a <= c * b
  {
  }

  lemma ErrorIs(dx: nat, dy: nat, i: nat, j: nat)
    ensures ErrorAt(dx, dy, i, j) == dx * j - dy * i + dx - dy
  {
    Times(j, 1, dx);
    Times(i, 1, dy);
  }

  /** A step along the longer side a, and one along b when that keeps nearer. */
  lemma MajorStep(a: nat, b: nat, i: nat, j: nat)
    requires b <= a && Near(a, b, i, j) && !(i == a && j == b)
    ensures var d := a * j - b * i; var j' := if 2 * d < 2 * b - a then j + 1 else j;
      2 * d > b - 2 * a && Near(a, b, i + 1, j')
  {
    var d := a * j - b * i;
    var j' := if 2 * d < 2 * b - a then j + 1 else j;
    if i == a {
      EndReached(a, b, j);
      assert false;
    }
    if a == b {
      Times(j - i, i, a);
      Multiple(a, j - i);
    }
    Times(i, 1, b);
    Times(j, 1, a);
    var d' := a * j' - b * (i + 1);
    StepAside(a, b, d, d');
    NotBeyond(a, b, i + 1, j');
  }

  lemma StepAside(a: nat, b: nat, d: int, d': int)
    requires b <= a && a > 0 && 2 * Abs(d) <= a && (a == b ==> d == 0)
    requires d' == if 2 * d < 2 * b - a then d + a - b else d - b
    ensures 2 * d > b - 2 * a && 2 * Abs(d') <= a
  {
  }

  lemma Multiple(a: nat, k: int)
    requires 2 * Abs(a * k) <= a
    ensures a * k == 0
  {
    if k >= 1 {
      TimesRises(1, k, a);
    } else if k <= -1 {
      TimesRises(1, -k, a);
      assert a * k == -(a * -k);
    }
  }

  lemma EndReached(a: nat, b: nat, j: nat)
    requires b <= a && j <= b && 2 * Abs(a * j - b * a) <= a
    ensures a == 0 || j == b
  {
    if a > 0 && j < b {
      TimesRises(j + 1, b, a);
      Times(j, 1, a);
    }
  }

  lemma NotBeyond(a: nat, b: nat, i: nat, j: nat)
    requires b <= a && 0 < i <= a && 2 * Abs(a * j - b * i) <= a
    ensures j <= b
  {
    if j > b {
      TimesRises(b + 1, j, a);
      TimesRises(i, a, b);
      Times(b, 1, a);
    }
  }

  /** On the longer side every turn makes a step; the other side keeps up. */
  lemma StepNear(dx: nat, dy: nat, i: nat, j: nat)
    requires Near(dx, dy, i, j) && !(i == dx && j == dy)
    ensures var i' := if StepsX(dx, dy, i, j) then i + 1 else i;
      var j' := if StepsY(dx, dy, i, j) then j + 1 else j;
      && Near(dx, dy, i', j')
      && (dx >= dy ==> i' == i + 1) && (dy >= dx ==> j' == j + 1)
  {
    ErrorIs(dx, dy, i, j);
    if dx >= dy {
      MajorStep(dx, dy, i, j);
    }
    if dy >= dx {
      NearTurned(dx, dy, i, j);
      MajorStep(dy, dx, j, i);
      if dy > dx {
        NearTurned(dy, dx, j + 1, if StepsX(dx, dy, i, j) then i + 1 else i);
      }
    }
  }

  lemma NearTurned(dx: nat, dy: nat, i: nat, j: nat)
    ensures Near(dx, dy, i, j) <==> Near(dy, dx, j, i)
  {
    assert dx * j - dy * i == -(dy * i - dx * j);
  }

  // --- the points ------------------------------------------------------------------------------

  function Toward(from: int, to: int): int { if from < to then 1 else -1 }

  /** The points from step (i, j) on. */
  function PointsFrom(p: Point, q: Point, i: nat, j: nat): seq<Point>
    requires Near(Abs(q.x - p.x), Abs(q.y - p.y), i, j)
    decreases Abs(q.x - p.x) - i + (Abs(q.y - p.y) - j)
  {
    var dx, dy := Abs(q.x - p.x), Abs(q.y - p.y);
    [PointAt(p, q, i, j)] +
    if i == dx && j == dy then []
    else
      StepNear(dx, dy, i, j);
      PointsFrom(p, q, if StepsX(dx, dy, i, j) then i + 1 else i, if StepsY(dx, dy, i, j) then j + 1 else j)
  }

  function PointAt(p: Point, q: Point, i: nat, j: nat): Point {
    Point(p.x + i * Toward(p.x, q.x), p.y + j * Toward(p.y, q.y))
  }

  function Points(p: Point, q: Point): seq<Point> {
    PointsFrom(p, q, 0, 0)
  }

  /** Neighbours, or the same column or row. */
  predicate Touch(a: Point, b: Point) {
    a != b && Abs(a.x - b.x) <= 1 && Abs(a.y - b.y) <= 1
  }

  function BoundingBox(p: Point, q: Point): Rect {
    Rect(Min(p.x, q.x), Min(p.y, q.y), Abs(q.x - p.x) + 1, Abs(q.y - p.y) + 1)
  }

  /** At most half a pixel from the ideal line, along the shorter side. */
  predicate OnLine(p: Point, q: Point, r: Point) {
    var dx, dy := Abs(q.x - p.x), Abs(q.y - p.y);
    2 * Abs(dx * Abs(r.y - p.y) - dy * Abs(r.x - p.x)) <= Max(dx, dy)
  }

  lemma PointAtOnLine(p: Point, q: Point, i: nat, j: nat)
    requires Near(Abs(q.x - p.x), Abs(q.y - p.y), i, j)
    ensures var r := PointAt(p, q, i, j); OnLine(p, q, r) && Contains(BoundingBox(p, q), r)
  {
    var r := PointAt(p, q, i, j);
    assert Abs(r.x - p.x) == i && Abs(r.y - p.y) == j;
  }

  lemma {:induction false} PointsFromKeep(p: Point, q: Point, i: nat, j: nat)
    requires Near(Abs(q.x - p.x), Abs(q.y - p.y), i, j)
    ensures var r := PointsFrom(p, q, i, j); var dx, dy := Abs(q.x - p.x), Abs(q.y - p.y);
      && |r| == (if dx >= dy then dx - i else dy - j) + 1
      && r[0] == PointAt(p, q, i, j) && r[|r| - 1] == q
      && (forall k :: 0 <= k < |r| ==> OnLine(p, q, r[k]) && Contains(BoundingBox(p, q), r[k]))
      && (forall k :: 0 <= k < |r| - 1 ==> Touch(r[k], r[k + 1]))
    decreases Abs(q.x - p.x) - i + (Abs(q.y - p.y) - j)
  {
    hide Near, StepsX, StepsY, OnLine, Contains, BoundingBox, Touch;
    var dx, dy := Abs(q.x - p.x), Abs(q.y - p.y);
    PointAtOnLine(p, q, i, j);
    if i == dx && j == dy {
      assert PointAt(p, q, i, j) == q;
    } else {
      StepNear(dx, dy, i, j);
      var i' := if StepsX(dx, dy, i, j) then i + 1 else i;
      var j' := if StepsY(dx, dy, i, j) then j + 1 else j;
      PointsFromKeep(p, q, i', j');
      StepTouches(p, q, i, j, i', j');
      Prepended(p, q, PointAt(p, q, i, j), PointsFrom(p, q, i', j'));
    }
  }

  lemma Prepended(p: Point, q: Point, first: Point, r: seq<Point>)
    requires r != [] && Touch(first, r[0]) && OnLine(p, q, first) && Contains(BoundingBox(p, q), first)
    requires forall k :: 0 <= k < |r| ==> OnLine(p, q, r[k]) && Contains(BoundingBox(p, q), r[k])
    requires forall k :: 0 <= k < |r| - 1 ==> Touch(r[k], r[k + 1])
    ensures var s := [first] + r;
      && (forall k :: 0 <= k < |s| ==> OnLine(p, q, s[k]) && Contains(BoundingBox(p, q), s[k]))
      && (forall k :: 0 <= k < |s| - 1 ==> Touch(s[k], s[k + 1]))
  {
    hide OnLine, Contains, BoundingBox, Touch;
    var s := [first] + r;
    forall k | 0 <= k < |s| - 1 ensures Touch(s[k], s[k + 1]) {
      assert s[k + 1] == r[k] && (k > 0 ==> s[k] == r[k - 1]);
    }
  }

  lemma StepTouches(p: Point, q: Point, i: nat, j: nat, i': nat, j': nat)
    requires i <= i' <= i + 1 && j <= j' <= j + 1 && (i' > i || j' > j)
    ensures Touch(PointAt(p, q, i, j), PointAt(p, q, i', j'))
  {
    Times(i, 1, Toward(p.x, q.x));
    Times(j, 1, Toward(p.y, q.y));
  }

  lemma StartsNear(dx: nat, dy: nat)
    ensures Near(dx, dy, 0, 0)
  {
  }

  /** The points of a line go from p to q without a gap, one for each step of the
      longer side, inside the bounding box and at most half a pixel off. */
  lemma PointsKeepToLine(p: Point, q: Point)
    ensures var r := Points(p, q);
      && |r| == Max(Abs(q.x - p.x), Abs(q.y - p.y)) + 1 && r[0] == p && r[|r| - 1] == q
      && (forall k :: 0 <= k < |r| ==> OnLine(p, q, r[k]) && Contains(BoundingBox(p, q), r[k]))
      && (forall k :: 0 <= k < |r| - 1 ==> Touch(r[k], r[k + 1]))
  {
    hide OnLine, Contains, Near;
    StartsNear(Abs(q.x - p.x), Abs(q.y - p.y));
    PointsFromKeep(p, q, 0, 0);
  }

  // --- the canvas ---------------------------------------------------------------------------------

  /** The picture after plotting points in turn, each under the clip. */
  function Plotted<C>(pixels: map<Point, C>, clip: Rect, points: seq<Point>, color: C): map<Point, C>
    decreases |points|
  {
    if points == [] then pixels
    else Plotted(if Contains(clip, points[0]) then pixels[points[0] := color] else pixels, clip, points[1..], color)
  }

  lemma {:induction false} ClippedAway<C>(pixels: map<Point, C>, clip: Rect, points: seq<Point>, color: C)
    requires forall k :: 0 <= k < |points| ==> !Contains(clip, points[k])
    ensures Plotted(pixels, clip, points, color) == pixels
    decreases |points|
  {
    if points != [] {
      ClippedAway(pixels, clip, points[1..], color);
    }
  }

  /** Plotting colours the points inside the clip and nothing else. */
  lemma {:induction false} PlottedExactly<C>(pixels: map<Point, C>, clip: Rect, points: seq<Point>, color: C)
    ensures var after := Plotted(pixels, clip, points, color); forall p ::
      if p in points && Contains(clip, p) then p in after && after[p] == color
      else (p in after <==> p in pixels) && (p in pixels ==> after[p] == pixels[p])
    decreases |points|
  {
    if points != [] {
      var first := if Contains(clip, points[0]) then pixels[points[0] := color] else pixels;
      PlottedExactly(first, clip, points[1..], color);
    }
  }
}

/** The canvas of firmware/src/graphics/Canvas.cpp, over the pixels of the panel. */
module Canvas {
  import opened Basics
  import opened Line

  const WIDTH: nat := 52
  const HEIGHT: nat := 16
  const BOUNDS := Rect(0, 0, WIDTH, HEIGHT)

  class Canvas {
    const pixels: array2<Rgb>
    var clip: Rect

    constructor (pixels: array2<Rgb>)
      requires pixels.Length0 == HEIGHT && pixels.Length1 == WIDTH
      ensures this.pixels == pixels && Valid() && clip == BOUNDS
    {
      this.pixels := pixels;
      clip := BOUNDS;
    }

    /** The clip never reaches beyond the panel. */
    ghost predicate Valid()
      reads this
    {
      pixels.Length0 == HEIGHT && pixels.Length1 == WIDTH && Intersect(clip, BOUNDS) == clip
    }

    ghost function Picture(): map<Point, Rgb>
      requires Valid()
      reads this, pixels
    {
      map x: int, y: int | 0 <= x < WIDTH && 0 <= y < HEIGHT :: Point(x, y) := pixels[y, x]
    }

    method SetClip(r: Rect)
      requires Valid()
      modifies this`clip
      ensures Valid() && forall p :: Contains(clip, p) <==> Contains(r, p) && Contains(BOUNDS, p)
    {
      clip := Intersect(r, BOUNDS);
      forall p ensures Contains(clip, p) <==> Contains(r, p) && Contains(BOUNDS, p) {
        IntersectHolds(r, BOUNDS, p);
      }
    }

    method SetPixel(p: Point, color: Rgb)
      requires Valid()
      modifies pixels
      ensures Picture() == if Contains(clip, p) then old(Picture())[p := color] else old(Picture())
    {
      if !Contains(clip, p) {
        return;
      }
      IntersectHolds(clip, BOUNDS, p);
      pixels[p.y, p.x] := color;
    }

    ghost predicate OnPanel(p: Point) {
      0 <= p.x < WIDTH && 0 <= p.y < HEIGHT
    }

    ghost function At(p: Point): Rgb
      requires Valid() && OnPanel(p)
      reads this, pixels
    {
      pixels[p.y, p.x]
    }

    method FillRect(r: Rect, color: Rgb)
      requires Valid()
      modifies pixels
      ensures forall p :: OnPanel(p) ==>
        At(p) == if Contains(r, p) && Contains(clip, p) then color else old(At(p))
    {
      var area := Intersect(r, clip);
      forall p ensures Contains(area, p) <==> Contains(r, p) && Contains(clip, p) {
        IntersectHolds(r, clip, p);
      }
      forall p ensures Contains(clip, p) ==> OnPanel(p) {
        IntersectHolds(clip, BOUNDS, p);
      }
      if Empty(area) {
        return;
      }
      AreaOnPanel(area, r, clip);
      for y := area.y to area.y + area.h
        invariant forall p :: OnPanel(p) ==> At(p) == if Contains(area, p) && p.y < y then color else old(At(p))
      {
        for x := area.x to area.x + area.w
          invariant forall p :: OnPanel(p) ==>
            At(p) == if Contains(area, p) && (p.y < y || (p.y == y && p.x < x)) then color else old(At(p))
        {
          pixels[y, x] := color;
        }
      }
    }

    method HLine(x: int, y: int, width: int, color: Rgb)
      requires Valid()
      modifies pixels
      ensures forall p :: OnPanel(p) ==>
        At(p) == if Contains(Rect(x, y, width, 1), p) && Contains(clip, p) then color else old(At(p))
    {
      if width <= 0 {
        return;
      }
      FillRect(Rect(x, y, width, 1), color);
    }

    method VLine(x: int, y: int, height: int, color: Rgb)
      requires Valid()
      modifies pixels
      ensures forall p :: OnPanel(p) ==>
        At(p) == if Contains(Rect(x, y, 1, height), p) && Contains(clip, p) then color else old(At(p))
    {
      if height <= 0 {
        return;
      }
      FillRect(Rect(x, y, 1, height), color);
    }

    /** The outline: the points of the rectangle that are not inside it. */
    method Outline(r: Rect, color: Rgb)
      requires Valid()
      modifies pixels
      ensures forall p :: OnPanel(p) ==>
        At(p) == if Contains(r, p) && !Contains(Rect(r.x + 1, r.y + 1, r.w - 2, r.h - 2), p) && Contains(clip, p)
                 then color else old(At(p))
    {
      if Empty(r) {
        return;
      }
      HLine(r.x, r.y, r.w, color);
      if r.h > 1 {
        HLine(r.x, r.y + r.h - 1, r.w, color);
      }
      if r.h > 2 {
        var sideHeight := r.h - 2;
        VLine(r.x, r.y + 1, sideHeight, color);
        if r.w > 1 {
          VLine(r.x + r.w - 1, r.y + 1, sideHeight, color);
        }
      }
    }

    /** A line, drawn point by point unless its box is outside the clip. */
    method DrawLine(p: Point, q: Point, color: Rgb)
      requires Valid()
      modifies pixels
      ensures Picture() == Plotted(old(Picture()), clip, Points(p, q), color)
    {
      hide Near, StepsX, StepsY, OnLine, Contains, PointAt, PointsFrom, Plotted;
      var dx, dy := Abs(q.x - p.x), Abs(q.y - p.y);
      var box := Rect(Min(p.x, q.x), Min(p.y, q.y), dx + 1, dy + 1);
      if Empty(Intersect(box, clip)) {
        OutsideNothing(box, clip, p, q);
        ClippedAway(Picture(), clip, Points(p, q), color);
        return;
      }
      var stepX := if p.x < q.x then 1 else -1;
      var stepY := if p.y < q.y then 1 else -1;
      var error := dx - dy;
      var x, y := p.x, p.y;
      ghost var i: nat, j: nat := 0, 0;
      StartsNear(dx, dy);
      PointAtStart(p, q);
      ErrorIs(dx, dy, 0, 0);
      while true
        invariant Near(dx, dy, i, j) && Point(x, y) == PointAt(p, q, i, j) && error == ErrorAt(dx, dy, i, j)
        invariant Plotted(Picture(), clip, PointsFrom(p, q, i, j), color) == Plotted(old(Picture()), clip, Points(p, q), color)
        decreases dx + dy - i - j
      {
        ghost var before := Picture();
        SetPixel(Point(x, y), color);
        PlottedOne(before, clip, p, q, i, j, color);
        AtEndIff(p, q, i, j);
        if x == q.x && y == q.y {
          break;
        }
        StepNear(dx, dy, i, j);
        StepMoves(p, q, i, j);
        NearWithin(dx, dy, i, j);
        var doubled := 2 * error;
        ghost var i', j' := if StepsX(dx, dy, i, j) then i + 1 else i, if StepsY(dx, dy, i, j) then j + 1 else j;
        StepsAre(dx, dy, i, j);
        if doubled > -dy {
          error := error - dy;
          x := x + stepX;
        }
        if doubled < dx {
          error := error + dx;
          y := y + stepY;
        }
        i, j := i', j';
        NearWithin(dx, dy, i, j);
      }
    }
  }

  lemma AreaOnPanel(area: Rect, r: Rect, clip: Rect)
    requires area == Intersect(r, clip) && !Empty(area) && Intersect(clip, BOUNDS) == clip
    ensures 0 <= area.x < area.x + area.w <= WIDTH && 0 <= area.y < area.y + area.h <= HEIGHT
  {
  }

  /** A line whose box misses the clip has no point to draw. */
  lemma OutsideNothing(box: Rect, clip: Rect, p: Point, q: Point)
    requires box == BoundingBox(p, q) && Empty(Intersect(box, clip))
    ensures var r := Points(p, q); forall k :: 0 <= k < |r| ==> !Contains(clip, r[k])
  {
    PointsKeepToLine(p, q);
    var r := Points(p, q);
    forall k | 0 <= k < |r| ensures !Contains(clip, r[k]) {
      IntersectHolds(box, clip, r[k]);
    }
  }

  lemma PointAtStart(p: Point, q: Point)
    ensures PointAt(p, q, 0, 0) == p
  {
  }

  lemma NearWithin(dx: nat, dy: nat, i: nat, j: nat)
    requires Near(dx, dy, i, j)
    ensures i <= dx && j <= dy
  {
  }

  lemma AtEndIff(p: Point, q: Point, i: nat, j: nat)
    requires Near(Abs(q.x - p.x), Abs(q.y - p.y), i, j)
    ensures PointAt(p, q, i, j) == q <==> i == Abs(q.x - p.x) && j == Abs(q.y - p.y)
  {
  }

  lemma StepsAre(dx: nat, dy: nat, i: nat, j: nat)
    ensures StepsX(dx, dy, i, j) <==> 2 * ErrorAt(dx, dy, i, j) > 0 - dy
    ensures StepsY(dx, dy, i, j) <==> 2 * ErrorAt(dx, dy, i, j) < dx
    ensures ErrorAt(dx, dy, i + 1, j) == ErrorAt(dx, dy, i, j) - dy
    ensures ErrorAt(dx, dy, i, j + 1) == ErrorAt(dx, dy, i, j) + dx
    ensures ErrorAt(dx, dy, i + 1, j + 1) == ErrorAt(dx, dy, i, j) - dy + dx
  {
    Times(i + 1, 1, dy);
    Times(j + 1, 1, dx);
  }

  lemma StepMoves(p: Point, q: Point, i: nat, j: nat)
    ensures PointAt(p, q, i + 1, j).x == PointAt(p, q, i, j).x + Toward(p.x, q.x)
    ensures PointAt(p, q, i, j + 1).y == PointAt(p, q, i, j).y + Toward(p.y, q.y)
    ensures forall k: nat :: PointAt(p, q, i, k).x == PointAt(p, q, i, j).x && PointAt(p, q, i + 1, k).x == PointAt(p, q, i + 1, j).x
    ensures forall k: nat :: PointAt(p, q, k, j).y == PointAt(p, q, i, j).y && PointAt(p, q, k, j + 1).y == PointAt(p, q, i, j + 1).y
  {
    Times(i, 1, Toward(p.x, q.x));
    Times(j, 1, Toward(p.y, q.y));
  }

  lemma PlottedOne(pixels: map<Point, Rgb>, clip: Rect, p: Point, q: Point, i: nat, j: nat, color: Rgb)
    requires Near(Abs(q.x - p.x), Abs(q.y - p.y), i, j)
    ensures var dx, dy := Abs(q.x - p.x), Abs(q.y - p.y); var r := PointAt(p, q, i, j);
      var one := if Contains(clip, r) then pixels[r := color] else pixels;
      if i == dx && j == dy then Plotted(pixels, clip, PointsFrom(p, q, i, j), color) == one
      else
        var i' := if StepsX(dx, dy, i, j) then i + 1 else i;
        var j' := if StepsY(dx, dy, i, j) then j + 1 else j;
        Near(dx, dy, i', j')
        && Plotted(pixels, clip, PointsFrom(p, q, i, j), color) == Plotted(one, clip, PointsFrom(p, q, i', j'), color)
  {
    hide Near, StepsX, StepsY, Contains, PointAt;
    var dx, dy := Abs(q.x - p.x), Abs(q.y - p.y);
    if !(i == dx && j == dy) {
      StepNear(dx, dy, i, j);
    }
    var rest := PointsFrom(p, q, i, j)[1..];
    assert PointsFrom(p, q, i, j) == [PointAt(p, q, i, j)] + rest;
  }
}

/** Points, rectangles and affine maps of the 2geom library, over the reals. */
module Geometry {
  import opened Wrappers

  datatype Point = Point(x: real, y: real)

  /** An axis-aligned rectangle given by its two corners, `lo` <= `hi` on both axes when built by `FromXYWH`. */
  datatype Rect = Rect(lo: Point, hi: Point) {
    function Width(): real { hi.x - lo.x }
    function Height(): real { hi.y - lo.y }
  }

  function Abs(x: real): real { if x < 0.0 then -x else x }
  function Min(a: real, b: real): real { if a <= b then a else b }
  function Max(a: real, b: real): real { if a <= b then b else a }

  /** `Geom::Rect::from_xywh`: the intervals are normalised, so a negative size yields a positive extent. */
  function FromXYWH(x: real, y: real, w: real, h: real): (r: Rect)
    ensures r.Width() == Abs(w) && r.Height() == Abs(h)
    ensures r.lo.x <= r.hi.x && r.lo.y <= r.hi.y
  {
    Rect(Point(Min(x, x + w), Min(y, y + h)), Point(Max(x, x + w), Max(y, y + h)))
  }

  /**
   * An affine map in the layout 2geom and SVG use:
   * x' = a*x + c*y + e, y' = b*x + d*y + f.
   */
  datatype Affine = Affine(a: real, b: real, c: real, d: real, e: real, f: real)

  const Identity: Affine := Affine(1.0, 0.0, 0.0, 1.0, 0.0, 0.0)

  function Translate(tx: real, ty: real): Affine { Affine(1.0, 0.0, 0.0, 1.0, tx, ty) }

  function Scale(sx: real, sy: real): Affine { Affine(sx, 0.0, 0.0, sy, 0.0, 0.0) }

  function Apply(m: Affine, p: Point): Point {
    Point(m.a * p.x + m.c * p.y + m.e, m.b * p.x + m.d * p.y + m.f)
  }

  /** The translation part of a map (`Geom::Affine::translation`). */
  function Translation(m: Affine): Point { Point(m.e, m.f) }

  /** 2geom's `A * B`: first apply `A`, then `B` (see `ThenApplies`). */
  function Then(m: Affine, n: Affine): Affine {
    Affine(m.a * n.a + m.b * n.c, m.a * n.b + m.b * n.d,
           m.c * n.a + m.d * n.c, m.c * n.b + m.d * n.d,
           m.e * n.a + m.f * n.c + n.e, m.e * n.b + m.f * n.d + n.f)
  }

  lemma ThenAppliesX(m: Affine, n: Affine, p: Point)
    ensures Apply(Then(m, n), p).x == Apply(n, Apply(m, p)).x
  {
    var q := Apply(m, p);
    calc {
      Apply(n, q).x;
      n.a * q.x + n.c * q.y + n.e;
      n.a * (m.a * p.x + m.c * p.y + m.e) + n.c * (m.b * p.x + m.d * p.y + m.f) + n.e;
      { assert n.a * (m.a * p.x + m.c * p.y + m.e) == (m.a * n.a) * p.x + (m.c * n.a) * p.y + m.e * n.a;
        assert n.c * (m.b * p.x + m.d * p.y + m.f) == (m.b * n.c) * p.x + (m.d * n.c) * p.y + m.f * n.c; }
      (m.a * n.a) * p.x + (m.c * n.a) * p.y + m.e * n.a + (m.b * n.c) * p.x + (m.d * n.c) * p.y + m.f * n.c + n.e;
      { assert (m.a * n.a) * p.x + (m.b * n.c) * p.x == (m.a * n.a + m.b * n.c) * p.x;
        assert (m.c * n.a) * p.y + (m.d * n.c) * p.y == (m.c * n.a + m.d * n.c) * p.y; }
      (m.a * n.a + m.b * n.c) * p.x + (m.c * n.a + m.d * n.c) * p.y + (m.e * n.a + m.f * n.c + n.e);
      Apply(Then(m, n), p).x;
    }
  }

  lemma ThenAppliesY(m: Affine, n: Affine, p: Point)
    ensures Apply(Then(m, n), p).y == Apply(n, Apply(m, p)).y
  {
    var q := Apply(m, p);
    calc {
      Apply(n, q).y;
      n.b * q.x + n.d * q.y + n.f;
      n.b * (m.a * p.x + m.c * p.y + m.e) + n.d * (m.b * p.x + m.d * p.y + m.f) + n.f;
      { assert n.b * (m.a * p.x + m.c * p.y + m.e) == (m.a * n.b) * p.x + (m.c * n.b) * p.y + m.e * n.b;
        assert n.d * (m.b * p.x + m.d * p.y + m.f) == (m.b * n.d) * p.x + (m.d * n.d) * p.y + m.f * n.d; }
      (m.a * n.b) * p.x + (m.c * n.b) * p.y + m.e * n.b + (m.b * n.d) * p.x + (m.d * n.d) * p.y + m.f * n.d + n.f;
      { assert (m.a * n.b) * p.x + (m.b * n.d) * p.x == (m.a * n.b + m.b * n.d) * p.x;
        assert (m.c * n.b) * p.y + (m.d * n.d) * p.y == (m.c * n.b + m.d * n.d) * p.y; }
      (m.a * n.b + m.b * n.d) * p.x + (m.c * n.b + m.d * n.d) * p.y + (m.e * n.b + m.f * n.d + n.f);
      Apply(Then(m, n), p).y;
    }
  }

  lemma ThenApplies(m: Affine, n: Affine, p: Point)
    ensures Apply(Then(m, n), p) == Apply(n, Apply(m, p))
  {
    ThenAppliesX(m, n, p);
    ThenAppliesY(m, n, p);
  }

  /** Translate, then scale: the shape of a marker's child-to-parent map. */
  lemma TranslateThenScale(tx: real, ty: real, sx: real, sy: real, p: Point)
    ensures Then(Translate(tx, ty), Scale(sx, sy)) == Affine(sx, 0.0, 0.0, sy, tx * sx, ty * sy)
    ensures Apply(Then(Translate(tx, ty), Scale(sx, sy)), p) == Point((p.x + tx) * sx, (p.y + ty) * sy)
  {
    ThenApplies(Translate(tx, ty), Scale(sx, sy), p);
  }

  /**
   * A transform as the rendering backend receives it. A rotation by an angle in degrees is kept
   * symbolic (there is no trigonometry on reals); `NotANumber` stands for a matrix whose entries
   * are the IEEE result of dividing by zero.
   */
  datatype Transform =
    | Matrix(m: Affine)
    | RotateDegrees(angle: real)
    | Compose(first: Transform, second: Transform)  // apply `first`, then `second`
    | NotANumber

  /**
   * Where a transform sends `p`, so far as the model can tell: a symbolic rotation is only known
   * to fix the origin, and a matrix of `NotANumber` entries sends every point nowhere.
   */
  function MapPoint(t: Transform, p: Point): Option<Point> {
    match t
    case Matrix(m) => Some(Apply(m, p))
    case RotateDegrees(_) => if p == Point(0.0, 0.0) then Some(p) else None
    case Compose(first, second) =>
      (match MapPoint(first, p)
       case Some(q) => MapPoint(second, q)
       case None => None)
    case NotANumber => None
  }
}

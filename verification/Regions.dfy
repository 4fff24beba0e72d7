/** Pixman regions as sets of points, and the drawing operations as updates of a canvas. */
module Regions {

  datatype Point = Point(x: int, y: int)

  type Region = set<Point>

  /** A half-open box; empty when it is inside out. */
  function Box(x1: int, y1: int, x2: int, y2: int): (r: Region)
    ensures forall p: Point :: p in r <==> x1 <= p.x < x2 && y1 <= p.y < y2
  {
    set x, y | x1 <= x < x2 && y1 <= y < y2 :: Point(x, y)
  }

  datatype Rect = Rect(x: int, y: int, width: nat, height: nat)

  function Area(r: Rect): (a: Region)
    ensures forall p: Point :: p in a <==> r.x <= p.x < r.x + r.width && r.y <= p.y < r.y + r.height
  {
    Box(r.x, r.y, r.x + r.width, r.y + r.height)
  }

  function Shift(p: Point, dx: int, dy: int): Point {
    Point(p.x + dx, p.y + dy)
  }

  function Translate(r: Region, dx: int, dy: int): (t: Region)
    ensures forall p: Point {:trigger p in t} :: p in t <==> Shift(p, -dx, -dy) in r
  {
    var t := set p | p in r :: Shift(p, dx, dy);
    assert forall p: Point {:trigger Shift(p, -dx, -dy)} :: p == Shift(Shift(p, -dx, -dy), dx, dy);
    t
  }

  type Colour = nat

  type Canvas = Point -> Colour

  /** wld_fill_region */
  function Fill(canvas: Canvas, colour: Colour, region: Region): Canvas {
    (q: Point) => if q in region then colour else canvas(q)
  }

  /** wld_copy_region: `region` is in source coordinates, moved by (dx, dy). */
  function Copy(canvas: Canvas, source: Canvas, dx: int, dy: int, region: Region): Canvas {
    (q: Point) => if Shift(q, -dx, -dy) in region then source(Shift(q, -dx, -dy)) else canvas(q)
  }

  type Blending = (Colour, Colour) -> Colour

  /** wld_blend_region: the source pixel over what is there. */
  function Blend(canvas: Canvas, blend: Blending, source: Canvas, dx: int, dy: int, region: Region): Canvas {
    (q: Point) => if Shift(q, -dx, -dy) in region then blend(source(Shift(q, -dx, -dy)), canvas(q)) else canvas(q)
  }
}

/** The tiling loops of draw_decor_part: libswc/decor.c. */
module Tiling {
  import opened Regions
  import opened Views
  import opened Painting

  /** C's integer division truncates toward zero. */
  function Quotient(a: int, b: int): int
    requires b > 0
  {
    if a >= 0 then a / b else -((-a) / b)
  }

  /** The start of the tile that holds `at`, counting tiles of `size` from `origin` in both directions. */
  method TileStart(origin: int, at: int, size: int) returns (start: int, ghost k: int)
    requires size > 0
    ensures start <= at < start + size
    ensures start == origin + k * size
  {
    k := Quotient(at - origin, size);
    start := origin + Quotient(at - origin, size) * size;
    QuotientNear(at - origin, size);
    if start > at {
      start := start - size;
      k := k - 1;
    }
  }

  lemma QuotientNear(a: int, b: int)
    requires b > 0
    ensures a - b < Quotient(a, b) * b < a + b
    ensures a >= 0 ==> Quotient(a, b) * b <= a
    ensures a < 0 ==> Quotient(a, b) * b >= a
  {
    var m := if a >= 0 then a else -a;
    assert m == m / b * b + m % b;
    if a < 0 {
      assert -(m / b) * b == -(m / b * b);
    }
  }

  /** One wld_copy_rectangle, in global coordinates: the destination box and where it is read from. */
  datatype CopyRect = CopyRect(x1: int, y1: int, x2: int, y2: int, sourceX: int, sourceY: int)

  predicate Hits(c: CopyRect, p: Point) {
    c.x1 <= p.x < c.x2 && c.y1 <= p.y < c.y2
  }

  /** How often `p` has been written. */
  function Writes(copies: seq<CopyRect>, p: Point): nat
    decreases |copies|
  {
    if copies == [] then 0
    else Writes(copies[..|copies| - 1], p) + if Hits(copies[|copies| - 1], p) then 1 else 0
  }

  lemma OneMore(copies: seq<CopyRect>, c: CopyRect, p: Point)
    ensures Writes(copies + [c], p) == Writes(copies, p) + if Hits(c, p) then 1 else 0
  {
    assert (copies + [c])[..|copies|] == copies;
  }

  /** Every read is inside the part. */
  predicate InBounds(part: Part, copies: seq<CopyRect>) {
    forall c | c in copies ::
      && 0 <= c.sourceX && c.sourceX + (c.x2 - c.x1) <= part.width
      && 0 <= c.sourceY && c.sourceY + (c.y2 - c.y1) <= part.height
  }

  function CopyRectangle(t: Target, part: Part, c: CopyRect, canvas: Canvas): Canvas {
    (q: Point) =>
      var p := Global(t, q);
      if Hits(c, p) then part.pixels(Point(c.sourceX + p.x - c.x1, c.sourceY + p.y - c.y1)) else canvas(q)
  }

  predicate InBand(b: Bounds, y1: int, y2: int, x2: int, p: Point) {
    b.x1 <= p.x < b.x2 && p.x < x2 && b.y1 <= p.y < b.y2 && y1 <= p.y < y2
  }

  predicate InBox(b: Bounds, p: Point) {
    b.x1 <= p.x < b.x2 && b.y1 <= p.y < b.y2
  }

  /** What has been drawn so far, on top of `was` and `done`: the points of `region`, once each, in the
      tiled colours. */
  ghost predicate Progress(t: Target, placed: Placed, was: Canvas, done: seq<CopyRect>,
                           now: Canvas, copies: seq<CopyRect>, region: Point -> bool)
    requires Drawn(placed)
  {
    && (forall p: Point :: Writes(copies, p) == Writes(done, p) + if region(p) then 1 else 0)
    && (forall q: Point :: now(q) == if region(Global(t, q)) then TilePixel(placed, Global(t, q)) else was(q))
  }

  lemma {:induction false} Multiples(n: nat, size: nat)
    ensures n > 0 ==> n * size >= size
  {
    if n > 1 {
      Multiples(n - 1, size);
      assert n * size == (n - 1) * size + size;
    }
  }

  lemma FarMultiple(m: int, size: int)
    requires size > 0 && m != 0
    ensures m * size >= size || m * size <= -size
  {
    var n := if m > 0 then m else -m;
    Multiples(n, size);
    if m < 0 { assert m * size == -(n * size); }
  }

  lemma TileMod(k: int, size: int, r: int)
    requires 0 <= r < size
    ensures (k * size + r) % size == r
  {
    var d := (k * size + r) / size;
    assert k * size - d * size == (k - d) * size;
    if d != k { FarMultiple(k - d, size); }
  }

  lemma TilePixelAt(placed: Placed, kx: int, ky: int, p: Point)
    requires Drawn(placed)
    requires var tx, ty := placed.area.x + kx * placed.part.width, placed.area.y + ky * placed.part.height;
      tx <= p.x < tx + placed.part.width && ty <= p.y < ty + placed.part.height
    ensures TilePixel(placed, p)
         == placed.part.pixels(Point(p.x - placed.area.x - kx * placed.part.width,
             p.y - placed.area.y - ky * placed.part.height))
  {
    TileMod(kx, placed.part.width, p.x - placed.area.x - kx * placed.part.width);
    TileMod(ky, placed.part.height, p.y - placed.area.y - ky * placed.part.height);
  }

  /** One row of tiles across a box. */
  method DrawRow(t: Target, placed: Placed, b: Bounds, tileY: int, ghost ky: int, was: Canvas, done: seq<CopyRect>)
    returns (canvas: Canvas, copies: seq<CopyRect>)
    requires Drawn(placed) && tileY == placed.area.y + ky * placed.part.height
    requires tileY < b.y2 && b.y1 < tileY + placed.part.height && b.y1 < b.y2 && b.x1 < b.x2
    requires InBounds(placed.part, done)
    ensures InBounds(placed.part, copies)
    ensures Progress(t, placed, was, done, canvas, copies,
                     p => InBand(b, tileY, tileY + placed.part.height, b.x2, p))
  {
    var w, h := placed.part.width, placed.part.height;
    canvas, copies := was, done;
    var tileX, kx := TileStart(placed.area.x, b.x1, w);
    while tileX < b.x2
      invariant tileX == placed.area.x + kx * w && b.x1 < tileX + w
      invariant InBounds(placed.part, copies)
      invariant Progress(t, placed, was, done, canvas, copies, p => InBand(b, tileY, tileY + h, tileX, p))
      decreases b.x2 - tileX
    {
      var x1, y1 := Max(tileX, b.x1), Max(tileY, b.y1);
      var x2, y2 := Min(tileX + w, b.x2), Min(tileY + h, b.y2);
      if x2 > x1 && y2 > y1 {
        var c := CopyRect(x1, y1, x2, y2, x1 - tileX, y1 - tileY);
        ghost var before, drawn := copies, canvas;
        copies := copies + [c];
        canvas := CopyRectangle(t, placed.part, c, canvas);
        TileDrawn(t, placed, b, tileX, kx, tileY, ky, was, done, drawn, before);
      }
      tileX := tileX + w;
      kx := kx + 1;
    }
  }

  lemma TileDrawn(t: Target, placed: Placed, b: Bounds, tileX: int, kx: int, tileY: int, ky: int,
                  was: Canvas, done: seq<CopyRect>, drawn: Canvas, before: seq<CopyRect>)
    requires Drawn(placed)
    requires tileX == placed.area.x + kx * placed.part.width && tileY == placed.area.y + ky * placed.part.height
    requires Progress(t, placed, was, done, drawn, before, p => InBand(b, tileY, tileY + placed.part.height, tileX, p))
    ensures var c := CopyRect(Max(tileX, b.x1), Max(tileY, b.y1), Min(tileX + placed.part.width, b.x2),
                              Min(tileY + placed.part.height, b.y2), Max(tileX, b.x1) - tileX, Max(tileY,
                                  b.y1) - tileY);
      Progress(t, placed, was, done, CopyRectangle(t, placed.part, c, drawn), before + [c],
               p => InBand(b, tileY, tileY + placed.part.height, tileX + placed.part.width, p))
  {
    var w, h := placed.part.width, placed.part.height;
    var c := CopyRect(Max(tileX, b.x1), Max(tileY, b.y1), Min(tileX + w, b.x2), Min(tileY + h, b.y2),
                      Max(tileX, b.x1) - tileX, Max(tileY, b.y1) - tileY);
    forall p: Point ensures Writes(before + [c], p)
      == Writes(done, p) + if InBand(b, tileY, tileY + h, tileX + w, p) then 1 else 0
    {
      OneMore(before, c, p);
    }
    forall q: Point ensures CopyRectangle(t, placed.part, c, drawn)(q)
      == if InBand(b, tileY, tileY + h, tileX + w, Global(t, q)) then TilePixel(placed, Global(t, q)) else was(q)
    {
      if Hits(c, Global(t, q)) { TilePixelAt(placed, kx, ky, Global(t, q)); }
    }
  }

  /** All rows of a box. */
  method DrawBox(t: Target, placed: Placed, b: Bounds, was: Canvas, done: seq<CopyRect>)
    returns (canvas: Canvas, copies: seq<CopyRect>)
    requires Drawn(placed) && b.y1 < b.y2 && b.x1 < b.x2
    requires InBounds(placed.part, done)
    ensures InBounds(placed.part, copies)
    ensures Progress(t, placed, was, done, canvas, copies, p => InBox(b, p))
  {
    var h := placed.part.height;
    canvas, copies := was, done;
    var tileY, ky := TileStart(placed.area.y, b.y1, h);
    while tileY < b.y2
      invariant tileY == placed.area.y + ky * h && b.y1 < tileY + h
      invariant InBounds(placed.part, copies)
      invariant Progress(t, placed, was, done, canvas, copies, p => InBox(b, p) && p.y < tileY)
      decreases b.y2 - tileY
    {
      ghost var drawn, before := canvas, copies;
      canvas, copies := DrawRow(t, placed, b, tileY, ky, canvas, copies);
      Further(t, placed, was, done, drawn, before, canvas, copies,
              p => InBox(b, p) && p.y < tileY, p => InBand(b, tileY, tileY + h, b.x2, p),
              p => InBox(b, p) && p.y < tileY + h);
      tileY := tileY + h;
      ky := ky + 1;
    }
  }

  /** Drawing one region and then a disjoint one is drawing both. */
  lemma Further(t: Target, placed: Placed, was: Canvas, done: seq<CopyRect>, drawn: Canvas, before: seq<CopyRect>,
                now: Canvas, copies: seq<CopyRect>, r1: Point -> bool, r2: Point -> bool, both: Point -> bool)
    requires Drawn(placed)
    requires Progress(t, placed, was, done, drawn, before, r1)
    requires Progress(t, placed, drawn, before, now, copies, r2)
    requires forall p: Point :: both(p) == (r1(p) || r2(p)) && !(r1(p) && r2(p))
    ensures Progress(t, placed, was, done, now, copies, both)
  {
    forall p: Point ensures Writes(copies, p) == Writes(done, p) + if both(p) then 1 else 0 {
      assert both(p) == (r1(p) || r2(p));
      assert Writes(before, p) == Writes(done, p) + if r1(p) then 1 else 0;
    }
  }

  ghost predicate InSome(boxes: seq<Bounds>, p: Point) {
    exists i :: 0 <= i < |boxes| && InBox(boxes[i], p)
  }

  /** What pixman_region32_rectangles gives for a region: disjoint, non-empty boxes. */
  ghost predicate Rectangles(boxes: seq<Bounds>, region: Region) {
    && (forall i | 0 <= i < |boxes| :: boxes[i].x1 < boxes[i].x2 && boxes[i].y1 < boxes[i].y2)
    && (forall i, j, p | 0 <= i < j < |boxes| && InBox(boxes[i], p) :: !InBox(boxes[j], p))
    && (forall p: Point :: p in region <==> InSome(boxes, p))
  }

  /** draw_decor_part: every point of the clipped, damaged area is written exactly once, from the point
      of the part it repeats, always inside the part, and nothing else is written. */
  method DrawDecorPart(t: Target, v: View, damage: Region, placed: Placed, boxes: seq<Bounds>, was: Canvas)
    returns (canvas: Canvas, copies: seq<CopyRect>)
    requires Rectangles(boxes, Area(placed.area) * damage - v.clip)
    ensures forall q: Point :: canvas(q) == DrawPart(t, v, damage, placed, was)(q)
    ensures forall p: Point ::
      Writes(copies, p) == (if Drawn(placed) && p in Area(placed.area) * damage - v.clip then 1 else 0)
    ensures InBounds(placed.part, copies)
  {
    canvas, copies := was, [];
    if !placed.part.loaded || placed.part.width == 0 || placed.part.height == 0 { return; }
    for i := 0 to |boxes|
      invariant InBounds(placed.part, copies)
      invariant Progress(t, placed, was, [], canvas, copies, p => InSome(boxes[..i], p))
    {
      ghost var drawn, before := canvas, copies;
      canvas, copies := DrawBox(t, placed, boxes[i], canvas, copies);
      SomeSnoc(boxes, i);
      Further(t, placed, was, [], drawn, before, canvas, copies,
              p => InSome(boxes[..i], p), p => InBox(boxes[i], p), p => InSome(boxes[..i + 1], p));
    }
    assert boxes[..|boxes|] == boxes;
  }

  lemma SomeSnoc(boxes: seq<Bounds>, i: nat)
    requires i < |boxes|
    ensures forall p: Point :: InSome(boxes[..i + 1], p) <==> InSome(boxes[..i], p) || InBox(boxes[i], p)
  {
    forall p: Point | InSome(boxes[..i], p) || InBox(boxes[i], p) ensures InSome(boxes[..i + 1], p) {
      if InSome(boxes[..i], p) {
        var j :| 0 <= j < i && InBox(boxes[..i][j], p);
        assert boxes[..i + 1][j] == boxes[..i][j];
      } else {
        assert boxes[..i + 1][i] == boxes[i];
      }
    }
    forall p: Point | InSome(boxes[..i + 1], p) ensures InSome(boxes[..i], p) || InBox(boxes[i], p) {
      var j :| 0 <= j < i + 1 && InBox(boxes[..i + 1][j], p);
      if j < i { assert boxes[..i][j] == boxes[..i + 1][j]; }
    }
  }
}

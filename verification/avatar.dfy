/** The round player avatars of the knockout overlay
    (app/states/components/overlays/play/avatarcircle.go): a circular alpha
    mask on the integer pixel grid, and the layout of the avatar disk and
    its team-colour ring on a padded canvas. */
module AvatarCircle {
  datatype Point = Point(x: int, y: int)

  /** An image rectangle: the half-open box [min.x, max.x) × [min.y, max.y). */
  datatype Rectangle = Rectangle(min: Point, max: Point)

  /** Builds a rectangle from two corners, swapping coordinates so that the
      minimum comes first. */
  function Rect(x0: int, y0: int, x1: int, y1: int): (r: Rectangle)
    ensures r.min.x <= r.max.x && r.min.y <= r.max.y
    ensures {r.min.x, r.max.x} == {x0, x1} && {r.min.y, r.max.y} == {y0, y1}
  {
    var (loX, hiX) := if x0 > x1 then (x1, x0) else (x0, x1);
    var (loY, hiY) := if y0 > y1 then (y1, y0) else (y0, y1);
    Rectangle(Point(loX, loY), Point(hiX, hiY))
  }

  predicate InRectangle(p: Point, r: Rectangle) {
    r.min.x <= p.x < r.max.x && r.min.y <= p.y < r.max.y
  }

  predicate WithinRectangle(a: Rectangle, b: Rectangle) {
    b.min.x <= a.min.x && a.max.x <= b.max.x && b.min.y <= a.min.y && a.max.y <= b.max.y
  }

  /** A circle mask of radius r around p. */
  datatype Circle = Circle(p: Point, r: int)

  /** The mask's bounds: the square of side 2r around the centre. */
  function Bounds(c: Circle): (b: Rectangle)
    ensures c.r >= 0 ==> b == Rectangle(Point(c.p.x - c.r, c.p.y - c.r), Point(c.p.x + c.r, c.p.y + c.r))
  {
    Rect(c.p.x - c.r, c.p.y - c.r, c.p.x + c.r, c.p.y + c.r)
  }

  /** The mask value at pixel (x, y): fully opaque when the point a quarter
      pixel right and below the pixel's corner lies strictly inside the
      circle, fully transparent otherwise. */
  function At(c: Circle, x: int, y: int): (alpha: int)
    ensures alpha == 255 || alpha == 0
    ensures alpha == 255 <==> Opaque(c, x, y)
  {
    SixteenfoldSquares(x - c.p.x, y - c.p.y, c.r);
    var xx, yy, rr := (x - c.p.x) as real + 0.25, (y - c.p.y) as real + 0.25, c.r as real;
    if xx * xx + yy * yy < rr * rr then 255 else 0
  }

  /** The mask test in integers, scaled by 16. */
  predicate Opaque(c: Circle, x: int, y: int) {
    var dx, dy := 4 * (x - c.p.x) + 1, 4 * (y - c.p.y) + 1;
    dx * dx + dy * dy < 16 * c.r * c.r
  }

  lemma QuarterSquare(d: int)
    ensures (d as real + 0.25) * (d as real + 0.25) == ((4 * d + 1) * (4 * d + 1)) as real / 16.0
  {
    var x := d as real;
    assert (4 * d + 1) * (4 * d + 1) == 16 * (d * d) + 8 * d + 1;
    assert (d * d) as real == x * x;
    assert (x + 0.25) * (x + 0.25) == x * x + 0.5 * x + 0.0625;
  }

  lemma SixteenfoldSquares(dx: int, dy: int, r: int)
    ensures ((dx as real + 0.25) * (dx as real + 0.25) + (dy as real + 0.25) * (dy as real + 0.25) < r as real * r as real)
            <==> (4 * dx + 1) * (4 * dx + 1) + (4 * dy + 1) * (4 * dy + 1) < 16 * r * r
  {
    QuarterSquare(dx);
    QuarterSquare(dy);
    assert (r * r) as real == r as real * r as real;
    assert 16 * r * r == 16 * (r * r);
  }

  /** a² < b² with b ≥ 0 bounds |a| by b. */
  lemma SquareBelow(a: int, b: int)
    requires b >= 0 && a * a < b * b
    ensures -b < a < b
  {
    if a >= b {
      SquareMono(b, a);
    } else if a <= -b {
      SquareMono(b, -a);
    }
  }

  /** The mask and the bounds depend only on |r|. */
  lemma RadiusSign(c: Circle)
    ensures Bounds(c) == Bounds(c.(r := -c.r))
    ensures forall x, y :: Opaque(c, x, y) <==> Opaque(c.(r := -c.r), x, y)
  {
  }

  /** Every opaque pixel lies inside the mask's bounds, whatever the sign of
      the radius. */
  lemma OpaqueWithinBounds(c: Circle, x: int, y: int)
    requires At(c, x, y) == 255
    ensures InRectangle(Point(x, y), Bounds(c))
  {
    var r := if c.r >= 0 then c.r else -c.r;
    var dx, dy := 4 * (x - c.p.x) + 1, 4 * (y - c.p.y) + 1;
    assert 16 * c.r * c.r == (4 * r) * (4 * r);
    assert dy * dy >= 0 && dx * dx >= 0;
    SquareBelow(dx, 4 * r);
    SquareBelow(dy, 4 * r);
    RadiusSign(c);
  }

  lemma SquareMono(a: int, b: int)
    requires 0 <= a <= b
    ensures a * a <= b * b
  {
    assert a * a <= a * b <= b * b;
  }

  /** A larger circle around the same centre covers a smaller one. */
  lemma MaskGrowsWithRadius(c: Circle, r2: int, x: int, y: int)
    requires 0 <= c.r <= r2
    requires At(c, x, y) == 255
    ensures At(c.(r := r2), x, y) == 255
  {
    SquareMono(c.r, r2);
    assert 16 * c.r * c.r == 16 * (c.r * c.r);
    assert 16 * r2 * r2 == 16 * (r2 * r2);
  }

  /** Padding added around the avatar on each axis, in pixels. */
  const Padding := 25

  /** Extra radius of the team-colour ring. */
  const RingWidth := 10

  /** The canvas an avatar of the given pixmap size is drawn on: the ring
      mask, the avatar disk mask, and the offset the avatar is drawn at. */
  datatype AvatarLayout = AvatarLayout(canvas: Rectangle, ring: Circle, disk: Circle, offset: Point)

  function LoadAvatar(width: nat, height: nat): (l: AvatarLayout)
    ensures l.canvas == Rectangle(Point(0, 0), Point(width + Padding, height + Padding))
    ensures l.ring.p == l.disk.p
    ensures 0 <= (width + Padding) - 2 * l.disk.p.x <= 1 && 0 <= (height + Padding) - 2 * l.disk.p.y <= 1
    ensures 0 <= width - 2 * l.disk.r <= 1
    ensures l.ring.r == l.disk.r + RingWidth
    ensures l.offset == Point(-(Padding / 2), -(Padding / 2))
  {
    var canvas := Rect(0, 0, width + Padding, height + Padding);
    var center := Point(canvas.max.x / 2, canvas.max.y / 2);
    var radius := width / 2;
    AvatarLayout(canvas, Circle(center, radius + RingWidth), Circle(center, radius), Point(-(Padding / 2), -(Padding / 2)))
  }

  /** The ring covers every pixel of the avatar disk. */
  lemma RingCoversDisk(width: nat, height: nat, x: int, y: int)
    requires At(LoadAvatar(width, height).disk, x, y) == 255
    ensures At(LoadAvatar(width, height).ring, x, y) == 255
  {
    var l := LoadAvatar(width, height);
    MaskGrowsWithRadius(l.disk, l.ring.r, x, y);
  }

  /** The ring fits horizontally on the canvas, and vertically too when the
      avatar is at least as tall as it is wide. */
  lemma RingFitsCanvas(width: nat, height: nat)
    ensures LoadAvatar(width, height).canvas.min.x <= Bounds(LoadAvatar(width, height).ring).min.x
    ensures Bounds(LoadAvatar(width, height).ring).max.x <= LoadAvatar(width, height).canvas.max.x
    ensures height >= width ==> WithinRectangle(Bounds(LoadAvatar(width, height).ring), LoadAvatar(width, height).canvas)
  {
  }

  /** For an even width the disk is centred on the avatar drawn at the
      padding offset; for an odd width it sits half a pixel off. */
  lemma DiskCentredOnAvatar(width: nat, height: nat)
    ensures LoadAvatar(width, height).disk.p.x + LoadAvatar(width, height).offset.x == width / 2 + width % 2
  {
  }
}

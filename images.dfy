/**
 * Source images as the driver and the compositor read them: a rectangle of
 * pixels read through `At`, which gives the zero colour outside the
 * rectangle (as Go's image types do).
 */
module Images {

  /** A colour as its red, green and blue components. */
  datatype Pixel = Pixel(r: nat, g: nat, b: nat)

  const Black := Pixel(0, 0, 0)

  /** The monochrome threshold of ShowImage: any non-zero channel is "on". */
  predicate Lit(p: Pixel)
    ensures Lit(p) <==> p != Black
  {
    p.r > 0 || p.g > 0 || p.b > 0
  }

  /** Bounds [minX, maxX) x [minY, maxY) and the rows of pixels inside them. */
  datatype Picture = Picture(minX: nat, minY: nat, maxX: nat, maxY: nat, rows: seq<seq<Pixel>>)

  predicate WellFormed(p: Picture)
  {
    && p.minX <= p.maxX && p.minY <= p.maxY
    && |p.rows| == p.maxY - p.minY
    && forall j :: 0 <= j < |p.rows| ==> |p.rows[j]| == p.maxX - p.minX
  }

  type Image = p: Picture | WellFormed(p) witness Picture(0, 0, 0, 0, [])

  /** `Bounds().Dx()` and `Bounds().Dy()`. */
  function Dx(img: Image): nat { img.maxX - img.minX }
  function Dy(img: Image): nat { img.maxY - img.minY }

  /** `img.At(x, y)`. */
  function At(img: Image, x: int, y: int): Pixel
  {
    if img.minX <= x < img.maxX && img.minY <= y < img.maxY then img.rows[y - img.minY][x - img.minX]
    else Black
  }

  /** A new all-off image of the given size at the origin. */
  function Blank(width: nat, height: nat): (img: Image)
    ensures img.minX == 0 && img.minY == 0 && Dx(img) == width && Dy(img) == height
    ensures forall x, y :: At(img, x, y) == Black
  {
    Picture(0, 0, width, height, seq(height, _ => seq(width, _ => Black)))
  }
}

/**
 * The high-level SSD1306 front end: nearest-neighbour resizing of a source
 * image to the screen, centring it on a fresh canvas, and the `DrawText`
 * entry point that prepares the canvas and chooses where the text goes.
 *
 * Canvases are row-major `array2<Pixel>`: `a[y, x]` is the pixel in row y,
 * column x, and the screen's bounds start at the origin.
 */
module Compositor {
  import opened Wrappers
  import opened Transport
  import opened Images
  import opened Layout
  import Protocol
  import Arith

  /** The source coordinate that destination coordinate i reads when a
      source extent of `srcMax` is resampled to `size`: scale, then round
      half up. */
  function Sample(i: int, srcMax: nat, size: nat): (r: int)
    requires size > 0
    ensures i >= 0 ==> r >= 0
  {
    (i * srcMax + size / 2) / size
  }

  /** The colour `resize` stores at (x, y) of a w x h destination. */
  function Resampled(src: Image, w: nat, h: nat, x: int, y: int): (p: Pixel)
    requires w > 0 && h > 0
    ensures Sample(x, src.maxX, w) >= src.maxX || Sample(y, src.maxY, h) >= src.maxY ==> p == Black
  {
    At(src, Sample(x, src.maxX, w), Sample(y, src.maxY, h))
  }

  /** Resampling to the source's own extent reads every coordinate in place. */
  lemma SampleIdentity(i: nat, size: nat)
    requires size > 0
    ensures Sample(i, size, size) == i
  {
    Arith.DivModUnique(i * size + size / 2, size, i, size / 2);
  }

  /** Sampled coordinates never go backwards. */
  lemma SampleMonotone(i: int, j: int, srcMax: nat, size: nat)
    requires i <= j && size > 0
    ensures Sample(i, srcMax, size) <= Sample(j, srcMax, size)
  {
    Arith.MulMonotone(i, j, srcMax);
    Arith.DivMonotone(i * srcMax + size / 2, j * srcMax + size / 2, size);
  }

  /** A destination coordinate inside [0, size) samples inside [0, srcMax]:
      at most one past the last source coordinate. */
  lemma SampleBounded(i: int, srcMax: nat, size: nat)
    requires 0 <= i < size
    ensures 0 <= Sample(i, srcMax, size) <= srcMax
  {
    Arith.MulMonotone(0, i, srcMax);
    Arith.MulMonotone(i, size - 1, srcMax);
    Arith.DivBelow(i * srcMax + size / 2, size, srcMax + 1);
  }

  /** Every destination coordinate samples strictly inside the source exactly
      when half the destination extent is below the source extent; otherwise
      the last one reads one past the edge. */
  lemma SampleInsideIff(srcMax: nat, size: nat)
    requires size > 0
    ensures (forall i :: 0 <= i < size ==> Sample(i, srcMax, size) < srcMax) <==> size / 2 < srcMax
  {
    var last := size - 1;
    Arith.DivBelow(last * srcMax + size / 2, size, srcMax);
    assert last * srcMax + srcMax == size * srcMax;
    if size / 2 < srcMax {
      forall i | 0 <= i < size
        ensures Sample(i, srcMax, size) < srcMax
      {
        SampleMonotone(i, last, srcMax, size);
      }
    } else {
      assert Sample(last, srcMax, size) >= srcMax;
    }
  }

  /** Doubling a 2-wide source: column 3 reads column 2, just outside it, so
      it comes out as the zero colour. */
  lemma UpscalePastEdge(src: Image)
    requires src.minX == 0 && src.maxX == 2 && src.minY == 0 && src.maxY == 2
    ensures Sample(3, 2, 4) == 2
    ensures Resampled(src, 4, 4, 3, 0) == Black
  {
    assert Sample(3, 2, 4) == (3 * 2 + 4 / 2) / 4 == 2;
    assert Sample(0, 2, 4) == (0 * 2 + 4 / 2) / 4 == 0;
  }

  /** Resizing to the source's own size (from the origin) is a copy. */
  lemma ResampleIdentity(src: Image, x: nat, y: nat)
    requires src.maxX > 0 && src.maxY > 0
    ensures Resampled(src, src.maxX, src.maxY, x, y) == At(src, x, y)
  {
    SampleIdentity(x, src.maxX);
    SampleIdentity(y, src.maxY);
  }

  /** `resize`: a new w x h image whose pixel (x, y) is the source pixel at
      the sampled column and row. */
  method Resize(src: Image, w: nat, h: nat) returns (dst: array2<Pixel>)
    ensures fresh(dst) && dst.Length0 == h && dst.Length1 == w
    ensures forall y, x :: 0 <= y < h && 0 <= x < w ==> dst[y, x] == Resampled(src, w, h, x, y)
  {
    dst := new Pixel[h, w]((_, _) => Black);
    var y := 0;
    while y < h
      invariant 0 <= y <= h
      invariant forall j, i :: 0 <= j < y && 0 <= i < w ==> dst[j, i] == Resampled(src, w, h, i, j)
    {
      var sY := Sample(y, src.maxY, h);
      var x := 0;
      while x < w
        invariant 0 <= x <= w
        invariant forall j, i :: 0 <= j < y && 0 <= i < w ==> dst[j, i] == Resampled(src, w, h, i, j)
        invariant forall i :: 0 <= i < x ==> dst[y, i] == Resampled(src, w, h, i, y)
      {
        dst[y, x] := At(src, Sample(x, src.maxX, w), sY);
        x := x + 1;
      }
      y := y + 1;
    }
  }

  /** Go's `a / 2` on an int: the quotient rounded toward zero. */
  function HalfTowardZero(a: int): (r: int)
    ensures a >= 0 ==> 0 <= r && (2 * r == a || 2 * r == a - 1)
    ensures a < 0 ==> r <= 0 && (2 * r == a || 2 * r == a + 1)
  {
    if a >= 0 then a / 2 else -((-a) / 2)
  }

  /** `draw.Draw(dst, r, src, image.Point{}, draw.Src)` with `r` the source
      bounds moved by (ox, oy): each destination pixel covered by the moved
      source takes the source pixel, every other keeps its colour. */
  method DrawSrc(dst: array2<Pixel>, src: array2<Pixel>, ox: int, oy: int)
    requires dst != src
    modifies dst
    ensures forall y, x :: 0 <= y < dst.Length0 && 0 <= x < dst.Length1 ==>
      dst[y, x] == if 0 <= y - oy < src.Length0 && 0 <= x - ox < src.Length1 then src[y - oy, x - ox]
                   else old(dst[y, x])
  {
    var y := 0;
    while y < dst.Length0
      invariant 0 <= y <= dst.Length0
      invariant forall j, i :: 0 <= j < y && 0 <= i < dst.Length1 ==>
        dst[j, i] == if 0 <= j - oy < src.Length0 && 0 <= i - ox < src.Length1 then src[j - oy, i - ox]
                     else old(dst[j, i])
      invariant forall j, i :: y <= j < dst.Length0 && 0 <= i < dst.Length1 ==> dst[j, i] == old(dst[j, i])
    {
      var x := 0;
      while x < dst.Length1
        invariant 0 <= x <= dst.Length1
        invariant forall j, i :: 0 <= j < y && 0 <= i < dst.Length1 ==>
          dst[j, i] == if 0 <= j - oy < src.Length0 && 0 <= i - ox < src.Length1 then src[j - oy, i - ox]
                       else old(dst[j, i])
        invariant forall i :: 0 <= i < x ==>
          dst[y, i] == if 0 <= y - oy < src.Length0 && 0 <= i - ox < src.Length1 then src[y - oy, i - ox]
                       else old(dst[y, i])
        invariant forall i :: x <= i < dst.Length1 ==> dst[y, i] == old(dst[y, i])
        invariant forall j, i :: y < j < dst.Length0 && 0 <= i < dst.Length1 ==> dst[j, i] == old(dst[j, i])
      {
        if 0 <= y - oy < src.Length0 && 0 <= x - ox < src.Length1 {
          dst[y, x] := src[y - oy, x - ox];
        }
        x := x + 1;
      }
      y := y + 1;
    }
  }

  /** `convert`: resize the source to the screen, then draw it centred on a
      fresh all-off canvas of the screen's size.  The centring offset is
      half the difference between screen and resized extents, which is zero,
      so the canvas is exactly the resized image. */
  method Convert(screenW: nat, screenH: nat, src: Image) returns (img: array2<Pixel>)
    ensures fresh(img) && img.Length0 == screenH && img.Length1 == screenW
    ensures forall y, x :: 0 <= y < screenH && 0 <= x < screenW ==> img[y, x] == Resampled(src, screenW, screenH, x, y)
  {
    var resized := Resize(src, screenW, screenH);
    var ox := HalfTowardZero(screenW - resized.Length1);
    var oy := HalfTowardZero(screenH - resized.Length0);
    img := new Pixel[screenH, screenW]((_, _) => Black);
    DrawSrc(img, resized, ox, oy);
  }

  /** The front end of the panel (the `SSD1306H` type).  The variant with a
      reset line pulses it when constructed; the variant without one does not. */
  class SSD1306H {
    const bus: Bus
    const width: nat
    const height: nat

    /** The constructor of the variant with a reset line: a 128 x 64 panel,
        reset once. */
    constructor (bus: Bus)
      modifies bus
      ensures this.bus == bus && width == 128 && height == 64
      ensures bus.trace == old(bus.trace) + Protocol.ResetEvents
    {
      this.bus := bus;
      width := 128;
      height := 64;
      new;
      var _ := Reset();
    }

    /** The constructor of the variant without a reset line: nothing is sent. */
    constructor WithoutReset(bus: Bus)
      ensures this.bus == bus && width == 128 && height == 64
    {
      this.bus := bus;
      width := 128;
      height := 64;
    }

    /** `Reset`: reset line high, low, high; never reports an error. */
    method Reset() returns (err: Option<Error>)
      modifies bus
      ensures err == None && bus.trace == old(bus.trace) + Protocol.ResetEvents
    {
      var _ := bus.WritePin(RST, High);
      var _ := bus.WritePin(RST, Low);
      var _ := bus.WritePin(RST, High);
      return None;
    }

    /** `DrawText`: a blank screen-sized image is converted into the canvas,
        and the text goes at the origin its position selects (none for an
        unknown position).  The canvas is all off. */
    method DrawText(pos: Pos, text: string) returns (canvas: array2<Pixel>, origin: Option<Point>)
      ensures fresh(canvas) && canvas.Length0 == height && canvas.Length1 == width
      ensures forall y, x :: 0 <= y < height && 0 <= x < width ==> canvas[y, x] == Black
      ensures origin == TextOrigin(pos, width, height, text)
    {
      var src := Blank(width, height);
      canvas := Convert(width, height, src);
      origin := TextOrigin(pos, canvas.Length1, canvas.Length0, text);
    }

    /** `DrawImage`: does nothing and reports success. */
    method DrawImage() returns (err: Option<Error>)
      ensures err == None
    {
      return None;
    }
  }
}

/**
 * The display buffer: one byte per column of each page, in the
 * controller's vertical-LSB layout.  Pixel (x, y) is bit y % pageSize of
 * byte x + (y / pageSize) * width.
 */
module Framebuffer {
  import opened Transport
  import Arith

  /** Go's `1 << bit` where the constant 1 is a byte: zero once bit >= 8.
      Written as a table so that no integer-to-bit-vector conversion is
      involved; MaskIsShift relates it to the shift. */
  function Mask(bit: nat): Byte
  {
    if bit == 0 then 0x01 else if bit == 1 then 0x02 else if bit == 2 then 0x04
    else if bit == 3 then 0x08 else if bit == 4 then 0x10 else if bit == 5 then 0x20
    else if bit == 6 then 0x40 else if bit == 7 then 0x80 else 0
  }

  /** The table is the byte shift `1 << bit`, and shifting past the top
      bit leaves nothing. */
  lemma MaskIsShift(bit: nat)
    ensures bit < 8 ==> Mask(bit) == (1 as Byte) << bit
    ensures bit >= 8 ==> Mask(bit) == 0
  {
    if bit == 0 {
    } else if bit == 1 {
    } else if bit == 2 {
    } else if bit == 3 {
    } else if bit == 4 {
    } else if bit == 5 {
    } else if bit == 6 {
    } else if bit == 7 {
    }
  }

  /** Bit k of a byte, bit 0 being the least significant (topmost row). */
  predicate BitOf(b: Byte, k: nat)
    requires k < 8
  {
    b & Mask(k) != 0
  }

  /** `b |= 1 << bit` when `on`, `b &= ^(1 << bit)` otherwise. */
  function SetBitTo(b: Byte, bit: nat, on: bool): (r: Byte)
    ensures forall k :: 0 <= k < 8 ==> BitOf(r, k) == (if k == bit then on else BitOf(b, k))
  {
    if on then OrMask(b, bit); b | Mask(bit)
    else AndNotMask(b, bit); b & !Mask(bit)
  }

  /** Or-ing in the mask sets exactly bit `bit`. */
  lemma OrMask(b: Byte, bit: nat)
    ensures forall k :: 0 <= k < 8 ==> BitOf(b | Mask(bit), k) == (k == bit || BitOf(b, k))
  {
    forall k | 0 <= k < 8
      ensures BitOf(b | Mask(bit), k) == (k == bit || BitOf(b, k))
    {
      OrMaskAt(b, bit, k);
    }
  }

  lemma OrMaskAt(b: Byte, bit: nat, k: nat)
    requires k < 8
    ensures BitOf(b | Mask(bit), k) == (k == bit || BitOf(b, k))
  {
  }

  /** And-ing with the complement of the mask clears exactly bit `bit`. */
  lemma AndNotMask(b: Byte, bit: nat)
    ensures forall k :: 0 <= k < 8 ==> BitOf(b & !Mask(bit), k) == (k != bit && BitOf(b, k))
  {
    forall k | 0 <= k < 8
      ensures BitOf(b & !Mask(bit), k) == (k != bit && BitOf(b, k))
    {
      AndNotMaskAt(b, bit, k);
    }
  }

  lemma AndNotMaskAt(b: Byte, bit: nat, k: nat)
    requires k < 8
    ensures BitOf(b & !Mask(bit), k) == (k != bit && BitOf(b, k))
  {
  }

  /** A byte is determined by its eight bits. */
  lemma BitsDetermineByte(a: Byte, b: Byte)
    requires forall k :: 0 <= k < 8 ==> BitOf(a, k) == BitOf(b, k)
    ensures a == b
  {
    assert BitOf(a, 0) == BitOf(b, 0) && BitOf(a, 1) == BitOf(b, 1);
    assert BitOf(a, 2) == BitOf(b, 2) && BitOf(a, 3) == BitOf(b, 3);
    assert BitOf(a, 4) == BitOf(b, 4) && BitOf(a, 5) == BitOf(b, 5);
    assert BitOf(a, 6) == BitOf(b, 6) && BitOf(a, 7) == BitOf(b, 7);
  }

  /** The byte holding pixel (x, y). */
  function PixelIndex(width: int, pageSize: int, x: int, y: int): int
    requires pageSize > 0 && y >= 0
  {
    x + (y / pageSize) * width
  }

  /** Storing the byte that the Go code computes for pixel (x, y) is a WritePixel. */
  lemma WritePixelStore(buf: seq<Byte>, width: int, pageSize: int, x: int, y: int, c: int, b: Byte)
    requires pageSize > 0 && y >= 0
    requires 0 <= PixelIndex(width, pageSize, x, y) < |buf|
    requires b == if c == 0 then buf[PixelIndex(width, pageSize, x, y)] & !Mask(y % pageSize)
                  else buf[PixelIndex(width, pageSize, x, y)] | Mask(y % pageSize)
    ensures buf[PixelIndex(width, pageSize, x, y) := b] == WritePixel(buf, width, pageSize, x, y, c)
  {
  }

  /** Whether pixel (x, y) is on in `buf`. */
  predicate PixelOn(buf: seq<Byte>, width: int, pageSize: int, x: int, y: int)
    requires 0 < pageSize <= 8 && y >= 0
    requires 0 <= PixelIndex(width, pageSize, x, y) < |buf|
  {
    BitOf(buf[PixelIndex(width, pageSize, x, y)], y % pageSize)
  }

  /** `SetPixel(x, y, c)` on buffer contents `buf`. */
  function WritePixel(buf: seq<Byte>, width: int, pageSize: int, x: int, y: int, c: int): (r: seq<Byte>)
    requires pageSize > 0 && y >= 0
    requires 0 <= PixelIndex(width, pageSize, x, y) < |buf|
    ensures |r| == |buf|
    ensures forall i :: 0 <= i < |buf| && i != PixelIndex(width, pageSize, x, y) ==> r[i] == buf[i]
    ensures y % pageSize < 8 ==> forall k :: 0 <= k < 8 ==>
      BitOf(r[PixelIndex(width, pageSize, x, y)], k) ==
        (if k == y % pageSize then c != 0 else BitOf(buf[PixelIndex(width, pageSize, x, y)], k))
    ensures y % pageSize >= 8 ==> r == buf
  {
    var idx := PixelIndex(width, pageSize, x, y);
    buf[idx := SetBitTo(buf[idx], y % pageSize, c != 0)]
  }

  // ---------------------------------------------------------------------
  // The pixel/byte correspondence

  /** From a pixel to its byte and back: the byte's column is x, its page
      is y's page, and page and bit give back y. */
  lemma {:induction false} PixelAddressInverse(width: int, pageSize: int, x: int, y: int)
    requires pageSize > 0 && 0 <= x < width && y >= 0
    ensures var i := PixelIndex(width, pageSize, x, y);
      i >= 0 && i % width == x && i / width == y / pageSize && (i / width) * pageSize + y % pageSize == y
  {
    var i := PixelIndex(width, pageSize, x, y);
    assert y / pageSize >= 0;
    Arith.DivModUnique(i, width, y / pageSize, x);
  }

  /** From a byte and a bit below pageSize to the pixel it holds and back. */
  lemma {:induction false} ByteBitAddressInverse(width: int, pageSize: int, i: int, k: int)
    requires pageSize > 0 && width > 0 && i >= 0 && 0 <= k < pageSize
    ensures var y := (i / width) * pageSize + k;
      y >= 0 && y / pageSize == i / width && y % pageSize == k &&
      PixelIndex(width, pageSize, i % width, y) == i
  {
    var y := (i / width) * pageSize + k;
    assert i / width >= 0;
    Arith.MulMonotone(0, i / width, pageSize);
    Arith.DivModUnique(y, pageSize, i / width, k);
  }

  /** Distinct pixels of a width-wide buffer with at most 8 rows per page
      live in distinct bits. */
  lemma PixelsDistinct(width: int, pageSize: int, x1: int, y1: int, x2: int, y2: int)
    requires 0 < pageSize && 0 <= x1 < width && 0 <= x2 < width && y1 >= 0 && y2 >= 0
    requires PixelIndex(width, pageSize, x1, y1) == PixelIndex(width, pageSize, x2, y2)
    requires y1 % pageSize == y2 % pageSize
    ensures x1 == x2 && y1 == y2
  {
    PixelAddressInverse(width, pageSize, x1, y1);
    PixelAddressInverse(width, pageSize, x2, y2);
  }

  // ---------------------------------------------------------------------
  // Properties of SetPixel

  /** Writing a pixel turns that pixel on or off and leaves every other
      pixel of the buffer as it was. */
  lemma ReadAfterWrite(buf: seq<Byte>, width: int, pageSize: int, x: int, y: int, c: int, x': int, y': int)
    requires 0 < pageSize <= 8 && 0 <= x < width && 0 <= x' < width && y >= 0 && y' >= 0
    requires 0 <= PixelIndex(width, pageSize, x, y) < |buf|
    requires 0 <= PixelIndex(width, pageSize, x', y') < |buf|
    ensures PixelOn(WritePixel(buf, width, pageSize, x, y, c), width, pageSize, x', y') ==
      if x' == x && y' == y then c != 0 else PixelOn(buf, width, pageSize, x', y')
  {
    if PixelIndex(width, pageSize, x, y) == PixelIndex(width, pageSize, x', y') && y % pageSize == y' % pageSize {
      PixelsDistinct(width, pageSize, x, y, x', y');
    }
  }

  /** The last of two writes to the same pixel wins; in particular writing
      the same value twice is the same as writing it once. */
  lemma WriteLastWins(buf: seq<Byte>, width: int, pageSize: int, x: int, y: int, c1: int, c2: int)
    requires pageSize > 0 && y >= 0
    requires 0 <= PixelIndex(width, pageSize, x, y) < |buf|
    ensures WritePixel(WritePixel(buf, width, pageSize, x, y, c1), width, pageSize, x, y, c2) ==
            WritePixel(buf, width, pageSize, x, y, c2)
  {
    var idx := PixelIndex(width, pageSize, x, y);
    var a := WritePixel(WritePixel(buf, width, pageSize, x, y, c1), width, pageSize, x, y, c2);
    var b := WritePixel(buf, width, pageSize, x, y, c2);
    if y % pageSize < 8 {
      BitsDetermineByte(a[idx], b[idx]);
    }
    assert a == b;
  }

  /** Setting a pixel and then clearing it gives back the buffer exactly when
      the pixel was off to begin with; otherwise it ends off. */
  lemma SetThenClear(buf: seq<Byte>, width: int, pageSize: int, x: int, y: int)
    requires 0 < pageSize <= 8 && y >= 0
    requires 0 <= PixelIndex(width, pageSize, x, y) < |buf|
    ensures var r := WritePixel(WritePixel(buf, width, pageSize, x, y, 1), width, pageSize, x, y, 0);
      (r == buf <==> !PixelOn(buf, width, pageSize, x, y)) && !PixelOn(r, width, pageSize, x, y)
  {
    var idx := PixelIndex(width, pageSize, x, y);
    var r := WritePixel(WritePixel(buf, width, pageSize, x, y, 1), width, pageSize, x, y, 0);
    if !PixelOn(buf, width, pageSize, x, y) {
      BitsDetermineByte(r[idx], buf[idx]);
      assert r == buf;
    }
  }

  // ---------------------------------------------------------------------
  // Packing a column of page bits into one byte

  /** The byte whose bit k is bits[k] (bits beyond |bits| are 0). */
  function PackBits(bits: seq<bool>): (b: Byte)
    requires |bits| <= 8
    ensures forall k :: 0 <= k < 8 ==> BitOf(b, k) == (k < |bits| && bits[k])
  {
    if bits == [] then 0
    else
      var rest := PackBits(bits[..|bits| - 1]);
      SetBitTo(rest, |bits| - 1, bits[|bits| - 1])
  }

  // ---------------------------------------------------------------------

  class DisplayBuffer {
    const width: int
    const height: int
    const pageSize: int
    var buffer: array<Byte>

    /** `NewDisplayBuffer`: a zero-filled buffer of Size() bytes. */
    constructor (width: int, height: int, pageSize: int)
      requires 0 <= width && 0 <= height && 0 < pageSize
      ensures this.width == width && this.height == height && this.pageSize == pageSize
      ensures fresh(buffer) && buffer.Length == Size()
      ensures forall i :: 0 <= i < buffer.Length ==> buffer[i] == 0
    {
      this.width, this.height, this.pageSize := width, height, pageSize;
      new;
      buffer := new Byte[Size()](_ => 0);
    }

    /** The memory size of the buffer: one byte per column of every page. */
    function Size(): (n: int)
      requires 0 <= width && 0 <= height && 0 < pageSize
      ensures n >= 0
      ensures height % pageSize == 0 ==> n == width * (height / pageSize)
    {
      SizeExact(width, height, pageSize);
      (width * height) / pageSize
    }

    static lemma SizeExact(width: int, height: int, pageSize: int)
      requires 0 <= width && 0 <= height && 0 < pageSize
      ensures (width * height) / pageSize >= 0
      ensures height % pageSize == 0 ==> (width * height) / pageSize == width * (height / pageSize)
    {
      Arith.MulMonotone(0, width, height);
      Arith.DivMonotone(0, width * height, pageSize);
      if height % pageSize == 0 {
        assert height == (height / pageSize) * pageSize;
        assert width * height == (width * (height / pageSize)) * pageSize;
        Arith.DivModUnique(width * height, pageSize, width * (height / pageSize), 0);
      }
    }

    /** Re-zero the buffer: a fresh zero-filled array of exactly Size() bytes,
        whatever length `Set` installed before. */
    method Clear()
      requires 0 <= width && 0 <= height && 0 < pageSize
      modifies this
      ensures fresh(buffer) && buffer.Length == Size()
      ensures forall i :: 0 <= i < buffer.Length ==> buffer[i] == 0
    {
      buffer := new Byte[Size()](_ => 0);
    }

    /** Turn pixel (x, y) on when c != 0, off when c == 0.  The Go code has no
        bounds check; the caller must address a byte of the buffer. */
    method SetPixel(x: int, y: int, c: int)
      requires 0 < pageSize && y >= 0
      requires 0 <= PixelIndex(width, pageSize, x, y) < buffer.Length
      modifies buffer
      ensures buffer[..] == WritePixel(old(buffer[..]), width, pageSize, x, y, c)
    {
      var idx := PixelIndex(width, pageSize, x, y);
      var bit := y % pageSize;
      var b := if c == 0 then buffer[idx] & !Mask(bit) else buffer[idx] | Mask(bit);
      WritePixelStore(buffer[..], width, pageSize, x, y, c, b);
      buffer[idx] := b;
    }

    /** Install `buf` as the buffer (no length check, as in the Go code). */
    method Set(buf: array<Byte>)
      modifies this
      ensures buffer == buf
    {
      buffer := buf;
    }
  }

  /** 128x64 with eight rows per page is a 1024-byte buffer; 128x32 is 512. */
  lemma SizeExamples(d: DisplayBuffer)
    requires d.width == 128 && d.pageSize == 8 && (d.height == 64 || d.height == 32)
    ensures d.Size() == if d.height == 64 then 1024 else 512
  {
  }

  /** When the page size divides the height, every pixel of the display has
      its byte inside a buffer of Size() bytes. */
  lemma {:induction false} SizeCoversPixels(d: DisplayBuffer, x: int, y: int)
    requires 0 <= d.width && 0 <= d.height && 0 < d.pageSize && d.height % d.pageSize == 0
    requires 0 <= x < d.width && 0 <= y < d.height
    ensures 0 <= PixelIndex(d.width, d.pageSize, x, y) < d.Size()
  {
    var pages := d.height / d.pageSize;
    assert d.height == pages * d.pageSize;
    Arith.DivBelow(y, d.pageSize, pages);
    assert y / d.pageSize <= pages - 1;
    Arith.MulMonotone(y / d.pageSize, pages - 1, d.width);
    Arith.MulMonotone(0, y / d.pageSize, d.width);
  }
}

/**
 * The SSD1306 driver object: the bus it talks through, its framebuffer and
 * the panel geometry, with the operations of the driver as methods whose
 * effect on the bus trace is stated through the Protocol functions.
 */
module Driver {
  import opened Wrappers
  import opened Transport
  import opened Protocol
  import opened Framebuffer
  import opened Images
  import Arith

  // The panel the driver is built for.
  const DefaultWidth := 128
  const DefaultHeight := 64
  const DefaultExternalVcc := false

  // ---------------------------------------------------------------------
  // What ShowImage leaves in the buffer

  /** Byte i of the monochrome raster of `img`: column i % width of page
      i / width, bit k being row page * pageSize + k. */
  function RasterByte(img: Image, width: int, pageSize: int, i: int): Byte
    requires width > 0 && 0 < pageSize <= 8 && i >= 0
  {
    PackBits(seq(pageSize, k requires 0 <= k < pageSize =>
      Lit(At(img, i % width, (i / width) * pageSize + k))))
  }

  /** The whole raster: `pages` pages of `width` bytes. */
  function Raster(img: Image, width: int, pages: nat, pageSize: int): (r: seq<Byte>)
    requires width > 0 && 0 < pageSize <= 8
    ensures |r| == pages * width
  {
    seq(pages * width, i requires 0 <= i < pages * width => RasterByte(img, width, pageSize, i))
  }

  /** Pixel (px, py) comes before (x, y) in ShowImage's row-major scan. */
  ghost predicate Before(px: int, py: int, x: int, y: int)
  {
    py < y || (py == y && px < x)
  }

  /** `buf` holds the raster of every pixel scanned before (x, y), and no
      other bit is set. */
  ghost predicate RasterUpTo(buf: seq<Byte>, img: Image, width: int, pages: nat, pageSize: int, x: int, y: int)
    requires width > 0 && 0 < pageSize <= 8
  {
    && |buf| == pages * width
    && forall i, k :: 0 <= i < |buf| && 0 <= k < 8 ==>
         (BitOf(buf[i], k) <==>
           (k < pageSize && Lit(At(img, i % width, (i / width) * pageSize + k))
            && Before(i % width, (i / width) * pageSize + k, x, y)))
  }

  /** The pixels ShowImage turns on are exactly the lit pixels of the image. */
  lemma {:induction false} RasterPixels(img: Image, width: int, pages: nat, pageSize: int, x: int, y: int)
    requires width > 0 && 0 < pageSize <= 8
    requires 0 <= x < width && 0 <= y < pages * pageSize
    ensures 0 <= PixelIndex(width, pageSize, x, y) < pages * width
    ensures PixelOn(Raster(img, width, pages, pageSize), width, pageSize, x, y) == Lit(At(img, x, y))
  {
    PixelInRange(width, pages, pageSize, x, y);
    PixelAddressInverse(width, pageSize, x, y);
  }

  lemma PixelInRange(width: int, pages: nat, pageSize: int, x: int, y: int)
    requires width > 0 && 0 < pageSize
    requires 0 <= x < width && 0 <= y < pages * pageSize
    ensures 0 <= PixelIndex(width, pageSize, x, y) < pages * width
  {
    Arith.DivBelow(y, pageSize, pages);
    Arith.MulMonotone(y / pageSize, pages - 1, width);
    Arith.MulMonotone(0, y / pageSize, width);
  }

  lemma RasterStart(buf: seq<Byte>, img: Image, width: int, pages: nat, pageSize: int)
    requires width > 0 && 0 < pageSize <= 8
    requires |buf| == pages * width && forall i :: 0 <= i < |buf| ==> buf[i] == 0
    ensures RasterUpTo(buf, img, width, pages, pageSize, 0, 0)
  {
  }

  /** One step of the scan: pixel (x, y) is set when lit. */
  lemma RasterStep(buf: seq<Byte>, img: Image, width: int, pages: nat, pageSize: int, x: int, y: int)
    requires width > 0 && 0 < pageSize <= 8
    requires 0 <= x < width && 0 <= y < pages * pageSize
    requires RasterUpTo(buf, img, width, pages, pageSize, x, y)
    ensures 0 <= PixelIndex(width, pageSize, x, y) < |buf|
    ensures RasterUpTo(if Lit(At(img, x, y)) then WritePixel(buf, width, pageSize, x, y, 1) else buf,
                       img, width, pages, pageSize, x + 1, y)
  {
    PixelInRange(width, pages, pageSize, x, y);
    PixelAddressInverse(width, pageSize, x, y);
    var idx := PixelIndex(width, pageSize, x, y);
    var buf' := if Lit(At(img, x, y)) then WritePixel(buf, width, pageSize, x, y, 1) else buf;
    forall i, k | 0 <= i < |buf'| && 0 <= k < 8
      ensures BitOf(buf'[i], k) <==>
        (k < pageSize && Lit(At(img, i % width, (i / width) * pageSize + k))
         && Before(i % width, (i / width) * pageSize + k, x + 1, y))
    {
      if k < pageSize {
        ByteBitAddressInverse(width, pageSize, i, k);
      }
    }
  }

  lemma RasterRowDone(buf: seq<Byte>, img: Image, width: int, pages: nat, pageSize: int, y: int)
    requires width > 0 && 0 < pageSize <= 8
    requires RasterUpTo(buf, img, width, pages, pageSize, width, y)
    ensures RasterUpTo(buf, img, width, pages, pageSize, 0, y + 1)
  {
  }

  lemma RasterDone(buf: seq<Byte>, img: Image, width: int, pages: nat, pageSize: int)
    requires width > 0 && 0 < pageSize <= 8
    requires RasterUpTo(buf, img, width, pages, pageSize, 0, pages * pageSize)
    ensures buf == Raster(img, width, pages, pageSize)
  {
    var r := Raster(img, width, pages, pageSize);
    forall i | 0 <= i < |buf| ensures buf[i] == r[i] {
      Arith.DivBelow(i, width, pages);
      RasterByteBits(buf, img, width, pages, pageSize, i);
      BitsDetermineByte(buf[i], r[i]);
    }
  }

  /** Once the scan is complete, byte i has the bits of RasterByte. */
  lemma RasterByteBits(buf: seq<Byte>, img: Image, width: int, pages: nat, pageSize: int, i: int)
    requires width > 0 && 0 < pageSize <= 8
    requires RasterUpTo(buf, img, width, pages, pageSize, 0, pages * pageSize)
    requires 0 <= i < |buf| && i / width < pages
    ensures forall k :: 0 <= k < 8 ==> BitOf(buf[i], k) == BitOf(RasterByte(img, width, pageSize, i), k)
  {
    Arith.MulMonotone(i / width, pages - 1, pageSize);
  }

  // ---------------------------------------------------------------------

  class SSD1306 {
    const bus: Bus
    const buffer: DisplayBuffer
    const width: int
    const height: int
    const pageSize: int
    const externalVcc: bool

    /** The geometry the constructor sets up; nothing changes it afterwards.
        Note that pageSize is height / 8, the number of pages, and the
        buffer is built with that value as its page size. */
    ghost predicate Valid()
    {
      && 0 < width && 8 <= height && pageSize == height / 8
      && buffer.width == width && buffer.height == height && buffer.pageSize == pageSize
    }

    /** `NewSSD1306` once the SPI connection is open: sets the default
        geometry, allocates the buffer, resets and initialises the panel. */
    constructor (bus: Bus)
      modifies bus
      ensures this.bus == bus && Valid()
      ensures width == DefaultWidth && height == DefaultHeight && pageSize == 8 && externalVcc == DefaultExternalVcc
      ensures fresh(buffer) && fresh(buffer.buffer) && buffer.buffer.Length == 1024
      ensures forall i :: 0 <= i < buffer.buffer.Length ==> buffer.buffer[i] == 0
      ensures bus.trace == Commands(old(bus.trace) + ResetEvents, bus.failing, InitSequence(DefaultHeight, DefaultExternalVcc))
    {
      this.bus := bus;
      width := DefaultWidth;
      height := DefaultHeight;
      externalVcc := DefaultExternalVcc;
      pageSize := DefaultHeight / 8;
      buffer := new DisplayBuffer(DefaultWidth, DefaultHeight, DefaultHeight / 8);
      new;
      var _ := Reset();
      Init();
    }

    /** `command(b)`: DC low, then a one-byte transfer. */
    method Command(b: Byte) returns (err: Option<Error>)
      modifies bus
      ensures Outcome(bus.trace, err) == CommandStep(old(bus.trace), bus.failing, b)
    {
      var ok := bus.WritePin(DC, Low);
      if !ok {
        return Some(PinError);
      }
      ok := bus.Transfer([b]);
      err := if ok then None else Some(TransportError);
    }

    /** The commands `bs`, one `command` call each, in order; what each
        call returns is ignored, as the Go code ignores it. */
    method SendCommands(bs: seq<Byte>)
      modifies bus
      ensures bus.trace == Commands(old(bus.trace), bus.failing, bs)
    {
      for i := 0 to |bs|
        invariant bus.trace == Commands(old(bus.trace), bus.failing, bs[..i])
      {
        var _ := Command(bs[i]);
        assert bs[..i + 1] == bs[..i] + [bs[i]];
        CommandsSnoc(old(bus.trace), bus.failing, bs[..i], bs[i]);
      }
      assert bs[..|bs|] == bs;
    }

    /** `ssd1306Init`: the 28 commands of InitSequence, each one sent
        whatever the previous ones returned. */
    method Init()
      modifies bus
      ensures bus.trace == Commands(old(bus.trace), bus.failing, InitSequence(height, externalVcc))
    {
      SendCommands(InitSequence(height, externalVcc));
    }

    /** `Halt`: reset, then turn the display off; always reports success. */
    method Halt() returns (err: Option<Error>)
      modifies bus
      ensures err == None
      ensures bus.trace == CommandStep(old(bus.trace) + ResetEvents, bus.failing, SetDisplayOff).trace
    {
      var _ := Reset();
      var _ := Off();
      return None;
    }

    /** `On`: the display-on command. */
    method On() returns (err: Option<Error>)
      modifies bus
      ensures Outcome(bus.trace, err) == CommandStep(old(bus.trace), bus.failing, SetDisplayOn)
    {
      err := Command(SetDisplayOn);
    }

    /** `Off`: the display-off command. */
    method Off() returns (err: Option<Error>)
      modifies bus
      ensures Outcome(bus.trace, err) == CommandStep(old(bus.trace), bus.failing, SetDisplayOff)
    {
      err := Command(SetDisplayOff);
    }

    /** `Clear`: re-zero the framebuffer; nothing is sent. */
    method Clear() returns (err: Option<Error>)
      requires Valid()
      modifies buffer
      ensures err == None
      ensures fresh(buffer.buffer) && buffer.buffer.Length == buffer.Size()
      ensures forall i :: 0 <= i < buffer.buffer.Length ==> buffer.buffer[i] == 0
    {
      buffer.Clear();
      return None;
    }

    /** `Set`: one pixel of the framebuffer; nothing is sent. */
    method Set(x: int, y: int, c: int)
      requires Valid() && y >= 0
      requires 0 <= PixelIndex(width, pageSize, x, y) < buffer.buffer.Length
      modifies buffer.buffer
      ensures buffer.buffer[..] == WritePixel(old(buffer.buffer[..]), width, pageSize, x, y, c)
    {
      buffer.SetPixel(x, y, c);
    }

    /** `Reset`: the reset line high, low, high (the two 50 ms waits are not
        modelled); pin errors are ignored. */
    method Reset() returns (err: Option<Error>)
      modifies bus
      ensures err == None && bus.trace == old(bus.trace) + ResetEvents
    {
      var _ := bus.WritePin(RST, High);
      var _ := bus.WritePin(RST, Low);
      var _ := bus.WritePin(RST, High);
      return None;
    }

    /** `SetBufferAndDisplay`: install `buf` as the framebuffer, then flush. */
    method SetBufferAndDisplay(buf: array<Byte>) returns (err: Option<Error>)
      modifies buffer, bus
      ensures buffer.buffer == buf
      ensures Outcome(bus.trace, err) == DisplayOutcome(old(bus.trace), bus.failing, width, pageSize, buf[..])
    {
      buffer.Set(buf);
      err := Display();
    }

    /** `SetContrast`: 0x81 then the value.  The Go code's range check
        (value below 0 or above 255) can never fire for a byte. */
    method SetContrast(contrast: Byte) returns (err: Option<Error>)
      modifies bus
      ensures Outcome(bus.trace, err) == ContrastOutcome(old(bus.trace), bus.failing, contrast)
    {
      err := Command(Protocol.SetContrast);
      if err.Some? {
        return;
      }
      err := Command(contrast);
    }

    /** `Display`: re-send the column and page window (errors ignored), drive
        DC high, then one transfer of 0x40 followed by the whole buffer. */
    method Display() returns (err: Option<Error>)
      modifies bus
      ensures Outcome(bus.trace, err) == DisplayOutcome(old(bus.trace), bus.failing, width, pageSize, buffer.buffer[..])
    {
      SendCommands(Window(width, pageSize));
      var ok := bus.WritePin(DC, High);
      if !ok {
        return Some(PinError);
      }
      ok := bus.Transfer([DataFollows] + buffer.buffer[..]);
      err := if ok then None else Some(TransportError);
    }

    /** `ShowImage`: an image of exactly the display's size is thresholded
        into a cleared framebuffer, which is then flushed; any other size is
        refused before anything is touched. */
    method ShowImage(img: Image) returns (err: Option<Error>)
      requires Valid() && height <= 64 && height % 8 == 0
      modifies buffer, bus
      ensures Dx(img) != width || Dy(img) != height ==>
        err == Some(DimensionMismatch) && bus.trace == old(bus.trace) && buffer.buffer == old(buffer.buffer)
      ensures Dx(img) == width && Dy(img) == height ==>
        && fresh(buffer.buffer)
        && buffer.buffer[..] == Raster(img, width, 8, pageSize)
        && Outcome(bus.trace, err) ==
             DisplayOutcome(old(bus.trace), bus.failing, width, pageSize, Raster(img, width, 8, pageSize))
    {
      if Dx(img) != width || Dy(img) != height {
        return Some(DimensionMismatch);
      }
      assert height == 8 * pageSize;
      Arith.DivModUnique(height, pageSize, 8, 0);
      var _ := Clear();
      RasterStart(buffer.buffer[..], img, width, 8, pageSize);
      var y, w, h := 0, Dx(img), Dy(img);
      while y < h
        invariant 0 <= y <= h
        invariant fresh(buffer.buffer) && buffer.buffer.Length == 8 * width
        invariant RasterUpTo(buffer.buffer[..], img, width, 8, pageSize, 0, y)
        modifies buffer.buffer
      {
        var x := 0;
        while x < w
          invariant 0 <= x <= w
          invariant RasterUpTo(buffer.buffer[..], img, width, 8, pageSize, x, y)
          modifies buffer.buffer
        {
          RasterStep(buffer.buffer[..], img, width, 8, pageSize, x, y);
          if Lit(At(img, x, y)) {
            Set(x, y, 1);
          }
          x := x + 1;
        }
        RasterRowDone(buffer.buffer[..], img, width, 8, pageSize, y);
        y := y + 1;
      }
      RasterDone(buffer.buffer[..], img, width, 8, pageSize);
      err := Display();
    }
  }
}

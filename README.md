# SSD1306 OLED driver and compositor, modelled in Dafny

This project models the SSD1306 OLED code of the Pioneer600 Raspberry Pi
board support in Go, in three parts.

- **The low-level driver** (`dev/ssd1306.go`):
  - The `DisplayBuffer` framebuffer. Pixel (x, y) is bit `y % pageSize` of
    byte `x + (y / pageSize) * width`, in the controller's vertical-LSB page
    layout.
  - The `SSD1306` object, which talks to the controller over SPI with a
    data/command (DC) line and a reset (RST) line.
- **The high-level front end** (`dev/ssd1306h.go`, and its twin
  `src/pi/dev/ssd1306h.go`, which has no reset line). It covers:
  - nearest-neighbour resizing of a source image to the screen;
  - centring the resized image on a fresh canvas;
  - choosing where a line of text goes for each of the six `SSD1306Pos`
    anchors.

The bus is a `Transport.Bus` object holding an append-only trace of pin
writes and SPI transfers. Which attempts fail is fixed up front:
- `failing` is a set of attempt numbers;
- attempt n fails exactly when n is in `failing`;
- a failed attempt is still recorded.

Every driver method that uses the bus is proved against a function in
`Protocol`. That function says exactly what the method appends to the trace
and which error it returns, for every fault pattern. The methods that only
touch the framebuffer (`Clear`, `Set`) are proved against the `Framebuffer`
contracts, and the bus is outside their frame. Lemmas about those functions state what
the driver promises:
- commands are framed one per transfer;
- errors in a command sequence are ignored;
- the default panel receives the 28-byte initialisation string;
- `Display` is repeatable;
- a failed DC write suppresses the pixel transfer.

`ShowImage` is proved to leave exactly the thresholded raster of the image
in the framebuffer.

Modules:
- Wrappers: `Option`.
- Transport: bytes, pins, the bus.
- Protocol: command framing and the traces of each operation.
- Arith: division facts.
- Framebuffer: `DisplayBuffer` and the pixel/bit correspondence.
- Images: source images read through `At`.
- Driver: the `SSD1306` object.
- Layout: text origins.
- Compositor: `resize`, `convert` and the `SSD1306H` object.

`dev/ssd1306h.go` and `src/pi/dev/ssd1306h.go` contain the same `resize`,
`convert`, layout and dispatch code at shifted lines. One model covers both.
The table cites one copy per row. The twin's `SSD1306Pos` block is at
`src/pi/dev/ssd1306h.go:19-26`, `DrawText` at 70-95, `convert` at 101-110,
`resize` at 112-122, and the six layout functions at 124-175.

Doubling a 2-pixel-wide image maps destination column 3 to source
column (3·2 + 2)/4 = 2. That is one past the source's last column, so the
pixel comes out as the zero colour. It does not map to column 1
(`Compositor.UpscalePastEdge`).

## Model

| member | source | states |
|---|---|---|
| `Transport.Bus.WritePin` | dev/ssd1306.go:301-303 | a pin write appends exactly its event and succeeds unless its attempt number is marked failing |
| `Transport.Bus.Transfer` | dev/ssd1306.go:304-305 | an SPI transfer appends exactly its data and succeeds unless its attempt number is marked failing |
| `Transport.Truncate` | dev/ssd1306.go:166 | Go's `uint8(n)`: the low eight bits of n; its values for the widths, heights and page counts used are fixed in `Protocol.InitSequenceDefault` and `Protocol.WindowExamples` |
| `Protocol.CommandStep` | dev/ssd1306.go:300-306 | the effect of `command(b)` on the trace and its error; its shape (DC low, then one `Tx([b])` unless the pin write failed) is proved in `Protocol.CommandShape` |
| `Protocol.Flush` | dev/ssd1306.go:275-278 | DC is driven high first; the pin write fails exactly when PinError is returned, and then that is the only event added; otherwise exactly one more event follows, the transfer of 0x40 followed by the data, and TransportError is returned exactly when that transfer fails |
| `Protocol.DisplayOutcome` | dev/ssd1306.go:268-279 | `Display` appends between 7 and 14 events: six window commands of one or two events each, then the flush |
| `Protocol.ContrastOutcome` | dev/ssd1306.go:257-265 | `SetContrast` starts with DC low and appends at most four events; if that first pin write fails it stops there with PinError |
| `Protocol.ResetEvents` | dev/ssd1306.go:242-246 | the reset pulse: RST high, low, high, in that order; both `Reset` methods are stated against it |
| `Protocol.Commands` | dev/ssd1306.go:157-210 | a command sequence run ignoring errors keeps the earlier trace as a prefix and adds between one and two events per command |
| `Protocol.InitSequence` | dev/ssd1306.go:157-210 | initialisation sends exactly 28 command bytes, whatever the height and Vcc choice |
| `Protocol.Window` | dev/ssd1306.go:269-274 | `Display` re-sends a six-byte column/page window |
| `Protocol.Framed` | dev/ssd1306.go:300-306 | a fault-free command sequence is two events per command |
| `Protocol.CommandShape` | dev/ssd1306.go:300-306 | `command(b)` drives DC low, then sends exactly one transfer `[b]`; a failed pin write returns PinError and nothing is transferred |
| `Protocol.CommandsSnoc` | dev/ssd1306.go:157-210 | sending one more command extends the trace by exactly one command step |
| `Protocol.CommandsNoFaults` | dev/ssd1306.go:157-210 | on a bus without faults, a command sequence leaves exactly the framed trace |
| `Protocol.FramedPayload` | dev/ssd1306.go:300-306 | the framed trace carries exactly the command bytes, in order, one per transfer, each preceded by one DC-low |
| `Protocol.CommandsAttemptAll` | dev/ssd1306.go:157-210 | errors never stop a command sequence: every command is started (DC driven low once each) and only single bytes are transferred, under any fault pattern |
| `Protocol.InitSequenceDefault` | dev/ssd1306.go:157-210 | for height 64 with internal Vcc, the init bytes are AE D5 80 A8 3F D3 00 40 00 8D 14 20 00 A0 01 C0 DA 12 81 CF D9 F1 DB 40 A4 A6 2E AF |
| `Protocol.InitNoFaults` | dev/ssd1306.go:157-210 | without faults, initialisation transfers exactly the init sequence, one byte per DC-low-framed transfer |
| `Protocol.WindowExamples` | dev/ssd1306.go:269-274 | the 128x64 window is 21 00 7F 22 00 07; `uint8(width) - 1` wraps to FF for widths 0 and 256 |
| `Protocol.DisplayNoFaults` | dev/ssd1306.go:268-279 | without faults, `Display` sends the window commands, DC high, then one transfer of 0x40 followed by the whole buffer, and returns no error |
| `Protocol.DisplayTwice` | dev/ssd1306.go:268-279 | on a bus on which nothing fails, two `Display` calls on an unchanged buffer append identical events |
| `Protocol.DisplayDcFailure` | dev/ssd1306.go:275-277 | if the DC-high write fails, `Display` returns PinError, and its trace is exactly the window commands followed by the failed DC-high write, so no pixel data is transferred |
| `Protocol.ContrastShape` | dev/ssd1306.go:257-265 | on a bus on which nothing fails, `SetContrast` sends 0x81 then the value; under any faults, if the 0x81 command fails, only that one command is started and the only byte transferred, if any, is 0x81 (the value is never sent) |
| `Framebuffer.Mask` | dev/ssd1306.go:97-99 | the byte `1 << bit`; `Framebuffer.MaskIsShift` proves it equal to the shift, and 0 once bit >= 8 |
| `Framebuffer.MaskIsShift` | dev/ssd1306.go:97-99 | the mask table is the byte shift `1 << bit`, and it is 0 once bit >= 8 |
| `Framebuffer.SetBitTo` | dev/ssd1306.go:96-100 | or-ing the mask sets exactly the chosen bit, and and-not-ing clears exactly it; every other bit is kept |
| `Framebuffer.OrMask` | dev/ssd1306.go:99 | or-ing `1 << bit` into a byte sets bit `bit` and keeps the others |
| `Framebuffer.AndNotMask` | dev/ssd1306.go:97 | `b &^ (1 << bit)` clears bit `bit` and keeps the others |
| `Framebuffer.BitsDetermineByte` | dev/ssd1306.go:94-95 | two bytes with the same eight bits are equal |
| `Framebuffer.PixelIndex` | dev/ssd1306.go:94 | the byte holding pixel (x, y); that it has column x and page y / pageSize is proved in `Framebuffer.PixelAddressInverse` |
| `Framebuffer.WritePixel` | dev/ssd1306.go:93-101 | writing a pixel changes only its byte, sets or clears only its bit, and keeps the length |
| `Framebuffer.WritePixelStore` | dev/ssd1306.go:96-100 | storing the byte computed by the Go code's if/else is a pixel write |
| `Framebuffer.PixelAddressInverse` | dev/ssd1306.go:94-95 | a pixel's byte has column x and page y / pageSize, and page and bit give back y |
| `Framebuffer.ByteBitAddressInverse` | dev/ssd1306.go:94-95 | each byte and bit below pageSize holds exactly one pixel, whose address is that byte |
| `Framebuffer.PixelsDistinct` | dev/ssd1306.go:94-95 | distinct pixels of the display live in distinct bits |
| `Framebuffer.ReadAfterWrite` | dev/ssd1306.go:93-101 | after writing (x, y) with c, that pixel is on iff c != 0, and every other pixel is unchanged |
| `Framebuffer.WriteLastWins` | dev/ssd1306.go:93-101 | of two writes to one pixel the last wins, so writing twice equals writing once |
| `Framebuffer.SetThenClear` | dev/ssd1306.go:93-101 | setting then clearing a pixel leaves it off, and restores the buffer exactly when the pixel was off before |
| `Framebuffer.PackBits` | dev/ssd1306.go:288-295 | the packed byte has bit k equal to the k-th page bit, and 0 above the page size |
| `Framebuffer.DisplayBuffer.constructor` | dev/ssd1306.go:72-80 | `NewDisplayBuffer` keeps the geometry and allocates a fresh zero-filled buffer of Size() bytes |
| `Framebuffer.DisplayBuffer.Size` | dev/ssd1306.go:83-85 | the size is never negative, and is width x page count when the page size divides the height |
| `Framebuffer.DisplayBuffer.SizeExact` | dev/ssd1306.go:83-85 | `(width * height) / pageSize` equals width x (height / pageSize) when pageSize divides height |
| `Framebuffer.DisplayBuffer.Clear` | dev/ssd1306.go:88-90 | `Clear` installs a fresh all-zero buffer of exactly Size() bytes, whatever `Set` installed before |
| `Framebuffer.DisplayBuffer.SetPixel` | dev/ssd1306.go:93-101 | the buffer becomes WritePixel of its old contents: one bit of one byte set or cleared, all else unchanged |
| `Framebuffer.DisplayBuffer.Set` | dev/ssd1306.go:104-106 | `Set` installs the given array itself, with no copy and no length check |
| `Framebuffer.SizeExamples` | dev/ssd1306.go:83-85 | 128x64 with 8 rows per page is 1024 bytes, and 128x32 is 512 |
| `Framebuffer.SizeCoversPixels` | dev/ssd1306.go:83-95 | when the page size divides the height, every on-screen pixel's byte lies inside a buffer of Size() bytes |
| `Images.Lit` | dev/ssd1306.go:291 | ShowImage's threshold: a pixel is on exactly when it is not the zero colour, that is, when some channel is non-zero |
| `Images.Blank` | dev/ssd1306h.go:85 | a new blank image at the origin has the requested size and reads the zero colour everywhere |
| `Driver.Raster` | dev/ssd1306.go:282-297 | the thresholded raster has one byte per column of every page |
| `Driver.RasterPixels` | dev/ssd1306.go:288-295 | a pixel is on in the raster exactly when the image pixel has a non-zero red, green or blue channel |
| `Driver.PixelInRange` | dev/ssd1306.go:94 | every on-screen pixel addresses a byte of the pages x width buffer |
| `Driver.RasterStart` | dev/ssd1306.go:287 | a cleared buffer is the raster of no scanned pixels |
| `Driver.RasterStep` | dev/ssd1306.go:289-293 | scanning (x, y), and setting it when lit, extends the raster to the next pixel of the row-major scan |
| `Driver.RasterRowDone` | dev/ssd1306.go:288-289 | finishing a row is starting the next one |
| `Driver.RasterDone` | dev/ssd1306.go:288-295 | after the full scan, the buffer is exactly the raster |
| `Driver.RasterByteBits` | dev/ssd1306.go:288-295 | after the full scan, each byte has the bits of the raster byte |
| `Driver.SSD1306.constructor` | dev/ssd1306.go:123-155 | builds a 128x64 panel with internal Vcc, page count 8 used as page size, a zero 1024-byte buffer, and a trace of reset then the init commands |
| `Driver.SSD1306.Command` | dev/ssd1306.go:300-306 | `command` appends and returns exactly CommandStep (DC low, then one one-byte transfer, and the first error) |
| `Driver.SSD1306.SendCommands` | dev/ssd1306.go:157-210 | sending a list of commands, ignoring each result, appends exactly Commands of the list |
| `Driver.SSD1306.Init` | dev/ssd1306.go:157-210 | `ssd1306Init` appends exactly the 28 init commands for the panel's height and Vcc, whatever fails |
| `Driver.SSD1306.Halt` | dev/ssd1306.go:213-217 | `Halt` resets the panel, sends display-off, and returns success regardless |
| `Driver.SSD1306.On` | dev/ssd1306.go:220-222 | `On` is the display-on command, with its error |
| `Driver.SSD1306.Off` | dev/ssd1306.go:225-227 | `Off` is the display-off command, with its error |
| `Driver.SSD1306.Clear` | dev/ssd1306.go:230-233 | `Clear` zeroes the framebuffer at Size() bytes, sends nothing and returns success |
| `Driver.SSD1306.Set` | dev/ssd1306.go:236-238 | `Set` writes one pixel of the framebuffer |
| `Driver.SSD1306.Reset` | dev/ssd1306.go:241-248 | `Reset` writes RST high, low, high, ignores pin errors and returns success |
| `Driver.SSD1306.SetBufferAndDisplay` | dev/ssd1306.go:251-254 | installs the given buffer, then the trace and error are those of `Display` with that buffer's contents |
| `Driver.SSD1306.SetContrast` | dev/ssd1306.go:257-265 | appends and returns exactly ContrastOutcome: 0x81, and then the value only if 0x81 succeeded |
| `Driver.SSD1306.Display` | dev/ssd1306.go:268-279 | appends and returns exactly DisplayOutcome: window commands with errors ignored, DC high, then `0x40 ++ buffer` unless DC failed |
| `Driver.SSD1306.ShowImage` | dev/ssd1306.go:282-297 | a wrong-size image is refused with nothing sent and the buffer untouched; otherwise the buffer becomes the image's raster, and the trace and error are those of `Display` with it |
| `Layout.Advance` | dev/ssd1306h.go:149 | the width of a line of text: its rune count times 7 columns; the placements are stated against it |
| `Layout.BottomY` | dev/ssd1306h.go:156 | the top row of bottom-anchored text, `Dy() - 1 - 13`; the bottom placements state that it leaves 13 glyph rows and one blank row above the bottom edge |
| `Layout.RightX` | dev/ssd1306h.go:149-155 | right-aligned text that fits ends exactly at the right edge; wider text starts at 0 |
| `Layout.CenterX` | dev/ssd1306h.go:165-171 | centred text that fits lies inside the width, with right margin equal to the left one or one more; wider text starts at 0 |
| `Layout.DrawTextTopCenter` | dev/ssd1306h.go:190-199 | top row, centred when the text fits, else column 0 |
| `Layout.DrawTextTopLeft` | dev/ssd1306h.go:175-177 | always the origin (0, 0) |
| `Layout.DrawTextTopRight` | dev/ssd1306h.go:179-188 | top row, flush right when the text fits, else column 0 |
| `Layout.DrawTextBottomLeft` | dev/ssd1306h.go:159-162 | column 0, with the 13-row glyph box plus one row ending at the bottom edge |
| `Layout.DrawTextBottomRight` | dev/ssd1306h.go:148-157 | bottom anchor row, flush right when the text fits, else column 0 |
| `Layout.DrawTextBottomCenter` | dev/ssd1306h.go:164-173 | bottom anchor row, centred when the text fits, else column 0 |
| `Layout.TextOrigin` | dev/ssd1306h.go:83-102 | `DrawText` places text for exactly the six positions 0 to 5, each with its own anchor geometry, and no text for any other value |
| `Layout.OriginInside` | src/pi/dev/ssd1306h.go:124-175 | for every anchor, text that fits the width is placed wholly inside it |
| `Layout.PlacementExamples` | dev/ssd1306h.go:148-199 | "AB" top right at width 128 starts at 114; "Super Google." centred starts at 18; bottom rows start at 50 on a 64-row panel; 26 runes centred at width 40 start at 0 |
| `Compositor.Sample` | dev/ssd1306h.go:140-142 | the source coordinate read for destination coordinate i, never negative for i >= 0 |
| `Compositor.Resampled` | dev/ssd1306h.go:140-142 | the colour `resize` stores at (x, y); a sample at or past the source's right or bottom extent reads the zero colour |
| `Compositor.SampleIdentity` | dev/ssd1306h.go:140-142 | resampling to the source's own extent reads each coordinate in place |
| `Compositor.SampleMonotone` | dev/ssd1306h.go:140-142 | sampled coordinates are non-decreasing |
| `Compositor.SampleBounded` | dev/ssd1306h.go:140-142 | a destination coordinate samples between 0 and the source extent, inclusive |
| `Compositor.SampleInsideIff` | dev/ssd1306h.go:140-142 | all destination coordinates sample strictly inside the source iff half the destination extent is below the source extent |
| `Compositor.UpscalePastEdge` | dev/ssd1306h.go:142 | doubling a 2-wide image maps column 3 to column 2, which is outside the source and reads the zero colour |
| `Compositor.ResampleIdentity` | dev/ssd1306h.go:136-146 | resizing an origin-based image to its own size copies it |
| `Compositor.Resize` | dev/ssd1306h.go:136-146 | the result is a fresh image of exactly the requested size, whose pixel (x, y) is the source pixel at the sampled column and row |
| `Compositor.HalfTowardZero` | dev/ssd1306h.go:131 | Go's `a / 2` rounds toward zero: twice the result is a, or a moved one toward zero |
| `Compositor.DrawSrc` | dev/ssd1306h.go:132 | the drawn rectangle takes the source pixels at the offset, and every other pixel is kept |
| `Compositor.Convert` | dev/ssd1306h.go:125-134 | the canvas has the screen's size and is exactly the resized image, because the centring offset is always zero |
| `Compositor.SSD1306H.constructor` | dev/ssd1306h.go:45-81 | a 128x64 front end, with the reset line pulsed once |
| `Compositor.SSD1306H.WithoutReset` | src/pi/dev/ssd1306h.go:39-68 | the twin without a reset line: a 128x64 front end and nothing sent |
| `Compositor.SSD1306H.Reset` | dev/ssd1306h.go:112-119 | `Reset` writes RST high, low, high and returns success |
| `Compositor.SSD1306H.DrawText` | dev/ssd1306h.go:83-109 | the canvas is a fresh all-off screen-sized image, and the text origin is the one `TextOrigin` selects for the position |
| `Compositor.SSD1306H.DrawImage` | dev/ssd1306h.go:121-123 | `DrawImage` does nothing and reports success |

## Left out

- Real I/O is left out. This covers opening the SPI connection, exporting
  GPIO pins and setting their direction, periph's `host.Init`,
  `spireg.Open`, `gpioreg.ByName` and `ssd1306.NewSPI`, and all logging and
  printing. Pins and transfers are the abstract `Transport.Bus`. The failed
  construction paths (a panic in `NewSSD1306`, nil from `NewSSD1306H`) are
  not modelled: the constructors start from a bus that is already open.
- The 50 ms waits in both `Reset` methods are real-time delays. Only the
  three pin writes are recorded.
- Driver.SSD1306.Init: the Go code issues the 28 `command` calls one after
  another. The model sends the same bytes, in the same order, through one
  loop over `Protocol.InitSequence`. The append-only trace is identical.
- Driver.SSD1306.Display: the six window commands go through the same
  loop over `Protocol.Window` rather than six separate calls. The trace is
  identical.
- Driver.SSD1306.ShowImage: proved for panels whose height is a multiple
  of 8 up to 64. This includes the only geometry the constructor builds,
  128x64 with page count 8 used as page size. Other heights would need a
  different page bookkeeping.
- Framebuffer.DisplayBuffer.SetPixel: requires y >= 0 and a byte index
  inside the buffer. The Go code has no bounds check and panics outside
  the buffer. For negative y, `uint(y) % uint(pageSize)` works on a
  wrapped unsigned value; that case is not modelled.
- Framebuffer.DisplayBuffer.constructor: only non-negative widths and
  heights with a positive page size are modelled. The only caller passes
  128, 64 and 8.
- Go's fixed-width `int` overflow in `x + (y/pageSize)*width` and in
  `resize`'s products is not modelled. Integers are unbounded.
- Colours: `Images.Pixel` is an RGB triple of naturals. Alpha, Go's
  16-bit `RGBA()` scaling, the NRGBA colour model of `resize`'s output
  and the 1-bit colour conversion of `image1bit.VerticalLSB` are not
  modelled. Canvases keep source colours.
- `convert` assumes the screen bounds start at the origin, as the panel's
  `Bounds()` does. `resize` reads the source through absolute coordinates
  from `Bounds().Max`, as the Go code does.
- Glyph rasterisation (`drawText`, which is not part of this model) and
  periph's `dev.Draw`, which sends the canvas to the panel, are left out.
  The error `dev.Draw` can return is not modelled. `DrawText` yields the
  canvas and the text origin instead of drawing.
- Images.Picture: image bounds are natural numbers, so Go images whose
  `Min` or `Max` is negative are not modelled. For those, `resize`'s
  truncating division would also differ from the Euclidean `/` used in
  `Compositor.Sample`. The only caller passes images at the origin.
- Rune counting: a `string` is a sequence of runes, so invalid UTF-8 is
  not modelled.
- The `SetContrast` range check (below 0 or above 255) can never fire for
  a byte, so it has no branch in the model.
- Framebuffer.DisplayBuffer.Set: like the Go code, it installs the array
  without a length check. Later pixel writes need their byte inside it.

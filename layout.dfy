/**
 * Text placement of the compositor: where each of the six anchor positions
 * puts a line of text on a surface of a given width and height.  Glyphs
 * are 7 columns wide and 13 rows tall; a line of n runes is 7 * n columns.
 * Only the origin handed to the glyph renderer is modelled here.
 */
module Layout {
  import opened Wrappers

  /** `image.Point`. */
  datatype Point = Point(x: int, y: int)

  /** `SSD1306Pos`: any int; the six named values are 0 to 5. */
  type Pos = int

  const PosTopCenter: Pos := 0
  const PosTopLeft: Pos := 1
  const PosTopRight: Pos := 2
  const PosBottomLeft: Pos := 3
  const PosBottomRight: Pos := 4
  const PosBottomCenter: Pos := 5

  const GlyphAdvance: nat := 7
  const GlyphHeight: nat := 13

  /** Width in columns of a line of text: its rune count times the advance. */
  function Advance(text: string): nat
  {
    |text| * GlyphAdvance
  }

  /** Text of `advance` columns starting at x ends exactly at the right edge. */
  predicate FlushRight(x: int, advance: int, width: int)
  {
    0 <= x && x + advance == width
  }

  /** Text of `advance` columns starting at x lies inside [0, width), and the
      space on its right is the space on its left or one column more. */
  predicate Centred(x: int, advance: int, width: int)
  {
    0 <= x && x + advance <= width && x <= width - (x + advance) <= x + 1
  }

  /** Start column of right-aligned text; 0 when the text is wider than the surface. */
  function RightX(width: int, advance: nat): (x: int)
    ensures advance <= width ==> FlushRight(x, advance, width)
    ensures advance > width ==> x == 0
  {
    if advance > width then 0 else width - advance
  }

  /** Start column of centred text; 0 when the text is wider than the surface. */
  function CenterX(width: int, advance: nat): (x: int)
    ensures advance <= width ==> Centred(x, advance, width)
    ensures advance > width ==> x == 0
  {
    if advance > width then 0 else (width - advance) / 2
  }

  /** Top row of a line drawn along the bottom edge: one blank row, then 13 rows of glyph. */
  function BottomY(height: int): int
  {
    height - 1 - GlyphHeight
  }

  function DrawTextTopCenter(width: int, height: int, text: string): (p: Point)
    ensures p.y == 0
    ensures Advance(text) <= width ==> Centred(p.x, Advance(text), width)
    ensures Advance(text) > width ==> p.x == 0
  {
    Point(CenterX(width, Advance(text)), 0)
  }

  function DrawTextTopLeft(width: int, height: int, text: string): (p: Point)
    ensures p == Point(0, 0)
  {
    Point(0, 0)
  }

  function DrawTextTopRight(width: int, height: int, text: string): (p: Point)
    ensures p.y == 0
    ensures Advance(text) <= width ==> FlushRight(p.x, Advance(text), width)
    ensures Advance(text) > width ==> p.x == 0
  {
    Point(RightX(width, Advance(text)), 0)
  }

  function DrawTextBottomLeft(width: int, height: int, text: string): (p: Point)
    ensures p.x == 0 && p.y + GlyphHeight + 1 == height
  {
    Point(0, BottomY(height))
  }

  function DrawTextBottomRight(width: int, height: int, text: string): (p: Point)
    ensures p.y + GlyphHeight + 1 == height
    ensures Advance(text) <= width ==> FlushRight(p.x, Advance(text), width)
    ensures Advance(text) > width ==> p.x == 0
  {
    Point(RightX(width, Advance(text)), BottomY(height))
  }

  function DrawTextBottomCenter(width: int, height: int, text: string): (p: Point)
    ensures p.y + GlyphHeight + 1 == height
    ensures Advance(text) <= width ==> Centred(p.x, Advance(text), width)
    ensures Advance(text) > width ==> p.x == 0
  {
    Point(CenterX(width, Advance(text)), BottomY(height))
  }

  /** The switch of `DrawText`: the origin the text is drawn at, or None for
      a position outside the six named ones (then no text is drawn). */
  function TextOrigin(pos: Pos, width: int, height: int, text: string): (r: Option<Point>)
    ensures r.Some? <==> PosTopCenter <= pos <= PosBottomCenter
    ensures r.Some? && pos in {PosTopCenter, PosTopLeft, PosTopRight} ==> r.value.y == 0
    ensures r.Some? && pos in {PosBottomLeft, PosBottomRight, PosBottomCenter} ==>
      r.value.y + GlyphHeight + 1 == height
    ensures r.Some? && pos in {PosTopLeft, PosBottomLeft} ==> r.value.x == 0
    ensures r.Some? && pos in {PosTopRight, PosBottomRight} ==>
      if Advance(text) <= width then FlushRight(r.value.x, Advance(text), width) else r.value.x == 0
    ensures r.Some? && pos in {PosTopCenter, PosBottomCenter} ==>
      if Advance(text) <= width then Centred(r.value.x, Advance(text), width) else r.value.x == 0
  {
    if pos == PosTopCenter then Some(DrawTextTopCenter(width, height, text))
    else if pos == PosTopLeft then Some(DrawTextTopLeft(width, height, text))
    else if pos == PosTopRight then Some(DrawTextTopRight(width, height, text))
    else if pos == PosBottomLeft then Some(DrawTextBottomLeft(width, height, text))
    else if pos == PosBottomRight then Some(DrawTextBottomRight(width, height, text))
    else if pos == PosBottomCenter then Some(DrawTextBottomCenter(width, height, text))
    else None
  }

  /** Whatever the anchor, text that fits the width is placed wholly inside it. */
  lemma OriginInside(pos: Pos, width: int, height: int, text: string)
    requires Advance(text) <= width
    requires TextOrigin(pos, width, height, text).Some?
    ensures var p := TextOrigin(pos, width, height, text).value;
      0 <= p.x && p.x + Advance(text) <= width
  {
  }

  /** Worked placements on the 128 x 64 panel. */
  lemma PlacementExamples()
    ensures DrawTextTopRight(128, 64, "AB") == Point(114, 0)
    ensures DrawTextTopCenter(128, 64, "Super Google.") == Point(18, 0)
    ensures DrawTextBottomLeft(128, 64, "") == Point(0, 50)
    ensures DrawTextBottomCenter(40, 64, "abcdefghijklmnopqrstuvwxyz") == Point(0, 50)
  {
    assert |"Super Google."| == 13;
  }
}

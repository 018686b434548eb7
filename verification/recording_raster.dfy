/** The rasteriser of the walkthrough recording (src/authority-walkthrough-recording.ts):
    in-place drawing of text lines, against the closed form of every pixel. */
module RecordingRaster {
  import opened Bits
  import opened Wrappers

  const WIDTH := 640
  const SCALE := 2
  const GLYPH_WIDTH := 5
  const GLYPH_HEIGHT := 7
  const CHARACTER_ADVANCE := 6 * SCALE
  const LINE_HEIGHT := 9 * SCALE
  const FRAME_PADDING := 4 * SCALE

  type Font = map<char, seq<string>>

  datatype RecordingError = LineTooLong | FallbackGlyphMissing | RecordingTooHigh

  const SYMBOLS: Font := map[
    ' ' := ["00000", "00000", "00000", "00000", "00000", "00000", "00000"],
    '?' := ["01110", "10001", "00001", "00010", "00100", "00000", "00100"],
    '$' := ["00100", "01111", "10100", "01110", "00101", "11110", "00100"],
    '#' := ["01010", "11111", "01010", "01010", "11111", "01010", "01010"],
    ':' := ["00000", "00100", "00100", "00000", "00100", "00100", "00000"],
    '.' := ["00000", "00000", "00000", "00000", "00000", "00110", "00110"],
    '-' := ["00000", "00000", "00000", "11111", "00000", "00000", "00000"],
    '_' := ["00000", "00000", "00000", "00000", "00000", "00000", "11111"],
    '/' := ["00001", "00010", "00100", "01000", "10000", "00000", "00000"],
    '=' := ["00000", "11111", "00000", "11111", "00000", "00000", "00000"],
    ';' := ["00000", "00110", "00110", "00000", "00110", "00100", "01000"]
  ]

  const DIGITS: Font := map[
    '0' := ["01110", "10001", "10011", "10101", "11001", "10001", "01110"],
    '1' := ["00100", "01100", "00100", "00100", "00100", "00100", "01110"],
    '2' := ["01110", "10001", "00001", "00010", "00100", "01000", "11111"],
    '3' := ["11110", "00001", "00001", "01110", "00001", "00001", "11110"],
    '4' := ["00010", "00110", "01010", "10010", "11111", "00010", "00010"],
    '5' := ["11111", "10000", "10000", "11110", "00001", "00001", "11110"],
    '6' := ["01110", "10000", "10000", "11110", "10001", "10001", "01110"],
    '7' := ["11111", "00001", "00010", "00100", "01000", "01000", "01000"],
    '8' := ["01110", "10001", "10001", "01110", "10001", "10001", "01110"],
    '9' := ["01110", "10001", "10001", "01111", "00001", "00001", "01110"]
  ]

  const LETTERS_A_TO_G: Font := map[
    'A' := ["01110", "10001", "10001", "11111", "10001", "10001", "10001"],
    'B' := ["11110", "10001", "10001", "11110", "10001", "10001", "11110"],
    'C' := ["01110", "10001", "10000", "10000", "10000", "10001", "01110"],
    'D' := ["11110", "10001", "10001", "10001", "10001", "10001", "11110"],
    'E' := ["11111", "10000", "10000", "11110", "10000", "10000", "11111"],
    'F' := ["11111", "10000", "10000", "11110", "10000", "10000", "10000"],
    'G' := ["01110", "10001", "10000", "10111", "10001", "10001", "01110"]
  ]

  const LETTERS_H_TO_M: Font := map[
    'H' := ["10001", "10001", "10001", "11111", "10001", "10001", "10001"],
    'I' := ["01110", "00100", "00100", "00100", "00100", "00100", "01110"],
    'J' := ["00111", "00010", "00010", "00010", "10010", "10010", "01100"],
    'K' := ["10001", "10010", "10100", "11000", "10100", "10010", "10001"],
    'L' := ["10000", "10000", "10000", "10000", "10000", "10000", "11111"],
    'M' := ["10001", "11011", "10101", "10101", "10001", "10001", "10001"]
  ]

  const LETTERS_N_TO_S: Font := map[
    'N' := ["10001", "11001", "10101", "10011", "10001", "10001", "10001"],
    'O' := ["01110", "10001", "10001", "10001", "10001", "10001", "01110"],
    'P' := ["11110", "10001", "10001", "11110", "10000", "10000", "10000"],
    'Q' := ["01110", "10001", "10001", "10001", "10101", "10010", "01101"],
    'R' := ["11110", "10001", "10001", "11110", "10100", "10010", "10001"],
    'S' := ["01111", "10000", "10000", "01110", "00001", "00001", "11110"]
  ]

  const LETTERS_T_TO_Z: Font := map[
    'T' := ["11111", "00100", "00100", "00100", "00100", "00100", "00100"],
    'U' := ["10001", "10001", "10001", "10001", "10001", "10001", "01110"],
    'V' := ["10001", "10001", "10001", "10001", "10001", "01010", "00100"],
    'W' := ["10001", "10001", "10001", "10101", "10101", "10101", "01010"],
    'X' := ["10001", "10001", "01010", "00100", "01010", "10001", "10001"],
    'Y' := ["10001", "10001", "01010", "00100", "00100", "00100", "00100"],
    'Z' := ["11111", "00001", "00010", "00100", "01000", "10000", "11111"]
  ]

  const LETTERS: Font := LETTERS_A_TO_G + LETTERS_H_TO_M + LETTERS_N_TO_S + LETTERS_T_TO_Z

  const GLYPHS: Font := SYMBOLS + DIGITS + LETTERS

  ghost predicate GlyphShape(glyph: seq<string>) {
    |glyph| == GLYPH_HEIGHT && forall row :: 0 <= row < |glyph| ==> |glyph[row]| == GLYPH_WIDTH
  }

  ghost predicate FontShape(font: Font) { forall c :: c in font ==> GlyphShape(font[c]) }

  lemma SymbolShapes()
    ensures FontShape(SYMBOLS) && '?' in SYMBOLS
  {
  }

  lemma DigitShapes()
    ensures FontShape(DIGITS)
  {
  }

  lemma ShapesAToG()
    ensures FontShape(LETTERS_A_TO_G)
  {
  }

  lemma ShapesHToM()
    ensures FontShape(LETTERS_H_TO_M)
  {
  }

  lemma ShapesNToS()
    ensures FontShape(LETTERS_N_TO_S)
  {
  }

  lemma ShapesTToZ()
    ensures FontShape(LETTERS_T_TO_Z)
  {
  }

  lemma UnionShape(a: Font, b: Font)
    requires FontShape(a) && FontShape(b)
    ensures FontShape(a + b)
  {
  }

  /** The built-in font has the shape the drawing loops rely on, and the fallback glyph. */
  lemma BuiltInFont()
    ensures FontShape(GLYPHS) && '?' in GLYPHS
  {
    SymbolShapes();
    DigitShapes();
    ShapesAToG();
    ShapesHToM();
    ShapesNToS();
    ShapesTToZ();
    UnionShape(SYMBOLS, DIGITS);
    UnionShape(LETTERS_A_TO_G, LETTERS_H_TO_M);
    UnionShape(LETTERS_A_TO_G + LETTERS_H_TO_M, LETTERS_N_TO_S);
    UnionShape(LETTERS_A_TO_G + LETTERS_H_TO_M + LETTERS_N_TO_S, LETTERS_T_TO_Z);
    UnionShape(SYMBOLS + DIGITS, LETTERS);
  }

  function FrameHeight(lineCount: nat): nat { lineCount * LINE_HEIGHT + FRAME_PADDING * 2 }

  /** JavaScript's `length`: characters beyond the basic plane count twice. */
  function Utf16Length(s: string): nat {
    if s == [] then 0 else (if s[0] as int >= 0x10000 then 2 else 1) + Utf16Length(s[1..])
  }

  lemma {:induction false} Utf16Adds(s: string, t: string)
    ensures Utf16Length(s + t) == Utf16Length(s) + Utf16Length(t)
  {
    if s == [] {
      assert s + t == t;
    } else {
      Utf16Adds(s[1..], t);
      assert (s + t)[1..] == s[1..] + t;
    }
  }

  /** A character of the Basic Multilingual Plane is one code unit, any other two. */
  lemma Utf16OfOne(c: char)
    ensures Utf16Length([c]) == if c as int <= 0xffff then 1 else 2
  {
    assert [c][1..] == "";
  }

  predicate Fits(line: string) { Utf16Length(line) * CHARACTER_ADVANCE + FRAME_PADDING * 2 <= WIDTH }

  function GlyphFor(font: Font, c: char): Option<seq<string>> {
    if c in font then Some(font[c]) else if '?' in font then Some(font['?']) else None
  }

  predicate Drawable(font: Font, line: string) {
    Fits(line) && forall i :: 0 <= i < |line| ==> GlyphFor(font, line[i]).Some?
  }

  // ----- Closed form -----

  /** Whether a glyph lights the pixel at (dx, dy) from its top left corner. */
  predicate GlyphLit(glyph: seq<string>, dx: int, dy: int)
    requires GlyphShape(glyph)
  {
    0 <= dx < GLYPH_WIDTH * SCALE && 0 <= dy < GLYPH_HEIGHT * SCALE && glyph[dy / SCALE][dx / SCALE] == '1'
  }

  /** Whether a line lights column x, dy rows below the top of its cell row. */
  predicate LineLit(font: Font, line: string, x: int, dy: int)
    requires FontShape(font)
  {
    && x >= FRAME_PADDING
    && (x - FRAME_PADDING) / CHARACTER_ADVANCE < |line|
    && var glyph := GlyphFor(font, line[(x - FRAME_PADDING) / CHARACTER_ADVANCE]);
      glyph.Some? && GlyphLit(glyph.value, (x - FRAME_PADDING) % CHARACTER_ADVANCE, dy)
  }

  function ColourOf(colours: seq<Byte>, line: nat): Byte { if line < |colours| then colours[line] else 2 }

  /** The colour index at column x, row y of a frame showing `lines`. */
  function Pixel(font: Font, lines: seq<string>, colours: seq<Byte>, x: int, y: int): Byte
    requires FontShape(font)
  {
    if y < FRAME_PADDING then 0
    else
      var line := (y - FRAME_PADDING) / LINE_HEIGHT;
      if line < |lines| && LineLit(font, lines[line], x, (y - FRAME_PADDING) % LINE_HEIGHT)
      then ColourOf(colours, line)
      else 0
  }

  /** Row-major contents of the frame. */
  function Canvas(font: Font, lines: seq<string>, colours: seq<Byte>): seq<Byte>
    requires FontShape(font)
  {
    seq(WIDTH * FrameHeight(|lines|), k requires k >= 0 => Pixel(font, lines, colours, k % WIDTH, k / WIDTH))
  }

  /** A pixel belongs to the cell of at most one character of at most one line. */
  lemma CellsDisjoint(line: nat, character: nat, line': nat, character': nat, x: int, y: int)
    requires 0 <= x - (FRAME_PADDING + character * CHARACTER_ADVANCE) < GLYPH_WIDTH * SCALE
    requires 0 <= y - (FRAME_PADDING + line * LINE_HEIGHT) < GLYPH_HEIGHT * SCALE
    requires 0 <= x - (FRAME_PADDING + character' * CHARACTER_ADVANCE) < GLYPH_WIDTH * SCALE
    requires 0 <= y - (FRAME_PADDING + line' * LINE_HEIGHT) < GLYPH_HEIGHT * SCALE
    ensures line == line' && character == character'
  {
  }

  lemma {:induction false} Utf16AtLeastCharacters(s: string)
    ensures Utf16Length(s) >= |s|
  {
    if s != [] { Utf16AtLeastCharacters(s[1..]); }
  }

  // ----- Drawing -----

  /** The two innermost loops: one lit font pixel becomes a SCALE by SCALE block. */
  method FillDot(pixels: array<Byte>, startX: nat, startY: nat, colour: Byte)
    requires startX + SCALE <= WIDTH && (startY + SCALE) * WIDTH <= pixels.Length
    modifies pixels
    ensures forall k | 0 <= k < pixels.Length ::
      pixels[k] ==
      if startX <= k % WIDTH < startX + SCALE && startY <= k / WIDTH < startY + SCALE
      then colour else old(pixels[k])
  {
    for y := 0 to SCALE
      invariant forall k | 0 <= k < pixels.Length ::
        pixels[k] ==
        if startX <= k % WIDTH < startX + SCALE && startY <= k / WIDTH < startY + y
        then colour else old(pixels[k])
    {
      for x := 0 to SCALE
        invariant forall k | 0 <= k < pixels.Length ::
          pixels[k] ==
          if startX <= k % WIDTH < startX + (if k / WIDTH == startY + y then x else SCALE)
             && startY <= k / WIDTH <= startY + y
          then colour else old(pixels[k])
      {
        pixels[(startY + y) * WIDTH + startX + x] := colour;
      }
    }
  }

  method DrawGlyph(pixels: array<Byte>, glyph: seq<string>, x0: nat, y0: nat, colour: Byte)
    requires GlyphShape(glyph)
    requires x0 + GLYPH_WIDTH * SCALE <= WIDTH && (y0 + GLYPH_HEIGHT * SCALE) * WIDTH <= pixels.Length
    modifies pixels
    ensures forall k | 0 <= k < pixels.Length ::
      pixels[k] ==
      if GlyphLit(glyph, k % WIDTH - x0, k / WIDTH - y0) then colour else old(pixels[k])
  {
    for row := 0 to GLYPH_HEIGHT
      invariant forall k | 0 <= k < pixels.Length ::
        pixels[k] ==
        if GlyphLit(glyph, k % WIDTH - x0, k / WIDTH - y0) && k / WIDTH - y0 < row * SCALE
        then colour else old(pixels[k])
    {
      for column := 0 to GLYPH_WIDTH
        invariant forall k | 0 <= k < pixels.Length ::
          pixels[k] ==
          if GlyphLit(glyph, k % WIDTH - x0, k / WIDTH - y0) &&
             (k / WIDTH - y0 < row * SCALE ||
              (k / WIDTH - y0 < (row + 1) * SCALE && k % WIDTH - x0 < column * SCALE))
          then colour else old(pixels[k])
      {
        if glyph[row][column] == '1' {
          FillDot(pixels, x0 + column * SCALE, y0 + row * SCALE, colour);
        }
      }
    }
  }

  /** The line drawn up to character i over what was there before. */
  ghost predicate LineDrawn(before: seq<Byte>, after: seq<Byte>, font: Font, line: string, i: nat, y0: nat, colour: Byte)
    requires FontShape(font)
  {
    && |before| == |after|
    && forall k | 0 <= k < |after| ::
      after[k] ==
        if k % WIDTH < FRAME_PADDING + i * CHARACTER_ADVANCE && LineLit(font, line, k % WIDTH, k / WIDTH - y0)
        then colour else before[k]
  }

  lemma CharacterDrawn(before: seq<Byte>, middle: seq<Byte>, after: seq<Byte>, font: Font, line: string, i: nat, y0: nat, colour: Byte)
    requires FontShape(font) && i < |line| && GlyphFor(font, line[i]).Some?
    requires LineDrawn(before, middle, font, line, i, y0, colour) && |after| == |middle|
    requires forall k | 0 <= k < |after| ::
      after[k] ==
        if GlyphLit(GlyphFor(font, line[i]).value, k % WIDTH - (FRAME_PADDING + i * CHARACTER_ADVANCE), k / WIDTH - y0)
        then colour else middle[k]
    ensures LineDrawn(before, after, font, line, i + 1, y0, colour)
  {
    forall k | 0 <= k < |after|
      ensures after[k] ==
        if k % WIDTH < FRAME_PADDING + (i + 1) * CHARACTER_ADVANCE && LineLit(font, line, k % WIDTH, k / WIDTH - y0)
        then colour else before[k]
    {
      LineLitInCell(font, line, i, k % WIDTH, k / WIDTH - y0);
    }
  }

  /** Draws one line; stops at the first character without any glyph. */
  method DrawLine(pixels: array<Byte>, font: Font, line: string, y0: nat, colour: Byte)
    returns (drawn: bool)
    requires FontShape(font) && Fits(line)
    requires (y0 + GLYPH_HEIGHT * SCALE) * WIDTH <= pixels.Length
    modifies pixels
    ensures drawn <==> Drawable(font, line)
    ensures drawn ==> forall k | 0 <= k < pixels.Length ::
      pixels[k] == if LineLit(font, line, k % WIDTH, k / WIDTH - y0) then colour else old(pixels[k])
  {
    Utf16AtLeastCharacters(line);
    for i := 0 to |line|
      invariant forall j :: 0 <= j < i ==> GlyphFor(font, line[j]).Some?
      invariant LineDrawn(old(pixels[..]), pixels[..], font, line, i, y0, colour)
    {
      var glyph := GlyphFor(font, line[i]);
      if glyph == None { return false; }
      ghost var middle := pixels[..];
      DrawGlyph(pixels, glyph.value, FRAME_PADDING + i * CHARACTER_ADVANCE, y0, colour);
      CharacterDrawn(old(pixels[..]), middle, pixels[..], font, line, i, y0, colour);
    }
    ghost var before, after := old(pixels[..]), pixels[..];
    forall k | 0 <= k < pixels.Length
      ensures pixels[k] == if LineLit(font, line, k % WIDTH, k / WIDTH - y0) then colour else old(pixels[k])
    {
      assert pixels[k] == after[k] && old(pixels[k]) == before[k];
    }
    return true;
  }

  /** Inside the cell of character i, the line is lit exactly where that glyph is. */
  lemma LineLitInCell(font: Font, line: string, i: nat, x: int, dy: int)
    requires FontShape(font) && i < |line| && GlyphFor(font, line[i]).Some?
    ensures var cell := FRAME_PADDING + i * CHARACTER_ADVANCE;
      var lit := GlyphLit(GlyphFor(font, line[i]).value, x - cell, dy);
      if cell <= x < cell + CHARACTER_ADVANCE then LineLit(font, line, x, dy) == lit else !lit
  {
    var cell := FRAME_PADDING + i * CHARACTER_ADVANCE;
    if cell <= x < cell + CHARACTER_ADVANCE {
      assert (x - FRAME_PADDING) / CHARACTER_ADVANCE == i && (x - FRAME_PADDING) % CHARACTER_ADVANCE == x - cell;
    }
  }

  /** Inside the rows of line i, the frame shows exactly that line. */
  lemma PixelInLine(font: Font, lines: seq<string>, colours: seq<Byte>, i: nat, x: int, y: int)
    requires FontShape(font) && i < |lines|
    ensures var top := FRAME_PADDING + i * LINE_HEIGHT;
      var lit := LineLit(font, lines[i], x, y - top);
      if top <= y < top + LINE_HEIGHT
      then Pixel(font, lines, colours, x, y) == if lit then ColourOf(colours, i) else 0
      else !lit
  {
    var top := FRAME_PADDING + i * LINE_HEIGHT;
    if top <= y < top + LINE_HEIGHT {
      assert (y - FRAME_PADDING) / LINE_HEIGHT == i && (y - FRAME_PADDING) % LINE_HEIGHT == y - top;
    }
  }

  ghost predicate AllDrawable(font: Font, lines: seq<string>) {
    forall i :: 0 <= i < |lines| ==> Drawable(font, lines[i])
  }

  /** The first line that cannot be drawn, and what is said of it. */
  ghost predicate Refusal(font: Font, lines: seq<string>, error: RecordingError) {
    exists i | 0 <= i < |lines| :: !Drawable(font, lines[i]) && AllDrawable(font, lines[..i]) &&
      error == if Utf16Length(lines[i]) > 52 then LineTooLong else FallbackGlyphMissing
  }

  function Uppercased(upper: string -> string, lines: seq<string>): (r: seq<string>)
    ensures |r| == |lines| && forall i :: 0 <= i < |lines| ==> r[i] == upper(lines[i])
  {
    seq(|lines|, i requires 0 <= i < |lines| => upper(lines[i]))
  }

  /** The frame painted down to the given row, background below. */
  ghost predicate Painted(s: seq<Byte>, font: Font, lines: seq<string>, colours: seq<Byte>, rows: int)
    requires FontShape(font)
  {
    && |s| == WIDTH * FrameHeight(|lines|)
    && forall k | 0 <= k < |s| ::
      s[k] == if k / WIDTH < rows then Pixel(font, lines, colours, k % WIDTH, k / WIDTH) else 0
  }

  /** Drawing line i extends the painted part of one column by the rows of that line. */
  lemma PixelPainted(font: Font, lines: seq<string>, colours: seq<Byte>, i: nat, x: int, y: int, before: Byte, after: Byte)
    requires FontShape(font) && i < |lines|
    requires before == if y < FRAME_PADDING + i * LINE_HEIGHT then Pixel(font, lines, colours, x, y) else 0
    requires after ==
      if LineLit(font, lines[i], x, y - (FRAME_PADDING + i * LINE_HEIGHT)) then ColourOf(colours, i) else before
    ensures after == if y < FRAME_PADDING + (i + 1) * LINE_HEIGHT then Pixel(font, lines, colours, x, y) else 0
  {
    PixelInLine(font, lines, colours, i, x, y);
  }

  lemma LinePainted(before: seq<Byte>, after: seq<Byte>, font: Font, lines: seq<string>, colours: seq<Byte>, i: nat)
    requires FontShape(font) && i < |lines| && |after| == |before|
    requires Painted(before, font, lines, colours, FRAME_PADDING + i * LINE_HEIGHT)
    requires forall k | 0 <= k < |after| ::
      after[k] ==
        if LineLit(font, lines[i], k % WIDTH, k / WIDTH - (FRAME_PADDING + i * LINE_HEIGHT))
        then ColourOf(colours, i) else before[k]
    ensures Painted(after, font, lines, colours, FRAME_PADDING + (i + 1) * LINE_HEIGHT)
  {
    forall k | 0 <= k < |after|
      ensures after[k] ==
        if k / WIDTH < FRAME_PADDING + (i + 1) * LINE_HEIGHT
        then Pixel(font, lines, colours, k % WIDTH, k / WIDTH) else 0
    {
      PixelPainted(font, lines, colours, i, k % WIDTH, k / WIDTH, before[k], after[k]);
    }
  }

  lemma PaddingPainted(s: seq<Byte>, font: Font, lines: seq<string>, colours: seq<Byte>)
    requires FontShape(font) && |s| == WIDTH * FrameHeight(|lines|)
    requires forall k :: 0 <= k < |s| ==> s[k] == 0
    ensures Painted(s, font, lines, colours, FRAME_PADDING)
  {
  }

  lemma AllPainted(s: seq<Byte>, font: Font, lines: seq<string>, colours: seq<Byte>)
    requires FontShape(font) && Painted(s, font, lines, colours, FRAME_PADDING + |lines| * LINE_HEIGHT)
    ensures s == Canvas(font, lines, colours)
  {
    var canvas := Canvas(font, lines, colours);
    forall k | 0 <= k < |s| ensures s[k] == canvas[k] {
      assert canvas[k] == Pixel(font, lines, colours, k % WIDTH, k / WIDTH);
    }
  }

  lemma LineRefused(font: Font, lines: seq<string>, i: nat)
    requires i < |lines| && forall j :: 0 <= j < i ==> Drawable(font, lines[j])
    requires !Fits(lines[i]) || !Drawable(font, lines[i])
    ensures !Drawable(font, lines[i]) && Refusal(font, lines, if Fits(lines[i]) then FallbackGlyphMissing else LineTooLong)
  {
  }

  method RenderLines(font: Font, upper: string -> string, rawLines: seq<string>, foreground: seq<Byte>)
    returns (r: Result<array<Byte>, RecordingError>)
    requires FontShape(font)
    ensures r.Ok? <==> AllDrawable(font, Uppercased(upper, rawLines))
    ensures r.Err? ==> Refusal(font, Uppercased(upper, rawLines), r.error)
    ensures r.Ok? ==> fresh(r.value) && r.value[..] == Canvas(font, Uppercased(upper, rawLines), foreground)
  {
    hide Pixel;
    hide Drawable;
    hide Refusal;
    hide Canvas;
    ghost var lines := Uppercased(upper, rawLines);
    var height := FrameHeight(|rawLines|);
    var pixels := new Byte[WIDTH * height](_ => 0);
    PaddingPainted(pixels[..], font, lines, foreground);
    for i := 0 to |rawLines|
      invariant forall j :: 0 <= j < i ==> Drawable(font, lines[j])
      invariant Painted(pixels[..], font, lines, foreground, FRAME_PADDING + i * LINE_HEIGHT)
    {
      var line := upper(rawLines[i]);
      if !Fits(line) {
        LineRefused(font, lines, i);
        return Err(LineTooLong);
      }
      var colour := ColourOf(foreground, i);
      ghost var before := pixels[..];
      var drawn := DrawLine(pixels, font, line, FRAME_PADDING + i * LINE_HEIGHT, colour);
      if !drawn {
        LineRefused(font, lines, i);
        return Err(FallbackGlyphMissing);
      }
      LinePainted(before, pixels[..], font, lines, foreground, i);
    }
    AllPainted(pixels[..], font, lines, foreground);
    return Ok(pixels);
  }
}

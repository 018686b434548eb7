/** The byte stream of the walkthrough recording (src/authority-walkthrough-recording.ts) against
    a reader of GIF89a data streams. */
module RecordingGif {
  import opened Bits
  import opened Wrappers
  import opened RecordingLzw
  import opened RecordingRaster

  // ----- Reading a GIF89a data stream -----

  datatype Frame = Frame(delay: nat, left: nat, top: nat, width: nat, height: nat, pixels: seq<nat>)

  datatype Gif = Gif(width: nat, height: nat, palette: seq<Byte>, frames: seq<Frame>)

  function Word(b: seq<Byte>, at: nat): nat
    requires at + 1 < |b|
  {
    (b[at] as int) + 256 * (b[at + 1] as int)
  }

  /** Bytes of a colour table announced by a packed field (sections 18-21). */
  function TableBytes(packed: Byte): nat { if packed / 128 == 1 then 3 * Pow2(packed % 8 + 1) else 0 }

  /** Data sub-blocks up to the block terminator (sections 15 and 16), and what follows. */
  function ReadSubBlocks(b: seq<Byte>): Option<(seq<Byte>, seq<Byte>)> {
    if b == [] then None
    else if b[0] == 0 then Some(([], b[1..]))
    else
      var size := b[0] as int;
      if |b| < 1 + size then None
      else
        match ReadSubBlocks(b[1 + size..])
        case None => None
        case Some((data, rest)) => Some((b[1..1 + size] + data, rest))
  }

  /** Table based image data (section 22). */
  function ReadImageData(b: seq<Byte>): Option<(seq<nat>, seq<Byte>)> {
    if b == [] || !(2 <= b[0] <= 8) then None
    else
      match ReadSubBlocks(b[1..])
      case None => None
      case Some((data, rest)) =>
        match Decode(b[0], data)
        case None => None
        case Some(pixels) => Some((pixels, rest))
  }

  /** An image descriptor after its separator, and its data (sections 20-22). Only images that
      are not interlaced, lie within the logical screen and carry all their pixels are read. */
  function ReadImage(screenWidth: nat, screenHeight: nat, delay: nat, b: seq<Byte>): Option<(Frame, seq<Byte>)> {
    if |b| < 9 || (b[8] / 64) % 2 == 1 || |b| < 9 + TableBytes(b[8]) then None
    else
      var left, top, width, height := Word(b, 0), Word(b, 2), Word(b, 4), Word(b, 6);
      match ReadImageData(b[9 + TableBytes(b[8])..])
      case None => None
      case Some((pixels, rest)) =>
        if left + width <= screenWidth && top + height <= screenHeight && |pixels| == width * height
        then Some((Frame(delay, left, top, width, height, pixels), rest))
        else None
  }

  /** Graphic control extensions, images and the trailer (sections 20, 23 and 27). */
  function ReadBlocks(screenWidth: nat, screenHeight: nat, delay: nat, b: seq<Byte>): Option<seq<Frame>>
    decreases |b|
  {
    if b == [0x3b] then Some([])
    else if |b| >= 8 && b[0] == 0x21 && b[1] == 0xf9 && b[2] == 4 && b[7] == 0 then
      ReadBlocks(screenWidth, screenHeight, Word(b, 4), b[8..])
    else if |b| >= 1 && b[0] == 0x2c then
      match ReadImage(screenWidth, screenHeight, delay, b[1..])
      case None => None
      case Some((frame, rest)) =>
        if |rest| >= |b| then None
        else Prepend([frame], ReadBlocks(screenWidth, screenHeight, 0, rest))
    else None
  }

  function Prepend(frames: seq<Frame>, read: Option<seq<Frame>>): Option<seq<Frame>> {
    match read case None => None case Some(rest) => Some(frames + rest)
  }

  const SIGNATURE: seq<Byte> := [0x47, 0x49, 0x46, 0x38, 0x39, 0x61]

  /** Header, logical screen descriptor, global colour table, blocks (sections 17-19). */
  function ReadGif(b: seq<Byte>): Option<Gif> {
    if |b| < 13 || b[..6] != SIGNATURE || |b| < 13 + TableBytes(b[10]) then None
    else
      var blocks := 13 + TableBytes(b[10]);
      match ReadBlocks(Word(b, 6), Word(b, 8), 0, b[blocks..])
      case None => None
      case Some(frames) => Some(Gif(Word(b, 6), Word(b, 8), b[13..blocks], frames))
  }

  // ----- Image data -----

  const BLOCK := 255

  function SubBlocks(data: seq<Byte>): seq<Byte> {
    if data == [] then []
    else
      var n := if |data| < BLOCK then |data| else BLOCK;
      [n] + data[..n] + SubBlocks(data[n..])
  }

  lemma OneSubBlock(chunk: seq<Byte>, tail: seq<Byte>)
    requires 0 < |chunk| < 256
    ensures ReadSubBlocks([|chunk|] + (chunk + tail)) ==
      match ReadSubBlocks(tail) case None => None case Some((data, rest)) => Some((chunk + data, rest))
  {
    var b := [|chunk|] + (chunk + tail);
    assert b[1..1 + |chunk|] == chunk && b[1 + |chunk|..] == tail;
  }

  lemma Regroup(a: seq<Byte>, b: seq<Byte>, c: seq<Byte>, d: seq<Byte>)
    ensures ((a + b) + c) + d == a + (b + (c + d))
  {
  }

  lemma {:induction false} SubBlocksRead(data: seq<Byte>, rest: seq<Byte>)
    ensures ReadSubBlocks(SubBlocks(data) + ([0] + rest)) == Some((data, rest))
    decreases |data|
  {
    if data == [] {
      assert SubBlocks(data) + ([0] + rest) == [0] + rest;
    } else {
      var n := if |data| < BLOCK then |data| else BLOCK;
      var tail := SubBlocks(data[n..]) + ([0] + rest);
      SubBlocksRead(data[n..], rest);
      OneSubBlock(data[..n], tail);
      Regroup([n], data[..n], SubBlocks(data[n..]), [0] + rest);
      assert data == data[..n] + data[n..];
    }
  }

  lemma ShortSubBlock(data: seq<Byte>)
    requires 0 < |data| <= 255
    ensures SubBlocks(data) == [|data|] + data
  {
    assert data[..|data|] == data && data[|data|..] == [];
    assert SubBlocks([]) == [];
    assert [|data|] + data + [] == [|data|] + data;
  }

  lemma {:induction false} SubBlocksLength(data: seq<Byte>)
    ensures |SubBlocks(data)| == |data| + (|data| + 254) / 255
    decreases |data|
  {
    if |data| > 255 {
      SubBlocksLength(data[255..]);
    } else if data != [] {
      ShortSubBlock(data);
    }
  }

  /** Behind a full block, everything is 256 bytes further on. */
  lemma NextSubBlockAt(data: seq<Byte>, at: nat)
    requires |data| > 255 && at < |SubBlocks(data[255..])|
    ensures |SubBlocks(data)| > 256 + at && SubBlocks(data)[256 + at] == SubBlocks(data[255..])[at]
  {
    var front := [255] + data[..255];
    assert SubBlocks(data) == front + SubBlocks(data[255..]);
    assert |front| == 256;
  }

  /** Sub-blocks of 255 bytes each, only the last one shorter, each behind its size. */
  lemma {:induction false} SubBlockAt(data: seq<Byte>, q: nat, m: nat)
    requires m < 255 && 255 * q + m < |data|
    ensures |SubBlocks(data)| > 256 * q + 1 + m
    ensures SubBlocks(data)[256 * q] == if 255 * (q + 1) <= |data| then 255 else |data| - 255 * q
    ensures SubBlocks(data)[256 * q + 1 + m] == data[255 * q + m]
    decreases |data|
  {
    if |data| <= 255 {
      ShortSubBlock(data);
    } else if q > 0 {
      SubBlockAt(data[255..], q - 1, m);
      NextSubBlockAt(data, 256 * (q - 1));
      NextSubBlockAt(data, 256 * (q - 1) + 1 + m);
    }
  }

  /** Image data that reads as the pixels, whatever bytes come next. */
  ghost predicate Carries(blocks: seq<Byte>, pixels: seq<nat>) {
    forall rest: seq<Byte> :: ReadImageData(blocks + rest) == Some((pixels, rest))
  }

  lemma NextSubBlock(written: seq<Byte>, data: seq<Byte>, offset: nat, end: nat)
    requires offset < end <= |data|
    requires end == if offset + BLOCK < |data| then offset + BLOCK else |data|
    ensures written + SubBlocks(data[offset..]) ==
      (written + [end - offset] + data[offset..end]) + SubBlocks(data[end..])
  {
    assert data[offset..][..end - offset] == data[offset..end];
    assert data[offset..][end - offset..] == data[end..];
  }

  lemma BlocksCarry(compressed: seq<Byte>, pixels: seq<nat>)
    requires Decode(2, compressed) == Some(pixels)
    ensures Carries([2] + SubBlocks(compressed) + [0], pixels)
  {
    var blocks := [2] + SubBlocks(compressed) + [0];
    forall rest: seq<Byte> ensures ReadImageData(blocks + rest) == Some((pixels, rest)) {
      SubBlocksRead(compressed, rest);
      assert (blocks + rest)[1..] == SubBlocks(compressed) + ([0] + rest);
    }
  }

  /** The minimum code size, the sub-blocks of the packed codes, and the block terminator. */
  ghost predicate ImageBytes(blocks: seq<Byte>, pixels: seq<Byte>) {
    exists data: seq<Byte> :: BitPacked(data, Codes(pixels)) && blocks == [2] + SubBlocks(data) + [0]
  }

  lemma BlocksPacked(compressed: seq<Byte>, pixels: seq<Byte>)
    requires BitPacked(compressed, Codes(pixels))
    ensures ImageBytes([2] + SubBlocks(compressed) + [0], pixels)
  {
  }

  method ImageData(pixels: array<Byte>) returns (blocks: seq<Byte>)
    requires FourColours(pixels[..])
    ensures Carries(blocks, pixels[..])
    ensures ImageBytes(blocks, pixels[..])
  {
    hide BitPacked;
    hide ImageBytes;
    hide Carries;
    hide Codes;
    var compressed := LiteralLzw(pixels);
    blocks := [2];
    var offset := 0;
    while offset < |compressed|
      invariant offset >= 0
      invariant blocks + SubBlocks(compressed[if offset <= |compressed| then offset else |compressed|..]) ==
        [2] + SubBlocks(compressed)
    {
      var end := if offset + BLOCK < |compressed| then offset + BLOCK else |compressed|;
      NextSubBlock(blocks, compressed, offset, end);
      blocks := blocks + [end - offset] + compressed[offset..end];
      offset := offset + BLOCK;
    }
    assert blocks == [2] + SubBlocks(compressed);
    blocks := blocks + [0];
    BlocksCarry(compressed, pixels[..]);
    BlocksPacked(compressed, pixels[..]);
  }

  // ----- The recording -----

  const ORDINARY_FRAME_DELAY := 40
  const FINAL_FRAME_DELAY := 150
  const MAX_HEIGHT := 480
  const PALETTE: seq<Byte> := [13, 17, 23, 63, 185, 80, 230, 237, 243, 248, 81, 73]

  predicate Contains(s: string, part: string)
    decreases |s|
  {
    part <= s || (s != [] && Contains(s[1..], part))
  }

  function FrameColour(line: string, index: nat): (colour: Byte)
    ensures 1 <= colour <= 3
  {
    if Contains(line, "REFUSED") then 3
    else if index == 0 && (Contains(line, "APPLIED") || Contains(line, "HUMAN_REVIEW") || "HYPERFINITE" <= line) then 1
    else 2
  }

  function FrameColours(lines: seq<string>): (colours: seq<Byte>)
    ensures |colours| == |lines| && forall i :: 0 <= i < |colours| ==> 1 <= colours[i] <= 3
  {
    seq(|lines|, i requires 0 <= i < |lines| => FrameColour(lines[i], i))
  }

  function LittleEndian(value: nat): seq<Byte> { [value % 256, (value / 256) % 256] }

  /** Where frame i starts; all frames together are TopOf(groups, |groups|) rows high. */
  function TopOf(groups: seq<seq<string>>, i: nat): nat
    requires i <= |groups|
  {
    if i == 0 then 0 else TopOf(groups, i - 1) + FrameHeight(|groups[i - 1]|)
  }

  function DelayOf(groups: seq<seq<string>>, i: nat): nat {
    if i + 1 == |groups| then FINAL_FRAME_DELAY else ORDINARY_FRAME_DELAY
  }

  /** Frame i as a viewer has to see it. */
  function FrameOf(font: Font, upper: string -> string, groups: seq<seq<string>>, i: nat): Frame
    requires FontShape(font) && i < |groups|
  {
    Frame(DelayOf(groups, i), 0, TopOf(groups, i), WIDTH, FrameHeight(|groups[i]|),
          Canvas(font, Uppercased(upper, groups[i]), FrameColours(groups[i])))
  }

  function FramesOf(font: Font, upper: string -> string, groups: seq<seq<string>>, n: nat): (frames: seq<Frame>)
    requires FontShape(font) && n <= |groups|
    ensures |frames| == n
  {
    if n == 0 then [] else FramesOf(font, upper, groups, n - 1) + [FrameOf(font, upper, groups, n - 1)]
  }

  lemma {:induction false} FrameAt(font: Font, upper: string -> string, groups: seq<seq<string>>, n: nat, i: nat)
    requires FontShape(font) && i < n <= |groups|
    ensures FramesOf(font, upper, groups, n)[i] == FrameOf(font, upper, groups, i)
  {
    hide FrameOf;
    if i + 1 < n { FrameAt(font, upper, groups, n - 1, i); }
  }

  lemma {:induction false} TopMonotone(groups: seq<seq<string>>, i: nat, j: nat)
    requires i <= j <= |groups|
    ensures TopOf(groups, i) <= TopOf(groups, j)
  {
    if i < j { TopMonotone(groups, i, j - 1); }
  }

  lemma {:induction false} EndsBefore(groups: seq<seq<string>>, i: nat, j: nat)
    requires i < j < |groups|
    ensures TopOf(groups, i) + FrameHeight(|groups[i]|) <= TopOf(groups, j)
  {
    if i + 1 < j { EndsBefore(groups, i, j - 1); }
  }

  /** Frame rectangles are disjoint: no row of the screen lies in two frames. */
  lemma FramesDisjoint(groups: seq<seq<string>>, i: nat, j: nat, y: nat)
    requires i < |groups| && j < |groups|
    requires TopOf(groups, i) <= y < TopOf(groups, i) + FrameHeight(|groups[i]|)
    requires TopOf(groups, j) <= y < TopOf(groups, j) + FrameHeight(|groups[j]|)
    ensures i == j
  {
    if i < j { EndsBefore(groups, i, j); }
    if j < i { EndsBefore(groups, j, i); }
  }

  /** Together they cover the screen: every row lies in some frame. */
  lemma {:induction false} FramesCover(groups: seq<seq<string>>, n: nat, y: nat) returns (i: nat)
    requires n <= |groups| && y < TopOf(groups, n)
    ensures i < n && TopOf(groups, i) <= y < TopOf(groups, i) + FrameHeight(|groups[i]|)
  {
    if y >= TopOf(groups, n - 1) { i := n - 1; } else { i := FramesCover(groups, n - 1, y); }
  }

  /** A little-endian field anywhere in the stream decodes to the value encoded. */
  lemma WordAt(all: seq<Byte>, part: seq<Byte>, at: nat, value: nat)
    requires at + 2 <= |part| <= |all| && all[..|part|] == part
    requires value < 0x10000 && part[at..at + 2] == LittleEndian(value)
    ensures Word(all, at) == value
  {
    assert all[at] == part[at] == part[at..at + 2][0];
    assert all[at + 1] == part[at + 1] == part[at..at + 2][1];
  }

  /** Graphic control extension and image descriptor of one frame. */
  function Preamble(delay: nat, top: nat, height: nat): (b: seq<Byte>)
    ensures |b| == 18
  {
    Control(delay) + ([0x2c] + Descriptor(top, height))
  }

  function Control(delay: nat): (b: seq<Byte>)
    ensures |b| == 8
  {
    [0x21, 0xf9, 0x04, 0x04] + LittleEndian(delay) + [0x00, 0x00]
  }

  function Descriptor(top: nat, height: nat): (b: seq<Byte>)
    ensures |b| == 9
  {
    LittleEndian(0) + LittleEndian(top) + LittleEndian(WIDTH) + LittleEndian(height) + [0x00]
  }

  lemma DescriptorReads(screenHeight: nat, delay: nat, frame: Frame, data: seq<Byte>, rest: seq<Byte>, b: seq<Byte>)
    requires Carries(data, frame.pixels) && frame.delay == delay
    requires frame.left == 0 && frame.width == WIDTH && |frame.pixels| == WIDTH * frame.height
    requires frame.top + frame.height <= screenHeight && screenHeight < 0x10000
    requires b == Descriptor(frame.top, frame.height)
    ensures ReadImage(WIDTH, screenHeight, delay, b + (data + rest)) == Some((frame, rest))
  {
    var all := b + (data + rest);
    assert all[..9] == b && all[9..] == data + rest;
    WordAt(all, b, 0, 0);
    WordAt(all, b, 2, frame.top);
    WordAt(all, b, 4, WIDTH);
    WordAt(all, b, 6, frame.height);
    assert all[8] == b[8];
  }

  lemma ImageReads(screenHeight: nat, delay: nat, frame: Frame, b: seq<Byte>, rest: seq<Byte>)
    requires ReadImage(WIDTH, screenHeight, delay, b) == Some((frame, rest)) && |rest| <= |b|
    ensures ReadBlocks(WIDTH, screenHeight, delay, [0x2c] + b) ==
      Prepend([frame], ReadBlocks(WIDTH, screenHeight, 0, rest))
  {
    assert ([0x2c] + b)[1..] == b;
  }

  lemma ControlReads(screenHeight: nat, delay: nat, rest: seq<Byte>)
    requires delay < 0x10000
    ensures ReadBlocks(WIDTH, screenHeight, 0, Control(delay) + rest) == ReadBlocks(WIDTH, screenHeight, delay, rest)
  {
    var control := Control(delay);
    var b := control + rest;
    assert control[4..6] == LittleEndian(delay);
    WordAt(b, control, 4, delay);
    assert b[8..] == rest;
  }

  /** One encoded frame reads as that frame, followed by whatever comes next. */
  lemma FrameReads(screenHeight: nat, frame: Frame, data: seq<Byte>, rest: seq<Byte>)
    requires Carries(data, frame.pixels) && frame.delay < 0x10000
    requires frame.left == 0 && frame.width == WIDTH && |frame.pixels| == WIDTH * frame.height
    requires frame.top + frame.height <= screenHeight && screenHeight < 0x10000
    ensures ReadBlocks(WIDTH, screenHeight, 0, Preamble(frame.delay, frame.top, frame.height) + data + rest) ==
      Prepend([frame], ReadBlocks(WIDTH, screenHeight, 0, rest))
  {
    var descriptor := Descriptor(frame.top, frame.height);
    DescriptorReads(screenHeight, frame.delay, frame, data, rest, descriptor);
    ImageReads(screenHeight, frame.delay, frame, descriptor + (data + rest), rest);
    ControlReads(screenHeight, frame.delay, [0x2c] + (descriptor + (data + rest)));
    RegroupFrame(Control(frame.delay), [0x2c], descriptor, data, rest);
  }

  lemma RegroupFrame(a: seq<Byte>, b: seq<Byte>, c: seq<Byte>, d: seq<Byte>, e: seq<Byte>)
    ensures ((a + (b + c)) + d) + e == a + (b + (c + (d + e)))
  {
  }

  function Opening(height: nat): (b: seq<Byte>)
    ensures |b| == 25
  {
    SIGNATURE + LittleEndian(WIDTH) + LittleEndian(height) + [0xf1, 0, 0] + PALETTE
  }

  lemma OpeningReads(height: nat, body: seq<Byte>)
    requires height < 0x10000
    ensures ReadGif(Opening(height) + body) ==
      match ReadBlocks(WIDTH, height, 0, body)
      case None => None
      case Some(frames) => Some(Gif(WIDTH, height, PALETTE, frames))
  {
    var b := Opening(height) + body;
    assert b[..6] == SIGNATURE;
    assert b[6..8] == LittleEndian(WIDTH) && b[8..10] == LittleEndian(height);
    WordAt(b, b, 6, WIDTH);
    WordAt(b, b, 8, height);
    assert b[10] == 0xf1;
    assert Pow2(2) == 4;
    assert b[13..25] == PALETTE && b[25..] == body;
  }

  /** The body written so far reads as the first n frames, whatever comes next. */
  ghost predicate BodyReads(height: nat, body: seq<Byte>, frames: seq<Frame>) {
    forall rest: seq<Byte> :: ReadBlocks(WIDTH, height, 0, body + rest) ==
      Prepend(frames, ReadBlocks(WIDTH, height, 0, rest))
  }

  lemma NothingReads(height: nat)
    ensures BodyReads(height, [], [])
  {
    forall rest: seq<Byte>
      ensures ReadBlocks(WIDTH, height, 0, [] + rest) == Prepend([], ReadBlocks(WIDTH, height, 0, rest))
    {
      assert [] + rest == rest;
      if ReadBlocks(WIDTH, height, 0, rest).Some? {
        assert [] + ReadBlocks(WIDTH, height, 0, rest).value == ReadBlocks(WIDTH, height, 0, rest).value;
      }
    }
  }

  lemma BodyGrows(height: nat, body: seq<Byte>, frames: seq<Frame>, frame: Frame, data: seq<Byte>)
    requires BodyReads(height, body, frames)
    requires Carries(data, frame.pixels) && frame.delay < 0x10000
    requires frame.left == 0 && frame.width == WIDTH && |frame.pixels| == WIDTH * frame.height
    requires frame.top + frame.height <= height && height < 0x10000
    ensures BodyReads(height, body + (Preamble(frame.delay, frame.top, frame.height) + data), frames + [frame])
  {
    var chunk := Preamble(frame.delay, frame.top, frame.height) + data;
    forall rest: seq<Byte>
      ensures ReadBlocks(WIDTH, height, 0, body + chunk + rest) ==
        Prepend(frames + [frame], ReadBlocks(WIDTH, height, 0, rest))
    {
      assert body + chunk + rest == body + (chunk + rest);
      FrameReads(height, frame, data, rest);
      if ReadBlocks(WIDTH, height, 0, rest).Some? {
        var tail := ReadBlocks(WIDTH, height, 0, rest).value;
        assert frames + ([frame] + tail) == frames + [frame] + tail;
      }
    }
  }

  // ----- What a viewer has to see -----

  ghost predicate Mentions(line: string, word: string) {
    exists at: nat :: at <= |line| && word <= line[at..]
  }

  lemma {:induction false} ContainsExactly(line: string, word: string)
    ensures Contains(line, word) <==> Mentions(line, word)
    decreases |line|
  {
    if word <= line {
      assert line[0..] == line;
    } else if line != [] {
      ContainsExactly(line[1..], word);
      if Mentions(line[1..], word) {
        var at: nat :| at <= |line[1..]| && word <= line[1..][at..];
        assert line[at + 1..] == line[1..][at..];
      }
      if Mentions(line, word) {
        var at: nat :| at <= |line| && word <= line[at..];
        assert line[0..] == line;
        assert line[1..][at - 1..] == line[at..];
      }
    }
  }

  /** A lit pixel of line j: red when the line tells of a refusal, otherwise green on a headline
      that tells of an outcome, otherwise white. */
  ghost predicate LineColour(line: string, j: nat, entry: nat) {
    var refused := Mentions(line, "REFUSED");
    var headline := j == 0 && (Mentions(line, "APPLIED") || Mentions(line, "HUMAN_REVIEW") || "HYPERFINITE" <= line);
    && (entry == 3 <==> refused)
    && (entry == 1 <==> headline && !refused)
    && (entry == 2 <==> !headline && !refused)
  }

  /** Whether dot (row, column) of a character is set, in its own glyph or else the question mark's. */
  ghost predicate DotSet(font: Font, c: char, row: nat, column: nat)
    requires FontShape(font) && row < 7 && column < 5
  {
    if c in font then font[c][row][column] == '1' else '?' in font && font['?'][row][column] == '1'
  }

  /** Character c of line j covers the pixel: characters are 12 pixels apart and lines 18, from a
      margin of 8, and a dot is a square of 2 by 2. */
  ghost predicate Covers(font: Font, upper: string -> string, lines: seq<string>, j: nat, c: nat, x: nat, y: nat)
    requires FontShape(font)
  {
    && j < |lines| && c < |upper(lines[j])|
    && 0 <= x - (8 + 12 * c) < 10 && 0 <= y - (8 + 18 * j) < 14
    && DotSet(font, upper(lines[j])[c], (y - (8 + 18 * j)) / 2, (x - (8 + 12 * c)) / 2)
  }

  ghost predicate Covered(font: Font, upper: string -> string, lines: seq<string>, x: nat, y: nat)
    requires FontShape(font)
  {
    exists j: nat, c: nat :: Covers(font, upper, lines, j, c, x, y)
  }

  ghost predicate PixelShows(font: Font, upper: string -> string, lines: seq<string>, pixels: seq<nat>, x: nat, y: nat)
    requires FontShape(font) && x < 640 && 640 * y + x < |pixels|
  {
    && (pixels[640 * y + x] != 0 <==> Covered(font, upper, lines, x, y))
    && forall j: nat, c: nat | j < |lines| && Covers(font, upper, lines, j, c, x, y) ::
      LineColour(lines[j], j, pixels[640 * y + x])
  }

  /** One frame shows its lines, in the time and the place it has to. */
  ghost predicate FrameShows(font: Font, upper: string -> string, lines: seq<string>, final: bool, frame: Frame)
    requires FontShape(font)
  {
    && frame.delay == (if final then 150 else 40)
    && frame.left == 0 && frame.width == 640 && frame.height == 18 * |lines| + 16
    && |frame.pixels| == 640 * frame.height
    && forall x, y | 0 <= x < 640 && 0 <= y < frame.height :: PixelShows(font, upper, lines, frame.pixels, x, y)
  }

  /** Frames stand one below the other, from the top of the screen to its bottom. */
  ghost predicate Stacked(frames: seq<Frame>, height: nat) {
    && (if frames == [] then height == 0
        else frames[0].top == 0 && frames[|frames| - 1].top + frames[|frames| - 1].height == height)
    && forall i :: 0 < i < |frames| ==> frames[i].top == frames[i - 1].top + frames[i - 1].height
  }

  ghost predicate ShowsRecording(font: Font, upper: string -> string, groups: seq<seq<string>>, gif: Gif)
    requires FontShape(font)
  {
    && gif.width == 640 && gif.height <= 480 && Stacked(gif.frames, gif.height)
    && gif.palette == [13, 17, 23] + [63, 185, 80] + [230, 237, 243] + [248, 81, 73]
    && |gif.frames| == |groups|
    && forall i :: 0 <= i < |groups| ==> FrameShows(font, upper, groups[i], i + 1 == |groups|, gif.frames[i])
  }

  lemma FrameColourShows(line: string, j: nat)
    ensures LineColour(line, j, FrameColour(line, j))
  {
    ContainsExactly(line, "REFUSED");
    ContainsExactly(line, "APPLIED");
    ContainsExactly(line, "HUMAN_REVIEW");
  }

  /** Where character c of line j covers the pixel, the closed form has the colour of line j. */
  lemma CoveredPixel(font: Font, upper: string -> string, lines: seq<string>, j: nat, c: nat, x: nat, y: nat)
    requires FontShape(font) && Covers(font, upper, lines, j, c, x, y)
    ensures Pixel(font, Uppercased(upper, lines), FrameColours(lines), x, y) == FrameColour(lines[j], j)
  {
    hide FrameColour;
    var line := upper(lines[j]);
    assert GlyphFor(font, line[c]).Some?;
    LineLitInCell(font, line, c, x, y - (8 + 18 * j));
    PixelInLine(font, Uppercased(upper, lines), FrameColours(lines), j, x, y);
  }

  lemma LitPixelCovered(font: Font, upper: string -> string, lines: seq<string>, x: nat, y: nat)
    requires FontShape(font) && Pixel(font, Uppercased(upper, lines), FrameColours(lines), x, y) != 0
    ensures Covered(font, upper, lines, x, y)
  {
    hide FrameColour;
    var j, c := (y - 8) / 18, (x - 8) / 12;
    assert (y - 8) % 18 == y - (8 + 18 * j) && (x - 8) % 12 == x - (8 + 12 * c);
    assert LineLit(font, Uppercased(upper, lines)[j], x, (y - 8) % 18);
    assert Covers(font, upper, lines, j, c, x, y);
  }

  lemma CanvasShows(font: Font, upper: string -> string, lines: seq<string>, x: nat, y: nat)
    requires FontShape(font) && x < 640 && y < 18 * |lines| + 16
    ensures PixelShows(font, upper, lines, Canvas(font, Uppercased(upper, lines), FrameColours(lines)), x, y)
  {
    hide FrameColour;
    hide DotSet;
    hide Pixel;
    var canvas: seq<nat> := Canvas(font, Uppercased(upper, lines), FrameColours(lines));
    var k := 640 * y + x;
    assert k < |canvas| && k % 640 == x && k / 640 == y;
    assert canvas[k] == Pixel(font, Uppercased(upper, lines), FrameColours(lines), x, y);
    forall j: nat, c: nat | j < |lines| && Covers(font, upper, lines, j, c, x, y)
      ensures canvas[k] == FrameColour(lines[j], j) && LineColour(lines[j], j, canvas[k])
    {
      CoveredPixel(font, upper, lines, j, c, x, y);
      FrameColourShows(lines[j], j);
    }
    if Covered(font, upper, lines, x, y) {
      var j: nat, c: nat :| Covers(font, upper, lines, j, c, x, y);
      CoveredPixel(font, upper, lines, j, c, x, y);
    }
    if canvas[k] != 0 { LitPixelCovered(font, upper, lines, x, y); }
  }

  lemma FrameOfShows(font: Font, upper: string -> string, groups: seq<seq<string>>, i: nat)
    requires FontShape(font) && i < |groups|
    ensures FrameShows(font, upper, groups[i], i + 1 == |groups|, FrameOf(font, upper, groups, i))
  {
    hide PixelShows;
    forall x, y | 0 <= x < 640 && 0 <= y < 18 * |groups[i]| + 16
      ensures PixelShows(font, upper, groups[i], FrameOf(font, upper, groups, i).pixels, x, y)
    {
      CanvasShows(font, upper, groups[i], x, y);
    }
  }

  lemma FramesStacked(font: Font, upper: string -> string, groups: seq<seq<string>>)
    requires FontShape(font)
    ensures Stacked(FramesOf(font, upper, groups, |groups|), TopOf(groups, |groups|))
  {
    var frames := FramesOf(font, upper, groups, |groups|);
    forall i | 0 < i < |frames| ensures frames[i].top == frames[i - 1].top + frames[i - 1].height {
      FrameAt(font, upper, groups, |groups|, i);
      FrameAt(font, upper, groups, |groups|, i - 1);
    }
    if frames != [] {
      FrameAt(font, upper, groups, |groups|, 0);
      FrameAt(font, upper, groups, |groups|, |groups| - 1);
    }
  }

  /** The frames of the closed form are what a viewer has to see. */
  lemma RecordingShown(font: Font, upper: string -> string, groups: seq<seq<string>>)
    requires FontShape(font) && TopOf(groups, |groups|) <= MAX_HEIGHT
    ensures ShowsRecording(font, upper, groups,
      Gif(WIDTH, TopOf(groups, |groups|), PALETTE, FramesOf(font, upper, groups, |groups|)))
  {
    hide FrameOf;
    hide FrameShows;
    hide Stacked;
    FramesStacked(font, upper, groups);
    forall i | 0 <= i < |groups|
      ensures FrameShows(font, upper, groups[i], i + 1 == |groups|, FramesOf(font, upper, groups, |groups|)[i])
    {
      FrameAt(font, upper, groups, |groups|, i);
      FrameOfShows(font, upper, groups, i);
    }
  }

  lemma CanvasStaysInPalette(font: Font, lines: seq<string>, colours: seq<Byte>)
    requires FontShape(font) && forall i :: 0 <= i < |colours| ==> colours[i] < 4
    ensures FourColours(Canvas(font, lines, colours))
  {
  }

  ghost predicate AllGroupsDrawable(font: Font, upper: string -> string, groups: seq<seq<string>>) {
    forall i :: 0 <= i < |groups| ==> GroupDrawable(font, upper, groups[i])
  }

  ghost predicate GroupDrawable(font: Font, upper: string -> string, lines: seq<string>) {
    AllDrawable(font, Uppercased(upper, lines))
  }

  /** The first group that cannot be drawn, and what is said of it. */
  ghost predicate GroupRefused(font: Font, upper: string -> string, groups: seq<seq<string>>, error: RecordingError) {
    exists i | 0 <= i < |groups| ::
      Refusal(font, Uppercased(upper, groups[i]), error) && AllGroupsDrawable(font, upper, groups[..i])
  }

  /** A frame's preamble followed by image data that carries the closed form of its lines. */
  ghost predicate FrameChunk(font: Font, upper: string -> string, lines: seq<string>, delay: nat, top: nat, chunk: seq<Byte>)
    requires FontShape(font)
  {
    exists data :: CarriesCanvas(font, upper, lines, data) && chunk == Preamble(delay, top, FrameHeight(|lines|)) + data
  }

  ghost predicate CarriesCanvas(font: Font, upper: string -> string, lines: seq<string>, data: seq<Byte>)
    requires FontShape(font)
  {
    var canvas := Canvas(font, Uppercased(upper, lines), FrameColours(lines));
    Carries(data, canvas) && ImageBytes(data, canvas)
  }

  /** The first n frames one after the other, and nothing else. */
  ghost predicate Chunked(font: Font, upper: string -> string, groups: seq<seq<string>>, n: nat, body: seq<Byte>)
    requires FontShape(font) && n <= |groups|
  {
    if n == 0 then body == []
    else
      exists front, chunk ::
        && body == front + chunk && Chunked(font, upper, groups, n - 1, front)
        && FrameChunk(font, upper, groups[n - 1], DelayOf(groups, n - 1), TopOf(groups, n - 1), chunk)
  }

  /** The whole stream: opening, frames, trailer. */
  ghost predicate RecordingBytes(font: Font, upper: string -> string, groups: seq<seq<string>>, bytes: seq<Byte>)
    requires FontShape(font)
  {
    exists body :: Chunked(font, upper, groups, |groups|, body) &&
      bytes == Opening(TopOf(groups, |groups|)) + body + [0x3b]
  }

  /** The opening byte by byte. */
  lemma OpeningBytes(height: nat)
    ensures Opening(height) == [
      0x47, 0x49, 0x46, 0x38, 0x39, 0x61, 0x80, 0x02, height % 256, height / 256 % 256, 0xf1, 0, 0,
      13, 17, 23, 63, 185, 80, 230, 237, 243, 248, 81, 73]
  {
  }

  /** What precedes the image data of a frame, byte by byte. */
  lemma PreambleBytes(delay: nat, top: nat, height: nat)
    ensures Preamble(delay, top, height) == [
      0x21, 0xf9, 0x04, 0x04, delay % 256, delay / 256 % 256, 0, 0, 0x2c, 0, 0, top % 256, top / 256 % 256,
      0x80, 0x02, height % 256, height / 256 % 256, 0]
  {
  }

  /** With the built-in font a group can be drawn exactly when no upper-cased line is longer than
      52 code units. */
  lemma BuiltInDraws(upper: string -> string, lines: seq<string>)
    ensures GroupDrawable(GLYPHS, upper, lines) <==> forall i :: 0 <= i < |lines| ==> Utf16Length(upper(lines[i])) <= 52
  {
    BuiltInFont();
    var shown := Uppercased(upper, lines);
    forall i | 0 <= i < |lines|
      ensures shown[i] == upper(lines[i]) && (Drawable(GLYPHS, shown[i]) <==> Utf16Length(upper(lines[i])) <= 52)
    {
    }
  }

  lemma {:induction false} TopAddsUp(groups: seq<seq<string>>, i: nat)
    requires i <= |groups|
    ensures TopOf(groups, i) == 18 * LineCount(groups[..i]) + 16 * i
  {
    if i > 0 {
      TopAddsUp(groups, i - 1);
      assert groups[..i] == groups[..i - 1] + [groups[i - 1]];
    }
  }

  function LineCount(groups: seq<seq<string>>): nat {
    if groups == [] then 0 else LineCount(groups[..|groups| - 1]) + |groups[|groups| - 1]|
  }

  /** Writing frame i after the frames before it. */
  lemma FrameWritten(font: Font, upper: string -> string, groups: seq<seq<string>>, i: nat, body: seq<Byte>, chunk: seq<Byte>)
    requires FontShape(font) && i < |groups|
    requires TopOf(groups, |groups|) <= MAX_HEIGHT
    requires BodyReads(TopOf(groups, |groups|), body, FramesOf(font, upper, groups, i))
    requires FrameChunk(font, upper, groups[i], DelayOf(groups, i), TopOf(groups, i), chunk)
    ensures BodyReads(TopOf(groups, |groups|), body + chunk, FramesOf(font, upper, groups, i + 1))
  {
    var data :| CarriesCanvas(font, upper, groups[i], data) &&
      chunk == Preamble(DelayOf(groups, i), TopOf(groups, i), FrameHeight(|groups[i]|)) + data;
    TopMonotone(groups, i + 1, |groups|);
    BodyGrows(TopOf(groups, |groups|), body, FramesOf(font, upper, groups, i), FrameOf(font, upper, groups, i), data);
  }

  lemma TrailerEnds(height: nat, body: seq<Byte>, frames: seq<Frame>)
    requires BodyReads(height, body, frames) && height < 0x10000
    ensures ReadGif(Opening(height) + body + [0x3b]) == Some(Gif(WIDTH, height, PALETTE, frames))
  {
    assert Opening(height) + body + [0x3b] == Opening(height) + (body + [0x3b]);
    OpeningReads(height, body + [0x3b]);
    assert ReadBlocks(WIDTH, height, 0, [0x3b]) == Some([]);
    assert frames + [] == frames;
  }

  /** Writes the recording. A reader of the result sees one frame per group of lines, stacked
      from the top, each showing exactly the closed form of its lines. */
  method RenderAuthorityBoundaryGif(font: Font, upper: string -> string, groups: seq<seq<string>>)
    returns (r: Result<seq<Byte>, RecordingError>)
    requires FontShape(font)
    ensures r.Ok? <==> TopOf(groups, |groups|) <= 480 && AllGroupsDrawable(font, upper, groups)
    ensures r == Err(RecordingTooHigh) <==> TopOf(groups, |groups|) > 480
    ensures r.Err? && r.error != RecordingTooHigh ==> GroupRefused(font, upper, groups, r.error)
    ensures r.Ok? ==>
      ReadGif(r.value) ==
        Some(Gif(WIDTH, TopOf(groups, |groups|), PALETTE, FramesOf(font, upper, groups, |groups|)))
    ensures r.Ok? ==> RecordingBytes(font, upper, groups, r.value)
    ensures r.Ok? ==> ReadGif(r.value).Some? && ShowsRecording(font, upper, groups, ReadGif(r.value).value)
  {
    var height := TotalHeight(groups);
    if height > MAX_HEIGHT { return Err(RecordingTooHigh); }
    var body := RenderFrames(font, upper, groups);
    if body.Err? { return Err(body.error); }
    TrailerEnds(height, body.value, FramesOf(font, upper, groups, |groups|));
    RecordingShown(font, upper, groups);
    return Ok(Opening(height) + body.value + [0x3b]);
  }

  method TotalHeight(groups: seq<seq<string>>) returns (height: nat)
    ensures height == TopOf(groups, |groups|)
  {
    height := 0;
    for i := 0 to |groups|
      invariant height == TopOf(groups, i)
    {
      height := height + FrameHeight(|groups[i]|);
    }
  }

  /** The loop over the groups; `top` accumulates the frame heights. */
  method RenderFrames(font: Font, upper: string -> string, groups: seq<seq<string>>)
    returns (r: Result<seq<Byte>, RecordingError>)
    requires FontShape(font) && TopOf(groups, |groups|) <= MAX_HEIGHT
    ensures r.Ok? <==> AllGroupsDrawable(font, upper, groups)
    ensures r.Ok? ==> BodyReads(TopOf(groups, |groups|), r.value, FramesOf(font, upper, groups, |groups|))
    ensures r.Err? ==> r.error != RecordingTooHigh && GroupRefused(font, upper, groups, r.error)
    ensures r.Ok? ==> Chunked(font, upper, groups, |groups|, r.value)
  {
    hide BodyReads;
    hide GroupDrawable;
    hide FrameChunk;
    ghost var height := TopOf(groups, |groups|);
    var top := 0;
    var body: seq<Byte> := [];
    NothingReads(height);
    for i := 0 to |groups|
      invariant top == TopOf(groups, i)
      invariant forall j :: 0 <= j < i ==> GroupDrawable(font, upper, groups[j])
      invariant BodyReads(height, body, FramesOf(font, upper, groups, i))
      invariant Chunked(font, upper, groups, i, body)
    {
      var chunk := RenderFrame(font, upper, groups[i], DelayOf(groups, i), top);
      if chunk.Err? { return Err(chunk.error); }
      FrameWritten(font, upper, groups, i, body, chunk.value);
      body := body + chunk.value;
      top := top + FrameHeight(|groups[i]|);
    }
    return Ok(body);
  }

  /** The bytes pushed for one group of lines. */
  method RenderFrame(font: Font, upper: string -> string, lines: seq<string>, delay: nat, top: nat)
    returns (r: Result<seq<Byte>, RecordingError>)
    requires FontShape(font)
    ensures r.Ok? <==> GroupDrawable(font, upper, lines)
    ensures r.Err? ==> r.error != RecordingTooHigh && Refusal(font, Uppercased(upper, lines), r.error)
    ensures r.Ok? ==> FrameChunk(font, upper, lines, delay, top, r.value)
  {
    var pixels := RenderLines(font, upper, lines, FrameColours(lines));
    if pixels.Err? { return Err(pixels.error); }
    CanvasStaysInPalette(font, Uppercased(upper, lines), FrameColours(lines));
    var data := ImageData(pixels.value);
    return Ok(Preamble(delay, top, FrameHeight(|lines|)) + data);
  }
}

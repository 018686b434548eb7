/** The LZW stage of the walkthrough recording (src/authority-walkthrough-recording.ts) against
    the decoder of GIF89a Appendix F. */
module RecordingLzw {
  import opened Bits
  import opened Wrappers

  // ----- The decoder of GIF89a Appendix F, for any minimum code size -----

  /** Strings added since the last clear code, the string of the previous code, the code width. */
  datatype Table = Table(added: seq<seq<nat>>, previous: Option<seq<nat>>, width: nat)

  datatype Reading = Finished | Emits(pixels: seq<nat>, table: Table) | Malformed

  const MAX_TABLE := 4096
  const MAX_WIDTH := 12

  function Cleared(minSize: nat): Table { Table([], None, minSize + 1) }

  /** The string a code stands for while `previous` is known, including the code that is only
      about to be added. */
  function StringOf(minSize: nat, table: Table, code: nat): Option<seq<nat>>
    requires table.previous.Some?
  {
    var first := Pow2(minSize) + 2;
    if code < Pow2(minSize) then Some([code])
    else if first <= code < first + |table.added| then Some(table.added[code - first])
    else if code == first + |table.added| && table.previous.value != [] then
      Some(table.previous.value + [table.previous.value[0]])
    else None
  }

  /** The table after `s` follows the previous string: one entry more while there is room, and a
      wider code once the next entry no longer fits. */
  function Grow(minSize: nat, table: Table, s: seq<nat>): Table
    requires table.previous.Some? && s != []
  {
    var next := Pow2(minSize) + 2 + |table.added|;
    if next >= MAX_TABLE then table.(previous := Some(s))
    else
      Table(table.added + [table.previous.value + [s[0]]], Some(s),
            if next + 1 == Pow2(table.width) && table.width < MAX_WIDTH then table.width + 1 else table.width)
  }

  function ReadCode(minSize: nat, table: Table, code: nat): Reading {
    if code == Pow2(minSize) then Emits([], Cleared(minSize))
    else if code == Pow2(minSize) + 1 then Finished
    else if table.previous == None then
      if code < Pow2(minSize) then Emits([code], table.(previous := Some([code]))) else Malformed
    else
      match StringOf(minSize, table, code)
      case Some(s) => if s == [] then Malformed else Emits(s, Grow(minSize, table, s))
      case None => Malformed
  }

  /** Reads codes of the current width until the end code; the stream may not stop before it. */
  function DecodeBits(minSize: nat, bits: seq<Bit>, table: Table): Option<seq<nat>>
    decreases |bits|
  {
    if table.width == 0 || |bits| < table.width then None
    else
      match ReadCode(minSize, table, Val(bits[..table.width]))
      case Finished => Some([])
      case Malformed => None
      case Emits(pixels, next) =>
        match DecodeBits(minSize, bits[table.width..], next)
        case None => None
        case Some(rest) => Some(pixels + rest)
  }

  function Decode(minSize: nat, bytes: seq<Byte>): Option<seq<nat>> {
    DecodeBits(minSize, Unpack(bytes), Cleared(minSize))
  }

  ghost predicate Below(limit: nat, s: seq<nat>) { forall i :: 0 <= i < |s| ==> s[i] < limit }

  ghost predicate TableBelow(limit: nat, table: Table) {
    && (table.previous.Some? ==> Below(limit, table.previous.value))
    && (forall i :: 0 <= i < |table.added| ==> Below(limit, table.added[i]))
  }

  /** No stream whatever decodes to a colour outside the palette of `2^minSize` entries. */
  lemma {:induction false} DecodedColoursInPalette(minSize: nat, bits: seq<Bit>, table: Table)
    requires TableBelow(Pow2(minSize), table)
    ensures DecodeBits(minSize, bits, table).Some? ==> Below(Pow2(minSize), DecodeBits(minSize, bits, table).value)
    decreases |bits|
  {
    if table.width > 0 && |bits| >= table.width {
      var reading := ReadCode(minSize, table, Val(bits[..table.width]));
      if reading.Emits? {
        assert Below(Pow2(minSize), reading.pixels) && TableBelow(Pow2(minSize), reading.table);
        DecodedColoursInPalette(minSize, bits[table.width..], reading.table);
      }
    }
  }

  // ----- The encoder -----

  const CLEAR := 4
  const END := 5

  /** A clear code before every two pixels, and the end code. */
  function Codes(pixels: seq<Byte>): seq<nat> {
    if |pixels| == 0 then [END]
    else if |pixels| == 1 then [CLEAR, pixels[0], END]
    else [CLEAR, pixels[0], pixels[1]] + Codes(pixels[2..])
  }

  /** The codes as 3-bit fields. */
  function Stream(codes: seq<nat>): seq<Bit> {
    if codes == [] then [] else BitsOf(codes[0], 3) + Stream(codes[1..])
  }

  lemma {:induction false} CodesLength(pixels: seq<Byte>)
    ensures var codes := Codes(pixels); |codes| == |pixels| + (|pixels| + 1) / 2 + 1 && codes[|codes| - 1] == 5
  {
    if |pixels| >= 2 { CodesLength(pixels[2..]); }
  }

  /** A clear code before every two pixels, and the pixels in order. */
  lemma {:induction false} CodeAt(pixels: seq<Byte>, i: nat)
    requires i < |pixels|
    ensures |Codes(pixels)| > 3 * (i / 2) + 1 + i % 2
    ensures Codes(pixels)[3 * (i / 2)] == 4 && Codes(pixels)[3 * (i / 2) + 1 + i % 2] == pixels[i]
  {
    if i >= 2 {
      CodeAt(pixels[2..], i - 2);
      assert (i - 2) / 2 == i / 2 - 1 && (i - 2) % 2 == i % 2;
    }
  }

  lemma {:induction false} StreamAt(codes: seq<nat>, i: nat)
    requires i < |codes|
    ensures |Stream(codes)| == 3 * |codes| && Stream(codes)[3 * i..3 * i + 3] == BitsOf(codes[i], 3)
  {
    if i > 0 {
      StreamAt(codes[1..], i - 1);
      assert Stream(codes)[3 * i..3 * i + 3] == Stream(codes[1..])[3 * (i - 1)..3 * (i - 1) + 3];
    } else {
      StreamLength(codes[1..]);
    }
  }

  lemma {:induction false} StreamLength(codes: seq<nat>)
    ensures |Stream(codes)| == 3 * |codes|
  {
    if codes != [] { StreamLength(codes[1..]); }
  }

  /** The codes lie in the bytes three bits each, least significant bits first, behind which less
      than a byte is left and zero. */
  ghost predicate BitPacked(bytes: seq<Byte>, codes: seq<nat>) {
    && 3 * |codes| <= 8 * |bytes| < 3 * |codes| + 8
    && (forall i, b | 0 <= i < |codes| && 0 <= b < 3 :: BitAt(bytes, 3 * i + b) == codes[i] / Pow2(b) % 2)
    && forall n | 3 * |codes| <= n < 8 * |bytes| :: BitAt(bytes, n) == 0
  }

  lemma PackedBits(bytes: seq<Byte>, codes: seq<nat>)
    requires Packs(bytes, Stream(codes))
    ensures BitPacked(bytes, codes)
  {
    StreamLength(codes);
    forall i, b | 0 <= i < |codes| && 0 <= b < 3
      ensures BitAt(bytes, 3 * i + b) == codes[i] / Pow2(b) % 2
    {
      StreamAt(codes, i);
      UnpackAt(bytes, 3 * i + b);
      BitsOfAt(codes[i], 3, b);
      assert Stream(codes)[3 * i + b] == Stream(codes)[3 * i..3 * i + 3][b];
    }
    forall n | 3 * |codes| <= n < 8 * |bytes| ensures BitAt(bytes, n) == 0 { UnpackAt(bytes, n); }
  }

  ghost predicate FourColours(pixels: seq<Byte>) { Below(4, pixels) }

  lemma {:induction false} StreamAppend(codes: seq<nat>, code: nat)
    ensures Stream(codes + [code]) == Stream(codes) + BitsOf(code, 3)
  {
    if codes == [] {
      assert [] + [code] == [code];
      assert Stream([code]) == BitsOf(code, 3) + Stream([]);
    } else {
      StreamAppend(codes[1..], code);
      assert (codes + [code])[1..] == codes[1..] + [code];
    }
  }

  lemma {:induction false} CodesFitThreeBits(pixels: seq<Byte>)
    requires FourColours(pixels)
    ensures Below(8, Codes(pixels))
  {
    if |pixels| >= 2 { CodesFitThreeBits(pixels[2..]); }
  }

  lemma {:induction false} CodesAreBytes(pixels: seq<Byte>)
    ensures Below(256, Codes(pixels))
  {
    if |pixels| >= 2 { CodesAreBytes(pixels[2..]); }
  }

  /** One 3-bit code read off the front of a stream. */
  lemma ReadOne(code: nat, rest: seq<Bit>, table: Table)
    requires code < 8 && table.width == 3
    ensures var bits := BitsOf(code, 3) + rest;
      |bits| >= 3 && Val(bits[..3]) == code && bits[3..] == rest
  {
    PowerTable();
    ValOfBits(code, 3);
    assert (BitsOf(code, 3) + rest)[..3] == BitsOf(code, 3);
  }

  lemma DecodeStep(code: nat, rest: seq<Bit>, table: Table, pixels: seq<nat>, next: Table)
    requires code < 8 && table.width == 3
    requires ReadCode(2, table, code) == Emits(pixels, next)
    ensures DecodeBits(2, BitsOf(code, 3) + rest, table) ==
      match DecodeBits(2, rest, next) case None => None case Some(out) => Some(pixels + out)
  {
    ReadOne(code, rest, table);
  }

  /** Two pixels after a clear code leave the code width at three bits. */
  lemma PairKeepsWidth(p: nat, q: nat, table: Table)
    requires p < 4 && q < 4
    ensures var one := Table([], Some([p]), 3);
      var two := Table([[p, q]], Some([q]), 3);
      && ReadCode(2, table, CLEAR) == Emits([], Cleared(2)) && Cleared(2).width == 3
      && ReadCode(2, Cleared(2), p) == Emits([p], one)
      && ReadCode(2, one, q) == Emits([q], two)
  {
    PowerTable();
    assert [p] + [q] == [p, q];
  }

  /** A third pixel would widen the code to four bits, so the clear code cannot be spared. */
  lemma ThirdPixelWidens(p: nat, q: nat, r: nat)
    requires p < 4 && q < 4 && r < 4
    ensures var reading := ReadCode(2, Table([[p, q]], Some([q]), 3), r);
      reading.Emits? && reading.pixels == [r] && reading.table.width == 4
  {
    PowerTable();
  }

  lemma StreamTwo(c: nat, d: nat, rest: seq<nat>, padding: seq<Bit>)
    ensures Stream([c, d] + rest) + padding == BitsOf(c, 3) + (BitsOf(d, 3) + (Stream(rest) + padding))
  {
    assert [c, d] + rest == [c] + ([d] + rest);
    StreamCons(c, [d] + rest);
    StreamCons(d, rest);
  }

  /** The stream of a non-empty image is the fields of its first group and the remaining stream. */
  lemma StreamOfOne(p: Byte, padding: seq<Bit>)
    ensures Stream(Codes([p])) + padding == BitsOf(CLEAR, 3) + (BitsOf(p, 3) + (Stream(Codes([])) + padding))
  {
    assert Codes([p]) == [CLEAR, p as nat] + Codes([]);
    StreamTwo(CLEAR, p, Codes([]), padding);
  }

  lemma StreamOfMore(p: Byte, q: Byte, rest: seq<Byte>, padding: seq<Bit>)
    ensures var tail := BitsOf(p, 3) + (BitsOf(q, 3) + (Stream(Codes(rest)) + padding));
      Stream(Codes([p, q] + rest)) + padding == BitsOf(CLEAR, 3) + tail
  {
    assert ([p, q] + rest)[2..] == rest;
    assert Codes([p, q] + rest) == [CLEAR, p as nat] + ([q as nat] + Codes(rest));
    StreamTwo(CLEAR, p, [q as nat] + Codes(rest), padding);
    StreamCons(q, Codes(rest));
    assert (BitsOf(q, 3) + Stream(Codes(rest))) + padding == BitsOf(q, 3) + (Stream(Codes(rest)) + padding);
  }

  lemma StreamCons(code: nat, codes: seq<nat>)
    ensures Stream([code] + codes) == BitsOf(code, 3) + Stream(codes)
  {
    assert ([code] + codes)[1..] == codes;
  }

  /** A clear code and a first pixel, read from any table. */
  lemma ReadClearAndPixel(p: nat, tail: seq<Bit>, table: Table, out: seq<nat>)
    requires p < 4 && table.width == 3
    requires DecodeBits(2, tail, Table([], Some([p]), 3)) == Some(out)
    ensures DecodeBits(2, BitsOf(CLEAR, 3) + (BitsOf(p, 3) + tail), table) == Some([p] + out)
  {
    PairKeepsWidth(p, 0, table);
    DecodeStep(p, tail, Cleared(2), [p], Table([], Some([p]), 3));
    ReadClear(BitsOf(p, 3) + tail, table, [p] + out);
  }

  lemma ReadClear(tail: seq<Bit>, table: Table, out: seq<nat>)
    requires table.width == 3 && DecodeBits(2, tail, Cleared(2)) == Some(out)
    ensures DecodeBits(2, BitsOf(CLEAR, 3) + tail, table) == Some(out)
  {
    PairKeepsWidth(0, 0, table);
    DecodeStep(CLEAR, tail, table, [], Cleared(2));
    assert [] + out == out;
  }

  lemma OneDecodes(p: Byte, padding: seq<Bit>, table: Table)
    requires p < 4 && table.width == 3
    ensures DecodeBits(2, Stream(Codes([p])) + padding, table) == Some([p])
  {
    StreamOfOne(p, padding);
    EmptyDecodes(padding, Table([], Some([p]), 3));
    ReadClearAndPixel(p, Stream(Codes([])) + padding, table, []);
    assert [p as nat] + [] == [p];
  }

  lemma PairDecodes(p: Byte, q: Byte, rest: seq<Byte>, padding: seq<Bit>, table: Table)
    requires p < 4 && q < 4 && table.width == 3
    requires DecodeBits(2, Stream(Codes(rest)) + padding, Table([[p, q]], Some([q]), 3)) == Some(rest)
    ensures DecodeBits(2, Stream(Codes([p, q] + rest)) + padding, table) == Some([p, q] + rest)
  {
    hide DecodeBits;
    hide Stream;
    hide Codes;
    var tail := Stream(Codes(rest)) + padding;
    StreamOfMore(p, q, rest, padding);
    PairKeepsWidth(p, q, table);
    DecodeStep(q, tail, Table([], Some([p]), 3), [q], Table([[p, q]], Some([q]), 3));
    ReadClearAndPixel(p, BitsOf(q, 3) + tail, table, [q as nat] + rest);
    assert [p as nat] + ([q as nat] + rest) == [p, q] + rest;
  }

  /** Whatever table an earlier pair left behind, the stream decodes to the pixels. */
  lemma {:induction false} StreamDecodes(pixels: seq<Byte>, padding: seq<Bit>, table: Table)
    requires FourColours(pixels) && table.width == 3
    ensures DecodeBits(2, Stream(Codes(pixels)) + padding, table) == Some(pixels)
    decreases |pixels|
  {
    if |pixels| == 0 {
      EmptyDecodes(padding, table);
      assert pixels == [];
    } else if |pixels| == 1 {
      OneDecodes(pixels[0], padding, table);
      assert pixels == [pixels[0]];
    } else {
      var p, q := pixels[0], pixels[1];
      StreamDecodes(pixels[2..], padding, Table([[p, q]], Some([q]), 3));
      PairDecodes(p, q, pixels[2..], padding, table);
      assert pixels == [p, q] + pixels[2..];
    }
  }

  lemma EmptyDecodes(padding: seq<Bit>, table: Table)
    requires table.width == 3
    ensures DecodeBits(2, Stream(Codes([])) + padding, table) == Some([])
  {
    PowerTable();
    StreamCons(END, []);
    assert Codes([]) == [END] + [];
    assert Stream(Codes([])) + padding == BitsOf(END, 3) + padding;
    ReadOne(END, padding, table);
  }

  /** The bytes carry the code stream, zero-filled to the end of the last byte. */
  ghost predicate Packs(bytes: seq<Byte>, bits: seq<Bit>) {
    && |bits| <= 8 * |bytes| < |bits| + 8
    && Unpack(bytes) == bits + Zeros(8 * |bytes| - |bits|)
  }

  /** Bytes written and accumulator together hold exactly the stream so far. */
  ghost predicate Accumulated(bytes: seq<Byte>, packed: nat, bitCount: nat, bits: seq<Bit>) {
    && packed < Pow2(bitCount)
    && Unpack(bytes) + BitsOf(packed, bitCount) == bits
  }

  lemma AbsorbCode(bytes: seq<Byte>, packed: nat, bitCount: nat, codes: seq<nat>, code: nat)
    requires Accumulated(bytes, packed, bitCount, Stream(codes)) && code < 8
    ensures Accumulated(bytes, Or(packed, Shl(code, bitCount)), bitCount + 3, Stream(codes + [code]))
  {
    hide Or;
    hide Shl;
    hide Unpack;
    hide BitsOf;
    PackOne(packed, code, bitCount);
    StreamAppend(codes, code);
  }

  lemma EmitByte(bytes: seq<Byte>, packed: nat, bitCount: nat, bits: seq<Bit>)
    requires Accumulated(bytes, packed, bitCount, bits) && bitCount >= 8
    ensures Accumulated(bytes + [packed % 256], packed / 256, bitCount - 8, bits)
  {
    hide Unpack;
    hide BitsOf;
    LowByte(packed, bitCount - 8);
    UnpackAppend(bytes, packed % 256);
    ShiftOut(packed, bitCount);
  }

  lemma FlushByte(bytes: seq<Byte>, packed: nat, bitCount: nat, bits: seq<Bit>)
    requires Accumulated(bytes, packed, bitCount, bits) && bitCount < 8
    ensures Packs(if bitCount > 0 then bytes + [packed % 256] else bytes, bits)
  {
    UsedBitsFitAByte(packed, bitCount);
    var last: Byte := packed;
    assert packed % 256 == last;
    if bitCount > 0 {
      FilledUp(Unpack(bytes), last, bitCount, 8);
      UnpackAppend(bytes, last);
    } else {
      assert bits + Zeros(0) == bits;
    }
  }

  lemma FilledUp(whole: seq<Bit>, v: nat, k: nat, width: nat)
    requires k <= width && v < Pow2(k)
    ensures whole + BitsOf(v, width) == (whole + BitsOf(v, k)) + Zeros(width - k)
  {
    ZeroExtend(v, k, width - k);
    Join(whole, BitsOf(v, k), Zeros(width - k));
  }

  lemma Join(a: seq<Bit>, b: seq<Bit>, c: seq<Bit>)
    ensures a + (b + c) == (a + b) + c
  {
  }

  /** Packs codes least significant bit first, three bits each. The accumulator never leaves
      fifteen bits, so the source's 32-bit operators act as the unbounded ones here. */
  method PackCodes(codes: seq<nat>) returns (bytes: seq<Byte>)
    requires Below(256, codes)
    ensures Below(8, codes) ==> Packs(bytes, Stream(codes))
  {
    ghost var fits := Below(8, codes);
    assert Pow2(15) == 0x8000 by { PowerTable(); }
    bytes := [];
    var packed: nat := 0;
    var bitCount: nat := 0;
    for i := 0 to |codes|
      invariant bitCount < 8 && packed < 0x8000
      invariant fits ==> Accumulated(bytes, packed, bitCount, Stream(codes[..i]))
    {
      ShiftBound(codes[i], bitCount);
      OrBound(packed, Shl(codes[i], bitCount), 15);
      if fits { AbsorbCode(bytes, packed, bitCount, codes[..i], codes[i]); }
      assert codes[..i + 1] == codes[..i] + [codes[i]];
      packed := Or(packed, Shl(codes[i], bitCount));
      bitCount := bitCount + 3;
      while bitCount >= 8
        invariant bitCount < 11 && packed < 0x8000
        invariant fits ==> Accumulated(bytes, packed, bitCount, Stream(codes[..i + 1]))
      {
        if fits { EmitByte(bytes, packed, bitCount, Stream(codes[..i + 1])); }
        bytes := bytes + [packed % 256];
        packed := packed / 256;
        bitCount := bitCount - 8;
      }
    }
    assert codes[..|codes|] == codes;
    if fits { FlushByte(bytes, packed, bitCount, Stream(codes)); }
    if bitCount > 0 { bytes := bytes + [packed % 256]; }
  }

  /** One pass over the pixels, two at a time. */
  method CollectCodes(pixels: array<Byte>) returns (codes: seq<nat>)
    ensures codes == Codes(pixels[..])
  {
    codes := [];
    var index := 0;
    while index < pixels.Length
      invariant 0 <= index <= pixels.Length + 1
      invariant codes + (if index <= pixels.Length then Codes(pixels[index..]) else [END]) == Codes(pixels[..])
    {
      ghost var rest := pixels[index..];
      if index + 1 < pixels.Length {
        assert rest[2..] == pixels[index + 2..];
        MoreCodes(codes, rest[0], rest[1], Codes(rest[2..]));
        codes := codes + [CLEAR, pixels[index], pixels[index + 1]];
      } else {
        assert rest == [pixels[index]];
        MoreCodes(codes, rest[0], END, []);
        codes := codes + [CLEAR, pixels[index]];
      }
      index := index + 2;
    }
    codes := codes + [END];
  }

  lemma MoreCodes(codes: seq<nat>, p: nat, q: nat, rest: seq<nat>)
    ensures codes + ([CLEAR, p, q] + rest) == (codes + [CLEAR, p, q]) + rest
    ensures codes + [CLEAR, p, q] == (codes + [CLEAR, p]) + [q]
  {
  }

  /** Collects the codes, then packs them. */
  method LiteralLzw(pixels: array<Byte>) returns (bytes: seq<Byte>)
    ensures FourColours(pixels[..]) ==> BitPacked(bytes, Codes(pixels[..]))
    ensures Decode(2, bytes) == Some(pixels[..]) <==> FourColours(pixels[..])
  {
    var codes := CollectCodes(pixels);
    CodesAreBytes(pixels[..]);
    if FourColours(pixels[..]) { CodesFitThreeBits(pixels[..]); }
    bytes := PackCodes(codes);
    PackedDecodes(pixels[..], bytes);
    if FourColours(pixels[..]) { PackedBits(bytes, codes); }
  }

  /** Decoding a packed image gives it back exactly when it stays within the four colours. */
  lemma PackedDecodes(pixels: seq<Byte>, bytes: seq<Byte>)
    requires FourColours(pixels) ==> Packs(bytes, Stream(Codes(pixels)))
    ensures Decode(2, bytes) == Some(pixels) <==> FourColours(pixels)
    ensures FourColours(pixels) ==> Below(8, Codes(pixels))
  {
    PowerTable();
    if FourColours(pixels) {
      CodesFitThreeBits(pixels);
      StreamDecodes(pixels, Zeros(8 * |bytes| - |Stream(Codes(pixels))|), Cleared(2));
    } else {
      DecodedColoursInPalette(2, Unpack(bytes), Cleared(2));
    }
  }

  lemma ShiftBound(code: nat, n: nat)
    requires code < 256 && n < 8
    ensures Shl(code, n) < Pow2(15)
  {
    PowerTable();
    PowerMonotone(n, 7);
    assert code * Pow2(n) <= 255 * 128;
  }

  lemma PackOne(packed: nat, code: nat, used: nat)
    requires packed < Pow2(used) && code < 8
    ensures Or(packed, Shl(code, used)) < Pow2(used + 3)
    ensures BitsOf(Or(packed, Shl(code, used)), used + 3) == BitsOf(packed, used) + BitsOf(code, 3)
  {
    OrIsAppend(packed, code, used);
    BitsAppend(packed, code, used, 3);
    EightTimes(used);
    AtMostSeven(code, Pow2(used));
  }

  lemma EightTimes(n: nat)
    ensures Pow2(n + 3) == 8 * Pow2(n)
  {
    assert Pow2(n + 3) == 2 * Pow2(n + 2) && Pow2(n + 2) == 2 * Pow2(n + 1);
  }

  lemma AtMostSeven(code: nat, p: nat)
    requires code < 8
    ensures code * p <= 7 * p
  {
  }

  lemma ShiftOut(packed: nat, bitCount: nat)
    requires bitCount >= 8
    ensures packed < Pow2(bitCount) ==> packed / 256 < Pow2(bitCount - 8)
  {
    var n := bitCount - 8;
    BytePower(n);
  }

  lemma {:induction false} BytePower(n: nat)
    ensures Pow2(n + 8) == 256 * Pow2(n)
  {
    if n == 0 { PowerTable(); } else { BytePower(n - 1); }
  }

  lemma UsedBitsFitAByte(packed: nat, bitCount: nat)
    requires bitCount < 8 && packed < Pow2(bitCount)
    ensures packed < 256
  {
    PowerTable();
    PowerMonotone(bitCount, 8);
  }

  lemma ZeroExtend(v: nat, k: nat, n: nat)
    requires v < Pow2(k)
    ensures BitsOf(v, k + n) == BitsOf(v, k) + Zeros(n)
  {
    BitsAppend(v, 0, k, n);
    BitsOfZero(n);
    assert v + 0 * Pow2(k) == v;
  }
}

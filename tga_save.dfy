/** The writers of zmake/tga_save.py: true-colour files (type 2, 16 or 32 bits per
    pixel), colour-mapped files (type 1) and run-length encoded colour-mapped files
    (type 9). Each writer builds the file's bytes step by step, as the Python writer does, and
    is proved to produce the value its specification function describes; the file
    write itself is left to the caller. */
module TgaSave {
  import opened Bytes
  import opened TgaFormat

  // ---------------------------------------------------------------------------
  // True colour

  /** The bytes `save_truecolor_tga` writes for an RGBA image, or the exception it
      raises: `to_bytes(2)` overflows on a dimension of 65536 or more, and a depth other
      than 16 or 32 is a ValueError (from `bytearray.append` outside 0..255, or the
      explicit "Not supported"). */
  function TruecolorFile(img: Picture, depth: int): (r: Result<seq<byte>>)
    ensures r.Err? <==> !Fits16(img.width) || !Fits16(img.height) || (depth != 16 && depth != 32)
    ensures r.Ok? ==> |r.value| == HEADER_SIZE + ID_SIZE + (depth / 8) * |img.pixels|
    ensures r.Ok? ==> r.value[..HEADER_SIZE] == TruecolorHeader(img.width, img.height, depth as byte)
  {
    if !Fits16(img.width) || !Fits16(img.height) then Err(OverflowError)
    else if depth != 16 && depth != 32 then Err(ValueError)
    else
      var head := TruecolorHeader(img.width, img.height, depth as byte) + ZeppId(img.width);
      var body := if depth == 16 then Rgb565Bytes(img.pixels) else BgraBytes(img.pixels);
      assert (head + body)[..HEADER_SIZE] == TruecolorHeader(img.width, img.height, depth as byte);
      Ok(head + body)
  }

  /** The 16-bit pixel loop of `save_truecolor_tga`: each pixel's channels are scaled
      to 5/6/5 bits and appended as two bytes. */
  method AppendRgb565(data: seq<byte>, pixels: seq<Rgba>) returns (out: seq<byte>)
    ensures out == data + Rgb565Bytes(pixels)
  {
    out := data;
    for i := 0 to |pixels|
      invariant out == data + Rgb565Bytes(pixels[..i])
    {
      var p := pixels[i];
      assert pixels[..i + 1] == pixels[..i] + [p];
      Rgb565BytesSnoc(pixels[..i], p);
      var r, g, b := Scale5(p.r), Scale6(p.g), Scale5(p.b);
      out := out + [(g % 8) * 32 + b];
      out := out + [r * 8 + g / 8];
    }
    assert pixels[..|pixels|] == pixels;
  }

  /** The 32-bit pixel loop of `save_truecolor_tga`: B, G, R, A per pixel. */
  method AppendBgra(data: seq<byte>, pixels: seq<Rgba>) returns (out: seq<byte>)
    ensures out == data + BgraBytes(pixels)
  {
    out := data;
    for i := 0 to |pixels|
      invariant out == data + BgraBytes(pixels[..i])
    {
      var p := pixels[i];
      assert pixels[..i + 1] == pixels[..i] + [p];
      BgraBytesSnoc(pixels[..i], p);
      out := out + [p.b, p.g, p.r, p.a];
    }
    assert pixels[..|pixels|] == pixels;
  }

  method SaveTruecolor(img: Picture, depth: int) returns (r: Result<seq<byte>>)
    ensures r == TruecolorFile(img, depth)
  {
    if !Fits16(img.width) || !Fits16(img.height) {
      return Err(OverflowError);
    }
    if depth < 0 || depth > 255 {
      return Err(ValueError);
    }
    var data := TruecolorHeader(img.width, img.height, depth) + ZeppId(img.width);
    if depth == 16 {
      data := AppendRgb565(data, img.pixels);
    } else if depth == 32 {
      data := AppendBgra(data, img.pixels);
    } else {
      return Err(ValueError);
    }
    return Ok(data);
  }

  // ---------------------------------------------------------------------------
  // Colour-mapped files

  const PALETTE_BASE_SIZE := HEADER_SIZE + ID_SIZE + 4 * PALETTE_SIZE

  /** What `_prep_palette_base` returns: the header, the Image ID and the padded palette
      as bytes, together with the padded palette. `colors` is PIL's `getcolors()`;
      None (more than 256 colours) fails the assertion. */
  function PaletteBase(img: Picture, colors: Option<seq<Rgba>>): (r: Result<(seq<byte>, seq<Rgba>)>)
    requires colors.Some? ==> |colors.value| <= PALETTE_SIZE
    ensures colors.None? ==> r == Err(AssertionError)
    ensures colors.Some? ==> (r.Err? <==> !Fits16(img.width) || !Fits16(img.height))
    ensures r.Ok? ==> |r.value.0| == PALETTE_BASE_SIZE && r.value.1 == PadPalette(colors.value)
  {
    if colors.None? then Err(AssertionError)
    else if !Fits16(img.width) || !Fits16(img.height) then Err(OverflowError)
    else
      var palette := PadPalette(colors.value);
      Ok((PaletteHeader(img.width, img.height, TYPE_COLOR_MAPPED, PALETTE_SIZE) + ZeppId(img.width)
          + BgraBytes(palette), palette))
  }

  method PrepPaletteBase(img: Picture, colors: Option<seq<Rgba>>) returns (r: Result<(seq<byte>, seq<Rgba>)>)
    requires colors.Some? ==> |colors.value| <= PALETTE_SIZE
    ensures r == PaletteBase(img, colors)
  {
    if colors.None? {
      return Err(AssertionError);
    }
    var cs := colors.value;
    var palette: seq<Rgba> := [];
    for i := 0 to |cs|
      invariant palette == cs[..i]
    {
      palette := palette + [cs[i]];
    }
    assert cs[..|cs|] == cs;
    while |palette| < PALETTE_SIZE
      invariant |cs| <= |palette| <= PALETTE_SIZE
      invariant palette == cs + seq(|palette| - |cs|, _ => PAD_COLOR)
      decreases PALETTE_SIZE - |palette|
    {
      palette := palette + [PAD_COLOR];
    }
    if !Fits16(img.width) || !Fits16(img.height) {
      return Err(OverflowError);
    }
    var data := PaletteHeader(img.width, img.height, TYPE_COLOR_MAPPED, |palette|) + ZeppId(img.width);
    data := AppendBgra(data, palette);
    return Ok((data, palette));
  }

  /** The bytes `save_palette_tga` writes: the palette base followed by one palette
      index per pixel. */
  function PaletteFile(img: Picture, colors: Option<seq<Rgba>>): (r: Result<seq<byte>>)
    requires colors.Some? ==> IsColorList(img.pixels, colors.value)
    ensures r.Err? <==> PaletteBase(img, colors).Err?
    ensures r.Ok? ==> |r.value| == PALETTE_BASE_SIZE + |img.pixels|
  {
    var base :- PaletteBase(img, colors);
    Ok(base.0 + Indices(img.pixels, base.1))
  }

  method SavePalette(img: Picture, colors: Option<seq<Rgba>>) returns (r: Result<seq<byte>>)
    requires colors.Some? ==> IsColorList(img.pixels, colors.value)
    ensures r == PaletteFile(img, colors)
  {
    var base := PrepPaletteBase(img, colors);
    if base.Err? {
      return Err(base.error);
    }
    var (data, palette) := base.value;
    var ix := Indices(img.pixels, palette);
    var i := 0;
    while i < |img.pixels|
      invariant 0 <= i <= |img.pixels|
      invariant data == base.value.0 + ix[..i]
    {
      var index := IndexOf(palette, img.pixels[i]) as byte;
      data := data + [index];
      assert ix[..i + 1] == ix[..i] + [ix[i]];
      i := i + 1;
    }
    assert ix[..i] == ix;
    return Ok(data);
  }

  // ---------------------------------------------------------------------------
  // Run-length encoding

  /** What a run-length body must be for the index sequence xs: the single byte 0 the
      encoder starts from when there are no pixels, otherwise whole packets that decode
      to exactly xs. */
  ghost predicate RleEncodes(body: seq<byte>, xs: seq<byte>)
  {
    if xs == [] then body == [0] else DecodeRle(body) == Some(xs)
  }

  /** The indices consumed so far, split as the encoder sees them: `pre` is a run of
      whole packets and `pkt` the open packet, itself whole. */
  ghost predicate Encoded(pre: seq<byte>, pkt: seq<byte>, xs: seq<byte>)
  {
    pkt != [] && |pkt| == PacketSize(pkt) && DecodeRle(pre).Some?
    && DecodeRle(pre).value + PacketData(pkt) == xs
  }

  /** The encoder's state after at least one pixel: `out[hi]` is the head of the open
      packet. */
  ghost predicate EncoderState(out: seq<byte>, hi: nat, xs: seq<byte>)
  {
    hi < |out| && Encoded(out[..hi], out[hi..], xs)
  }

  lemma SinglePacket(s: seq<byte>)
    requires s != [] && PacketSize(s) == |s|
    ensures DecodeRle(s) == Some(PacketData(s))
  {
    DecodeRleStep(s);
    assert s[PacketSize(s)..] == [];
    assert PacketData(s) + [] == PacketData(s);
  }

  lemma EncodedDecodes(pre: seq<byte>, pkt: seq<byte>, xs: seq<byte>)
    requires Encoded(pre, pkt, xs)
    ensures DecodeRle(pre + pkt) == Some(xs)
  {
    SinglePacket(pkt);
    DecodeRleAppend(pre, pkt);
  }

  lemma EncoderStateDecodes(out: seq<byte>, hi: nat, xs: seq<byte>)
    requires EncoderState(out, hi, xs)
    ensures DecodeRle(out) == Some(xs)
  {
    EncodedDecodes(out[..hi], out[hi..], xs);
    SplitJoin(out, hi);
  }

  /** The shape of the open packet that the encoder's branches test. */
  lemma EncoderStateShape(out: seq<byte>, hi: nat, xs: seq<byte>)
    requires EncoderState(out, hi, xs)
    ensures hi + 2 <= |out|
    ensures IsRun(out[hi]) ==> |out| == hi + 2
    ensures !IsRun(out[hi]) ==> |out| == hi + 2 + out[hi]
  {
    assert out[hi..][0] == out[hi];
  }

  // Each encoder step, first on the two parts of the state, then on `out` itself.

  lemma ExtendRunParts(pre: seq<byte>, h: byte, x: byte, xs: seq<byte>)
    requires Encoded(pre, [h, x], xs) && IsRun(h) && h < 255
    ensures Encoded(pre, [h + 1, x], xs + [x])
  {
    var c := PacketCount(h);
    assert Repeat(x, c) + [x] == Repeat(x, c + 1);
    SeqAssoc(DecodeRle(pre).value, Repeat(x, c), [x]);
  }

  /** The "add to existing run packet" branch of `save_rl_palette_tga`: one more of the same index extends an open run packet. */
  lemma ExtendRun(out: seq<byte>, hi: nat, xs: seq<byte>, x: byte, out': seq<byte>, hi': nat)
    requires EncoderState(out, hi, xs) && IsRun(out[hi]) && out[hi] < 255 && out[|out| - 1] == x
    requires out' == out[hi := out[hi] + 1] && hi' == hi
    ensures EncoderState(out', hi', xs + [x])
  {
    EncoderStateShape(out, hi, xs);
    assert out[hi..] == [out[hi], x];
    assert out'[..hi] == out[..hi] && out'[hi..] == [out[hi] + 1, x];
    ExtendRunParts(out[..hi], out[hi], x, xs);
  }

  lemma RawOneToRunParts(pre: seq<byte>, x: byte, xs: seq<byte>)
    requires Encoded(pre, [0, x], xs)
    ensures Encoded(pre, [129, x], xs + [x])
  {
    assert PacketData([0, x]) == [x];
    assert Repeat(x, 2) == [x] + [x];
    SeqAssoc(DecodeRle(pre).value, [x], [x]);
  }

  /** The "empty raw packet" case of `save_rl_palette_tga`'s new-run branch: a raw packet holding one index equal to x becomes a run of two. */
  lemma RawOneToRun(out: seq<byte>, hi: nat, xs: seq<byte>, x: byte, out': seq<byte>, hi': nat)
    requires EncoderState(out, hi, xs) && out[hi] == 0 && out[|out| - 1] == x
    requires out' == out[hi := 129] && hi' == hi
    ensures EncoderState(out', hi', xs + [x])
  {
    EncoderStateShape(out, hi, xs);
    assert out[hi..] == [0, x];
    assert out'[..hi] == out[..hi] && out'[hi..] == [129, x];
    RawOneToRunParts(out[..hi], x, xs);
  }

  lemma SplitFullRunParts(pre: seq<byte>, x: byte, xs: seq<byte>)
    requires Encoded(pre, [255, x], xs)
    ensures Encoded(pre + [254, x], [129, x], xs + [x])
  {
    var done := DecodeRle(pre).value;
    assert DecodeRle(pre + [254, x]) == Some(done + Repeat(x, 127)) by {
      RunPacket(254, x);
      DecodeRleAppend(pre, [254, x]);
    }
    assert Repeat(x, 127) + Repeat(x, 2) == Repeat(x, 128) + [x];
    SeqAssoc(done, Repeat(x, 127), Repeat(x, 2));
    SeqAssoc(done, Repeat(x, 128), [x]);
  }

  /** The new-run branch of `save_rl_palette_tga` for a full run packet: it gives up one index, and the last index and
      x form a new run of two. */
  lemma SplitFullRun(out: seq<byte>, hi: nat, xs: seq<byte>, x: byte, out': seq<byte>, hi': nat)
    requires EncoderState(out, hi, xs) && out[hi] == 255 && out[|out| - 1] == x
    requires out' == (out[hi := 254] + [x])[hi + 2 := 129] + [x] && hi' == hi + 2
    ensures EncoderState(out', hi', xs + [x])
  {
    EncoderStateShape(out, hi, xs);
    assert out[hi..] == [255, x];
    assert out'[..hi + 2] == out[..hi] + [254, x];
    assert out'[hi + 2..] == [129, x];
    SplitFullRunParts(out[..hi], x, xs);
  }

  lemma SplitRawParts(pre: seq<byte>, h: byte, data: seq<byte>, x: byte, xs: seq<byte>)
    requires Encoded(pre, [h] + data, xs) && !IsRun(h) && h >= 1 && |data| == h + 1 && data[h] == x
    ensures Encoded(pre + ([h - 1] + data[..h]), [129, x], xs + [x])
  {
    var done := DecodeRle(pre).value;
    var lead := data[..h];
    assert done + data == xs by {
      var s := [h] + data;
      assert s[1..1 + |data|] == data;
    }
    assert DecodeRle(pre + ([h - 1] + lead)) == Some(done + lead) by {
      RawPacket(h - 1, lead);
      DecodeRleAppend(pre, [h - 1] + lead);
    }
    assert PacketData([129, x]) == [x, x];
    assert (done + lead) + [x, x] == xs + [x] by {
      assert data == lead + [x];
      assert lead + [x, x] == data + [x];
      SeqAssoc(done, lead, [x, x]);
      SeqAssoc(done, data, [x]);
    }
  }

  /** The new-run branch of `save_rl_palette_tga` for a raw packet of two or more ending in x: its last index leaves
      it and becomes, with x, a new run of two. */
  lemma SplitRaw(out: seq<byte>, hi: nat, xs: seq<byte>, x: byte, out': seq<byte>, hi': nat)
    requires EncoderState(out, hi, xs) && !IsRun(out[hi]) && out[hi] >= 1 && out[|out| - 1] == x
    requires out' == out[hi := out[hi] - 1][|out| - 1 := 129] + [x] && hi' == |out| - 1
    ensures EncoderState(out', hi', xs + [x])
  {
    EncoderStateShape(out, hi, xs);
    var h := out[hi];
    var last := |out| - 1;
    var data := out[hi + 1..];
    assert out[hi..] == [h] + data;
    assert out'[..last] == out[..hi] + ([h - 1] + data[..h]);
    assert out'[last..] == [129, x];
    SplitRawParts(out[..hi], h, data, x, xs);
  }

  lemma ExtendRawParts(pre: seq<byte>, h: byte, data: seq<byte>, x: byte, xs: seq<byte>)
    requires Encoded(pre, [h] + data, xs) && h < 127
    ensures Encoded(pre, [h + 1] + (data + [x]), xs + [x])
  {
    assert PacketData([h] + data) == data;
    assert PacketData([h + 1] + (data + [x])) == data + [x];
    SeqAssoc(DecodeRle(pre).value, data, [x]);
  }

  /** The "add to existing raw packet" branch of `save_rl_palette_tga`: x joins an open raw packet that has room. */
  lemma ExtendRaw(out: seq<byte>, hi: nat, xs: seq<byte>, x: byte, out': seq<byte>, hi': nat)
    requires EncoderState(out, hi, xs) && out[hi] < 127
    requires out' == (out + [x])[hi := out[hi] + 1] && hi' == hi
    ensures EncoderState(out', hi', xs + [x])
  {
    var h := out[hi];
    var data := out[hi + 1..];
    assert out[hi..] == [h] + data;
    assert out'[..hi] == out[..hi];
    assert out'[hi..] == [h + 1] + (data + [x]);
    ExtendRawParts(out[..hi], h, data, x, xs);
  }

  /** The "start new raw packet" branch of `save_rl_palette_tga`: x opens a new raw packet of one after the current packet. */
  lemma NewRaw(out: seq<byte>, hi: nat, xs: seq<byte>, x: byte, out': seq<byte>, hi': nat)
    requires EncoderState(out, hi, xs)
    requires out' == out + [0] + [x] && hi' == |out|
    ensures EncoderState(out', hi', xs + [x])
  {
    assert out'[..|out|] == out;
    assert out'[|out|..] == [0, x];
    EncoderStateDecodes(out, hi, xs);
    assert PacketData([0, x]) == [x];
  }

  /** The first-index branch of `save_rl_palette_tga`: the first index opens a raw packet of one. */
  lemma FirstIndex(x: byte, xs: seq<byte>, out: seq<byte>, hi: nat)
    requires xs == [] && out == [0] + [x] && hi == 0
    ensures EncoderState(out, hi, xs + [x])
  {
    assert out == [0, x] && xs + [x] == [x];
    assert out[..0] == [] && out[0..] == out;
    assert PacketData(out) == [x];
  }

  /** One pass of the image-data loop of `save_rl_palette_tga` for the
      palette index x: a packet head is patched in place as its packet grows, a repeated
      index turns into a run packet of up to 128, and other indices are gathered into
      raw packets of up to 128. */
  method AppendIndex(out: seq<byte>, hi: nat, x: byte, ghost xs: seq<byte>) returns (out': seq<byte>, hi': nat)
    requires (xs == [] && out == [0] && hi == 0) || (xs != [] && EncoderState(out, hi, xs))
    ensures EncoderState(out', hi', xs + [x])
  {
    if xs != [] {
      EncoderStateShape(out, hi, xs);
    }
    out', hi' := out, hi;
    var head := out'[hi'];
    if |out'| == 1 {
      out' := out' + [x];
      FirstIndex(x, xs, out', hi');
    } else if IsRun(head) && x == out'[|out'| - 1] && head < 255 {
      out' := out'[hi' := head + 1];
      ExtendRun(out, hi, xs, x, out', hi');
    } else if out'[|out'| - 1] == x && hi' != |out'| - 1 {
      if head == 0 {
        out' := out'[hi' := 129];
        RawOneToRun(out, hi, xs, x, out', hi');
      } else {
        out' := out'[hi' := head - 1];
        if hi' == |out'| - 2 {
          out' := out' + [x];
        }
        hi' := |out'| - 1;
        out' := out'[hi' := 129];
        out' := out' + [x];
        if IsRun(head) {
          SplitFullRun(out, hi, xs, x, out', hi');
        } else {
          SplitRaw(out, hi, xs, x, out', hi');
        }
      }
    } else if head < 127 {
      out' := out' + [x];
      out' := out'[hi' := out'[hi'] + 1];
      ExtendRaw(out, hi, xs, x, out', hi');
    } else {
      out' := out' + [0];
      out' := out' + [x];
      hi' := |out'| - 2;
      NewRaw(out, hi, xs, x, out', hi');
    }
  }

  /** The image data of `save_rl_palette_tga`: starting from the single
      byte 0, each pixel's palette index is appended to the packets. */
  method RleEncode(pixels: seq<Rgba>, palette: seq<Rgba>) returns (out: seq<byte>)
    requires |palette| <= PALETTE_SIZE
    requires forall k :: 0 <= k < |pixels| ==> pixels[k] in palette
    ensures RleEncodes(out, Indices(pixels, palette))
  {
    ghost var ix := Indices(pixels, palette);
    out := [0];
    var hi: nat := 0;
    var i := 0;
    while i < |pixels|
      invariant 0 <= i <= |pixels|
      invariant i == 0 ==> out == [0] && hi == 0
      invariant i > 0 ==> EncoderState(out, hi, ix[..i])
    {
      var index := IndexOf(palette, pixels[i]) as byte;
      assert ix[..i + 1] == ix[..i] + [index];
      out, hi := AppendIndex(out, hi, index, ix[..i]);
      i := i + 1;
    }
    if i > 0 {
      assert ix[..i] == ix;
      EncoderStateDecodes(out, hi, ix);
    }
  }

  /** The header of a type-9 file: the palette base with the image type patched to 9
      by `save_rl_palette_tga`. */
  lemma RetypeToRle(width: nat, height: nat, palette: seq<Rgba>)
    requires Fits16(width) && Fits16(height)
    ensures (PaletteHeader(width, height, TYPE_COLOR_MAPPED, PALETTE_SIZE) + ZeppId(width) + BgraBytes(palette))
              [2 := TYPE_RLE_COLOR_MAPPED]
            == PaletteHeader(width, height, TYPE_RLE_COLOR_MAPPED, PALETTE_SIZE) + ZeppId(width) + BgraBytes(palette)
  {
  }

  /** What a file written by `save_rl_palette_tga` is: the type-9 palette base followed
      by a run-length body for the pixels' palette indices. */
  ghost predicate IsRlPaletteFile(img: Picture, palette: seq<Rgba>, f: seq<byte>)
  {
    Fits16(img.width) && Fits16(img.height)
    && |palette| == PALETTE_SIZE && (forall k :: 0 <= k < |img.pixels| ==> img.pixels[k] in palette)
    && |f| >= PALETTE_BASE_SIZE
    && f[..PALETTE_BASE_SIZE] == PaletteHeader(img.width, img.height, TYPE_RLE_COLOR_MAPPED, PALETTE_SIZE)
                                 + ZeppId(img.width) + BgraBytes(palette)
    && RleEncodes(f[PALETTE_BASE_SIZE..], Indices(img.pixels, palette))
  }

  method SaveRlPalette(img: Picture, colors: Option<seq<Rgba>>) returns (r: Result<seq<byte>>)
    requires colors.Some? ==> IsColorList(img.pixels, colors.value)
    ensures r.Err? <==> PaletteBase(img, colors).Err?
    ensures r.Err? ==> r.error == PaletteBase(img, colors).error
    ensures r.Ok? ==> IsRlPaletteFile(img, PadPalette(colors.value), r.value)
  {
    var base := PrepPaletteBase(img, colors);
    if base.Err? {
      return Err(base.error);
    }
    var (data, palette) := base.value;
    RetypeToRle(img.width, img.height, palette);
    data := data[2 := TYPE_RLE_COLOR_MAPPED];
    PaddedHoldsColors(img.pixels, colors.value);
    var out := RleEncode(img.pixels, palette);
    ConcatParts(data, out);
    return Ok(data + out);
  }
}

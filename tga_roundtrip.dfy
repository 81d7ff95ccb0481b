/** What the writers of TgaSave and the readers of TgaLoad promise each other: a file
    written by `save_palette_tga`, `save_rl_palette_tga` or `save_truecolor_tga` reads
    back as the image that was written (16-bit colour only up to RGB565 precision). */
module TgaRoundTrip {
  import opened Bytes
  import opened TgaFormat
  import opened TgaSave
  import opened TgaLoad

  // ---------------------------------------------------------------------------
  // Reading the parts of a written file

  /** A file that starts with an 18-byte header announcing a 46-byte ID: the loaders'
      first two reads return the header and the ID, and the rest starts at byte 64. */
  lemma HeadAndId(h: seq<byte>, id: seq<byte>, body: seq<byte>)
    requires |h| == HEADER_SIZE && |id| == ID_SIZE && h[0] == ID_SIZE
    ensures Read(h + id + body, 0, HEADER_SIZE) == (h, HEADER_SIZE)
    ensures Read(h + id + body, HEADER_SIZE, h[0]) == (id, HEADER_SIZE + ID_SIZE)
    ensures (h + id + body)[HEADER_SIZE + ID_SIZE..] == body
  {
    var f := h + id + body;
    assert f[..HEADER_SIZE] == h;
    assert f[HEADER_SIZE..HEADER_SIZE + ID_SIZE] == id;
  }

  /** The last read of a loader: whatever is left after the prefix. */
  lemma ReadRest(prefix: seq<byte>, body: seq<byte>)
    ensures Read(prefix + body, |prefix|, |body|) == (body, |prefix| + |body|)
  {
    var f := prefix + body;
    assert f[|prefix|..|f|] == body;
  }

  lemma AppendEmpty(s: seq<byte>)
    ensures s + [] == s && [] + s == s
  {
  }

  // ---------------------------------------------------------------------------
  // Colour-mapped files

  /** Converting the loaded "P" image back to RGBA gives the written picture: each
      pixel's index names its own colour in the palette. */
  lemma {:induction false} ToRgbaOfIndices(img: Picture, palette: seq<Rgba>)
    requires |palette| <= PALETTE_SIZE && forall k :: 0 <= k < |img.pixels| ==> img.pixels[k] in palette
    ensures var loaded := IndexedImage(img.width, img.height, RgbaBytes(palette), Indices(img.pixels, palette));
            IndicesInPalette(loaded) && ToRgba(loaded) == img
  {
    var ix := Indices(img.pixels, palette);
    var loaded := IndexedImage(img.width, img.height, RgbaBytes(palette), ix);
    assert IndicesInPalette(loaded);
    var out := ToRgba(loaded);
    forall k | 0 <= k < |img.pixels|
      ensures out.pixels[k] == img.pixels[k]
    {
      PaletteColorOfRgbaBytes(palette, ix[k]);
    }
  }

  /** The palette base of a written colour-mapped file (type 1 or 9), whatever follows
      it: the header passes the checks, the ID is read whole, and the 256 entries come
      back as R,G,B,A, leaving the read position at the body. */
  lemma PaletteBaseReads(width: nat, height: nat, typeCode: byte, palette: seq<Rgba>, body: seq<byte>)
    requires Fits16(width) && Fits16(height) && |palette| == PALETTE_SIZE
    ensures var h := PaletteHeader(width, height, typeCode, PALETTE_SIZE);
            var f := h + ZeppId(width) + BgraBytes(palette) + body;
            && Read(f, 0, HEADER_SIZE) == (h, HEADER_SIZE)
            && CheckHeader(h, 1, typeCode, true).None?
            && Read(f, HEADER_SIZE, h[0]) == (ZeppId(width), HEADER_SIZE + ID_SIZE)
            && ParseHeader(h) == (PALETTE_SIZE, width, height)
            && ReadPalette(f, HEADER_SIZE + ID_SIZE, PALETTE_SIZE, false) == Ok((RgbaBytes(palette), PALETTE_BASE_SIZE))
            && f[PALETTE_BASE_SIZE..] == body
  {
    var h := PaletteHeader(width, height, typeCode, PALETTE_SIZE);
    var id := ZeppId(width);
    var b := BgraBytes(palette);
    var f := h + id + b + body;
    SeqAssoc(h + id, b, body);
    HeadAndId(h, id, b + body);
    ParseHeaderOfPaletteHeader(width, height, typeCode, PALETTE_SIZE);
    PaletteEntriesOfBgra(palette, body);
    SuffixOfSuffix(f, HEADER_SIZE + ID_SIZE, 4 * PALETTE_SIZE);
    ConcatParts(b, body);
  }

  /** A type-1 file written for a picture and its colour list loads as the picture's
      indices over the padded palette, given to PIL as R,G,B,A. */
  lemma PaletteFileLoads(img: Picture, colors: seq<Rgba>)
    requires IsColorList(img.pixels, colors) && Fits16(img.width) && Fits16(img.height)
    ensures PaletteFile(img, Some(colors)).Ok?
    ensures var palette := PadPalette(colors);
            PaletteImage(PaletteFile(img, Some(colors)).value, false)
              == Ok(IndexedImage(img.width, img.height, RgbaBytes(palette), Indices(img.pixels, palette)))
  {
    var palette := PadPalette(colors);
    PaddedHoldsColors(img.pixels, colors);
    var h := PaletteHeader(img.width, img.height, TYPE_COLOR_MAPPED, PALETTE_SIZE);
    var id := ZeppId(img.width);
    var b := BgraBytes(palette);
    var ix := Indices(img.pixels, palette);
    var f := PaletteFile(img, Some(colors)).value;
    assert f == h + id + b + ix;
    PaletteBaseReads(img.width, img.height, TYPE_COLOR_MAPPED, palette, ix);
    ReadRest(h + id + b, ix);
    AppendEmpty(ix);
    ApplyZeppIdOfWriter(IndexedImage(img.width, img.height, RgbaBytes(palette), ix));
  }

  /** save_palette_tga then load_palette_tga: the same picture. */
  lemma PaletteRoundTrip(img: Picture, colors: seq<Rgba>)
    requires IsColorList(img.pixels, colors) && Fits16(img.width) && Fits16(img.height)
    ensures PaletteFile(img, Some(colors)).Ok?
    ensures var r := PaletteImage(PaletteFile(img, Some(colors)).value, false);
            r.Ok? && |r.value.indices| == Area(img.width, img.height) && IndicesInPalette(r.value)
            && ToRgba(r.value) == img
  {
    PaletteFileLoads(img, colors);
    PaddedHoldsColors(img.pixels, colors);
    ToRgbaOfIndices(img, PadPalette(colors));
  }

  /** Any file save_rl_palette_tga may write loads, through the packet reader, as the
      picture's indices over its palette. */
  lemma RlPaletteFileLoads(img: Picture, palette: seq<Rgba>, f: seq<byte>)
    requires IsRlPaletteFile(img, palette, f)
    ensures RlPaletteImage(f, false)
              == Ok(IndexedImage(img.width, img.height, RgbaBytes(palette), Indices(img.pixels, palette)))
  {
    var ix := Indices(img.pixels, palette);
    var body := f[PALETTE_BASE_SIZE..];
    assert f == PaletteHeader(img.width, img.height, TYPE_RLE_COLOR_MAPPED, PALETTE_SIZE)
                + ZeppId(img.width) + BgraBytes(palette) + body by {
      SplitJoin(f, PALETTE_BASE_SIZE);
    }
    PaletteBaseReads(img.width, img.height, TYPE_RLE_COLOR_MAPPED, palette, body);
    BodyUnpacks(body, ix);
    AppendEmpty(ix);
  }

  /** The packet reader, asked for as many indices as were encoded, gets them all. */
  lemma BodyUnpacks(body: seq<byte>, xs: seq<byte>)
    requires RleEncodes(body, xs)
    ensures UnpackRle(body, |xs|, []) == Ok(xs)
  {
    if xs != [] {
      AppendEmpty(body);
      AppendEmpty(xs);
      UnpackRleOfDecoded(body, [], []);
    }
  }

  /** save_rl_palette_tga then load_rl_palette_tga: the same picture. */
  lemma RlPaletteRoundTrip(img: Picture, palette: seq<Rgba>, f: seq<byte>)
    requires IsRlPaletteFile(img, palette, f)
    ensures var r := RlPaletteImage(f, false);
            r.Ok? && |r.value.indices| == Area(img.width, img.height) && IndicesInPalette(r.value)
            && ToRgba(r.value) == img
  {
    RlPaletteFileLoads(img, palette, f);
    ToRgbaOfIndices(img, palette);
  }

  // ---------------------------------------------------------------------------
  // True-colour files

  /** The header of a written true-colour file passes the loader's checks and gives back
      the size and the depth. */
  lemma TruecolorHeaderReads(width: nat, height: nat, depth: byte)
    requires Fits16(width) && Fits16(height)
    ensures var h := TruecolorHeader(width, height, depth);
            CheckHeader(h, 0, TYPE_TRUE_COLOR, false).None? && h[16] == depth
            && FromLe(Slice(h, 12, 14)) == width && FromLe(Slice(h, 14, 16)) == height
  {
  }

  /** save_truecolor_tga at 32 bits then load_truecolor_tga: the same picture. */
  lemma Truecolor32RoundTrip(img: Picture)
    requires Fits16(img.width) && Fits16(img.height)
    ensures TruecolorFile(img, 32).Ok?
    ensures TruecolorImage(TruecolorFile(img, 32).value, false) == Ok((img, TAG_32))
  {
    var h := TruecolorHeader(img.width, img.height, 32);
    var id := ZeppId(img.width);
    var b := BgraBytes(img.pixels);
    assert TruecolorFile(img, 32).value == h + id + b;
    HeadAndId(h, id, b);
    TruecolorHeaderReads(img.width, img.height, 32);
    AppendEmpty(b);
    Pixels32OfBgra(img.pixels, []);
  }

  /** save_truecolor_tga at 16 bits then load_truecolor_tga: the picture with each
      channel cut to RGB565 precision and alpha 255. */
  lemma Truecolor16RoundTrip(img: Picture)
    requires Fits16(img.width) && Fits16(img.height)
    ensures TruecolorFile(img, 16).Ok?
    ensures TruecolorImage(TruecolorFile(img, 16).value, false)
              == Ok((Image(img.width, img.height, Quantized(img.pixels)), TAG_16))
  {
    var h := TruecolorHeader(img.width, img.height, 16);
    var id := ZeppId(img.width);
    var b := Rgb565Bytes(img.pixels);
    assert TruecolorFile(img, 16).value == h + id + b;
    HeadAndId(h, id, b);
    TruecolorHeaderReads(img.width, img.height, 16);
    AppendEmpty(b);
    Pixels565OfRgb565(img.pixels, []);
  }
}

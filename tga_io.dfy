/** The legacy writer and reader of tga_io.py. `save_tga` writes a colour-mapped file
    in mode 0 and a 16-bit true-colour file in mode 16 with one header layout for both;
    `load_tga` picks a reader by image type. Its two private readers repeat the legacy
    tga_load.py readers line for line and are modelled by TgaLoadLegacy. */
module TgaIo {
  import opened Bytes
  import opened TgaFormat
  import TgaSave
  import TgaLoad
  import TgaLoadLegacy
  import TgaRoundTrip

  // ---------------------------------------------------------------------------
  // save_tga

  /** The header `save_tga` builds: colour map, image type, entry size and pixel size
      depend on whether the mode is 0. */
  function ModeHeader(mode: byte, paletteLength: nat, width: nat, height: nat): (h: seq<byte>)
    requires Fits16(paletteLength) && Fits16(width) && Fits16(height)
    ensures |h| == HEADER_SIZE
  {
    [ID_SIZE as byte, if mode == 0 then 1 else 0, if mode == 0 then TYPE_COLOR_MAPPED else TYPE_TRUE_COLOR, 0, 0]
    + Le16(paletteLength) + [if mode == 0 then 32 else 0, 0, 0, 0, 0]
    + Le16(width) + Le16(height) + [if mode == 0 then 8 else mode, 32]
  }

  /** In mode 0 the header is the zmake colour-mapped header with 256 entries; in any
      other mode it is the zmake true-colour header with the mode as depth. */
  lemma ModeHeaderIsZmakeHeader(mode: byte, paletteLength: nat, width: nat, height: nat)
    requires Fits16(width) && Fits16(height)
    requires paletteLength == if mode == 0 then PALETTE_SIZE else 0
    ensures mode == 0 ==> ModeHeader(mode, paletteLength, width, height)
                            == PaletteHeader(width, height, TYPE_COLOR_MAPPED, PALETTE_SIZE)
    ensures mode != 0 ==> ModeHeader(mode, paletteLength, width, height) == TruecolorHeader(width, height, mode)
  {
    if mode != 0 {
      assert Le16(0) == [0, 0];
    }
  }

  /** What `save_tga` writes, or the exception it raises: a mode-0 image PIL cannot list
      the colours of fails the assertion; a dimension of 65536 or more overflows
      `to_bytes(2)`; a mode outside 0..255 fails `bytearray.append`. Mode 0 writes a
      palette and one index per pixel, mode 16 two RGB565 bytes per pixel, and any other
      mode only the header and the ID. */
  function TgaFile(img: Picture, mode: int, colors: Option<seq<Rgba>>): (r: Result<seq<byte>>)
    requires mode == 0 && colors.Some? ==> IsColorList(img.pixels, colors.value)
    ensures mode == 0 && colors.None? ==> r == Err(AssertionError)
    ensures !(mode == 0 && colors.None?) && (!Fits16(img.width) || !Fits16(img.height)) ==> r == Err(OverflowError)
    ensures r.Err? <==> (mode == 0 && colors.None?) || !Fits16(img.width) || !Fits16(img.height) || !(0 <= mode < 256)
    ensures r.Ok? ==> |r.value| == HEADER_SIZE + ID_SIZE
                        + (if mode == 0 then 4 * PALETTE_SIZE + |img.pixels| else if mode == 16 then 2 * |img.pixels| else 0)
    ensures r.Ok? ==> r.value[2] == (if mode == 0 then TYPE_COLOR_MAPPED else TYPE_TRUE_COLOR)
                      && r.value[16] == (if mode == 0 then 8 else mode)
  {
    if mode == 0 && colors.None? then Err(AssertionError)
    else if !Fits16(img.width) || !Fits16(img.height) then Err(OverflowError)
    else if !(0 <= mode < 256) then Err(ValueError)
    else
      var palette := if mode == 0 then PadPalette(colors.value) else [];
      var base := ModeHeader(mode as byte, |palette|, img.width, img.height) + ZeppId(img.width) + BgraBytes(palette);
      if mode == 0 then
        PaddedHoldsColors(img.pixels, colors.value);
        Ok(base + Indices(img.pixels, palette))
      else if mode == 16 then Ok(base + Rgb565Bytes(img.pixels))
      else Ok(base)
  }

  /** Mode 0 writes exactly what the zmake colour-mapped writer writes. */
  lemma Mode0IsPaletteFile(img: Picture, colors: Option<seq<Rgba>>)
    requires colors.Some? ==> IsColorList(img.pixels, colors.value)
    ensures TgaFile(img, 0, colors) == TgaSave.PaletteFile(img, colors)
  {
    if colors.Some? && Fits16(img.width) && Fits16(img.height) {
      ModeHeaderIsZmakeHeader(0, PALETTE_SIZE, img.width, img.height);
    }
  }

  /** Mode 16 writes exactly what the zmake true-colour writer writes at depth 16. */
  lemma Mode16IsTruecolorFile(img: Picture, colors: Option<seq<Rgba>>)
    ensures TgaFile(img, 16, colors) == TgaSave.TruecolorFile(img, 16)
  {
    if Fits16(img.width) && Fits16(img.height) {
      var id, body := ZeppId(img.width), Rgb565Bytes(img.pixels);
      var h := TruecolorHeader(img.width, img.height, 16);
      assert TgaFile(img, 16, colors) == Ok(ModeHeader(16, 0, img.width, img.height) + id + BgraBytes([]) + body);
      ModeHeaderIsZmakeHeader(16, 0, img.width, img.height);
      assert BgraBytes([]) == [];
      TgaRoundTrip.AppendEmpty(h + id);
      assert TgaSave.TruecolorFile(img, 16) == Ok(h + id + body);
    }
  }

  /** Any other mode in 1..255 writes the true-colour header with the mode as depth and
      the ID, 64 bytes without pixels. */
  lemma OtherModeWritesNoPixels(img: Picture, mode: int, colors: Option<seq<Rgba>>)
    requires mode != 0 && mode != 16
    ensures TgaFile(img, mode, colors).Err? <==> !Fits16(img.width) || !Fits16(img.height) || !(0 <= mode < 256)
    ensures TgaFile(img, mode, colors).Ok? ==>
              TgaFile(img, mode, colors).value == TruecolorHeader(img.width, img.height, mode as byte) + ZeppId(img.width)
              && |TgaFile(img, mode, colors).value| == HEADER_SIZE + ID_SIZE
  {
    if Fits16(img.width) && Fits16(img.height) && 0 <= mode < 256 {
      ModeHeaderIsZmakeHeader(mode as byte, 0, img.width, img.height);
      assert BgraBytes([]) == [];
    }
  }

  /** The pixel loop of `save_tga`: an index per pixel in mode 0, two RGB565 bytes in
      mode 16, nothing otherwise. */
  method AppendPixels(data: seq<byte>, pixels: seq<Rgba>, mode: byte, palette: seq<Rgba>) returns (out: seq<byte>)
    requires mode == 0 ==> |palette| <= PALETTE_SIZE && forall k :: 0 <= k < |pixels| ==> pixels[k] in palette
    ensures mode == 0 ==> out == data + Indices(pixels, palette)
    ensures mode == 16 ==> out == data + Rgb565Bytes(pixels)
    ensures mode != 0 && mode != 16 ==> out == data
  {
    if mode == 16 {
      out := TgaSave.AppendRgb565(data, pixels);
      return;
    }
    out := data;
    ghost var ix := if mode == 0 then Indices(pixels, palette) else [];
    for i := 0 to |pixels|
      invariant mode == 0 ==> out == data + ix[..i]
      invariant mode != 0 ==> out == data
    {
      if mode == 0 {
        var index := IndexOf(palette, pixels[i]) as byte;
        out := out + [index];
        assert ix[..i + 1] == ix[..i] + [ix[i]];
      }
    }
    if mode == 0 {
      assert ix[..|pixels|] == ix;
    }
  }

  method SaveTga(img: Picture, mode: int, colors: Option<seq<Rgba>>) returns (r: Result<seq<byte>>)
    requires mode == 0 && colors.Some? ==> IsColorList(img.pixels, colors.value)
    ensures r == TgaFile(img, mode, colors)
  {
    var palette: seq<Rgba> := [];
    if mode == 0 {
      if colors.None? {
        return Err(AssertionError);
      }
      var cs := colors.value;
      for i := 0 to |cs|
        invariant palette == cs[..i]
      {
        palette := palette + [cs[i]];
      }
      assert cs[..|cs|] == cs;
      while |palette| < PALETTE_SIZE
        invariant |cs| <= |palette| <= PALETTE_SIZE
        invariant palette == cs + seq(|palette| - |cs|, _ => PAD_COLOR)
        decreases PALETTE_SIZE - |palette|
      {
        palette := palette + [PAD_COLOR];
      }
      assert palette == PadPalette(cs);
      PaddedHoldsColors(img.pixels, cs);
    }
    if !Fits16(img.width) || !Fits16(img.height) {
      return Err(OverflowError);
    }
    if !(0 <= mode < 256) {
      return Err(ValueError);
    }
    var data := ModeHeader(mode as byte, |palette|, img.width, img.height);
    var id := ZEPP_MAGIC + Le16(img.width) + Zeros(40);
    data := data + id;
    data := TgaSave.AppendBgra(data, palette);
    data := AppendPixels(data, img.pixels, mode as byte, palette);
    return Ok(data);
  }

  // ---------------------------------------------------------------------------
  // load_tga

  /** The image `load_tga` returns: RGB from the true-colour reader, "P" from the
      colour-mapped reader. */
  datatype Loaded = Truecolor(rgb: RgbImage) | Indexed(indexed: IndexedImage)

  /** `load_tga`: byte 2 of the header picks the reader; a header of fewer than three
      bytes is an IndexError and any other image type "Not supported". */
  function TgaImage(f: seq<byte>): (r: Result<Loaded>)
    ensures |f| < 3 ==> r == Err(IndexError)
    ensures |f| >= 3 && f[2] != TYPE_TRUE_COLOR && f[2] != TYPE_COLOR_MAPPED ==> r == Err(ValueError)
    ensures |f| >= 3 && f[2] == TYPE_TRUE_COLOR ==>
              (r.Ok? <==> TgaLoadLegacy.TruecolorImage(f).Ok?)
              && (r.Ok? ==> r.value == Truecolor(TgaLoadLegacy.TruecolorImage(f).value))
              && (r.Err? ==> r.error == TgaLoadLegacy.TruecolorImage(f).error)
    ensures |f| >= 3 && f[2] == TYPE_COLOR_MAPPED ==>
              (r.Ok? <==> TgaLoadLegacy.PaletteImage(f).Ok?)
              && (r.Ok? ==> r.value == Indexed(TgaLoadLegacy.PaletteImage(f).value))
              && (r.Err? ==> r.error == TgaLoadLegacy.PaletteImage(f).error)
    ensures var header := Read(f, 0, HEADER_SIZE).0;
            (|f| >= 3 && f[2] == TYPE_COLOR_MAPPED && TgaLoad.CheckHeader(header, 1, TYPE_COLOR_MAPPED, true).None?
             && TgaLoad.ParseHeader(header).0 > PALETTE_SIZE) ==> r == Err(ValueError)
  {
    var header := Read(f, 0, HEADER_SIZE).0;
    if |header| < 3 then Err(IndexError)
    else if header[2] == TYPE_TRUE_COLOR then
      var img :- TgaLoadLegacy.TruecolorImage(f);
      Ok(Truecolor(img))
    else if header[2] == TYPE_COLOR_MAPPED then
      var img :- TgaLoadLegacy.PaletteImage(f);
      Ok(Indexed(img))
    else Err(ValueError)
  }

  method LoadTga(f: seq<byte>) returns (r: Result<Loaded>)
    ensures r == TgaImage(f)
  {
    var (header, _) := Read(f, 0, HEADER_SIZE);
    if |header| < 3 {
      return Err(IndexError);
    }
    if header[2] == TYPE_TRUE_COLOR {
      var img :- TgaLoadLegacy.LoadTruecolor(f);
      return Ok(Truecolor(img));
    } else if header[2] == TYPE_COLOR_MAPPED {
      var img :- TgaLoadLegacy.LoadPalette(f);
      return Ok(Indexed(img));
    }
    return Err(ValueError);
  }

  // ---------------------------------------------------------------------------
  // Round trips

  /** A mode-0 file reads back as the picture's indices over the padded palette. */
  lemma Mode0RoundTrip(img: Picture, colors: seq<Rgba>)
    requires IsColorList(img.pixels, colors) && Fits16(img.width) && Fits16(img.height)
    ensures TgaFile(img, 0, Some(colors)).Ok?
    ensures var palette := PadPalette(colors);
            TgaImage(TgaFile(img, 0, Some(colors)).value)
              == Ok(Indexed(IndexedImage(img.width, img.height, RgbaBytes(palette), Indices(img.pixels, palette))))
  {
    var palette := PadPalette(colors);
    PaddedHoldsColors(img.pixels, colors);
    Mode0IsPaletteFile(img, Some(colors));
    var ix := Indices(img.pixels, palette);
    var h := PaletteHeader(img.width, img.height, TYPE_COLOR_MAPPED, PALETTE_SIZE);
    var f := TgaFile(img, 0, Some(colors)).value;
    assert f == h + ZeppId(img.width) + BgraBytes(palette) + ix;
    TgaRoundTrip.PaletteBaseReads(img.width, img.height, TYPE_COLOR_MAPPED, palette, ix);
    TgaLoadLegacy.ParseHeaderOfPaletteHeader(img.width, img.height, TYPE_COLOR_MAPPED, PALETTE_SIZE);
    TgaRoundTrip.ReadRest(h + ZeppId(img.width) + BgraBytes(palette), ix);
    TgaRoundTrip.AppendEmpty(ix);
  }

  /** A mode-16 file reads back as the picture cut to RGB565 precision, without alpha. */
  lemma Mode16RoundTrip(img: Picture)
    requires Fits16(img.width) && Fits16(img.height)
    ensures TgaFile(img, 16, None).Ok?
    ensures TgaImage(TgaFile(img, 16, None).value)
              == Ok(Truecolor(RgbImage(img.width, img.height, TgaLoadLegacy.DropAlphas(Quantized(img.pixels)))))
  {
    Mode16IsTruecolorFile(img, None);
    var f := TgaFile(img, 16, None).value;
    TgaRoundTrip.Truecolor16RoundTrip(img);
    TgaLoadLegacy.TruecolorAgrees(f);
    TgaRoundTrip.TruecolorHeaderReads(img.width, img.height, 16);
    assert f[..HEADER_SIZE] == TruecolorHeader(img.width, img.height, 16);
  }
}

/** The format dispatch of zmake/image_io.py: a file's first four bytes decide between
    PNG and the three TGA image types, and a format tag decides which writer runs. */
module ImageIo {
  import opened Bytes
  import opened TgaFormat
  import opened TgaSave
  import opened TgaLoad
  import TgaRoundTrip

  /** `b"\211PNG"` */
  const PNG_SIGNATURE: seq<byte> := [0x89, 0x50, 0x4E, 0x47]

  const TAG_PNG := "PNG"
  const TAG_P := "TGA-P"
  const TAG_RLP := "TGA-RLP"
  const TAG_NA := "N/A"

  /** The tags `save_auto` knows. */
  predicate IsSaveTag(tag: string)
  {
    tag == TAG_PNG || tag == TAG_P || tag == TAG_16 || tag == TAG_32 || tag == TAG_RLP
  }

  /** The first four bytes of a file, fewer when it is shorter. */
  function Head(f: seq<byte>): (h: seq<byte>)
    ensures h == f[..Min(4, |f|)]
  {
    Read(f, 0, 4).0
  }

  /** The tag of a TGA image-type byte: 2 is reported as 16-bit whatever the depth. */
  function TgaTag(typeCode: byte): Option<string>
  {
    if typeCode == TYPE_TRUE_COLOR then Some(TAG_16)
    else if typeCode == TYPE_COLOR_MAPPED then Some(TAG_P)
    else if typeCode == TYPE_RLE_COLOR_MAPPED then Some(TAG_RLP)
    else None
  }

  // ---------------------------------------------------------------------------
  // get_format

  /** What `get_format` returns as written: a tag, except that an unknown header gives
      the pair `(None, "N/A")`. */
  datatype Format = Tag(tag: string) | NoneAndTag(second: string)

  function GetFormatAsWritten(f: seq<byte>): (r: Result<Format>)
    ensures r.Ok? && r.value.NoneAndTag? <==>
              Head(f) != PNG_SIGNATURE && |f| > 2 && TgaTag(f[2]).None?
  {
    var header := Head(f);
    if header == PNG_SIGNATURE then Ok(Tag(TAG_PNG))
    else if |header| <= 2 then Err(IndexError)
    else match TgaTag(header[2])
      case Some(tag) => Ok(Tag(tag))
      case None => Ok(NoneAndTag(TAG_NA))
  }

  /** `get_format` as evidently intended: the plain tag "N/A" for an unknown header, as
      its caller compares it. Otherwise the same as written. A file of fewer than three
      bytes that is not PNG fails on `header[2]`. */
  function GetFormat(f: seq<byte>): (r: Result<string>)
    ensures r.Err? <==> GetFormatAsWritten(f).Err?
    ensures r.Ok? && r.value != TAG_NA ==> GetFormatAsWritten(f) == Ok(Tag(r.value))
    ensures r == Ok(TAG_NA) <==> GetFormatAsWritten(f) == Ok(NoneAndTag(TAG_NA))
    ensures r == Ok(TAG_PNG) <==> Head(f) == PNG_SIGNATURE
    ensures r.Err? ==> r.error == IndexError && |f| <= 2
  {
    match GetFormatAsWritten(f)
    case Err(e) => Err(e)
    case Ok(Tag(tag)) => Ok(tag)
    case Ok(NoneAndTag(_)) => Ok(TAG_NA)
  }

  /** A file that starts like a TGA header (byte 0 is the 46-byte ID length) is not a
      PNG, and its image type decides its tag. */
  lemma FormatOfTga(f: seq<byte>)
    requires |f| > 2 && f[0] == ID_SIZE
    ensures Head(f) != PNG_SIGNATURE
    ensures GetFormat(f) == Ok(if TgaTag(f[2]).Some? then TgaTag(f[2]).value else TAG_NA)
  {
    assert Head(f)[0] != PNG_SIGNATURE[0];
  }

  /** A colour-mapped file written by zmake is recognised as "TGA-P". */
  lemma FormatOfPaletteFile(img: Picture, colors: seq<Rgba>)
    requires IsColorList(img.pixels, colors) && Fits16(img.width) && Fits16(img.height)
    ensures PaletteFile(img, Some(colors)).Ok? && GetFormat(PaletteFile(img, Some(colors)).value) == Ok(TAG_P)
  {
    var f := PaletteFile(img, Some(colors)).value;
    var h := PaletteHeader(img.width, img.height, TYPE_COLOR_MAPPED, PALETTE_SIZE);
    assert f[..HEADER_SIZE] == h;
    FormatOfTga(f);
  }

  /** A true-colour file is recognised as "TGA-16", even at 32 bits per pixel. */
  lemma FormatOfTruecolorFile(img: Picture, depth: int)
    requires Fits16(img.width) && Fits16(img.height) && (depth == 16 || depth == 32)
    ensures TruecolorFile(img, depth).Ok? && GetFormat(TruecolorFile(img, depth).value) == Ok(TAG_16)
  {
    var f := TruecolorFile(img, depth).value;
    assert f[..HEADER_SIZE] == TruecolorHeader(img.width, img.height, depth as byte);
    FormatOfTga(f);
  }

  /** A run-length file is recognised as "TGA-RLP". */
  lemma FormatOfRlPaletteFile(img: Picture, palette: seq<Rgba>, f: seq<byte>)
    requires IsRlPaletteFile(img, palette, f)
    ensures GetFormat(f) == Ok(TAG_RLP)
  {
    var h := PaletteHeader(img.width, img.height, TYPE_RLE_COLOR_MAPPED, PALETTE_SIZE);
    assert f[..PALETTE_BASE_SIZE][..HEADER_SIZE] == h;
    assert f[0] == h[0] == ID_SIZE && f[2] == h[2];
    FormatOfTga(f);
  }

  // ---------------------------------------------------------------------------
  // load_auto

  /** What `load_auto` hands back: a PNG left to PIL, a true-colour image, or a
      colour-mapped image (PIL's "P" image, before `convert("RGBA")`). */
  datatype Decoded = PngFile(bytes: seq<byte>) | Truecolor(picture: Picture) | Indexed(indexed: IndexedImage)

  /** `load_auto`: the decision order of get_format, then the loader for the type (red
      and blue never swapped); the pair is `(None, "N/A")` for an unknown header. */
  function LoadAuto(f: seq<byte>): (r: Result<(Option<Decoded>, string)>)
    ensures GetFormat(f).Err? ==> r == Err(IndexError)
    ensures r.Ok? ==> GetFormat(f).Ok?
    ensures r.Ok? ==> (r.value.0.None? <==> GetFormat(f) == Ok(TAG_NA))
    ensures r.Ok? ==> r.value.1 == GetFormat(f).value || (GetFormat(f).value == TAG_16 && r.value.1 == TAG_32)
    ensures |f| >= 3 && f[2] == TYPE_TRUE_COLOR ==>
              (r.Err? <==> TruecolorImage(f, false).Err?) && (r.Err? ==> r.error == TruecolorImage(f, false).error)
    ensures |f| >= 3 && f[2] == TYPE_COLOR_MAPPED ==>
              (r.Err? <==> PaletteImage(f, false).Err?) && (r.Err? ==> r.error == PaletteImage(f, false).error)
    ensures |f| >= 3 && f[2] == TYPE_RLE_COLOR_MAPPED ==>
              (r.Err? <==> RlPaletteImage(f, false).Err?) && (r.Err? ==> r.error == RlPaletteImage(f, false).error)
  {
    var header := Head(f);
    if header == PNG_SIGNATURE then Ok((Some(PngFile(f)), TAG_PNG))
    else if |header| <= 2 then Err(IndexError)
    else if header[2] == TYPE_TRUE_COLOR then
      var (img, tag) :- TruecolorImage(f, false);
      Ok((Some(Truecolor(img)), tag))
    else if header[2] == TYPE_COLOR_MAPPED then
      var img :- PaletteImage(f, false);
      Ok((Some(Indexed(img)), TAG_P))
    else if header[2] == TYPE_RLE_COLOR_MAPPED then
      var img :- RlPaletteImage(f, false);
      Ok((Some(Indexed(img)), TAG_RLP))
    else Ok((None, TAG_NA))
  }

  /** A colour-mapped file written by zmake loads back under "TGA-P" as the picture's
      indices over its padded palette (which TgaRoundTrip.PaletteRoundTrip turns back
      into the picture). */
  lemma LoadAutoOfPaletteFile(img: Picture, colors: seq<Rgba>)
    requires IsColorList(img.pixels, colors) && Fits16(img.width) && Fits16(img.height)
    ensures PaletteFile(img, Some(colors)).Ok?
    ensures var palette := PadPalette(colors);
            LoadAuto(PaletteFile(img, Some(colors)).value)
              == Ok((Some(Indexed(IndexedImage(img.width, img.height, RgbaBytes(palette), Indices(img.pixels, palette)))), TAG_P))
  {
    var f := PaletteFile(img, Some(colors)).value;
    FormatOfPaletteFile(img, colors);
    TgaRoundTrip.PaletteFileLoads(img, colors);
    assert Head(f) != PNG_SIGNATURE && f[2] == TYPE_COLOR_MAPPED;
  }

  /** A 16-bit file loads back under "TGA-16" as the picture at RGB565 precision. */
  lemma LoadAutoOfTruecolor16(img: Picture)
    requires Fits16(img.width) && Fits16(img.height)
    ensures TruecolorFile(img, 16).Ok?
    ensures LoadAuto(TruecolorFile(img, 16).value)
              == Ok((Some(Truecolor(Image(img.width, img.height, Quantized(img.pixels)))), TAG_16))
  {
    var f := TruecolorFile(img, 16).value;
    FormatOfTruecolorFile(img, 16);
    TgaRoundTrip.Truecolor16RoundTrip(img);
    assert Head(f) != PNG_SIGNATURE && f[2] == TYPE_TRUE_COLOR;
  }

  /** A 32-bit file loads back under "TGA-32" as the same picture. */
  lemma LoadAutoOfTruecolor32(img: Picture)
    requires Fits16(img.width) && Fits16(img.height)
    ensures TruecolorFile(img, 32).Ok?
    ensures LoadAuto(TruecolorFile(img, 32).value) == Ok((Some(Truecolor(img)), TAG_32))
  {
    var f := TruecolorFile(img, 32).value;
    FormatOfTruecolorFile(img, 32);
    TgaRoundTrip.Truecolor32RoundTrip(img);
    assert Head(f) != PNG_SIGNATURE && f[2] == TYPE_TRUE_COLOR;
  }

  /** A run-length file loads back under "TGA-RLP" as the picture's indices over its
      palette. */
  lemma LoadAutoOfRlPaletteFile(img: Picture, palette: seq<Rgba>, f: seq<byte>)
    requires IsRlPaletteFile(img, palette, f)
    ensures LoadAuto(f)
              == Ok((Some(Indexed(IndexedImage(img.width, img.height, RgbaBytes(palette), Indices(img.pixels, palette)))), TAG_RLP))
  {
    FormatOfRlPaletteFile(img, palette, f);
    TgaRoundTrip.RlPaletteFileLoads(img, palette, f);
    assert Head(f) != PNG_SIGNATURE && f[2] == TYPE_RLE_COLOR_MAPPED;
  }

  // ---------------------------------------------------------------------------
  // save_auto

  /** What `save_auto` writes: a PNG of the picture (left to PIL) or the bytes of a TGA
      file. */
  datatype Output = PngOf(picture: Picture) | TgaBytes(bytes: seq<byte>)

  /** The TGA writers' results as save_auto's output. */
  function Written(r: Result<seq<byte>>): Result<Option<Output>>
  {
    match r
    case Err(e) => Err(e)
    case Ok(bytes) => Ok(Some(TgaBytes(bytes)))
  }

  /** `save_auto`: Ok(None) is its `return False`, with nothing written. `colors` is
      PIL's `getcolors()` for the colour-mapped writers. */
  method SaveAuto(img: Picture, tag: string, colors: Option<seq<Rgba>>) returns (r: Result<Option<Output>>)
    requires colors.Some? ==> IsColorList(img.pixels, colors.value)
    ensures r == Ok(None) <==> !IsSaveTag(tag)
    ensures tag == TAG_PNG ==> r == Ok(Some(PngOf(img)))
    ensures tag == TAG_P ==> r == Written(PaletteFile(img, colors))
    ensures tag == TAG_16 ==> r == Written(TruecolorFile(img, 16))
    ensures tag == TAG_32 ==> r == Written(TruecolorFile(img, 32))
    ensures tag == TAG_RLP ==> (r.Err? <==> PaletteBase(img, colors).Err?)
    ensures tag == TAG_RLP && r.Ok? ==>
              r.value.Some? && r.value.value.TgaBytes? && IsRlPaletteFile(img, PadPalette(colors.value), r.value.value.bytes)
  {
    if tag == TAG_PNG {
      return Ok(Some(PngOf(img)));
    } else if tag == TAG_P {
      var w := SavePalette(img, colors);
      return Written(w);
    } else if tag == TAG_16 {
      var w := SaveTruecolor(img, 16);
      return Written(w);
    } else if tag == TAG_32 {
      var w := SaveTruecolor(img, 32);
      return Written(w);
    } else if tag == TAG_RLP {
      var w := SaveRlPalette(img, colors);
      return Written(w);
    } else {
      return Ok(None);
    }
  }
}

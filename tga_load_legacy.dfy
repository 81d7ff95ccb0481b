/** The readers of the legacy root script tga_load.py, which tga_io.py repeats for its
    `load_tga`: colour-mapped files (type 1), run-length encoded colour-mapped files
    (type 9) and 16-bit true-colour files (type 2). Compared with the zmake readers in
    TgaLoad they never swap red and blue, ignore the vendor Image ID, and return 16-bit
    images as RGB without alpha; the lemmas at the end state exactly how the two
    generations relate. */
module TgaLoadLegacy {
  import opened Bytes
  import opened TgaFormat
  import TgaLoad

  /** `_parse_tga_header`: the ID length (byte 0) and the palette length, width and
      height fields that the zmake header parser also returns. */
  function ParseHeader(header: seq<byte>): (r: (nat, nat, nat, nat))
    requires |header| >= 1
    ensures r.0 == header[0] && (r.1, r.2, r.3) == TgaLoad.ParseHeader(header)
  {
    (header[0], FromLe(Slice(header, 5, 7)), FromLe(Slice(header, 12, 14)), FromLe(Slice(header, 14, 16)))
  }

  /** A written colour-mapped header names the 46-byte ID, its palette length and its
      size. */
  lemma ParseHeaderOfPaletteHeader(width: nat, height: nat, typeCode: byte, paletteLength: nat)
    requires Fits16(width) && Fits16(height) && Fits16(paletteLength)
    ensures ParseHeader(PaletteHeader(width, height, typeCode, paletteLength))
              == (ID_SIZE, paletteLength, width, height)
  {
    TgaLoad.ParseHeaderOfPaletteHeader(width, height, typeCode, paletteLength);
  }

  /** `_fetch_palette`: n B,G,R,A entries emitted as R,G,B,A; the zmake reader without
      swapping does the same. */
  method FetchPalette(f: seq<byte>, pos: nat, n: nat) returns (r: Result<(seq<byte>, nat)>)
    requires pos <= |f|
    ensures r == TgaLoad.ReadPalette(f, pos, n, false)
  {
    var paletteRaw: seq<byte> := [];
    var p := pos;
    for i := 0 to n
      invariant p == pos + 4 * i <= |f|
      invariant paletteRaw == PaletteEntries(f[pos..], i, false)
    {
      var (q, next) := Read(f, p, 4);
      if |q| < 4 {
        return Err(ValueError);
      }
      SuffixSlice(f, pos, 4 * i, 4);
      EntryBytes(q, false);
      var b, g, r, a := q[0], q[1], q[2], q[3];
      paletteRaw := paletteRaw + [r, g, b, a];
      p := next;
    }
    return Ok((paletteRaw, p));
  }

  // ---------------------------------------------------------------------------
  // Colour-mapped files

  /** What `load_palette_tga` builds: the zmake steps without the Image ID step. */
  function PaletteImage(f: seq<byte>): (r: Result<IndexedImage>)
    ensures var header := Read(f, 0, HEADER_SIZE).0;
            TgaLoad.CheckHeader(header, 1, TYPE_COLOR_MAPPED, true).Some? ==>
              r == Err(TgaLoad.CheckHeader(header, 1, TYPE_COLOR_MAPPED, true).value)
    ensures var header := Read(f, 0, HEADER_SIZE).0;
            TgaLoad.CheckHeader(header, 1, TYPE_COLOR_MAPPED, true).None? && TgaLoad.ParseHeader(header).0 > PALETTE_SIZE ==>
              r == Err(ValueError)
    ensures r.Ok? ==> |r.value.palette| <= 4 * PALETTE_SIZE && |r.value.indices| == Area(r.value.width, r.value.height)
  {
    var (header, pos) := Read(f, 0, HEADER_SIZE);
    match TgaLoad.CheckHeader(header, 1, TYPE_COLOR_MAPPED, true)
    case Some(e) => Err(e)
    case None =>
      var (idLength, n, width, height) := ParseHeader(header);
      var pos1 := Read(f, pos, idLength).1;
      var fetched :- TgaLoad.ReadPalette(f, pos1, n, false);
      var palette :- TgaLoad.PutPalette(fetched.0);
      var indices := TgaLoad.PutData(width, height, Read(f, fetched.1, Area(width, height)).0).value;
      Ok(IndexedImage(width, height, palette, indices))
  }

  method LoadPalette(f: seq<byte>) returns (r: Result<IndexedImage>)
    ensures r == PaletteImage(f)
  {
    var (header, pos) := Read(f, 0, HEADER_SIZE);
    var check := TgaLoad.CheckHeader(header, 1, TYPE_COLOR_MAPPED, true);
    if check.Some? {
      return Err(check.value);
    }
    var (idLength, paletteLength, width, height) := ParseHeader(header);
    var (_, pos1) := Read(f, pos, idLength);
    var fetched := FetchPalette(f, pos1, paletteLength);
    if fetched.Err? {
      return Err(fetched.error);
    }
    var (paletteRaw, pos2) := fetched.value;
    var (imgData, _) := Read(f, pos2, Area(width, height));
    var palette :- TgaLoad.PutPalette(paletteRaw);
    var indices := TgaLoad.PutData(width, height, imgData).value;
    return Ok(IndexedImage(width, height, palette, indices));
  }

  /** The Image ID the readers skip: `header[0]` bytes after the header. */
  function IdOf(f: seq<byte>): (id: seq<byte>)
    ensures |id| <= |f|
  {
    var (header, pos) := Read(f, 0, HEADER_SIZE);
    if header == [] then [] else Read(f, pos, header[0]).0
  }

  /** The zmake colour-mapped reader (without swapping) is this one followed by the
      Image ID step: they fail alike, and succeed alike up to `_apply_zepp_header`. */
  lemma ZmakePaletteAddsZeppHeader(f: seq<byte>)
    ensures PaletteImage(f).Err? ==> TgaLoad.PaletteImage(f, false) == PaletteImage(f)
    ensures PaletteImage(f).Ok? ==>
              TgaLoad.PaletteImage(f, false) == Ok(TgaLoad.ApplyZeppHeader(PaletteImage(f).value, IdOf(f)))
  {
  }

  // ---------------------------------------------------------------------------
  // Run-length encoded colour-mapped files

  /** `load_rl_palette_tga`: the zmake packet reader without swapping, step for step. */
  method LoadRlPalette(f: seq<byte>) returns (r: Result<IndexedImage>)
    ensures r == TgaLoad.RlPaletteImage(f, false)
  {
    var (header, pos) := Read(f, 0, HEADER_SIZE);
    var check := TgaLoad.CheckHeader(header, 1, TYPE_RLE_COLOR_MAPPED, true);
    if check.Some? {
      return Err(check.value);
    }
    var (idLength, paletteLength, width, height) := ParseHeader(header);
    var (_, pos1) := Read(f, pos, idLength);
    var fetched := FetchPalette(f, pos1, paletteLength);
    if fetched.Err? {
      return Err(fetched.error);
    }
    var (paletteRaw, pos2) := fetched.value;
    var imgData :- TgaLoad.ReadRlePixels(f, pos2, Area(width, height));
    var palette :- TgaLoad.PutPalette(paletteRaw);
    var indices :- TgaLoad.PutData(width, height, imgData);
    return Ok(IndexedImage(width, height, palette, indices));
  }

  // ---------------------------------------------------------------------------
  // 16-bit true-colour files

  function DropAlpha(c: Rgba): Rgb { Rgb(c.r, c.g, c.b) }

  /** The pixels with alpha dropped, as `(r, g, b)` triples. */
  function DropAlphas(p: seq<Rgba>): (q: seq<Rgb>)
    ensures |q| == |p| && forall k :: 0 <= k < |p| ==> q[k] == DropAlpha(p[k])
  {
    if p == [] then [] else DropAlphas(p[..|p| - 1]) + [DropAlpha(p[|p| - 1])]
  }

  lemma DropAlphasSnoc(p: seq<Rgba>, c: Rgba)
    ensures DropAlphas(p + [c]) == DropAlphas(p) + [DropAlpha(c)]
  {
    assert (p + [c])[..|p|] == p;
  }

  /** One more 16-bit pixel, stored low byte first at `start + 2 * i`, adds its three
      scaled fields at the end. */
  lemma Pixels565Step(f: seq<byte>, start: nat, i: nat)
    requires start + 2 * i + 2 <= |f|
    ensures var v: int := (f[start + 2 * i + 1] as int) * 256 + (f[start + 2 * i] as int);
            DropAlphas(Pixels565(f[start..], i + 1, false))
            == DropAlphas(Pixels565(f[start..], i, false)) + [Rgb(Unscale5(v / 2048), Unscale6((v / 32) % 64), Unscale5(v % 32))]
  {
    var raw := f[start..];
    assert raw[2 * i] == f[start + 2 * i] && raw[2 * i + 1] == f[start + 2 * i + 1];
    DropAlphasSnoc(Pixels565(raw, i, false), Decode565(raw[2 * i], raw[2 * i + 1], false));
  }

  /** What `load_truecolor_tga` returns: an RGB image whose pixels are the zmake 16-bit
      pixels without alpha. Any colour depth other than 16 is "Not implemented". */
  function TruecolorImage(f: seq<byte>): (r: Result<RgbImage>)
    ensures r.Ok? ==> |r.value.pixels| == Area(r.value.width, r.value.height)
  {
    var (header, pos) := Read(f, 0, HEADER_SIZE);
    match TgaLoad.CheckHeader(header, 0, TYPE_TRUE_COLOR, false)
    case Some(e) => Err(e)
    case None =>
      if |header| <= 16 then Err(IndexError)
      else
        var width, height := FromLe(Slice(header, 12, 14)), FromLe(Slice(header, 14, 16));
        var start := Read(f, pos, header[0]).1;
        if header[16] != 16 then Err(NotImplemented)
        else if |f| - start < 2 * Area(width, height) then Err(ValueError)
        else Ok(RgbImage(width, height, DropAlphas(Pixels565(f[start..], Area(width, height), false))))
  }

  /** The pixel loop of `load_truecolor_tga`: n pixels of two bytes from `start`. */
  method ReadPixels565(f: seq<byte>, start: nat, n: nat) returns (r: Result<seq<Rgb>>)
    requires start <= |f|
    ensures r.Err? <==> |f| - start < 2 * n
    ensures r.Err? ==> r.error == ValueError
    ensures r.Ok? ==> r.value == DropAlphas(Pixels565(f[start..], n, false))
  {
    var unpacked: seq<Rgb> := [];
    var p := start;
    for i := 0 to n
      invariant p == start + 2 * i <= |f|
      invariant unpacked == DropAlphas(Pixels565(f[start..], i, false))
    {
      var (q, next) := Read(f, p, 2);
      if |q| < 2 {
        return Err(ValueError);
      }
      var b2, b1 := q[0], q[1];
      assert b2 == f[p] && b1 == f[p + 1];
      Pixels565Step(f, start, i);
      var v: int := (b1 as int) * 256 + (b2 as int);
      var r, g, b := v / 2048, (v / 32) % 64, v % 32;
      unpacked := unpacked + [Rgb(Unscale5(r), Unscale6(g), Unscale5(b))];
      p := next;
    }
    return Ok(unpacked);
  }

  method LoadTruecolor(f: seq<byte>) returns (r: Result<RgbImage>)
    ensures r == TruecolorImage(f)
  {
    var (header, pos) := Read(f, 0, HEADER_SIZE);
    var check := TgaLoad.CheckHeader(header, 0, TYPE_TRUE_COLOR, false);
    if check.Some? {
      return Err(check.value);
    }
    if |header| <= 16 {
      return Err(IndexError);
    }
    var colormode := header[16];
    var idLength := header[0];
    var width := FromLe(Slice(header, 12, 14));
    var height := FromLe(Slice(header, 14, 16));
    var (_, start) := Read(f, pos, idLength);
    if colormode != 16 {
      return Err(NotImplemented);
    }
    var unpacked :- ReadPixels565(f, start, Area(width, height));
    return Ok(RgbImage(width, height, unpacked));
  }

  /** The legacy reader succeeds exactly on the files the zmake reader reads as 16-bit,
      and then gives the same pixels without alpha. */
  lemma TruecolorAgrees(f: seq<byte>)
    ensures TruecolorImage(f).Ok? <==>
              TgaLoad.TruecolorImage(f, false).Ok? && TgaLoad.TruecolorImage(f, false).value.1 == TgaLoad.TAG_16
    ensures TruecolorImage(f).Ok? ==>
              var img := TgaLoad.TruecolorImage(f, false).value.0;
              TruecolorImage(f).value == RgbImage(img.width, img.height, DropAlphas(img.pixels))
  {
  }
}

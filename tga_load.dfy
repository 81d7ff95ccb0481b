/** The readers of zmake/tga_load.py: colour-mapped files (type 1), run-length encoded
    colour-mapped files (type 9) and true-colour files (type 2, 16 or 32 bits per pixel).
    A file is its byte sequence and each loader keeps a read position, as `f.read(n)`
    does. The loaders return the "P" image they build before `convert("RGBA")`; ToRgba
    in TgaFormat describes that conversion for indices that name palette entries. */
module TgaLoad {
  import opened Bytes
  import opened TgaFormat

  // ---------------------------------------------------------------------------
  // Header

  /** The header assertions of the loaders, in source order: `header[1]`, `header[2]`
      and, for the colour-mapped loaders, `header[7]`. Indexing a short header is an
      IndexError, a wrong value an AssertionError; None means every check passed. */
  function CheckHeader(header: seq<byte>, colorMap: byte, imageType: byte, entryBits: bool): (e: Option<Error>)
    ensures e.None? <==> |header| >= 3 && header[1] == colorMap && header[2] == imageType
                         && (entryBits ==> |header| >= 8 && header[7] == 32)
    ensures e.Some? ==> e.value == IndexError || e.value == AssertionError
  {
    if |header| < 2 then Some(IndexError)
    else if header[1] != colorMap then Some(AssertionError)
    else if |header| < 3 then Some(IndexError)
    else if header[2] != imageType then Some(AssertionError)
    else if !entryBits then None
    else if |header| < 8 then Some(IndexError)
    else if header[7] != 32 then Some(AssertionError)
    else None
  }

  /** `_parse_tga_header`: palette length, width and height, each a little-endian field
      (a field cut short by a short header reads as fewer bytes). */
  function ParseHeader(header: seq<byte>): (r: (nat, nat, nat))
  {
    (FromLe(Slice(header, 5, 7)), FromLe(Slice(header, 12, 14)), FromLe(Slice(header, 14, 16)))
  }

  /** Parsing a written colour-mapped header gives back its palette length and size. */
  lemma ParseHeaderOfPaletteHeader(width: nat, height: nat, typeCode: byte, paletteLength: nat)
    requires Fits16(width) && Fits16(height) && Fits16(paletteLength)
    ensures ParseHeader(PaletteHeader(width, height, typeCode, paletteLength)) == (paletteLength, width, height)
  {
  }

  // ---------------------------------------------------------------------------
  // Palette

  /** `_fetch_palette` starting at `pos`: n entries of four bytes, or a ValueError when
      the file ends before all of them (unpacking a short read). The second component is
      the position after the palette. */
  function ReadPalette(f: seq<byte>, pos: nat, n: nat, swap: bool): (r: Result<(seq<byte>, nat)>)
    requires pos <= |f|
    ensures r.Err? <==> |f| - pos < 4 * n
    ensures r.Err? ==> r.error == ValueError
    ensures r.Ok? ==> r.value.1 == pos + 4 * n <= |f| && |r.value.0| == 4 * n
  {
    if |f| - pos < 4 * n then Err(ValueError)
    else Ok((PaletteEntries(f[pos..], n, swap), pos + 4 * n))
  }

  method FetchPalette(f: seq<byte>, pos: nat, n: nat, swap: bool) returns (r: Result<(seq<byte>, nat)>)
    requires pos <= |f|
    ensures r == ReadPalette(f, pos, n, swap)
  {
    var paletteRaw: seq<byte> := [];
    var p := pos;
    for i := 0 to n
      invariant p == pos + 4 * i <= |f|
      invariant paletteRaw == PaletteEntries(f[pos..], i, swap)
    {
      var (q, next) := Read(f, p, 4);
      if |q| < 4 {
        return Err(ValueError);
      }
      SuffixSlice(f, pos, 4 * i, 4);
      EntryBytes(q, swap);
      var r, g, b, a;
      if swap {
        r, g, b, a := q[0], q[1], q[2], q[3];
      } else {
        b, g, r, a := q[0], q[1], q[2], q[3];
      }
      paletteRaw := paletteRaw + [r, g, b, a];
      p := next;
    }
    return Ok((paletteRaw, p));
  }

  // ---------------------------------------------------------------------------
  // PIL's image operations that the loaders use

  /** `image.putdata(data)` on a new w x h "P" image: the data fill the image from the
      start and the rest keeps index 0; more entries than pixels is a TypeError. */
  function PutData(width: nat, height: nat, data: seq<byte>): (r: Result<seq<byte>>)
    ensures r.Err? <==> |data| > Area(width, height)
    ensures r.Ok? ==> |r.value| == Area(width, height) && r.value[..|data|] == data
    ensures r.Ok? ==> forall k :: |data| <= k < Area(width, height) ==> r.value[k] == 0
  {
    if |data| > Area(width, height) then Err(TypeError) else Ok(data + Zeros(Area(width, height) - |data|))
  }

  /** `image.putpalette(raw, "RGBA")`: a "P" image holds at most 256 palette entries of
      four bytes, and PIL refuses a longer palette with a ValueError. */
  function PutPalette(raw: seq<byte>): (r: Result<seq<byte>>)
    ensures r.Ok? <==> |raw| <= 4 * PALETTE_SIZE
    ensures r.Ok? ==> r.value == raw
    ensures r.Err? ==> r.error == ValueError
  {
    if |raw| > 4 * PALETTE_SIZE then Err(ValueError) else Ok(raw)
  }

  /** One row of `crop((0, 0, width, h))`: cut to `width` indices or padded with 0. */
  function CropRow(row: seq<byte>, width: nat): (r: seq<byte>)
    ensures |r| == width
    ensures forall x :: 0 <= x < width ==> r[x] == if x < |row| then row[x] else 0
  {
    if width <= |row| then row[..width] else row + Zeros(width - |row|)
  }

  /** The rows of an index image cropped or padded to a new width, top to bottom. */
  function CropRows(indices: seq<byte>, oldWidth: nat, width: nat, height: nat): (r: seq<byte>)
    requires |indices| == Area(oldWidth, height)
    ensures |r| == Area(width, height)
    decreases height
  {
    if height == 0 then []
    else CropRow(indices[..oldWidth], width) + CropRows(indices[oldWidth..], oldWidth, width, height - 1)
  }

  function Crop(img: IndexedImage, width: nat): (out: IndexedImage)
    requires |img.indices| == Area(img.width, img.height)
    ensures out.width == width && out.height == img.height && out.palette == img.palette
    ensures |out.indices| == Area(width, img.height)
  {
    IndexedImage(width, img.height, img.palette, CropRows(img.indices, img.width, width, img.height))
  }

  // ---------------------------------------------------------------------------
  // The vendor Image ID

  /** The ID is at least 46 bytes long and starts with "SOMH". */
  predicate HasZeppId(id: seq<byte>)
  {
    |id| >= ID_SIZE && id[..4] == ZEPP_MAGIC
  }

  /** `_apply_zepp_header` as written: without a Zepp ID it falls off a bare `return`
      and gives None; with one, the image is cropped to the ID's width when that differs. */
  function ApplyZeppHeaderAsWritten(img: IndexedImage, id: seq<byte>): (r: Option<IndexedImage>)
    requires |img.indices| == Area(img.width, img.height)
    ensures r.None? <==> !HasZeppId(id)
  {
    if !HasZeppId(id) then None
    else
      var zeppWidth := FromLe(id[4..6]);
      if zeppWidth != img.width then Some(Crop(img, zeppWidth)) else Some(img)
  }

  /** `_apply_zepp_header` as evidently intended: an image without a Zepp ID is returned
      unchanged. */
  function ApplyZeppHeader(img: IndexedImage, id: seq<byte>): (r: IndexedImage)
    requires |img.indices| == Area(img.width, img.height)
    ensures !HasZeppId(id) ==> r == img
    ensures HasZeppId(id) ==> Some(r) == ApplyZeppHeaderAsWritten(img, id)
    ensures HasZeppId(id) ==> r.width == FromLe(id[4..6])
    ensures r.height == img.height && r.palette == img.palette && |r.indices| == Area(r.width, r.height)
  {
    match ApplyZeppHeaderAsWritten(img, id)
    case None => img
    case Some(cropped) => cropped
  }

  /** The ID the writers emit names the image's own width, so nothing is cropped. */
  lemma ApplyZeppIdOfWriter(img: IndexedImage)
    requires |img.indices| == Area(img.width, img.height) && Fits16(img.width)
    ensures ApplyZeppHeader(img, ZeppId(img.width)) == img
  {
  }

  // ---------------------------------------------------------------------------
  // Colour-mapped files

  /** What `load_palette_tga` builds, with `_apply_zepp_header` as intended. After the
      header checks it reads the Image ID (`header[0]` bytes), the palette, and w*h
      index bytes, fewer at the end of the file. */
  function PaletteImage(f: seq<byte>, swap: bool): (r: Result<IndexedImage>)
    ensures var header := Read(f, 0, HEADER_SIZE).0;
            CheckHeader(header, 1, TYPE_COLOR_MAPPED, true).Some? ==>
              r == Err(CheckHeader(header, 1, TYPE_COLOR_MAPPED, true).value)
    ensures var header := Read(f, 0, HEADER_SIZE).0;
            CheckHeader(header, 1, TYPE_COLOR_MAPPED, true).None? && ParseHeader(header).0 > PALETTE_SIZE ==>
              r == Err(ValueError)
    ensures r.Ok? ==> |r.value.palette| <= 4 * PALETTE_SIZE && |r.value.indices| == Area(r.value.width, r.value.height)
  {
    var (header, pos) := Read(f, 0, HEADER_SIZE);
    match CheckHeader(header, 1, TYPE_COLOR_MAPPED, true)
    case Some(e) => Err(e)
    case None =>
      var (id, pos1) := Read(f, pos, header[0]);
      var (n, width, height) := ParseHeader(header);
      var fetched :- ReadPalette(f, pos1, n, swap);
      var palette :- PutPalette(fetched.0);
      var indices := PutData(width, height, Read(f, fetched.1, Area(width, height)).0).value;
      Ok(ApplyZeppHeader(IndexedImage(width, height, palette, indices), id))
  }

  /** `load_palette_tga` exactly as written: the image is lost when the ID is missing,
      and `None.convert("RGBA")` is an AttributeError. */
  function PaletteImageAsWritten(f: seq<byte>, swap: bool): (r: Result<IndexedImage>)
    ensures r.Ok? || PaletteImage(f, swap).Err? ==> r == PaletteImage(f, swap)
    ensures r.Err? && PaletteImage(f, swap).Ok? ==> r.error == AttributeError
  {
    var (header, pos) := Read(f, 0, HEADER_SIZE);
    match CheckHeader(header, 1, TYPE_COLOR_MAPPED, true)
    case Some(e) => Err(e)
    case None =>
      var (id, pos1) := Read(f, pos, header[0]);
      var (n, width, height) := ParseHeader(header);
      var fetched :- ReadPalette(f, pos1, n, swap);
      var palette :- PutPalette(fetched.0);
      var indices := PutData(width, height, Read(f, fetched.1, Area(width, height)).0).value;
      match ApplyZeppHeaderAsWritten(IndexedImage(width, height, palette, indices), id)
      case None => Err(AttributeError)
      case Some(img) => Ok(img)
  }

  /** The two agree on every file that carries the Zepp ID, among them every file the
      writers produce. */
  lemma PaletteImageAgrees(f: seq<byte>, swap: bool)
    requires |f| >= HEADER_SIZE && HasZeppId(Read(f, HEADER_SIZE, f[0]).0)
    ensures PaletteImageAsWritten(f, swap) == PaletteImage(f, swap)
  {
  }

  /** A valid type-1 file without an Image ID: 0 x 0 pixels and an empty palette. */
  const NO_ID_FILE: seq<byte> := [0, 1, 1, 0, 0, 0, 0, 32, 0, 0, 0, 0, 0, 0, 0, 0, 8, 32]

  /** The header of NO_ID_FILE passes the checks and describes an empty image with an
      empty palette. */
  lemma NoIdFileHeader()
    ensures Read(NO_ID_FILE, 0, HEADER_SIZE) == (NO_ID_FILE, HEADER_SIZE)
    ensures CheckHeader(NO_ID_FILE, 1, TYPE_COLOR_MAPPED, true).None?
    ensures ParseHeader(NO_ID_FILE) == (0, 0, 0)
  {
    var header := NO_ID_FILE;
    assert header[..HEADER_SIZE] == header;
    assert Slice(header, 5, 7) == [0, 0] && Slice(header, 12, 14) == [0, 0] && Slice(header, 14, 16) == [0, 0];
    assert FromLe([0, 0]) == 0 by {
      assert [0, 0][1..] == [0];
      assert [0][1..] == [];
    }
  }

  /** As written, the loader fails on a well-formed file that has no Zepp ID. */
  lemma NoIdFileLosesImage()
    ensures PaletteImageAsWritten(NO_ID_FILE, false) == Err(AttributeError)
  {
    NoIdFileHeader();
  }

  /** The intended loader returns the empty image for the same file. */
  lemma NoIdFileLoads()
    ensures PaletteImage(NO_ID_FILE, false) == Ok(IndexedImage(0, 0, [], []))
  {
    NoIdFileHeader();
  }

  method LoadPalette(f: seq<byte>, swap: bool) returns (r: Result<IndexedImage>)
    ensures r == PaletteImage(f, swap)
  {
    var (header, pos) := Read(f, 0, HEADER_SIZE);
    var check := CheckHeader(header, 1, TYPE_COLOR_MAPPED, true);
    if check.Some? {
      return Err(check.value);
    }
    var idLength := header[0];
    var (idData, pos1) := Read(f, pos, idLength);
    var (paletteLength, width, height) := ParseHeader(header);
    var fetched := FetchPalette(f, pos1, paletteLength, swap);
    if fetched.Err? {
      return Err(fetched.error);
    }
    var (paletteRaw, pos2) := fetched.value;
    var (imgData, _) := Read(f, pos2, Area(width, height));
    var palette :- PutPalette(paletteRaw);
    var indices := PutData(width, height, imgData).value;
    var image := IndexedImage(width, height, palette, indices);
    image := ApplyZeppHeader(image, idData);
    return Ok(image);
  }

  // ---------------------------------------------------------------------------
  // Run-length encoded colour-mapped files

  /** One pass of the packet loop of `load_rl_palette_tga` at `p`: the
      packet's indices and the position after it, or the IndexError of reading a byte
      past the end of the file. */
  method ReadPacket(f: seq<byte>, p: nat) returns (r: Result<(seq<byte>, nat)>)
    requires p <= |f|
    ensures r.Err? <==> p == |f| || |f| - p < PacketSize(f[p..])
    ensures r.Err? ==> r.error == IndexError
    ensures r.Ok? ==> r.value == (PacketData(f[p..]), p + PacketSize(f[p..]))
  {
    var (b, pos) := Read(f, p, 1);
    if b == [] {
      return Err(IndexError);
    }
    var head := b[0];
    var count := head % 128 + 1;
    var data: seq<byte> := [];
    if head >= 128 {
      var (b1, next) := Read(f, pos, 1);
      if b1 == [] {
        return Err(IndexError);
      }
      pos := next;
      var index := b1[0];
      for i := 0 to count
        invariant data == Repeat(index, i)
      {
        data := data + [index];
      }
      assert f[p..][1] == index;
    } else {
      for i := 0 to count
        invariant pos == p + 1 + i <= |f|
        invariant data == f[p + 1..pos]
      {
        var (b1, next) := Read(f, pos, 1);
        if b1 == [] {
          return Err(IndexError);
        }
        data := data + [b1[0]];
        pos := next;
      }
      assert f[p..][1..1 + count] == data;
    }
    return Ok((data, pos));
  }

  /** One packet read at position p of the file. */
  lemma UnpackRleAt(f: seq<byte>, p: nat, n: nat, acc: seq<byte>, data: seq<byte>, next: nat)
    requires p < |f| && PacketSize(f[p..]) <= |f| - p && |acc| < n
    requires data == PacketData(f[p..]) && next == p + PacketSize(f[p..])
    ensures UnpackRle(f[p..], n, acc) == UnpackRle(f[next..], n, acc + data)
  {
    var s := f[p..];
    UnpackRleStep(s, n, acc);
    assert s[PacketSize(s)..] == f[next..] by {
      SuffixOfSuffix(f, p, PacketSize(s));
    }
  }

  /** The packet loop of `load_rl_palette_tga`, reading from `pos`. */
  method ReadRlePixels(f: seq<byte>, pos: nat, n: nat) returns (r: Result<seq<byte>>)
    requires pos <= |f|
    ensures r == UnpackRle(f[pos..], n, [])
  {
    var imgData: seq<byte> := [];
    var p := pos;
    while |imgData| < n
      invariant pos <= p <= |f|
      invariant UnpackRle(f[p..], n, imgData) == UnpackRle(f[pos..], n, [])
      decreases |f| - p
    {
      var packet := ReadPacket(f, p);
      if packet.Err? {
        return Err(IndexError);
      }
      var (data, next) := packet.value;
      UnpackRleAt(f, p, n, imgData, data, next);
      imgData := imgData + data;
      p := next;
    }
    return Ok(imgData);
  }

  /** What `load_rl_palette_tga` builds: header checks, ID skipped, palette, then
      packets until at least w*h indices; a last packet that overshoots w*h leaves too
      many entries for `putdata`. */
  function RlPaletteImage(f: seq<byte>, swap: bool): (r: Result<IndexedImage>)
    ensures var header := Read(f, 0, HEADER_SIZE).0;
            CheckHeader(header, 1, TYPE_RLE_COLOR_MAPPED, true).Some? ==>
              r == Err(CheckHeader(header, 1, TYPE_RLE_COLOR_MAPPED, true).value)
    ensures var header := Read(f, 0, HEADER_SIZE).0;
            CheckHeader(header, 1, TYPE_RLE_COLOR_MAPPED, true).None? && ParseHeader(header).0 > PALETTE_SIZE ==>
              r == Err(ValueError) || r == Err(IndexError)
    ensures r.Ok? ==> |r.value.palette| <= 4 * PALETTE_SIZE && |r.value.indices| == Area(r.value.width, r.value.height)
  {
    var (header, pos) := Read(f, 0, HEADER_SIZE);
    match CheckHeader(header, 1, TYPE_RLE_COLOR_MAPPED, true)
    case Some(e) => Err(e)
    case None =>
      var pos1 := Read(f, pos, header[0]).1;
      var (n, width, height) := ParseHeader(header);
      var fetched :- ReadPalette(f, pos1, n, swap);
      var data :- UnpackRle(f[fetched.1..], Area(width, height), []);
      var palette :- PutPalette(fetched.0);
      var indices :- PutData(width, height, data);
      Ok(IndexedImage(width, height, palette, indices))
  }

  method LoadRlPalette(f: seq<byte>, swap: bool) returns (r: Result<IndexedImage>)
    ensures r == RlPaletteImage(f, swap)
  {
    var (header, pos) := Read(f, 0, HEADER_SIZE);
    var check := CheckHeader(header, 1, TYPE_RLE_COLOR_MAPPED, true);
    if check.Some? {
      return Err(check.value);
    }
    var idLength := header[0];
    var (_, pos1) := Read(f, pos, idLength);
    var (paletteLength, width, height) := ParseHeader(header);
    var fetched := FetchPalette(f, pos1, paletteLength, swap);
    if fetched.Err? {
      return Err(fetched.error);
    }
    var (paletteRaw, pos2) := fetched.value;
    var imgData :- ReadRlePixels(f, pos2, Area(width, height));
    var palette :- PutPalette(paletteRaw);
    var indices :- PutData(width, height, imgData);
    return Ok(IndexedImage(width, height, palette, indices));
  }

  // ---------------------------------------------------------------------------
  // True-colour files

  const TAG_16 := "TGA-16"
  const TAG_32 := "TGA-32"

  /** What `load_truecolor_tga` returns: the RGBA image and "TGA-" followed by the
      colour depth. The depth is `header[16]`; w*h pixels of two or four bytes follow
      the ID, and a file that ends early fails to unpack (ValueError). */
  function TruecolorImage(f: seq<byte>, swap: bool): (r: Result<(Picture, string)>)
    ensures var header := Read(f, 0, HEADER_SIZE).0;
            CheckHeader(header, 0, TYPE_TRUE_COLOR, false).Some? ==>
              r == Err(CheckHeader(header, 0, TYPE_TRUE_COLOR, false).value)
    ensures var header := Read(f, 0, HEADER_SIZE).0;
            (CheckHeader(header, 0, TYPE_TRUE_COLOR, false).None? && |header| > 16
             && header[16] != 16 && header[16] != 32) ==> r == Err(NotImplemented)
    ensures r.Ok? ==> |f| > 16 && (f[16] == 16 || f[16] == 32)
                      && r.value.1 == (if f[16] == 16 then TAG_16 else TAG_32)
                      && |r.value.0.pixels| == Area(r.value.0.width, r.value.0.height)
  {
    var (header, pos) := Read(f, 0, HEADER_SIZE);
    match CheckHeader(header, 0, TYPE_TRUE_COLOR, false)
    case Some(e) => Err(e)
    case None =>
      if |header| <= 16 then Err(IndexError)
      else
        var depth := header[16];
        var width, height := FromLe(Slice(header, 12, 14)), FromLe(Slice(header, 14, 16));
        var start := Read(f, pos, header[0]).1;
        if depth == 16 then
          if |f| - start < 2 * Area(width, height) then Err(ValueError)
          else Ok((Image(width, height, Pixels565(f[start..], Area(width, height), swap)), TAG_16))
        else if depth == 32 then
          if |f| - start < 4 * Area(width, height) then Err(ValueError)
          else Ok((Image(width, height, Pixels32(f[start..], Area(width, height), swap)), TAG_32))
        else Err(NotImplemented)
  }

  /** The 16-bit pixel loop of `load_truecolor_tga`: n pixels of two bytes from `start`. */
  method ReadPixels565(f: seq<byte>, start: nat, n: nat, swap: bool) returns (r: Result<seq<Rgba>>)
    requires start <= |f|
    ensures r.Err? <==> |f| - start < 2 * n
    ensures r.Err? ==> r.error == ValueError
    ensures r.Ok? ==> r.value == Pixels565(f[start..], n, swap)
  {
    var unpacked: seq<Rgba> := [];
    var p := start;
    for i := 0 to n
      invariant p == start + 2 * i <= |f|
      invariant unpacked == Pixels565(f[start..], i, swap)
    {
      var (q, next) := Read(f, p, 2);
      if |q| < 2 {
        return Err(ValueError);
      }
      var b2, b1 := q[0], q[1];
      assert f[start..][2 * i] == b2 && f[start..][2 * i + 1] == b1;
      var v: int := (b1 as int) * 256 + (b2 as int);
      var r, g, b := v / 2048, (v / 32) % 64, v % 32;
      assert (r, g, b) == Unpack565(b2, b1);
      if swap {
        r, b := b, r;
      }
      unpacked := unpacked + [Rgba(Unscale5(r), Unscale6(g), Unscale5(b), 255)];
      p := next;
    }
    return Ok(unpacked);
  }

  /** The 32-bit pixel loop of `load_truecolor_tga`: n pixels of four bytes from `start`. */
  method ReadPixels32(f: seq<byte>, start: nat, n: nat, swap: bool) returns (r: Result<seq<Rgba>>)
    requires start <= |f|
    ensures r.Err? <==> |f| - start < 4 * n
    ensures r.Err? ==> r.error == ValueError
    ensures r.Ok? ==> r.value == Pixels32(f[start..], n, swap)
  {
    var unpacked: seq<Rgba> := [];
    var p := start;
    for i := 0 to n
      invariant p == start + 4 * i <= |f|
      invariant unpacked == Pixels32(f[start..], i, swap)
    {
      var (q, next) := Read(f, p, 4);
      if |q| < 4 {
        return Err(ValueError);
      }
      SuffixSlice(f, start, 4 * i, 4);
      if swap {
        unpacked := unpacked + [Rgba(q[0], q[1], q[2], q[3])];
      } else {
        unpacked := unpacked + [Rgba(q[2], q[1], q[0], q[3])];
      }
      p := next;
    }
    return Ok(unpacked);
  }

  method LoadTruecolor(f: seq<byte>, swap: bool) returns (r: Result<(Picture, string)>)
    ensures r == TruecolorImage(f, swap)
  {
    var (header, pos) := Read(f, 0, HEADER_SIZE);
    var check := CheckHeader(header, 0, TYPE_TRUE_COLOR, false);
    if check.Some? {
      return Err(check.value);
    }
    if |header| <= 16 {
      return Err(IndexError);
    }
    var colormode := header[16];
    var idLength := header[0];
    var width := FromLe(Slice(header, 12, 14));
    var height := FromLe(Slice(header, 14, 16));
    var (_, start) := Read(f, pos, idLength);
    if colormode == 16 {
      var unpacked :- ReadPixels565(f, start, Area(width, height), swap);
      return Ok((Image(width, height, unpacked), TAG_16));
    } else if colormode == 32 {
      var unpacked :- ReadPixels32(f, start, Area(width, height), swap);
      return Ok((Image(width, height, unpacked), TAG_32));
    } else {
      return Err(NotImplemented);
    }
  }
}

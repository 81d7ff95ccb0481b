# zmake in Dafny: the TGA codec and the build logic around it

zmake builds Zepp OS / Amazfit watch applications and watch faces. It also converts
their image assets between PNG and a TGA dialect read by the watches. This project
models the parts of zmake that compute, rather than call out to the file system or to
PIL, and proves what they promise.

- **TGA codec, zmake generation** (`tga_format.dfy`, `tga_save.dfy`, `tga_load.dfy`,
  `tga_roundtrip.dfy`). This covers:
  - the 18-byte header;
  - the 46-byte Image ID (`"SOMH"`, the width, 40 zero bytes);
  - the B,G,R,A palette padded to 256 entries;
  - 16-bit RGB565 and 32-bit pixels;
  - the run-length encoder that patches the head byte of an earlier packet in place.

  Writers and readers are methods over `seq<byte>` with a read cursor. Each is proved
  equal to a specification function. Round-trip lemmas connect the writers to the
  readers: reading a written file gives back the picture, with 16-bit channels cut to
  5/6/5 bits.
- **TGA codec, legacy scripts** (`tga_io.dfy`, `tga_load_legacy.dfy`).
  - `save_tga` has a mode-0 and a mode-16 writer, and `load_tga` dispatches between
    them. Each mode is proved to write exactly the zmake writer's file.
  - The legacy readers are proved to agree with the zmake readers. The one exception is
    the Image ID step, which only the zmake reader has.
- **Format dispatch** (`image_io.dfy`). `get_format`, `load_auto` and `save_auto`
  decide by the PNG signature, then by header byte 2, then by the type tag.
- **Build configuration** (`context.dfy`, `project_build.dfy`, `utils.dfy`). This covers:
  - config overlays and the handler registry (`ZMakeContext` and a `Registry` class);
  - path overrides and target-format selection;
  - the direction decision and the `perform_auto` decision;
  - the `app.json` target merge and ignore-file matching;
  - source concatenation and archive entry names;
  - the `increment_or_add` counter and the opacity scan.
- **Bundle patching** (`zab_patch.dfy`). This covers:
  - the device and source maps, with deduplication and unknown devices;
  - the server id and URLs;
  - the app-type check;
  - `patch_prod2preview` composed over ZIP entries.
- **Converter script** (`converter.dfy`). This covers `load_from_path`, the
  `prepare_config` decision and the per-file step of `to_tga`.

`bytes.dfy`, `strings.dfy` and `dicts.dfy` hold shared definitions:
- bytes, the `Result`/`Option` types, and one `Error` constructor per Python exception
  raised;
- `str` operations (`in`, `endswith`, `replace`, `split`) and `Path.name`;
- JSON documents as insertion-ordered dictionaries.

Model conventions:
- Channel scaling uses exact integer formulas. Python's `round(31/255 * x)` becomes
  `(31x + 127) / 255`, which is exact because for a byte x the quotient is never
  half-way. `int(v * 255/31)` becomes `v * 255 / 31`.
- Every other input is a parameter. This includes file contents, PIL's colour lists and
  format names, directory listings (in the order the source iterates), user answers, the
  clock and the package version.

## Model

| member | source | states |
|---|---|---|
| TgaFormat.TruecolorHeader | zmake/tga_save.py:10-17 | 18 bytes: 46, 0, 2, nine zeros, little-endian width and height, the depth, 32 |
| TgaFormat.PaletteHeader | zmake/tga_save.py:60-70 | 18 bytes: 46, 1, the type code, 0, 0, little-endian palette length, 32, four zeros, width, height, 8, 32 |
| TgaFormat.ZeppId | zmake/tga_save.py:20-22 | 46 bytes: "SOMH", the little-endian width, then 40 zeros |
| TgaFormat.BgraBytesAt | zmake/tga_save.py:33-34 | entry k of the output is pixel k written as B,G,R,A; the output is four bytes per pixel |
| TgaFormat.PadPalette | zmake/tga_save.py:53-57 | the palette is the colour list followed by (0,0,0,255) up to 256 entries |
| TgaFormat.PaddedHoldsColors | zmake/tga_save.py:50-57 | every pixel of the image is in the padded palette, so `palette.index` never fails |
| TgaFormat.IndexOf | zmake/tga_save.py:149 | `palette.index(pixel)` is the first position holding the pixel |
| TgaFormat.Indices | zmake/tga_save.py:148-150 | one index per pixel, each below the palette size, naming that pixel's colour |
| TgaFormat.Pack565IsLittleEndian | zmake/tga_save.py:30-31 | the two written bytes are (r << 11) \| (g << 5) \| b, low byte first |
| TgaFormat.Unpack565 | zmake/tga_load.py:145-148 | the unpacked fields fit 5, 6 and 5 bits |
| TgaFormat.Unpack565OfPack565 | zmake/tga_load.py:144-148 | unpacking the two written bytes gives back r, g and b |
| TgaFormat.Rgb565BytesAt | zmake/tga_save.py:26-31 | pixel k occupies bytes 2k and 2k+1 of the 16-bit data |
| TgaFormat.PacketCount | zmake/tga_load.py:99 | a packet head's count (head & 127) + 1 is between 1 and 128 |
| TgaFormat.PacketSize | zmake/tga_load.py:98-112 | a packet takes 2 bytes for a run and count + 1 bytes for a raw packet |
| TgaFormat.PacketData | zmake/tga_load.py:98-112 | a packet yields exactly count indices |
| TgaFormat.RunPacket | zmake/tga_load.py:100-105 | a head with bit 7 set repeats the next byte count times |
| TgaFormat.RawPacket | zmake/tga_load.py:106-112 | a head with bit 7 clear copies the next count bytes |
| TgaFormat.DecodeRleStep | zmake/tga_load.py:97-112 | packet decoding succeeds exactly when the first packet is whole and the rest decodes; the result is the first packet's data then the rest's |
| TgaFormat.DecodeRleAppend | zmake/tga_load.py:97-112 | decoding two packet streams one after the other concatenates their indices |
| TgaFormat.UnpackRleStep | zmake/tga_load.py:97-112 | while fewer than w·h indices are read, the loop reads one more packet |
| TgaFormat.UnpackRleOfDecoded | zmake/tga_load.py:97-112 | when the packets decode to exactly n indices, the loop stops there and returns them, whatever follows |
| TgaFormat.EntryBytes | zmake/tga_load.py:32-36 | a stored entry B,G,R,A is emitted R,G,B,A; with swapping the stored order is R,G,B,A |
| TgaFormat.PaletteEntriesOfBgra | zmake/tga_load.py:29-38 | reading n entries written as B,G,R,A gives the palette back as R,G,B,A bytes |
| TgaFormat.PaletteColorOfRgbaBytes | zmake/tga_load.py:67 | `putpalette(..., "RGBA")` entry i of those bytes is palette colour i |
| TgaFormat.ToRgba | zmake/tga_load.py:66-72 | converting the indexed image to RGBA keeps its size and gives each pixel its palette colour |
| TgaFormat.Decode565Swap | zmake/tga_load.py:150-151 | with swapping, red and blue change places |
| TgaFormat.Pixel32Swap | zmake/tga_load.py:160-164 | a 32-bit pixel is read B,G,R,A, or R,G,B,A with swapping |
| TgaFormat.Pixels32OfBgra | zmake/tga_load.py:157-164 | reading 32-bit pixels written as B,G,R,A gives the pixels back |
| TgaFormat.Pixels565OfRgb565 | zmake/tga_load.py:141-156 | reading 16-bit pixels gives each pixel with its channels cut to 5/6/5 bits and alpha 255 |
| TgaFormat.QuantizedAt | zmake/tga_save.py:27-29 | the cut applies pixel by pixel |
| TgaFormat.Decode565OfRgb565 | zmake/tga_load.py:144-156 | one written 16-bit pixel reads back as its cut colour |
| TgaFormat.Scale5OfUnscale5 | zmake/tga_save.py:27-29 | scaling a widened 5-bit value down again gives it back |
| TgaFormat.Scale6OfUnscale6 | zmake/tga_save.py:28 | scaling a widened 6-bit value down again gives it back |
| TgaFormat.QuantizeIdempotent | zmake/tga_save.py:27-31 | cutting a colour twice is the same as cutting it once |
| TgaFormat.AreaIsProduct | zmake/tga_load.py:61 | the pixel count is width × height |
| TgaSave.TruecolorFile | zmake/tga_save.py:6-36 | fails exactly for a size that does not fit 16 bits or a depth other than 16 and 32; otherwise the header, then 64 + 2 or 4 bytes per pixel |
| TgaSave.SaveTruecolor | zmake/tga_save.py:6-39 | the bytes written are TruecolorFile |
| TgaSave.AppendRgb565 | zmake/tga_save.py:26-31 | the pixel loop appends every pixel's two RGB565 bytes in order |
| TgaSave.AppendBgra | zmake/tga_save.py:33-34 | the pixel loop appends every pixel's B,G,R,A bytes in order |
| TgaSave.PaletteBase | zmake/tga_save.py:42-81 | no colour list is an AssertionError; otherwise header, ID and 256 palette entries (1,088 bytes), and the palette is the padded colour list |
| TgaSave.PrepPaletteBase | zmake/tga_save.py:42-81 | the loop builds PaletteBase |
| TgaSave.PaletteFile | zmake/tga_save.py:136-153 | fails exactly as the palette base does; otherwise one index byte per pixel after the base |
| TgaSave.SavePalette | zmake/tga_save.py:136-153 | the bytes written are PaletteFile |
| TgaSave.FirstIndex | zmake/tga_save.py:103-105 | the first index opens a raw packet of one |
| TgaSave.ExtendRun | zmake/tga_save.py:106-108 | a repeated index grows a run that is not full, and the packets still decode to the indices so far |
| TgaSave.RawOneToRun | zmake/tga_save.py:109-113 | a repeat after a one-index raw packet turns it into a run of two |
| TgaSave.SplitFullRun | zmake/tga_save.py:114-120 | a repeat after a full run (head 255) leaves a run of 127 and opens a run of two |
| TgaSave.SplitRaw | zmake/tga_save.py:114-120 | a repeat after a longer raw packet moves its last index into a new run of two |
| TgaSave.ExtendRaw | zmake/tga_save.py:121-124 | a new index grows a raw packet below 128 entries |
| TgaSave.NewRaw | zmake/tga_save.py:125-129 | otherwise a new raw packet of one is opened |
| TgaSave.EncoderStateShape | zmake/tga_save.py:97-129 | the open packet is the last one, whole: 2 bytes for a run, head + 2 for a raw packet |
| TgaSave.EncoderStateDecodes | zmake/tga_save.py:97-129 | at every step the encoder's output decodes to exactly the indices consumed |
| TgaSave.AppendIndex | zmake/tga_save.py:100-129 | one loop step keeps the encoder state for the indices plus the new one |
| TgaSave.RleEncode | zmake/tga_save.py:97-129 | the run-length body decodes to exactly the pixels' palette indices (the single byte 0 for no pixels) |
| TgaSave.RetypeToRle | zmake/tga_save.py:93-94 | setting byte 2 to 9 gives the type-9 header over the same ID and palette |
| TgaSave.SaveRlPalette | zmake/tga_save.py:84-133 | fails as the palette base does; otherwise the type-9 base followed by a body that decodes to the indices |
| TgaLoad.CheckHeader | zmake/tga_load.py:48-52 | passes exactly when bytes 1, 2 (and 7 = 32 for palettes) match; a short header is an IndexError, a mismatch an AssertionError |
| TgaLoad.ParseHeaderOfPaletteHeader | zmake/tga_load.py:20-26 | the palette length, width and height read back as written |
| TgaLoad.ReadPalette | zmake/tga_load.py:29-38 | n entries consume and emit 4·n bytes; fewer than 4·n bytes left is a ValueError |
| TgaLoad.FetchPalette | zmake/tga_load.py:29-38 | the loop computes ReadPalette |
| TgaLoad.PutData | zmake/tga_load.py:68 | `putdata` fails on more data than w·h and pads short data with index 0 |
| TgaLoad.PutPalette | zmake/tga_load.py:67 | `putpalette(raw, "RGBA")` fails with ValueError exactly when the palette has more than 256 four-byte entries, and otherwise keeps it |
| TgaLoad.CropRow | zmake/tga_load.py:16 | a cropped row keeps the columns left of the new width, with 0 beyond the old width |
| TgaLoad.Crop | zmake/tga_load.py:16 | the crop has the new width, the same height and palette, and w·h indices |
| TgaLoad.ApplyZeppHeaderAsWritten | zmake/tga_load.py:7-17 | the result is None exactly when the ID is shorter than 46 bytes or lacks "SOMH" |
| TgaLoad.ApplyZeppHeader | zmake/tga_load.py:7-17 | without a Zepp ID the image is kept; with one the width becomes the ID's width |
| TgaLoad.ApplyZeppIdOfWriter | zmake/tga_load.py:13-17 | the ID the writer puts in leaves the image unchanged |
| TgaLoad.PaletteImageAgrees | zmake/tga_load.py:41-72 | with a Zepp ID, the reader as written and the reader with the ID step kept agree |
| TgaLoad.NoIdFileLosesImage | zmake/tga_load.py:70 | a valid type-1 file with no Image ID fails with AttributeError as written |
| TgaLoad.NoIdFileLoads | zmake/tga_load.py:41-72 | the same file loads as an empty image once the ID step keeps the image |
| TgaLoad.PaletteImage | zmake/tga_load.py:41-72 | a header error is passed on; a palette of more than 256 entries is a ValueError; a loaded image has at most 256 entries and w·h indices |
| TgaLoad.PaletteImageAsWritten | zmake/tga_load.py:41-72 | the reader as written agrees with PaletteImage except that it may fail with AttributeError where PaletteImage succeeds |
| TgaLoad.LoadPalette | zmake/tga_load.py:41-72 | the reader computes PaletteImage (with the Image ID step as intended): the header errors, a ValueError for a palette of more than 256 entries, else w·h indices |
| TgaLoad.ReadPacket | zmake/tga_load.py:98-112 | one packet: its data and the cursor after it; a truncated packet is an IndexError |
| TgaLoad.UnpackRleAt | zmake/tga_load.py:97-112 | one iteration of the packet loop advances by one packet |
| TgaLoad.ReadRlePixels | zmake/tga_load.py:95-112 | the packet loop computes UnpackRle: it stops at w·h indices or more, overshoot kept |
| TgaFormat.UnpackRle | zmake/tga_load.py:95-112 | the packet loop fails only with IndexError and otherwise yields at least w·h indices |
| TgaLoad.RlPaletteImage | zmake/tga_load.py:75-118 | a header error is passed on; an oversize palette is a ValueError, or the IndexError of truncated data read before it; a loaded image has at most 256 entries and w·h indices |
| TgaLoad.LoadRlPalette | zmake/tga_load.py:75-118 | the reader computes RlPaletteImage: the header errors, an IndexError for truncated data, a ValueError for a palette of more than 256 entries, else w·h indices |
| TgaLoad.ReadPixels565 | zmake/tga_load.py:141-156 | fails exactly when fewer than 2·n bytes are left (ValueError); otherwise the n decoded 16-bit pixels |
| TgaLoad.ReadPixels32 | zmake/tga_load.py:157-164 | fails exactly when fewer than 4·n bytes are left; otherwise the n decoded 32-bit pixels |
| TgaLoad.TruecolorImage | zmake/tga_load.py:121-172 | a header error is passed on; a depth other than 16 or 32 raises `Exception("Not implemented")`; a loaded image has depth 16 or 32, the matching tag and w·h pixels |
| TgaLoad.LoadTruecolor | zmake/tga_load.py:121-172 | the reader computes TruecolorImage, tagged "TGA-16" or "TGA-32" |
| TgaRoundTrip.PaletteBaseReads | zmake/tga_load.py:48-60 | a written palette base passes the header checks and gives back the ID, size and palette |
| TgaRoundTrip.ToRgbaOfIndices | zmake/tga_save.py:148-150 | the written indices over the written palette convert back to the picture |
| TgaRoundTrip.PaletteFileLoads | zmake/tga_save.py:136-153 | a type-1 file reads back as the picture's indices over the padded palette |
| TgaRoundTrip.PaletteRoundTrip | zmake/tga_save.py:136-153 | saving as type 1, loading and converting to RGBA gives back the picture |
| TgaRoundTrip.BodyUnpacks | zmake/tga_load.py:97-112 | the packet loop reads an encoded body back as exactly its indices |
| TgaRoundTrip.RlPaletteFileLoads | zmake/tga_save.py:84-131 | a type-9 file reads back as the picture's indices over its palette |
| TgaRoundTrip.RlPaletteRoundTrip | zmake/tga_save.py:97-131 | decode(encode(pixels)) gives back the picture through the RLE writer and reader |
| TgaRoundTrip.TruecolorHeaderReads | zmake/tga_load.py:128-136 | a written true-colour header passes the checks and gives back depth, width and height |
| TgaRoundTrip.Truecolor32RoundTrip | zmake/tga_save.py:32-34 | a 32-bit file reads back as the same picture, tagged "TGA-32" |
| TgaRoundTrip.Truecolor16RoundTrip | zmake/tga_save.py:25-31 | a 16-bit file reads back as the picture cut to 5/6/5 bits, tagged "TGA-16" |
| TgaLoadLegacy.ParseHeader | tga_load.py:4-9 | byte 0, then the palette length, width and height as the zmake parser reads them |
| TgaLoadLegacy.ParseHeaderOfPaletteHeader | tga_load.py:4-9 | a written palette header parses back to (46, length, width, height) |
| TgaLoadLegacy.FetchPalette | tga_load.py:12-18 | the loop reads the same palette as the zmake reader without swapping |
| TgaLoadLegacy.PaletteImage | tga_load.py:21-45 | the header errors; a palette of more than 256 entries is a ValueError; a loaded image has at most 256 entries and w·h indices |
| TgaLoadLegacy.LoadPalette | tga_load.py:21-45 | the reader computes PaletteImage, including the ValueError of `putpalette` for more than 256 entries |
| TgaLoadLegacy.ZmakePaletteAddsZeppHeader | tga_load.py:21-45 | the zmake type-1 reader is this one followed by the Image ID step |
| TgaLoadLegacy.LoadRlPalette | tga_load.py:48-89 | the legacy type-9 reader computes the zmake reader's result without swapping, the ValueError for more than 256 palette entries included |
| TgaLoadLegacy.DropAlphas | tga_load.py:120-122 | each legacy pixel is the (r, g, b) of the zmake pixel |
| TgaLoadLegacy.ReadPixels565 | tga_load.py:111-122 | fails exactly when fewer than 2·n bytes are left; otherwise the zmake 16-bit pixels without alpha |
| TgaLoadLegacy.TruecolorImage | tga_load.py:92-129 | a loaded image has w·h pixels |
| TgaLoadLegacy.LoadTruecolor | tga_load.py:92-129 | the reader computes TruecolorImage |
| TgaLoadLegacy.TruecolorAgrees | tga_load.py:111-124 | the legacy reader succeeds exactly when the zmake reader yields a "TGA-16" image, and returns its pixels without alpha |
| TgaIo.ModeHeaderIsZmakeHeader | tga_io.py:25-36 | in mode 0 the header is the zmake type-1 header, in every other mode the zmake true-colour header with the mode as depth |
| TgaIo.Mode0IsPaletteFile | tga_io.py:16-51 | a mode-0 file is exactly the zmake type-1 file |
| TgaIo.Mode16IsTruecolorFile | tga_io.py:47-57 | a mode-16 file is exactly the zmake 16-bit file |
| TgaIo.OtherModeWritesNoPixels | tga_io.py:47-57 | any other mode writes the header and ID and no pixel bytes |
| TgaIo.AppendPixels | tga_io.py:47-57 | the pixel loop appends indices in mode 0, RGB565 bytes in mode 16, nothing otherwise |
| TgaIo.TgaFile | tga_io.py:4-60 | mode 0 without a colour list is an AssertionError, then a dimension over 16 bits an OverflowError, then a mode outside 0..255 a ValueError, and nothing else fails; the file's length, image type and depth byte follow the mode |
| TgaIo.SaveTga | tga_io.py:4-60 | the bytes written are TgaFile |
| TgaIo.TgaImage | tga_io.py:63-77 | a short header is an IndexError; byte 2 = 2 gives the true-colour reader's result, 1 the palette reader's, anything else a ValueError; a type-1 file with more than 256 palette entries is a ValueError |
| TgaIo.LoadTga | tga_io.py:63-77 | the dispatch computes TgaImage, so a palette of more than 256 entries is a ValueError |
| TgaIo.Mode0RoundTrip | tga_io.py:80-107 | a mode-0 file loads back as the picture's indices over the padded palette |
| TgaIo.Mode16RoundTrip | tga_io.py:110-140 | a mode-16 file loads back as the picture cut to 5/6/5 bits, without alpha |
| ImageIo.GetFormatAsWritten | zmake/image_io.py:10-23 | the pair (None, "N/A") is returned exactly when the header is neither PNG nor a known TGA type |
| ImageIo.GetFormat | zmake/image_io.py:10-23 | "PNG" exactly for the signature; the same tags as written, with "N/A" as a string; IndexError only for files of 2 bytes or fewer |
| ImageIo.FormatOfTga | zmake/image_io.py:16-23 | a TGA file is told by byte 2 alone |
| ImageIo.FormatOfPaletteFile | zmake/image_io.py:18-19 | a type-1 file is "TGA-P" |
| ImageIo.FormatOfTruecolorFile | zmake/image_io.py:16-17 | a 16-bit or 32-bit file is "TGA-16" |
| ImageIo.FormatOfRlPaletteFile | zmake/image_io.py:20-21 | a type-9 file is "TGA-RLP" |
| ImageIo.LoadAuto | zmake/image_io.py:26-40 | (with get_format and the Image ID step as intended) the same decision as get_format; no image exactly for "N/A"; the tag is get_format's except "TGA-32" for 32-bit files; a reader's error, such as the ValueError for more than 256 palette entries, is passed on |
| ImageIo.LoadAutoOfPaletteFile | zmake/image_io.py:35-36 | a type-1 file loads as its indexed image, tagged "TGA-P" |
| ImageIo.LoadAutoOfTruecolor16 | zmake/image_io.py:33-34 | a 16-bit file loads as the cut picture, tagged "TGA-16" |
| ImageIo.LoadAutoOfTruecolor32 | zmake/image_io.py:33-34 | a 32-bit file loads as the picture, tagged "TGA-32" |
| ImageIo.LoadAutoOfRlPaletteFile | zmake/image_io.py:37-38 | a type-9 file loads as its indexed image, tagged "TGA-RLP" |
| ImageIo.SaveAuto | zmake/image_io.py:43-60 | nothing is written exactly for an unknown tag; each known tag writes its writer's file ("TGA-16" at depth 16, "TGA-32" at 32) |
| Utils.Incremented | zmake/utils.py:23-28 | an absent key becomes 1, a present key goes up by 1, no other key changes, and the keys grow by at most that key |
| Utils.Counter.IncrementOrAdd | zmake/utils.py:23-28 | the counter's dictionary becomes Incremented of the old one |
| Utils.Counter.CountAll | zmake/utils.py:23-28 | repeated calls tally the keys in order |
| Utils.TallyCounts | zmake/utils.py:23-28 | after a sequence of calls a key's value is its old value plus its number of calls |
| Utils.FreshKeyCounts | zmake/utils.py:23-28 | n calls on a fresh key leave it at n |
| Utils.ScanOpacity | zmake/utils.py:45-50 | the RGB path is taken exactly when the mode is not "RGBA" or every pixel has alpha 255; the scan stops at the first translucent pixel |
| Utils.BackupName | zmake/utils.py:39-40 | the backup file name inside the backup directory ends "__" + the file name, and its time tag has no space or colon |
| Utils.BackupTagClean | zmake/utils.py:39 | replacing " " by "_" and dropping ":" leaves neither character |
| Utils.ColorCompress | zmake/utils.py:31-57 | a backup is made exactly when a file is given, at backup directory / BackupName; the quantisation goes through RGB exactly when the scan finds the image opaque |
| Converter.LoadFromPath | converter.py:29-43 | nothing for a missing path, (p, p) for a file, each listed PNG paired with itself for a directory |
| Converter.PngCountExtremes | converter.py:50-56 | the PNG count is 0 exactly when no file has "PNG" in its first four bytes, and the full count exactly when every file does |
| Converter.Decision | converter.py:63-68 | TGA→PNG exactly when no file is PNG; PNG→TGA exactly when there are files and all are PNG; quantize exactly when some PNG has over 256 colours |
| Converter.PrepareConfig | converter.py:46-68 | no PNG gives (TGA→PNG, False), no TGA gives (PNG→TGA, quantize), both give (ask, quantize); PIL opens the PNGs counted by ColorChecks |
| Converter.ColorChecksStop | converter.py:55-59 | without an over-256-colour PNG every PNG is checked; with one, exactly the PNGs up to the first such file |
| Converter.TgaAction | converter.py:72-109 | non-PNG files are copied exactly when source ≠ destination; mode 16 exactly for ".rgb.png"; compression exactly in mode 0 with no colours |
| Converter.UncompressedSaveWrites | converter.py:109 | an uncompressed save writes the legacy writer's file, which in mode 0 never fails the colour assertion |
| Converter.ToTga | converter.py:71-109 | the loop takes TgaAction for every file in order |
| Context.Registry.Register | zmake/context.py:20-24 | a handler is appended after those registered before |
| Context.Registry.RunAll | zmake/context.py:243-244 | the handlers run once each, in registration order |
| Context.Present | zmake/context.py:51-53 | the overlay of every existing location is kept and every overlay kept is an existing file's; all of them in order when every location exists, none when none does, never more than the locations |
| Context.Overlaid | zmake/context.py:49-60 | merging keeps the config's keys in place and adds only keys some overlay has |
| Context.MergeOverlay | zmake/context.py:59-60 | `config[i] = overlay[i]` for each key in order computes the merge Update(config, overlay) |
| Context.OverlaidLookup | zmake/context.py:49-60 | a key's merged value comes from the last overlay that has it, else from the earlier config |
| Context.OverlaidUnique | zmake/context.py:59-60 | merging keeps each key once |
| Context.FirstAnswer | zmake/context.py:69-74 | the answer is the first one in the options, all earlier ones are not; running out of input is an EOFError |
| Context.AskQuestion | zmake/context.py:69-74 | the loop computes FirstAnswer |
| Context.PerformAuto | zmake/context.py:76-88 | unpack exactly for ".bin"/".zip", else a new project for an empty directory, else build with app.json, else convert |
| Context.FormatCounts | zmake/context.py:121-137 | (as intended, "N/A" a string) at most one count per file; the only failure is an IndexError |
| Context.UnknownFileFails | zmake/context.py:130-137 | as written, a file of unknown type stops the scan with AttributeError |
| Context.UnknownFileSkipped | zmake/context.py:131-132 | with "N/A" as a string the file is skipped |
| Context.FormatCountsAsWritten | zmake/context.py:129-137 | the scan as written succeeds only with the corrected counts, and its only other failure is AttributeError |
| Context.FormatCountsOk | zmake/context.py:129-137 | the scan succeeds exactly when get_format reads every file |
| Context.FormatCountsNoPng | zmake/context.py:134-135 | no PNG is counted exactly when no file's format is "PNG" |
| Context.FormatCountsNoTga | zmake/context.py:136-137 | no TGA is counted exactly when no file's format starts with "TGA" |
| Context.FormatCountsAgree | zmake/context.py:129-137 | without unknown files the scan as written and the corrected one agree |
| Context.CountFormats | zmake/context.py:121-137 | the loop computes FormatCounts (as intended) |
| Context.ConvertAuto | zmake/context.py:121-151 | (as intended, unknown files skipped) no TGA means encode, else no PNG means decode, else the user's first "1" or "2" decides |
| Context.FirstMode | zmake/context.py:162-165 | the first of rgb, rgba, p, rlp whose ".x.png" ends the name or ".x/" is in the path |
| Context.TargetType | zmake/context.py:153-167 | a missing def_format is a KeyError; otherwise the first matching mode, else def_format |
| Context.RgbNameIs16 | zmake/context.py:163-164 | a name ending ".rgb.png" gives "TGA-16" |
| Context.PaletteDirIsP | zmake/context.py:163-164 | a path inside a ".p/" directory gives "TGA-P" when rgb and rgba do not match |
| Context.CheckOverrideRelative | zmake/context.py:216-221 | a listed name gives its override, any other name is returned unchanged |
| Context.RelativeNameOfJoin | zmake/context.py:224-226 | the relative name of project/rel is rel |
| Context.CheckOverride | zmake/context.py:223-232 | a listed relative name gives project/override; an unlisted one returns the path unchanged |
| Context.CheckOverrideAgrees | zmake/context.py:216-232 | check_override on project/rel is project/check_override_relative(rel) |
| Context.TargetDir | zmake/context.py:237-241 | succeeds exactly when app.appType exists and target_dir_override is set to a string; "page" for appType "app", else "watchface"; a non-empty target_dir_override wins |
| Context.DropExtension | zmake/context.py:110 | `str(path)[:-4]` drops the last four characters |
| Context.ZMakeContext.constructor | zmake/context.py:38-47 | fields start empty and the config is the overlays merged in order |
| Context.ZMakeContext.LoadConfig | zmake/context.py:49-60 | the config becomes the present overlays merged in order; nothing else changes |
| Context.ZMakeContext.ProcessBin | zmake/context.py:109-118 | an existing destination is a FileExistsError; otherwise the path becomes the name without its extension |
| Context.ZMakeContext.ProcessProject | zmake/context.py:234-244 | app.json is read through check_override, then the target directory is set and the handlers run |
| ProjectBuild.RegisterHandlers | zmake/project_build.py:25-396 | the fourteen handlers are registered in file order |
| ProjectBuild.IgnoreEntries | zmake/project_build.py:18 | the ignore list defaults to [".DS_Store", "Thumbs.db"] |
| ProjectBuild.Ignored | zmake/project_build.py:18-22 | a non-string entry reached is a TypeError; a list of strings never fails |
| ProjectBuild.ShouldIgnore | zmake/project_build.py:17-22 | a valid ignore list (absent, or a list of strings) never fails; the only failure is TypeError |
| ProjectBuild.IgnoredIff | zmake/project_build.py:17-22 | a name is ignored exactly when some entry is a substring of it |
| ProjectBuild.DefaultIgnore | zmake/project_build.py:18-20 | without ignore_files, exactly names containing ".DS_Store" or "Thumbs.db" are ignored |
| ProjectBuild.ShouldIgnoreFile | zmake/project_build.py:17-22 | the loop computes ShouldIgnore |
| ProjectBuild.ChosenTarget | zmake/project_build.py:70-72 | zeus_target when it names a target, else the first target; no targets is an IndexError |
| ProjectBuild.SelectedTarget | zmake/project_build.py:69-78 | succeeds exactly when zeus_target is set, targets is an object and the chosen target exists and is an object; then the chosen target's fields, under the chosen id |
| ProjectBuild.Stamped | zmake/project_build.py:58-67 | packageInfo and platforms are present after stamping |
| ProjectBuild.StampedGet | zmake/project_build.py:58-67 | stamping sets packageInfo and platforms, keeps every other key (among them "targets") and keeps keys unique |
| ProjectBuild.ProcessedAppJson | zmake/project_build.py:55-80 | a non-object app.json is a TypeError; a missing zeus_platforms a KeyError; a result is an object with packageInfo and platforms |
| ProjectBuild.ProcessedAppJsonKeys | zmake/project_build.py:55-80 | packageInfo and platforms are set; with targets, each target key overwrites the top level and "targets" is deleted; without targets nothing is merged |
| ProjectBuild.ProcessAppJson | zmake/project_build.py:55-80 | the context's app.json and asset path become ProcessedAppJson's |
| ProjectBuild.ConcatenationAppend | zmake/project_build.py:196-209 | concatenation distributes over appending files |
| ProjectBuild.SourceOrder | zmake/project_build.py:195-209 | lib files, then src files, then entrypoint.js, each as "// source: path\n" + text + "\n" |
| ProjectBuild.AppendSources | zmake/project_build.py:200-203 | the loop appends each file's piece in order |
| ProjectBuild.TemplateFilled | zmake/project_build.py:211 | the one "{content}" of the template is replaced by the sources |
| ProjectBuild.HandleSrc | zmake/project_build.py:189-214 | nothing without src/ or with an index.js present; otherwise build/<target>/index.js holds the filled template |
| ProjectBuild.EntryName | zmake/project_build.py:319 | the entry name is the file path after the build directory, leading "/" kept |
| ProjectBuild.Entries | zmake/project_build.py:317-323 | at most one entry per file; a valid ignore list never fails; the only failure is TypeError |
| ProjectBuild.EntriesWritten | zmake/project_build.py:318-323 | every written entry is a non-ignored file under its name, and every non-ignored file is written |
| ProjectBuild.WriteEntries | zmake/project_build.py:317-323 | the loop computes Entries |
| ProjectBuild.OuterEntries | zmake/project_build.py:333-336 | "<base>/<base>.bin", "<base>/infos.xml" and, with a preview, "<base>/<base>.png" |
| ProjectBuild.MakePackage | zmake/project_build.py:310-336 | the device archive holds the entries; the outer ZIP is made exactly when package_extension is not "zip" |
| ProjectBuild.MakeZeusPackage | zmake/project_build.py:341-364 | nothing unless with_zeus_compat; otherwise the device archive's entries and app.json on the app side |
| ZabPatch.Distinct | zmake/zab_patch.py:117-119 | deduplication keeps exactly the elements present |
| ZabPatch.DistinctSnoc | zmake/zab_patch.py:118-119 | a new element is appended only when not seen |
| ZabPatch.DistinctNoRepeats | zmake/zab_patch.py:117-126 | the result has no repeats, and a list without repeats is kept as is |
| ZabPatch.KnownSources | zmake/zab_patch.py:112-115 | every platform's deviceSource, each hashable and in the device table; the only failures are KeyError, TypeError and ValueError |
| ZabPatch.KnownSourcesOk | zmake/zab_patch.py:110-115 | the sources are read exactly when every platform is an object whose deviceSource is hashable and in the table |
| ZabPatch.UnknownSourceFails | zmake/zab_patch.py:113-115 | an unknown deviceSource, after known ones, is a ValueError |
| ZabPatch.UnhashableSourceFails | zmake/zab_patch.py:113-114 | a list or object as deviceSource, after known ones, is a TypeError of the dict lookup |
| ZabPatch.DeviceMap | zmake/zab_patch.py:110-136 | succeeds exactly when every platform names a hashable, known deviceSource; otherwise the first failing platform's KeyError (no deviceSource), TypeError (not an object, or a list or object as source) or ValueError (unknown source); each map has at most one entry per platform |
| ZabPatch.DistinctWithValue | zmake/zab_patch.py:117-134 | the deduplicated list mapped to one value has no repeated keys, exactly the list's elements as keys, and that value everywhere |
| ZabPatch.DeviceMapKeys | zmake/zab_patch.py:110-136 | the devices appear once each, all mapped to the QR URL; the source map's keys are exactly the sources, once each, mapped to the redirect URL |
| ZabPatch.GetDeviceMap | zmake/zab_patch.py:110-136 | the three loops compute DeviceMap, or the first platform's error |
| ZabPatch.Devices | zmake/zab_patch.py:111-119 | the first loop yields the distinct devices in first-occurrence order, or the first error |
| ZabPatch.DeviceQr | zmake/zab_patch.py:122-126 | every device maps to the QR URL |
| ZabPatch.SourceMap | zmake/zab_patch.py:129-134 | every distinct source maps to the redirect URL |
| ZabPatch.ServerId | zmake/zab_patch.py:32 | the server id is the file name up to its first "-" |
| ZabPatch.ServerIdOf | zmake/zab_patch.py:32 | "id-rest" gives id |
| ZabPatch.AppUrlsOfHttps | zmake/zab_patch.py:178-179 | redirect url/filename; QR URL with "https:" replaced by "zpkd1:" |
| ZabPatch.WatchfaceUrlsOfHttps | zmake/zab_patch.py:157-159 | the .json name under the URL; QR URL with the "watchface:" scheme |
| ZabPatch.PackageUrls | zmake/zab_patch.py:50-53 | the redirect URL lies under server_url/server_id/ and the QR URL ends with the same name; for an app the name is the file name |
| ZabPatch.CheckAppTypes | zmake/zab_patch.py:39-47 | a ValueError exactly when a later appType differs from the first non-empty one |
| ZabPatch.Prod2PreviewDoc | zmake/zab_patch.py:227-230 | packageInfo.mode becomes "preview" when packageInfo exists; every other key is unchanged |
| ZabPatch.ApplyPatch | zmake/zab_patch.py:223-230 | entries other than app.json come back unchanged |
| ZabPatch.ApplyPatchesAppend | zmake/zab_patch.py:210-211 | applying p then q is applying p + q |
| ZabPatch.ApplyPatches | zmake/zab_patch.py:210-211 | entries other than app.json pass through the patches unchanged; the only failures are JSON decoding and TypeError |
| ZabPatch.Prod2PreviewIdempotent | zmake/zab_patch.py:223-230 | patching twice is patching once |
| ZabPatch.PatchedEntries | zmake/zab_patch.py:208-212 | every entry keeps its name and gets the patches applied in order |
| ZabPatch.ApplyZip | zmake/zab_patch.py:203-217 | the loop computes PatchedEntries |
| ZabPatch.ApplyAll | zmake/zab_patch.py:210-211 | the inner loop computes ApplyPatches |
| ZabPatch.PatchedPackage | zmake/zab_patch.py:190-195 | only ".zip" entries are kept, each as an archive |
| ZabPatch.PatchedPackageNames | zmake/zab_patch.py:190-195 | the kept entries are exactly the ".zip" names, in order |
| ZabPatch.ZipNames | zmake/zab_patch.py:190-191 | the ".zip" names of the package |
| ZabPatch.ApplyZpk | zmake/zab_patch.py:185-200 | the loop computes PatchedPackage |
| ZabPatch.ProcessAppZpk | zmake/zab_patch.py:170-180 | the package patched with prod2preview, plus the app redirect and QR URLs |
| Dicts.GetUpdate | zmake/context.py:59-60 | after copying every key of an overlay, its keys have its values and the others keep theirs |

## Left out

- zmake/data/zeus_fixes_inject.js: its five wrappers call a device runtime that is not part of this model.
- The Qt front end, the command-line entry points, packaging and the external tool runner: UI, threads and subprocesses.
- PIL itself (`Image.open`, `convert`, `getcolors`, `quantize`, `crop`, `thumbnail`, `save`) is not modelled. Its results are inputs: a colour list of at most 256 entries, or None above 256, and PIL's format name. `crop`, `putdata` and `putpalette` are modelled on index and byte sequences; `putpalette` refuses more than 256 entries. The final `convert("RGBA")` of the readers is modelled by ToRgba in the round-trip lemmas only.
- File contents, directory walks (`rglob`, `sorted`, `iterdir`), ZIP reading and writing, and JSON parsing and printing are given already done. Archives are lists of named entries. A document that does not parse is an Err.
- Paths are "/"-joined strings without normalisation.
- `time.time()`, `datetime.today()`, `random.randint`, `os.getlogin()` and the package version are parameters or left out.
- `process_empty`, `process_encode_images` and `process_decode_images` are not modelled. They drive PIL and the file system per file; their per-file decisions (TargetType, LoadAuto, SaveAuto, the counter) are modelled.
- These handlers are registered by name only: pre/post-build commands, prepare, handle_assets, common files, handle_appjs, handle_app, post-processing, preview and adb install. Their bodies are file I/O, subprocesses and PIL.
- `process` in zab_patch.py: the appType check, server id, URLs and device maps are modelled. The mapping_data merge, the QR image, the watch-face JSON and `process_wf_zpk`'s reads from the device archive are not.
- `get_device_map_app_json`: its only call is commented out.
- `_get_analytics`: it only prints a report, with a float percentage.
- `to_png` and `get_backup_path` in converter.py: file copies and PIL saves.
- `get_app_asset`: it only reads a file. Its text is a parameter (the `basement.js` template).
- Call-signature mismatches are runtime errors of the callers, not modelled:
  - `load_auto`/`save_auto` take an extra `encode_mode` argument at zmake/context.py:177, 190, 207 and zmake/project_build.py:107, 123, 305;
  - `to_tga` is called with two arguments;
  - `save_tga` is called without a mode.
- Config overlays are taken to be JSON objects: the parsed `zmake.json` files are given as dictionaries, so a file holding any other JSON value is not modelled.
- `overrides`, `targets`, the ignore list and a zpk's `platforms` that are not the JSON object or list the code expects become TypeError, where Python would iterate them in its own way (a string character by character, a dict by its keys, so an empty string or dict gives no entries).
- A non-string `target_dir_override` or `package_extension` is a TypeError, where Python would format it.
- ProjectBuild.ProcessedAppJsonKeys: reads the chosen target once, before the merge. A target whose own fields include "targets" would change what Python reads in later iterations; that case is not modelled.
- ZabPatch.KnownSources: a deviceSource of true or false is not matched against a table key 1 or 0, although Python's `True == 1` would match them; JSON numbers are integers only, so 1.0 is not modelled either.
- TgaSave.PaletteBase: requires a colour list of at most 256 entries, since PIL's `getcolors()` returns None above that.
- TgaLoad.ReadPalette: its contract states lengths and failure only. The entry order is stated by EntryBytes and PaletteEntriesOfBgra.
- TgaLoadLegacy.PaletteImage: its contract states the errors and sizes only. The pixels are stated by LoadPalette and ZmakePaletteAddsZeppHeader.
- TgaLoadLegacy.TruecolorImage: its contract states the image size only. The rest is stated by TruecolorAgrees.
- TgaLoad.LoadPalette: computes the intended `_apply_zepp_header`, which keeps an image without a Zepp ID. The reader as written is PaletteImageAsWritten; its AttributeError is shown by NoIdFileLosesImage.
- ImageIo.LoadAuto: uses the intended `get_format` (the string "N/A") and the intended type-1 reader. The as-written behaviour is stated by GetFormatAsWritten, PaletteImageAsWritten and NoIdFileLosesImage.
- Context.CountFormats: computes the intended scan, where an unknown file is skipped. The scan as written is FormatCountsAsWritten; its AttributeError is shown by UnknownFileFails.
- Context.ConvertAuto: decides from the intended scan. With a file of unknown type the scan as written stops with AttributeError (UnknownFileFails) before any decision.

## Findings

| source | as written | input that shows it | evidently intended | confidence | as-written member | corrected member |
|---|---|---|---|---|---|---|
| zmake/image_io.py:22-23, zmake/context.py:130-137 | `get_format` returns the pair `(None, "N/A")` for an unknown header, so `file_type == "N/A"` is false and `file_type.startswith` raises AttributeError | a file of four zero bytes in the directory being converted | return the string "N/A", so the file is skipped | high, not executed | Context.UnknownFileFails | Context.UnknownFileSkipped |
| zmake/tga_load.py:7-9, 70-72 | `_apply_zepp_header` returns None when the Image ID is missing, and `load_palette_tga` then calls `.convert` on None | a valid 18-byte type-1 header with id length 0 and size 0×0 | keep the image unchanged when there is no Zepp ID | high, not executed | TgaLoad.NoIdFileLosesImage | TgaLoad.NoIdFileLoads |

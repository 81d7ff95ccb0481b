/** The TGA layout the Zepp OS tools write: the 18-byte header (Fields 1-5 of the
    Truevision TGA 2.0 specification), the vendor's 46-byte Image ID, palettes stored
    as B,G,R,A entries, 16-bit RGB565 and 32-bit B,G,R,A pixels, and the run-length
    packets of image type 9. Everything here is a value; the writers and readers that
    produce and consume these bytes step by step are in TgaSave, TgaLoad, TgaLoadLegacy
    and TgaIo. */
module TgaFormat {
  import opened Bytes

  datatype Rgba = Rgba(r: byte, g: byte, b: byte, a: byte)
  datatype Rgb = Rgb(r: byte, g: byte, b: byte)

  /** An image after `img.convert("RGBA")`: row-major pixels. */
  datatype Image = Image(width: nat, height: nat, pixels: seq<Rgba>)
  type Picture = img: Image | |img.pixels| == Area(img.width, img.height) witness Image(0, 0, [])

  /** The pixel count `width * height`, row by row. */
  function Area(width: nat, height: nat): nat
  {
    if height == 0 then 0 else Area(width, height - 1) + width
  }

  lemma {:induction false} AreaIsProduct(width: nat, height: nat)
    ensures Area(width, height) == width * height
  {
    if height > 0 {
      AreaIsProduct(width, height - 1);
    }
  }

  /** A "P" image as the loaders build it: the palette as R,G,B,A bytes (what
      `putpalette(palette_raw, "RGBA")` receives) and one palette index per pixel. */
  datatype IndexedImage = IndexedImage(width: nat, height: nat, palette: seq<byte>, indices: seq<byte>)

  /** An "RGB" image, as the legacy true-colour loaders build it. */
  datatype RgbImage = RgbImage(width: nat, height: nat, pixels: seq<Rgb>)

  const HEADER_SIZE := 18
  const ID_SIZE := 46
  /** "SOMH", the first four bytes of the Zepp OS Image ID. */
  const ZEPP_MAGIC: seq<byte> := [0x53, 0x4f, 0x4d, 0x48]
  const PALETTE_SIZE := 256
  /** The colour that pads a palette up to 256 entries. */
  const PAD_COLOR := Rgba(0, 0, 0, 255)

  const TYPE_COLOR_MAPPED: byte := 1
  const TYPE_TRUE_COLOR: byte := 2
  const TYPE_RLE_COLOR_MAPPED: byte := 9

  predicate Fits16(x: nat) { x < 0x1_0000 }

  // ---------------------------------------------------------------------------
  // Header and Image ID

  /** The header of a type-2 (true-colour) file. */
  function TruecolorHeader(width: nat, height: nat, depth: byte): (h: seq<byte>)
    requires Fits16(width) && Fits16(height)
    ensures |h| == HEADER_SIZE
    ensures h[0] == ID_SIZE && h[1] == 0 && h[2] == TYPE_TRUE_COLOR
    ensures forall k :: 3 <= k < 12 ==> h[k] == 0
    ensures FromLe(h[12..14]) == width && FromLe(h[14..16]) == height
    ensures h[16] == depth && h[17] == 32
  {
    FromLeOfLe16(width);
    FromLeOfLe16(height);
    var h := [ID_SIZE as byte, 0, TYPE_TRUE_COLOR] + Zeros(9) + Le16(width) + Le16(height) + [depth, 32];
    assert h[12..14] == Le16(width) && h[14..16] == Le16(height);
    h
  }

  /** The header of a colour-mapped file (type 1, or 9 when run-length encoded) whose
      palette has `paletteLength` 32-bit entries and whose pixels are 8-bit indices. */
  function PaletteHeader(width: nat, height: nat, typeCode: byte, paletteLength: nat): (h: seq<byte>)
    requires Fits16(width) && Fits16(height) && Fits16(paletteLength)
    ensures |h| == HEADER_SIZE
    ensures h[0] == ID_SIZE && h[1] == 1 && h[2] == typeCode && h[3] == 0 && h[4] == 0
    ensures FromLe(h[5..7]) == paletteLength && h[7] == 32
    ensures h[8] == 0 && h[9] == 0 && h[10] == 0 && h[11] == 0
    ensures FromLe(h[12..14]) == width && FromLe(h[14..16]) == height
    ensures h[16] == 8 && h[17] == 32
  {
    FromLeOfLe16(width);
    FromLeOfLe16(height);
    FromLeOfLe16(paletteLength);
    var h := [ID_SIZE as byte, 1, typeCode, 0, 0] + Le16(paletteLength) + [32, 0, 0, 0, 0]
             + Le16(width) + Le16(height) + [8, 32];
    assert h[5..7] == Le16(paletteLength);
    assert h[12..14] == Le16(width) && h[14..16] == Le16(height);
    h
  }

  /** The vendor Image ID: "SOMH", the width again, and 40 zero bytes. */
  function ZeppId(width: nat): (id: seq<byte>)
    requires Fits16(width)
    ensures |id| == ID_SIZE && id[..4] == ZEPP_MAGIC && FromLe(id[4..6]) == width
    ensures forall k :: 6 <= k < ID_SIZE ==> id[k] == 0
  {
    FromLeOfLe16(width);
    var id := ZEPP_MAGIC + Le16(width) + Zeros(40);
    assert id[4..6] == Le16(width);
    id
  }

  // ---------------------------------------------------------------------------
  // Palettes and 32-bit pixels: B,G,R,A entries

  function Bgra(c: Rgba): seq<byte> { [c.b, c.g, c.r, c.a] }

  /** Entries written one after another as B,G,R,A. */
  function BgraBytes(p: seq<Rgba>): (b: seq<byte>)
    ensures |b| == 4 * |p|
  {
    if p == [] then [] else BgraBytes(p[..|p| - 1]) + Bgra(p[|p| - 1])
  }

  lemma BgraBytesSnoc(p: seq<Rgba>, c: Rgba)
    ensures BgraBytes(p + [c]) == BgraBytes(p) + Bgra(c)
  {
    assert (p + [c])[..|p|] == p;
  }

  lemma {:induction false} BgraBytesAt(p: seq<Rgba>)
    ensures |BgraBytes(p)| == 4 * |p|
    ensures forall k :: 0 <= k < |p| ==> BgraBytes(p)[4 * k..4 * k + 4] == Bgra(p[k])
  {
    if p != [] {
      var init := p[..|p| - 1];
      BgraBytesAt(init);
      forall k | 0 <= k < |p|
        ensures BgraBytes(p)[4 * k..4 * k + 4] == Bgra(p[k])
      {
        if k < |p| - 1 {
          assert init[k] == p[k];
          assert BgraBytes(p)[4 * k..4 * k + 4] == BgraBytes(init)[4 * k..4 * k + 4];
        }
      }
    }
  }

  /** The palette that `_prep_palette_base` and mode 0 of `save_tga` build from the
      image's colours: padded with PAD_COLOR up to 256 entries. */
  function PadPalette(colors: seq<Rgba>): (p: seq<Rgba>)
    requires |colors| <= PALETTE_SIZE
    ensures |p| == PALETTE_SIZE && p[..|colors|] == colors
    ensures forall k :: |colors| <= k < PALETTE_SIZE ==> p[k] == PAD_COLOR
  {
    colors + seq(PALETTE_SIZE - |colors|, _ => PAD_COLOR)
  }

  /** What PIL's `getcolors()` promises when it does not return None: at most 256
      colours, among them every colour the image uses. */
  ghost predicate IsColorList(pixels: seq<Rgba>, colors: seq<Rgba>)
  {
    |colors| <= PALETTE_SIZE && forall k :: 0 <= k < |pixels| ==> pixels[k] in colors
  }

  /** Padding keeps every colour of the list, so every pixel has a palette index. */
  lemma PaddedHoldsColors(pixels: seq<Rgba>, colors: seq<Rgba>)
    requires IsColorList(pixels, colors)
    ensures forall k :: 0 <= k < |pixels| ==> pixels[k] in PadPalette(colors)
  {
    var palette := PadPalette(colors);
    forall k | 0 <= k < |pixels|
      ensures pixels[k] in palette
    {
      var i :| 0 <= i < |colors| && colors[i] == pixels[k];
      assert palette[i] == colors[i];
    }
  }

  /** `palette.index(x)`: the position of the first occurrence. */
  function IndexOf(s: seq<Rgba>, x: Rgba): (i: nat)
    requires x in s
    ensures i < |s| && s[i] == x
    ensures forall j :: 0 <= j < i ==> s[j] != x
  {
    if s[0] == x then 0 else 1 + IndexOf(s[1..], x)
  }

  /** The palette index written for each pixel. */
  function Indices(pixels: seq<Rgba>, palette: seq<Rgba>): (ix: seq<byte>)
    requires |palette| <= PALETTE_SIZE
    requires forall k :: 0 <= k < |pixels| ==> pixels[k] in palette
    ensures |ix| == |pixels|
    ensures forall k :: 0 <= k < |pixels| ==> ix[k] < |palette| && palette[ix[k]] == pixels[k]
  {
    seq(|pixels|, k requires 0 <= k < |pixels| => IndexOf(palette, pixels[k]) as byte)
  }

  // ---------------------------------------------------------------------------
  // 16-bit pixels: RGB565, stored little-endian

  /** `round(31/255 * x)`: for an integer x the exact quotient is never half-way
      between two integers, so rounding is (31x + 127) div 255. */
  function Scale5(x: byte): (v: nat)
    ensures v < 32
  {
    (31 * x + 127) / 255
  }

  /** `round(63/255 * x)`, exactly as for Scale5. */
  function Scale6(x: byte): (v: nat)
    ensures v < 64
  {
    (63 * x + 127) / 255
  }

  /** `int(v * 255/31)`: the float quotient is exact or at least 1/31 from an integer. */
  function Unscale5(v: nat): (x: byte)
    requires v < 32
  {
    v * 255 / 31
  }

  /** `int(v * 255/63)`. */
  function Unscale6(v: nat): (x: byte)
    requires v < 64
  {
    v * 255 / 63
  }

  /** The two bytes written for 5/6/5-bit channels: low = ((g & 7) << 5) + b,
      high = (r << 3) + (g >> 3). */
  function Pack565(r: nat, g: nat, b: nat): (s: seq<byte>)
    requires r < 32 && g < 64 && b < 32
    ensures |s| == 2
  {
    [(g % 8) * 32 + b, r * 8 + g / 8]
  }

  /** The two bytes are the little-endian form of (r << 11) | (g << 5) | b. */
  lemma Pack565IsLittleEndian(r: nat, g: nat, b: nat)
    requires r < 32 && g < 64 && b < 32
    ensures FromLe(Pack565(r, g, b)) == r * 2048 + g * 32 + b
  {
    var s := Pack565(r, g, b);
    assert s[1..][1..] == [];
    assert FromLe(s[1..]) == s[1];
    assert g == (g / 8) * 8 + g % 8;
  }

  /** The reader's view of two stored bytes: v = (b1 << 8) + b2 with b2 read first;
      r = v >> 11, g = (v >> 5) & 63, b = v & 31. */
  function Unpack565(b2: byte, b1: byte): (rgb: (nat, nat, nat))
    ensures rgb.0 < 32 && rgb.1 < 64 && rgb.2 < 32
  {
    var v: int := (b1 as int) * 256 + (b2 as int);
    (v / 2048, (v / 32) % 64, v % 32)
  }

  lemma Pack565Value(r: nat, g: nat, b: nat)
    requires r < 32 && g < 64 && b < 32
    ensures var s := Pack565(r, g, b); (s[1] as int) * 256 + (s[0] as int) == r * 2048 + g * 32 + b
  {
    DivModOf(g, 8, g / 8, g % 8);
  }

  lemma Unpack565OfValue(b2: byte, b1: byte, r: nat, g: nat, b: nat)
    requires r < 32 && g < 64 && b < 32
    requires (b1 as int) * 256 + (b2 as int) == r * 2048 + g * 32 + b
    ensures Unpack565(b2, b1) == (r, g, b)
  {
    var v: int := (b1 as int) * 256 + (b2 as int);
    DivModOf(v, 2048, r, g * 32 + b);
    DivModOf(v, 32, r * 64 + g, b);
    DivModOf(r * 64 + g, 64, r, g);
  }

  /** Unpacking inverts packing, channel by channel. */
  lemma Unpack565OfPack565(r: nat, g: nat, b: nat)
    requires r < 32 && g < 64 && b < 32
    ensures var s := Pack565(r, g, b); Unpack565(s[0], s[1]) == (r, g, b)
  {
    var s := Pack565(r, g, b);
    Pack565Value(r, g, b);
    Unpack565OfValue(s[0], s[1], r, g, b);
  }

  /** The 16-bit form of one RGBA pixel; alpha is dropped. */
  function Rgb565(c: Rgba): seq<byte>
  {
    Pack565(Scale5(c.r), Scale6(c.g), Scale5(c.b))
  }

  function Rgb565Bytes(p: seq<Rgba>): (b: seq<byte>)
    ensures |b| == 2 * |p|
  {
    if p == [] then [] else Rgb565Bytes(p[..|p| - 1]) + Rgb565(p[|p| - 1])
  }

  lemma Rgb565BytesSnoc(p: seq<Rgba>, c: Rgba)
    ensures Rgb565Bytes(p + [c]) == Rgb565Bytes(p) + Rgb565(c)
  {
    assert (p + [c])[..|p|] == p;
  }

  lemma {:induction false} Rgb565BytesAt(p: seq<Rgba>)
    ensures |Rgb565Bytes(p)| == 2 * |p|
    ensures forall k :: 0 <= k < |p| ==> Rgb565Bytes(p)[2 * k..2 * k + 2] == Rgb565(p[k])
  {
    if p != [] {
      var init := p[..|p| - 1];
      Rgb565BytesAt(init);
      forall k | 0 <= k < |p|
        ensures Rgb565Bytes(p)[2 * k..2 * k + 2] == Rgb565(p[k])
      {
        if k < |p| - 1 {
          assert init[k] == p[k];
          assert Rgb565Bytes(p)[2 * k..2 * k + 2] == Rgb565Bytes(init)[2 * k..2 * k + 2];
        }
      }
    }
  }

  // ---------------------------------------------------------------------------
  // Run-length packets (image type 9)

  /** Bit 7 of a packet head marks a run packet. */
  predicate IsRun(head: byte) { head >= 128 }

  /** The low 7 bits of a head hold the packet's pixel count minus one. */
  function PacketCount(head: byte): (n: nat)
    ensures 1 <= n <= 128
  {
    head % 128 + 1
  }

  /** The number of bytes the packet starting s takes: a run packet is its head and one
      index byte, a raw packet its head and PacketCount index bytes. */
  function PacketSize(s: seq<byte>): (k: nat)
    requires s != []
    ensures 2 <= k <= 129
  {
    if IsRun(s[0]) then 2 else 1 + PacketCount(s[0])
  }

  /** The indices a whole packet at the start of s stands for. */
  function PacketData(s: seq<byte>): (d: seq<byte>)
    requires s != [] && PacketSize(s) <= |s|
    ensures |d| == PacketCount(s[0])
  {
    if IsRun(s[0]) then Repeat(s[1], PacketCount(s[0])) else s[1..1 + PacketCount(s[0])]
  }

  /** Decodes a sequence made of whole packets; None when it is not one. */
  function DecodeRle(s: seq<byte>): Option<seq<byte>>
    decreases |s|
  {
    if s == [] then Some([])
    else if |s| < PacketSize(s) then None
    else match DecodeRle(s[PacketSize(s)..])
      case None => None
      case Some(rest) => Some(PacketData(s) + rest)
  }

  /** The reading loop of the type-9 loaders: packets are decoded and appended to `acc`
      until it holds at least `n` indices; the last packet is not cut short. Reading past
      the end of the file (`f.read(1)[0]`) is an IndexError. */
  function UnpackRle(s: seq<byte>, n: nat, acc: seq<byte>): (r: Result<seq<byte>>)
    ensures r.Err? ==> r.error == IndexError
    ensures r.Ok? ==> |r.value| >= n
    decreases |s|
  {
    if |acc| >= n then Ok(acc)
    else if s == [] || |s| < PacketSize(s) then Err(IndexError)
    else UnpackRle(s[PacketSize(s)..], n, acc + PacketData(s))
  }

  /** A whole packet reads the same whatever follows it. */
  lemma PacketOfPrefix(s: seq<byte>, t: seq<byte>)
    requires s != [] && PacketSize(s) <= |s|
    ensures PacketSize(s + t) == PacketSize(s) && PacketData(s + t) == PacketData(s)
    ensures (s + t)[PacketSize(s)..] == s[PacketSize(s)..] + t
  {
    assert (s + t)[0] == s[0];
    if IsRun(s[0]) {
      assert (s + t)[1] == s[1];
    } else {
      assert (s + t)[1..1 + PacketCount(s[0])] == s[1..1 + PacketCount(s[0])];
    }
  }

  lemma RunPacket(head: byte, v: byte)
    requires IsRun(head)
    ensures DecodeRle([head, v]) == Some(Repeat(v, PacketCount(head)))
  {
    var s := [head, v];
    assert s[2..] == [];
    assert PacketData(s) + [] == Repeat(v, PacketCount(head));
  }

  lemma RawPacket(head: byte, data: seq<byte>)
    requires !IsRun(head) && |data| == PacketCount(head)
    ensures DecodeRle([head] + data) == Some(data)
  {
    var s := [head] + data;
    assert s[1 + |data|..] == [];
    assert s[1..1 + |data|] == data;
    assert PacketData(s) + [] == data;
  }

  /** DecodeRle of a non-empty sequence, one packet at a time. */
  lemma DecodeRleStep(s: seq<byte>)
    requires s != []
    ensures DecodeRle(s).Some? <==>
              PacketSize(s) <= |s| && DecodeRle(s[PacketSize(s)..]).Some?
    ensures DecodeRle(s).Some? ==>
              DecodeRle(s).value == PacketData(s) + DecodeRle(s[PacketSize(s)..]).value
  {
  }

  /** Whole packets may be decoded one group at a time. */
  lemma {:induction false} DecodeRleAppend(a: seq<byte>, b: seq<byte>)
    requires DecodeRle(a).Some? && DecodeRle(b).Some?
    ensures DecodeRle(a + b) == Some(DecodeRle(a).value + DecodeRle(b).value)
    decreases |a|
  {
    if a == [] {
      assert a + b == b;
      assert DecodeRle(a).value + DecodeRle(b).value == DecodeRle(b).value;
    } else {
      DecodeRleAppendStep(a, b);
    }
  }

  lemma {:induction false} DecodeRleAppendStep(a: seq<byte>, b: seq<byte>)
    requires a != [] && DecodeRle(a).Some? && DecodeRle(b).Some?
    ensures DecodeRle(a + b) == Some(DecodeRle(a).value + DecodeRle(b).value)
    decreases |a|, 0
  {
    var k := PacketSize(a);
    DecodeRleStep(a);
    var rest := a[k..];
    var p, x, y := PacketData(a), DecodeRle(rest).value, DecodeRle(b).value;
    assert DecodeRle(rest + b) == Some(x + y) by {
      DecodeRleAppend(rest, b);
    }
    assert DecodeRle(a + b) == Some(p + (x + y)) by {
      PacketOfPrefix(a, b);
      DecodeRleStep(a + b);
    }
    SeqAssoc(p, x, y);
  }

  lemma SeqAssoc(p: seq<byte>, x: seq<byte>, y: seq<byte>)
    ensures p + (x + y) == (p + x) + y
  {
  }

  lemma UnpackRleStep(s: seq<byte>, n: nat, acc: seq<byte>)
    requires |acc| < n && s != [] && PacketSize(s) <= |s|
    ensures UnpackRle(s, n, acc) == UnpackRle(s[PacketSize(s)..], n, acc + PacketData(s))
  {
  }

  /** The reading loop recovers every index sequence that whole packets encode, and
      ignores whatever follows them. */
  lemma {:induction false} UnpackRleOfDecoded(s: seq<byte>, tail: seq<byte>, acc: seq<byte>)
    requires DecodeRle(s).Some?
    ensures UnpackRle(s + tail, |acc| + |DecodeRle(s).value|, acc) == Ok(acc + DecodeRle(s).value)
    decreases |s|
  {
    var xs := DecodeRle(s).value;
    if s == [] {
      assert acc + xs == acc;
    } else {
      var k := PacketSize(s);
      DecodeRleStep(s);
      var packet, rest := PacketData(s), DecodeRle(s[k..]).value;
      var n := |acc| + |xs|;
      assert |xs| == |packet| + |rest| && |acc| < n;
      assert UnpackRle(s + tail, n, acc) == UnpackRle(s[k..] + tail, n, acc + packet) by {
        PacketOfPrefix(s, tail);
        UnpackRleStep(s + tail, n, acc);
      }
      assert UnpackRle(s[k..] + tail, n, acc + packet) == Ok(acc + packet + rest) by {
        UnpackRleOfDecoded(s[k..], tail, acc + packet);
      }
      SeqAssoc(acc, packet, rest);
    }
  }

  // ---------------------------------------------------------------------------
  // The reader's side: palettes handed to PIL as R,G,B,A bytes, and decoded pixels

  function RgbaOf(c: Rgba): seq<byte> { [c.r, c.g, c.b, c.a] }

  /** A palette as `putpalette(palette_raw, "RGBA")` receives it. */
  function RgbaBytes(p: seq<Rgba>): (b: seq<byte>)
    ensures |b| == 4 * |p|
  {
    if p == [] then [] else RgbaBytes(p[..|p| - 1]) + RgbaOf(p[|p| - 1])
  }

  /** One palette entry as the loaders emit it: four bytes read as B,G,R,A (or, when
      red and blue are swapped, as R,G,B,A), emitted as R,G,B,A. */
  function Entry(q: seq<byte>, swap: bool): (e: seq<byte>)
    requires |q| == 4
    ensures |e| == 4
  {
    if swap then q else [q[2], q[1], q[0], q[3]]
  }

  lemma EntryBytes(q: seq<byte>, swap: bool)
    requires |q| == 4
    ensures Entry(q, swap) == if swap then [q[0], q[1], q[2], q[3]] else [q[2], q[1], q[0], q[3]]
  {
    assert q == [q[0], q[1], q[2], q[3]];
  }

  /** The four bytes after a prefix. */
  lemma QuadAfter(a: seq<byte>, s: seq<byte>, rest: seq<byte>)
    requires |s| == 4
    ensures (a + (s + rest))[|a|..|a| + 4] == s
  {
  }

  /** The palette emitted for the first n four-byte entries of `raw`. */
  function PaletteEntries(raw: seq<byte>, n: nat, swap: bool): (e: seq<byte>)
    requires 4 * n <= |raw|
    ensures |e| == 4 * n
  {
    if n == 0 then [] else PaletteEntries(raw, n - 1, swap) + Entry(raw[4 * n - 4..4 * n], swap)
  }

  /** Reading back a written palette, whatever follows it, gives its colours as
      R,G,B,A. */
  lemma {:induction false} PaletteEntriesOfBgra(p: seq<Rgba>, rest: seq<byte>)
    ensures PaletteEntries(BgraBytes(p) + rest, |p|, false) == RgbaBytes(p)
  {
    if p != [] {
      var init, c := p[..|p| - 1], p[|p| - 1];
      var a, s := BgraBytes(init), Bgra(c);
      SeqAssoc(a, s, rest);
      QuadAfter(a, s, rest);
      PaletteEntriesOfBgra(init, s + rest);
    }
  }

  /** Palette entry i of an R,G,B,A palette. */
  function PaletteColor(raw: seq<byte>, i: nat): Rgba
    requires 4 * i + 4 <= |raw|
  {
    Rgba(raw[4 * i], raw[4 * i + 1], raw[4 * i + 2], raw[4 * i + 3])
  }

  lemma {:induction false} PaletteColorOfRgbaBytes(p: seq<Rgba>, i: nat)
    requires i < |p|
    ensures PaletteColor(RgbaBytes(p), i) == p[i]
  {
    var init := p[..|p| - 1];
    if i < |p| - 1 {
      PaletteColorOfRgbaBytes(init, i);
      assert init[i] == p[i];
      assert RgbaBytes(p)[4 * i..4 * i + 4] == RgbaBytes(init)[4 * i..4 * i + 4];
    }
  }

  /** Every index of the image names an entry of its palette. */
  predicate IndicesInPalette(img: IndexedImage)
  {
    forall k :: 0 <= k < |img.indices| ==> 4 * img.indices[k] + 4 <= |img.palette|
  }

  /** `img.convert("RGBA")` of a "P" image whose indices all name palette entries. */
  function ToRgba(img: IndexedImage): (out: Picture)
    requires |img.indices| == Area(img.width, img.height) && IndicesInPalette(img)
    ensures out.width == img.width && out.height == img.height
    ensures forall k :: 0 <= k < |img.indices| ==> out.pixels[k] == PaletteColor(img.palette, img.indices[k])
  {
    Image(img.width, img.height,
          seq(|img.indices|, k requires 0 <= k < |img.indices| && IndicesInPalette(img) =>
                               PaletteColor(img.palette, img.indices[k])))
  }

  function SwapRB(c: Rgba): Rgba { Rgba(c.b, c.g, c.r, c.a) }

  /** A 16-bit pixel from its two stored bytes, channels widened back to 8 bits, alpha
      255; with `swap` the red and blue fields change places. */
  function Decode565(b2: byte, b1: byte, swap: bool): Rgba
  {
    var (r, g, b) := Unpack565(b2, b1);
    if swap then Rgba(Unscale5(b), Unscale6(g), Unscale5(r), 255)
    else Rgba(Unscale5(r), Unscale6(g), Unscale5(b), 255)
  }

  lemma Decode565Swap(b2: byte, b1: byte)
    ensures Decode565(b2, b1, true) == SwapRB(Decode565(b2, b1, false))
  {
  }

  /** The first n pixels of a 16-bit image body, two bytes each. */
  function Pixels565(raw: seq<byte>, n: nat, swap: bool): (p: seq<Rgba>)
    requires 2 * n <= |raw|
    ensures |p| == n
  {
    if n == 0 then [] else Pixels565(raw, n - 1, swap) + [Decode565(raw[2 * n - 2], raw[2 * n - 1], swap)]
  }

  /** A 32-bit pixel from four stored bytes: B,G,R,A, or R,G,B,A when swapping. */
  function Pixel32(q: seq<byte>, swap: bool): Rgba
    requires |q| == 4
  {
    if swap then Rgba(q[0], q[1], q[2], q[3]) else Rgba(q[2], q[1], q[0], q[3])
  }

  lemma Pixel32Swap(q: seq<byte>)
    requires |q| == 4
    ensures Pixel32(q, true) == SwapRB(Pixel32(q, false))
  {
  }

  /** The first n pixels of a 32-bit image body, four bytes each. */
  function Pixels32(raw: seq<byte>, n: nat, swap: bool): (p: seq<Rgba>)
    requires 4 * n <= |raw|
    ensures |p| == n
  {
    if n == 0 then [] else Pixels32(raw, n - 1, swap) + [Pixel32(raw[4 * n - 4..4 * n], swap)]
  }

  /** Reading back a 32-bit body, whatever follows it, gives the written pixels. */
  lemma {:induction false} Pixels32OfBgra(p: seq<Rgba>, rest: seq<byte>)
    ensures Pixels32(BgraBytes(p) + rest, |p|, false) == p
  {
    if p != [] {
      var init, c := p[..|p| - 1], p[|p| - 1];
      var a, s := BgraBytes(init), Bgra(c);
      SeqAssoc(a, s, rest);
      QuadAfter(a, s, rest);
      Pixels32OfBgra(init, s + rest);
      assert p == init + [c];
    }
  }

  /** What survives a 16-bit round trip: each channel cut to 5/6/5 bits and widened
      back, and alpha 255. */
  function Quantize565(c: Rgba): Rgba
  {
    Rgba(Unscale5(Scale5(c.r)), Unscale6(Scale6(c.g)), Unscale5(Scale5(c.b)), 255)
  }

  function Quantized(p: seq<Rgba>): (q: seq<Rgba>)
    ensures |q| == |p|
  {
    if p == [] then [] else Quantized(p[..|p| - 1]) + [Quantize565(p[|p| - 1])]
  }

  lemma {:induction false} QuantizedAt(p: seq<Rgba>, k: nat)
    requires k < |p|
    ensures Quantized(p)[k] == Quantize565(p[k])
  {
    if k < |p| - 1 {
      QuantizedAt(p[..|p| - 1], k);
    }
  }

  lemma Decode565OfRgb565(c: Rgba)
    ensures var s := Rgb565(c); Decode565(s[0], s[1], false) == Quantize565(c)
  {
    Unpack565OfPack565(Scale5(c.r), Scale6(c.g), Scale5(c.b));
  }

  /** The two bytes after a prefix. */
  lemma PairAfter(a: seq<byte>, s: seq<byte>, rest: seq<byte>)
    requires |s| == 2
    ensures (a + (s + rest))[|a|] == s[0] && (a + (s + rest))[|a| + 1] == s[1]
  {
  }

  /** Reading back a 16-bit body, whatever follows it, gives the written pixels,
      quantised. */
  lemma {:induction false} Pixels565OfRgb565(p: seq<Rgba>, rest: seq<byte>)
    ensures Pixels565(Rgb565Bytes(p) + rest, |p|, false) == Quantized(p)
  {
    if p != [] {
      var init, c := p[..|p| - 1], p[|p| - 1];
      var a, s := Rgb565Bytes(init), Rgb565(c);
      SeqAssoc(a, s, rest);
      PairAfter(a, s, rest);
      Decode565OfRgb565(c);
      Pixels565OfRgb565(init, s + rest);
    }
  }

  /** Cutting a widened 5-bit channel back to 5 bits gives the same value. */
  lemma Scale5OfUnscale5(v: nat)
    requires v < 32
    ensures Scale5(Unscale5(v)) == v
  {
    var u, rem := v * 255 / 31, v * 255 % 31;
    assert v * 255 == u * 31 + rem;
    DivModOf(31 * u + 127, 255, v, 127 - rem);
  }

  lemma Scale6OfUnscale6(v: nat)
    requires v < 64
    ensures Scale6(Unscale6(v)) == v
  {
    var u, rem := v * 255 / 63, v * 255 % 63;
    assert v * 255 == u * 63 + rem;
    DivModOf(63 * u + 127, 255, v, 127 - rem);
  }

  /** Writing and reading a 16-bit image a second time loses nothing more. */
  lemma QuantizeIdempotent(c: Rgba)
    ensures Quantize565(Quantize565(c)) == Quantize565(c)
  {
    Scale5OfUnscale5(Scale5(c.r));
    Scale6OfUnscale6(Scale6(c.g));
    Scale5OfUnscale5(Scale5(c.b));
  }
}

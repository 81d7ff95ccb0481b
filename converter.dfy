/** The legacy converter script converter.py: which files it takes, which direction it
    converts in, and what `to_tga` does with each file. Directory walks, PIL decoding and
    the clock are inputs: a path's kind and its `rglob("*.png")` listing, each file's
    bytes, PIL's format name and colour list, and the text of `datetime.today()`. */
module Converter {
  import opened Bytes
  import opened TgaFormat
  import opened Strings
  import Utils
  import TgaIo

  // ---------------------------------------------------------------------------
  // load_from_path

  /** What a path names: nothing, a file, or a directory with the PNG files
      `rglob("*.png")` lists under it, in that order. */
  datatype PathKind = Missing | File | Directory(pngs: seq<string>)

  /** `load_from_path`: (source, destination) pairs, the destination being the source. */
  method LoadFromPath(path: string, kind: PathKind) returns (paths: seq<(string, string)>)
    ensures kind.Missing? ==> paths == []
    ensures kind.File? ==> paths == [(path, path)]
    ensures kind.Directory? ==>
              |paths| == |kind.pngs| && forall i :: 0 <= i < |paths| ==> paths[i] == (kind.pngs[i], kind.pngs[i])
  {
    paths := [];
    if kind.Missing? {
      return [];
    }
    if kind.File? {
      paths := paths + [(path, path)];
      return paths;
    }
    for i := 0 to |kind.pngs|
      invariant |paths| == i && forall j :: 0 <= j < i ==> paths[j] == (kind.pngs[j], kind.pngs[j])
    {
      paths := paths + [(kind.pngs[i], kind.pngs[i])];
    }
  }

  // ---------------------------------------------------------------------------
  // prepare_config

  /** What `prepare_config` learns about one file: its bytes, and whether PIL's
      `getcolors()` is None for it (more than 256 colours). */
  datatype Probe = Probe(bytes: seq<byte>, overColorLimit: bool)

  /** `b"PNG"` */
  const PNG_TEXT: seq<byte> := [0x50, 0x4E, 0x47]

  /** `b"PNG" in f.read(4)`; every other file counts as TGA. */
  predicate LooksLikePng(bytes: seq<byte>)
  {
    Contains(bytes[..Min(4, |bytes|)], PNG_TEXT)
  }

  /** The number of files that look like PNG. */
  function PngCount(probes: seq<Probe>): (n: nat)
    ensures n <= |probes|
  {
    if probes == [] then 0
    else PngCount(probes[..|probes| - 1]) + (if LooksLikePng(probes[|probes| - 1].bytes) then 1 else 0)
  }

  /** The count is zero exactly when no file looks like PNG, and full exactly when
      every file does. */
  lemma {:induction false} PngCountExtremes(probes: seq<Probe>)
    ensures PngCount(probes) == 0 <==> forall k :: 0 <= k < |probes| ==> !LooksLikePng(probes[k].bytes)
    ensures PngCount(probes) == |probes| <==> forall k :: 0 <= k < |probes| ==> LooksLikePng(probes[k].bytes)
  {
    if probes != [] {
      var init := probes[..|probes| - 1];
      PngCountExtremes(init);
      assert forall k :: 0 <= k < |init| ==> init[k] == probes[k];
    }
  }

  /** Some PNG file has more than 256 colours. */
  predicate QuantizeRequired(probes: seq<Probe>)
  {
    exists k :: 0 <= k < |probes| && LooksLikePng(probes[k].bytes) && probes[k].overColorLimit
  }

  /** How many PNG files are opened with PIL to count their colours: every one up to
      and including the first with too many. */
  function ColorChecks(probes: seq<Probe>): (n: nat)
  {
    if probes == [] then 0
    else
      var init := probes[..|probes| - 1];
      ColorChecks(init)
      + (if !QuantizeRequired(init) && LooksLikePng(probes[|probes| - 1].bytes) then 1 else 0)
  }

  /** The direction: True (PNG to TGA), False (TGA to PNG) or None (ask the user). */
  datatype Direction = PngToTga | TgaToPng | AskUser

  /** The rule `prepare_config` decides by. */
  function Decision(probes: seq<Probe>): (r: (Direction, bool))
    ensures r.0 == TgaToPng <==> forall k :: 0 <= k < |probes| ==> !LooksLikePng(probes[k].bytes)
    ensures r.0 == PngToTga <==> probes != [] && forall k :: 0 <= k < |probes| ==> LooksLikePng(probes[k].bytes)
    ensures r.1 <==> QuantizeRequired(probes)
  {
    PngCountExtremes(probes);
    var png := PngCount(probes);
    if png == 0 then (TgaToPng, false)
    else if png == |probes| then (PngToTga, QuantizeRequired(probes))
    else (AskUser, QuantizeRequired(probes))
  }

  lemma QuantizeRequiredSnoc(probes: seq<Probe>, p: Probe)
    ensures QuantizeRequired(probes + [p]) <==>
              QuantizeRequired(probes) || (LooksLikePng(p.bytes) && p.overColorLimit)
  {
    var s := probes + [p];
    if QuantizeRequired(probes) {
      var k :| 0 <= k < |probes| && LooksLikePng(probes[k].bytes) && probes[k].overColorLimit;
      assert s[k] == probes[k];
    }
    if LooksLikePng(p.bytes) && p.overColorLimit {
      assert s[|probes|] == p;
    }
    if QuantizeRequired(s) {
      var k :| 0 <= k < |s| && LooksLikePng(s[k].bytes) && s[k].overColorLimit;
      if k < |probes| {
        assert s[k] == probes[k];
      }
    }
  }

  /** `prepare_config`. `pilOpens` counts the files opened with PIL. */
  method PrepareConfig(probes: seq<Probe>) returns (direction: Direction, quantize: bool, pilOpens: nat)
    ensures (direction, quantize) == Decision(probes)
    ensures pilOpens == ColorChecks(probes)
  {
    quantize := false;
    var filesTga := 0;
    var filesPng := 0;
    pilOpens := 0;
    for i := 0 to |probes|
      invariant filesPng == PngCount(probes[..i]) && filesTga == i - filesPng
      invariant quantize == QuantizeRequired(probes[..i])
      invariant pilOpens == ColorChecks(probes[..i])
    {
      var p := probes[i];
      assert probes[..i + 1][..i] == probes[..i] && probes[..i + 1] == probes[..i] + [p];
      QuantizeRequiredSnoc(probes[..i], p);
      var head := p.bytes[..Min(4, |p.bytes|)];
      if Contains(head, PNG_TEXT) {
        filesPng := filesPng + 1;
        if !quantize {
          pilOpens := pilOpens + 1;
          if p.overColorLimit {
            quantize := true;
          }
        }
      } else {
        filesTga := filesTga + 1;
      }
    }
    assert probes[..|probes|] == probes;
    if filesPng == 0 {
      return TgaToPng, false, pilOpens;
    } else if filesTga == 0 {
      return PngToTga, quantize, pilOpens;
    } else {
      return AskUser, quantize, pilOpens;
    }
  }

  /** The colour check stops at the first PNG with too many colours: without one every
      PNG is checked, with one exactly the PNGs up to it. */
  lemma {:induction false} ColorChecksStop(probes: seq<Probe>)
    ensures !QuantizeRequired(probes) ==> ColorChecks(probes) == PngCount(probes)
    ensures QuantizeRequired(probes) ==>
              exists j :: 0 <= j < |probes| && LooksLikePng(probes[j].bytes) && probes[j].overColorLimit
                          && !QuantizeRequired(probes[..j]) && ColorChecks(probes) == PngCount(probes[..j + 1])
    decreases |probes|
  {
    if probes != [] {
      var init := probes[..|probes| - 1];
      var last := probes[|probes| - 1];
      assert probes == init + [last];
      QuantizeRequiredSnoc(init, last);
      ColorChecksStop(init);
      if QuantizeRequired(init) {
        var j :| 0 <= j < |init| && LooksLikePng(init[j].bytes) && init[j].overColorLimit
                 && !QuantizeRequired(init[..j]) && ColorChecks(init) == PngCount(init[..j + 1]);
        assert init[..j + 1] == probes[..j + 1] && init[..j] == probes[..j] && init[j] == probes[j];
      } else if QuantizeRequired(probes) {
        var j := |probes| - 1;
        assert probes[..j + 1] == probes && probes[..j] == init;
      }
    }
  }

  // ---------------------------------------------------------------------------
  // to_tga

  /** What `to_tga` knows of one file: the source and destination paths, PIL's format
      name, the image converted to RGBA, and its `getcolors()` (None above 256
      colours). */
  datatype Job = Job(file: string, out: string, format: string, picture: Picture, colors: Option<seq<Rgba>>)

  ghost predicate ColorsOf(job: Job)
  {
    job.colors.Some? ==> IsColorList(job.picture.pixels, job.colors.value)
  }

  /** The colour compression step: the backup written before quantising, and which
      quantisation is applied. */
  datatype Compression = Compression(backup: string, q: Utils.Quantization)

  /** What happens to one file. A saved file is written by `save_tga`; its bytes are
      known when it is not compressed (the quantiser's output is PIL's). */
  datatype Action =
    | Skip
    | CopyRaw(src: string, dst: string)
    | Save(out: string, mode: int, compression: Option<Compression>, written: Option<Result<seq<byte>>>)

  /** `not img.getcolors()`: None, or an empty list. */
  predicate NoColors(colors: Option<seq<Rgba>>)
  {
    colors.None? || colors.value == []
  }

  predicate AllOpaque(pixels: seq<Rgba>)
  {
    forall k :: 0 <= k < |pixels| ==> Utils.Opaque(pixels[k])
  }

  /** The step of `to_tga` for one file. */
  function TgaAction(job: Job, now: string, backupDir: string): (a: Action)
    requires ColorsOf(job)
    ensures job.format != "PNG" ==> (a.CopyRaw? <==> job.file != job.out) && (a.Skip? <==> job.file == job.out)
    ensures job.format == "PNG" ==> a.Save? && a.out == job.out
    ensures a.Save? ==> (a.mode == 16 <==> EndsWith(Name(job.file), ".rgb.png")) && (a.mode == 0 || a.mode == 16)
    ensures a.Save? ==> (a.compression.Some? <==> a.mode == 0 && NoColors(job.colors))
    ensures a.Save? && a.compression.Some? ==>
              a.compression.value.q == (if AllOpaque(job.picture.pixels) then Utils.ThroughRgb else Utils.Direct)
  {
    if job.format != "PNG" then
      if job.file != job.out then CopyRaw(job.file, job.out) else Skip
    else
      var mode := if EndsWith(Name(job.file), ".rgb.png") then 16 else 0;
      if NoColors(job.colors) && mode == 0 then
        var backup := Join(backupDir, Utils.BackupName(now, Name(job.file)));
        var q := if AllOpaque(job.picture.pixels) then Utils.ThroughRgb else Utils.Direct;
        Save(job.out, mode, Some(Compression(backup, q)), None)
      else
        Save(job.out, mode, None, Some(TgaIo.TgaFile(job.picture, mode, job.colors)))
  }

  /** An uncompressed save is exactly the legacy writer's file for the picture, and in
      mode 0 that file never fails the colour assertion. */
  lemma UncompressedSaveWrites(job: Job, now: string, backupDir: string)
    requires ColorsOf(job)
    ensures var a := TgaAction(job, now, backupDir);
            a.Save? && a.compression.None? ==>
              a.written == Some(TgaIo.TgaFile(job.picture, a.mode, job.colors))
              && (a.mode == 0 ==> a.written.value != Err(AssertionError))
  {
  }

  /** `to_tga`: the step for each file in order; `now` is `datetime.today()` and
      `backupDir` is the backups directory next to the script. */
  method ToTga(jobs: seq<Job>, now: string, backupDir: string) returns (actions: seq<Action>)
    requires forall i :: 0 <= i < |jobs| ==> ColorsOf(jobs[i])
    ensures |actions| == |jobs| && forall i :: 0 <= i < |jobs| ==> actions[i] == TgaAction(jobs[i], now, backupDir)
  {
    actions := [];
    for i := 0 to |jobs|
      invariant |actions| == i && forall j :: 0 <= j < i ==> actions[j] == TgaAction(jobs[j], now, backupDir)
    {
      var job := jobs[i];
      var action: Action;
      if job.format != "PNG" {
        if job.file != job.out {
          action := CopyRaw(job.file, job.out);
        } else {
          action := Skip;
        }
      } else {
        var mode := 0;
        if EndsWith(Name(job.file), ".rgb.png") {
          mode := 16;
        }
        if (job.colors.None? || job.colors.value == []) && mode == 0 {
          var backup, q := Utils.ColorCompress("RGBA", job.picture.pixels, Some(job.file), now, backupDir);
          action := Save(job.out, mode, Some(Compression(backup.value, q)), None);
        } else {
          var written := TgaIo.SaveTga(job.picture, mode, job.colors);
          action := Save(job.out, mode, None, Some(written));
        }
      }
      actions := actions + [action];
    }
  }
}

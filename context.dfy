/** zmake/context.py: the build context `ZMakeContext` (configuration, project path,
    target directory, app.json), the decisions it takes before building or
    converting, and the registry of build handlers. The file system is an input: which
    JSON files exist (already parsed), which directories exist, and the user's typed
    answers. */
module Context {
  import opened Bytes
  import opened Strings
  import opened Dicts
  import ImageIo

  // ---------------------------------------------------------------------------
  // Build handler registry

  /** `BUILD_HANDLERS`: the handler names in the order the decorator registered them. */
  class Registry {
    var handlers: seq<string>

    constructor ()
      ensures handlers == []
    {
      handlers := [];
    }

    /** `@build_handler(name)` appends the handler. */
    method Register(name: string)
      modifies this
      ensures handlers == old(handlers) + [name]
    {
      handlers := handlers + [name];
    }

    /** The loop of `process_project`: every handler once, in registration order; the
        result is the sequence of handlers run. */
    method RunAll() returns (ran: seq<string>)
      ensures ran == handlers
    {
      ran := [];
      for i := 0 to |handlers|
        invariant ran == handlers[..i]
      {
        ran := ran + [handlers[i]];
      }
      assert handlers[..|handlers|] == handlers;
    }
  }

  // ---------------------------------------------------------------------------
  // Configuration

  /** `list_config_locations`: the app directory, the user's config directory, then the
      project directory. */
  function ConfigLocations(appPath: string, configDir: string, path: string): seq<string>
  {
    [Join(appPath, "zmake.json"), Join(configDir, "zmake.json"), Join(path, "zmake.json")]
  }

  /** The overlays that exist among the locations, in order; `files` maps each existing
      file to its parsed JSON object. */
  function Present(locations: seq<string>, files: map<string, Dict<Json>>): (r: seq<Dict<Json>>)
    ensures |r| <= |locations|
    ensures forall j :: 0 <= j < |r| ==> r[j] in files.Values
    ensures (forall i :: 0 <= i < |locations| ==> locations[i] in files) ==>
              |r| == |locations| && forall i :: 0 <= i < |r| ==> r[i] == files[locations[i]]
    ensures (forall i :: 0 <= i < |locations| ==> locations[i] !in files) ==> r == []
    ensures forall i :: 0 <= i < |locations| && locations[i] in files ==> files[locations[i]] in r
  {
    if locations == [] then []
    else
      var front := locations[..|locations| - 1];
      var init := Present(front, files);
      var last := locations[|locations| - 1];
      assert forall i :: 0 <= i < |front| ==> front[i] == locations[i];
      if last in files then init + [files[last]] else init
  }

  /** The configuration after applying the overlays in order, each with
      `config[i] = overlay[i]` for every key i. */
  function Overlaid(config: Dict<Json>, overlays: seq<Dict<Json>>): (r: Dict<Json>)
    ensures |r| >= |config| && forall i :: 0 <= i < |config| ==> r[i].0 == config[i].0
    ensures forall k :: Has(r, k) ==> Has(config, k) || LastValue(overlays, k).Some?
  {
    if overlays == [] then config
    else
      UpdateKeeps(Overlaid(config, overlays[..|overlays| - 1]), overlays[|overlays| - 1]);
      Update(Overlaid(config, overlays[..|overlays| - 1]), overlays[|overlays| - 1])
  }

  /** The inner loop of `load_config`: `config[i] = overlay[i]` for every key i. */
  method MergeOverlay(config: Dict<Json>, overlay: Dict<Json>) returns (r: Dict<Json>)
    ensures r == Update(config, overlay)
  {
    r := config;
    for j := 0 to |overlay|
      invariant Update(config, overlay) == Update(r, overlay[j..])
    {
      UpdateFrom(r, overlay, j);
      r := Set(r, overlay[j].0, overlay[j].1);
    }
  }

  /** One more location: its file, when it exists, is the last overlay. */
  lemma PresentStep(locations: seq<string>, files: map<string, Dict<Json>>, i: nat)
    requires i < |locations|
    ensures Present(locations[..i + 1], files)
            == if locations[i] in files then Present(locations[..i], files) + [files[locations[i]]]
               else Present(locations[..i], files)
  {
    assert locations[..i + 1][..i] == locations[..i];
  }

  /** One more overlay is one more update. */
  lemma OverlaidSnoc(config: Dict<Json>, overlays: seq<Dict<Json>>, overlay: Dict<Json>)
    ensures Overlaid(config, overlays + [overlay]) == Update(Overlaid(config, overlays), overlay)
  {
    assert (overlays + [overlay])[..|overlays|] == overlays;
  }

  /** The value a key has in the last overlay that holds it. */
  function LastValue(overlays: seq<Dict<Json>>, k: string): Option<Json>
  {
    if overlays == [] then None
    else if Has(overlays[|overlays| - 1], k) then Get(overlays[|overlays| - 1], k)
    else LastValue(overlays[..|overlays| - 1], k)
  }

  /** After merging, a key has the value of the last overlay that sets it, and a key no
      overlay sets keeps its earlier value. */
  lemma {:induction false} OverlaidLookup(config: Dict<Json>, overlays: seq<Dict<Json>>, k: string)
    requires forall i :: 0 <= i < |overlays| ==> Unique(overlays[i])
    ensures Get(Overlaid(config, overlays), k) == if LastValue(overlays, k).Some? then LastValue(overlays, k) else Get(config, k)
    decreases |overlays|
  {
    if overlays != [] {
      var init := overlays[..|overlays| - 1];
      OverlaidLookup(config, init, k);
      GetUpdate(Overlaid(config, init), overlays[|overlays| - 1], k);
    }
  }

  /** Merging keeps the keys of the configuration unique. */
  lemma {:induction false} OverlaidUnique(config: Dict<Json>, overlays: seq<Dict<Json>>)
    requires Unique(config)
    ensures Unique(Overlaid(config, overlays))
    decreases |overlays|
  {
    if overlays != [] {
      OverlaidUnique(config, overlays[..|overlays| - 1]);
      UpdateUnique(Overlaid(config, overlays[..|overlays| - 1]), overlays[|overlays| - 1]);
    }
  }

  // ---------------------------------------------------------------------------
  // Questions and the automatic mode

  /** What `ask_question` returns: the first answer that is one of the options (the
      empty string counts when it is an option, before anything is read), and how many
      answers were read; running out of answers is `input()`'s EOFError. */
  function FirstAnswer(answers: seq<string>, options: seq<string>): (r: Result<(string, nat)>)
    ensures r.Ok? ==> r.value.0 in options && r.value.1 <= |answers|
    ensures r.Ok? && r.value.1 > 0 ==> r.value.0 == answers[r.value.1 - 1]
    ensures r.Ok? ==> forall j :: 0 <= j < r.value.1 - 1 ==> answers[j] !in options
    ensures r.Err? <==> "" !in options && forall j :: 0 <= j < |answers| ==> answers[j] !in options
    ensures r.Err? ==> r.error == EOFError
  {
    if "" in options then Ok(("", 0)) else FirstListed(answers, options, 0)
  }

  function FirstListed(answers: seq<string>, options: seq<string>, i: nat): (r: Result<(string, nat)>)
    requires i <= |answers|
    ensures r.Ok? ==> r.value.0 in options && i < r.value.1 <= |answers| && r.value.0 == answers[r.value.1 - 1]
    ensures r.Ok? ==> forall j :: i <= j < r.value.1 - 1 ==> answers[j] !in options
    ensures r.Err? <==> forall j :: i <= j < |answers| ==> answers[j] !in options
    ensures r.Err? ==> r.error == EOFError
    decreases |answers| - i
  {
    if i == |answers| then Err(EOFError)
    else if answers[i] in options then Ok((answers[i], i + 1))
    else FirstListed(answers, options, i + 1)
  }

  /** `ask_question`: read answers until one is among the options. */
  method AskQuestion(answers: seq<string>, options: seq<string>) returns (r: Result<(string, nat)>)
    ensures r == FirstAnswer(answers, options)
  {
    var result := "";
    var read := 0;
    while result !in options
      invariant read <= |answers|
      invariant FirstAnswer(answers, options) == if result in options then Ok((result, read)) else FirstListed(answers, options, read)
      decreases |answers| - read
    {
      if read == |answers| {
        return Err(EOFError);
      }
      result := answers[read];
      read := read + 1;
    }
    return Ok((result, read));
  }

  /** What `perform_auto` does. */
  datatype AutoAction = Unpack | NewProject | Build | Convert

  /** `perform_auto`'s rules, the first that applies winning: a ".bin" or ".zip" name is
      unpacked, an empty directory becomes a new project, a directory with an app.json
      file is built, and anything else is converted. */
  function PerformAuto(name: string, isDir: bool, isEmpty: bool, hasAppJson: bool): (a: AutoAction)
    ensures a == Unpack <==> EndsWith(name, ".bin") || EndsWith(name, ".zip")
    ensures a == NewProject <==> a != Unpack && isDir && isEmpty
    ensures a == Build <==> a != Unpack && a != NewProject && isDir && hasAppJson
    ensures a == Convert <==> a != Unpack && a != NewProject && a != Build
  {
    if EndsWith(name, ".bin") || EndsWith(name, ".zip") then Unpack
    else if isDir && isEmpty then NewProject
    else if isDir && hasAppJson then Build
    else Convert
  }

  // ---------------------------------------------------------------------------
  // process_convert_auto

  /** The count of PNG and TGA files among `files`, each classified by `get_format` as
      intended: "N/A" is skipped, "PNG" counts as PNG, a tag starting "TGA" as TGA. A
      file too short for `get_format` stops the count. */
  function FormatCounts(files: seq<seq<byte>>): (r: Result<(nat, nat)>)
    ensures r.Ok? ==> r.value.0 + r.value.1 <= |files|
    ensures r.Err? ==> r.error == IndexError
  {
    if files == [] then Ok((0, 0))
    else
      var counts :- FormatCounts(files[..|files| - 1]);
      var tag :- ImageIo.GetFormat(files[|files| - 1]);
      if tag == ImageIo.TAG_NA then Ok(counts)
      else if tag == ImageIo.TAG_PNG then Ok((counts.0 + 1, counts.1))
      else if StartsWith(tag, "TGA") then Ok((counts.0, counts.1 + 1))
      else Ok(counts)
  }

  /** `get_format` reads the file, and calls it "PNG". */
  predicate IsPngFile(f: seq<byte>)
  {
    ImageIo.GetFormat(f) == Ok(ImageIo.TAG_PNG)
  }

  /** `get_format` reads the file, and its tag starts with "TGA". */
  predicate IsTgaFile(f: seq<byte>)
  {
    ImageIo.GetFormat(f).Ok? && StartsWith(ImageIo.GetFormat(f).value, "TGA")
  }

  /** The scan succeeds exactly when `get_format` reads every file. */
  lemma {:induction false} FormatCountsOk(files: seq<seq<byte>>)
    ensures FormatCounts(files).Ok? <==> forall i :: 0 <= i < |files| ==> ImageIo.GetFormat(files[i]).Ok?
  {
    if files != [] {
      var init := files[..|files| - 1];
      FormatCountsOk(init);
      assert forall i :: 0 <= i < |init| ==> init[i] == files[i];
    }
  }

  /** No PNG is counted exactly when no file is "PNG". */
  lemma {:induction false} FormatCountsNoPng(files: seq<seq<byte>>)
    requires FormatCounts(files).Ok?
    ensures FormatCounts(files).value.0 == 0 <==> forall i :: 0 <= i < |files| ==> !IsPngFile(files[i])
  {
    if files != [] {
      var init := files[..|files| - 1];
      FormatCountsNoPng(init);
      assert forall i :: 0 <= i < |init| ==> init[i] == files[i];
    }
  }

  /** No TGA is counted exactly when no file's tag starts with "TGA". */
  lemma {:induction false} FormatCountsNoTga(files: seq<seq<byte>>)
    requires FormatCounts(files).Ok?
    ensures FormatCounts(files).value.1 == 0 <==> forall i :: 0 <= i < |files| ==> !IsTgaFile(files[i])
  {
    if files != [] {
      var init := files[..|files| - 1];
      FormatCountsNoTga(init);
      assert forall i :: 0 <= i < |init| ==> init[i] == files[i];
      assert !StartsWith(ImageIo.TAG_PNG, "TGA") && !StartsWith(ImageIo.TAG_NA, "TGA") by {
        assert ImageIo.TAG_PNG[0] != "TGA"[0] && ImageIo.TAG_NA[0] != "TGA"[0];
      }
    }
  }

  /** The same count with `get_format` as written: the pair returned for an unknown
      header is neither "N/A" nor "PNG", and `.startswith` on it is an AttributeError. */
  function FormatCountsAsWritten(files: seq<seq<byte>>): (r: Result<(nat, nat)>)
    ensures r.Ok? ==> r == FormatCounts(files)
    ensures r.Err? ==> r.error == AttributeError || r == FormatCounts(files)
  {
    if files == [] then Ok((0, 0))
    else
      var counts :- FormatCountsAsWritten(files[..|files| - 1]);
      var format :- ImageIo.GetFormatAsWritten(files[|files| - 1]);
      match format
      case NoneAndTag(_) => Err(AttributeError)
      case Tag(tag) =>
        if tag == ImageIo.TAG_NA then Ok(counts)
        else if tag == ImageIo.TAG_PNG then Ok((counts.0 + 1, counts.1))
        else if StartsWith(tag, "TGA") then Ok((counts.0, counts.1 + 1))
        else Ok(counts)
  }

  /** A four-byte file whose image-type byte is 0: neither PNG nor a known TGA type. */
  const UNKNOWN_FILE: seq<byte> := [0, 0, 0, 0]

  /** As written, one file of unknown type makes the automatic conversion fail. */
  lemma UnknownFileFails()
    ensures FormatCountsAsWritten([UNKNOWN_FILE]) == Err(AttributeError)
  {
    assert [UNKNOWN_FILE][..0] == [];
    assert ImageIo.Head(UNKNOWN_FILE) == UNKNOWN_FILE;
  }

  /** As intended, the same file is skipped. */
  lemma UnknownFileSkipped()
    ensures FormatCounts([UNKNOWN_FILE]) == Ok((0, 0))
  {
    assert [UNKNOWN_FILE][..0] == [];
    assert ImageIo.Head(UNKNOWN_FILE) == UNKNOWN_FILE;
  }

  /** The two counts agree whenever no file has an unknown header. */
  lemma {:induction false} FormatCountsAgree(files: seq<seq<byte>>)
    requires forall i :: 0 <= i < |files| ==> ImageIo.GetFormat(files[i]) != Ok(ImageIo.TAG_NA)
    ensures FormatCountsAsWritten(files) == FormatCounts(files)
    decreases |files|
  {
    if files != [] {
      FormatCountsAgree(files[..|files| - 1]);
    }
  }

  /** The counting loop of `process_convert_auto`. */
  method CountFormats(files: seq<seq<byte>>) returns (r: Result<(nat, nat)>)
    ensures r == FormatCounts(files)
  {
    var filesPng, filesTga := 0, 0;
    for i := 0 to |files|
      invariant FormatCounts(files[..i]) == Ok((filesPng, filesTga))
    {
      assert files[..i + 1][..i] == files[..i];
      var fileType := ImageIo.GetFormat(files[i]);
      if fileType.Err? {
        assert files[..i + 1][i] == files[i];
        FormatCountsErrs(files, i + 1);
        return Err(fileType.error);
      }
      var tag := fileType.value;
      if tag == ImageIo.TAG_NA {
        continue;
      }
      if tag == ImageIo.TAG_PNG {
        filesPng := filesPng + 1;
      } else if StartsWith(tag, "TGA") {
        filesTga := filesTga + 1;
      }
    }
    assert files[..|files|] == files;
    return Ok((filesPng, filesTga));
  }

  /** Once a prefix fails, the whole count fails the same way. */
  lemma {:induction false} FormatCountsErrs(files: seq<seq<byte>>, i: nat)
    requires i <= |files| && FormatCounts(files[..i]).Err?
    ensures FormatCounts(files) == FormatCounts(files[..i])
    decreases |files| - i
  {
    if i < |files| {
      assert files[..i + 1][..i] == files[..i];
      FormatCountsErrs(files, i + 1);
    } else {
      assert files[..i] == files;
    }
  }

  /** Which way `process_convert_auto` converts. */
  datatype Conversion = Encode | Decode

  /** `process_convert_auto`: with no TGA file it encodes, else with no PNG file it
      decodes, and otherwise it asks, "1" meaning encode and "2" decode. */
  method ConvertAuto(files: seq<seq<byte>>, answers: seq<string>) returns (r: Result<Conversion>)
    ensures FormatCounts(files).Err? ==> r == Err(IndexError)
    ensures FormatCounts(files).Ok? && FormatCounts(files).value.1 == 0 ==> r == Ok(Encode)
    ensures FormatCounts(files).Ok? && FormatCounts(files).value.1 > 0 && FormatCounts(files).value.0 == 0 ==> r == Ok(Decode)
    ensures FormatCounts(files).Ok? && FormatCounts(files).value.1 > 0 && FormatCounts(files).value.0 > 0 ==>
              r == match FirstAnswer(answers, ["1", "2"])
                   case Err(e) => Err(e)
                   case Ok((v, _)) => Ok(if v == "1" then Encode else Decode)
  {
    var counts := CountFormats(files);
    if counts.Err? {
      return Err(counts.error);
    }
    var (filesPng, filesTga) := counts.value;
    if filesTga == 0 {
      return Ok(Encode);
    } else if filesPng == 0 {
      return Ok(Decode);
    }
    var v := AskQuestion(answers, ["1", "2"]);
    if v.Err? {
      return Err(v.error);
    }
    if v.value.0 == "1" {
      return Ok(Encode);
    } else {
      return Ok(Decode);
    }
  }

  // ---------------------------------------------------------------------------
  // Target format of an image

  /** `mode_table` of `get_img_target_type`, in its order. */
  const MODE_TABLE: seq<(string, string)> := [("rgb", "TGA-16"), ("rgba", "TGA-32"), ("p", "TGA-P"), ("rlp", "TGA-RLP")]

  /** The name ends ".a.png" or the path holds ".a/". */
  predicate Selects(file: string, a: string)
  {
    EndsWith(Name(file), "." + a + ".png") || Contains(file, "." + a + "/")
  }

  /** The position of the first table entry that selects the file. */
  function FirstMode(file: string, table: seq<(string, string)>): (r: Option<nat>)
    ensures r.None? <==> forall i :: 0 <= i < |table| ==> !Selects(file, table[i].0)
    ensures r.Some? ==> r.value < |table| && Selects(file, table[r.value].0)
                        && forall j :: 0 <= j < r.value ==> !Selects(file, table[j].0)
  {
    if table == [] then None
    else if Selects(file, table[0].0) then Some(0)
    else match FirstMode(file, table[1..])
      case None => None
      case Some(i) => Some(i + 1)
  }

  /** What `get_img_target_type` returns: the `def_format` setting (KeyError when it is
      missing, even if the table decides) unless a table entry selects the file. */
  function TargetType(config: Dict<Json>, file: string): (r: Result<Json>)
    ensures r.Err? <==> !Has(config, "def_format")
    ensures r.Ok? && FirstMode(file, MODE_TABLE).None? ==> Get(config, "def_format") == Some(r.value)
    ensures r.Ok? && FirstMode(file, MODE_TABLE).Some? ==> r.value == Str(MODE_TABLE[FirstMode(file, MODE_TABLE).value].1)
  {
    var mode :- Lookup(config, "def_format");
    match FirstMode(file, MODE_TABLE)
    case Some(i) => Ok(Str(MODE_TABLE[i].1))
    case None => Ok(mode)
  }

  /** A file named "*.rgb.png" is 16-bit whatever the default. */
  lemma RgbNameIs16(config: Dict<Json>, file: string)
    requires Has(config, "def_format") && EndsWith(file, ".rgb.png")
    ensures TargetType(config, file) == Ok(Str("TGA-16"))
  {
    NameEndsWith(file, ".rgb.png");
    assert Selects(file, MODE_TABLE[0].0);
    assert FirstMode(file, MODE_TABLE) == Some(0);
  }

  /** A file under a directory whose name ends ".p" is indexed, unless an earlier entry
      of the table selects it. */
  lemma PaletteDirIsP(config: Dict<Json>, dir: string, rest: string)
    requires Has(config, "def_format")
    requires !Selects(dir + ".p/" + rest, "rgb") && !Selects(dir + ".p/" + rest, "rgba")
    ensures TargetType(config, dir + ".p/" + rest) == Ok(Str("TGA-P"))
  {
    var file := dir + ".p/" + rest;
    assert "." + MODE_TABLE[2].0 + "/" == ".p/";
    assert file[|dir|..|dir| + 3] == ".p/";
    assert OccursAt(file, ".p/", |dir|);
    ContainsAt(file, ".p/");
    assert Selects(file, MODE_TABLE[2].0);
    assert FirstMode(file, MODE_TABLE) == Some(2);
  }

  /** A path that ends with a suffix free of "/" has a name ending with it. */
  lemma NameEndsWith(path: string, suffix: string)
    requires EndsWith(path, suffix) && '/' !in suffix
    ensures EndsWith(Name(path), suffix)
  {
    NameOfSuffix(path, suffix);
  }

  lemma {:induction false} NameOfSuffix(path: string, suffix: string)
    requires EndsWith(path, suffix) && '/' !in suffix
    ensures |Name(path)| >= |suffix|
    decreases |suffix|
  {
    if suffix != [] {
      var p := path[..|path| - 1];
      var s := suffix[..|suffix| - 1];
      assert suffix[|suffix| - 1] == path[|path| - 1];
      assert p[|p| - |s|..] == path[|path| - |suffix|..|path| - 1];
      NameOfSuffix(p, s);
    }
  }

  /** The name of `dir/name` is name when name holds no "/". */
  lemma {:induction false} NameOfJoin(dir: string, name: string)
    requires '/' !in name
    ensures Name(dir + "/" + name) == name
    decreases |name|
  {
    if name == [] {
      assert (dir + "/" + name)[|dir + "/" + name| - 1] == '/';
    } else {
      var init := name[..|name| - 1];
      NameOfJoin(dir, init);
      assert (dir + "/" + name)[..|dir + "/" + name| - 1] == dir + "/" + init;
    }
  }

  // ---------------------------------------------------------------------------
  // Path overrides

  /** `config["overrides"]`; an override table that is not a JSON object is treated as a
      TypeError. */
  function Overrides(config: Dict<Json>): (r: Result<Dict<Json>>)
  {
    var table :- Lookup(config, "overrides");
    if table.Obj? then Ok(table.fields) else Err(TypeError)
  }

  /** `check_override_relative`: the override of a project-relative name, or the name. */
  function CheckOverrideRelative(config: Dict<Json>, rel: string): (r: Result<Json>)
    ensures Overrides(config).Err? ==> r.Err?
    ensures Overrides(config).Ok? && Has(Overrides(config).value, rel) ==> r.Ok? && Some(r.value) == Get(Overrides(config).value, rel)
    ensures Overrides(config).Ok? && !Has(Overrides(config).value, rel) ==> r == Ok(Str(rel))
  {
    var overrides :- Overrides(config);
    match Get(overrides, rel)
    case Some(v) => Ok(v)
    case None => Ok(Str(rel))
  }

  /** `str(file)[len(str(path)) + 1:]` without a trailing "/". */
  function RelativeName(path: string, file: string): (rel: string)
  {
    var rel := Slice(file, |path| + 1, |file| + |path| + 1);
    if EndsWith(rel, "/") then rel[..|rel| - 1] else rel
  }

  /** A file joined under the project path gives back its relative name. */
  lemma RelativeNameOfJoin(path: string, rel: string)
    requires !EndsWith(rel, "/")
    ensures RelativeName(path, Join(path, rel)) == rel
  {
    var f := Join(path, rel);
    assert f[|path| + 1..] == rel;
  }

  /** `check_override`: the project path joined with the override of the file's
      relative name, or the file itself. An override that is not a string cannot be
      joined to a path. */
  function CheckOverride(config: Dict<Json>, path: string, file: string): (r: Result<string>)
    ensures Overrides(config).Err? ==> r.Err?
    ensures Overrides(config).Ok? && !Has(Overrides(config).value, RelativeName(path, file)) ==> r == Ok(file)
    ensures Overrides(config).Ok? && Get(Overrides(config).value, RelativeName(path, file)).Some? ==>
              var v := Get(Overrides(config).value, RelativeName(path, file)).value;
              r == if v.Str? then Ok(Join(path, v.s)) else Err(TypeError)
  {
    var overrides :- Overrides(config);
    var v := Get(overrides, RelativeName(path, file));
    if v.None? then Ok(file)
    else if v.value.Str? then Ok(Join(path, v.value.s))
    else Err(TypeError)
  }

  /** For a file under the project the two lookups agree: the override names a path
      under the project, or the file is kept. */
  lemma CheckOverrideAgrees(config: Dict<Json>, path: string, rel: string)
    requires !EndsWith(rel, "/") && Overrides(config).Ok?
    ensures var r := CheckOverrideRelative(config, rel);
            r.Ok? && r.value.Str? ==> CheckOverride(config, path, Join(path, rel)) == Ok(Join(path, r.value.s))
  {
    RelativeNameOfJoin(path, rel);
  }

  // ---------------------------------------------------------------------------
  // The context

  /** The JS target directory of `process_project`: "page" for an app, "watchface"
      otherwise, unless `target_dir_override` is set to a non-empty name. */
  function TargetDir(appJson: Json, config: Dict<Json>): (r: Result<string>)
    ensures r.Ok? <==> Index(appJson, "app").Ok? && Index(Index(appJson, "app").value, "appType").Ok?
                       && Get(config, "target_dir_override").Some?
                       && (Get(config, "target_dir_override").value == Str("") || Get(config, "target_dir_override").value.Str?)
    ensures r.Ok? ==> Index(appJson, "app").Ok? && Index(Index(appJson, "app").value, "appType").Ok?
    ensures r.Ok? ==> Get(config, "target_dir_override").Some?
    ensures r.Ok? && Get(config, "target_dir_override").value != Str("") ==> Get(config, "target_dir_override").value == Str(r.value)
    ensures r.Ok? && Get(config, "target_dir_override").value == Str("") ==>
              r.value == if Index(Index(appJson, "app").value, "appType").value == Str("app") then "page" else "watchface"
  {
    var app :- Index(appJson, "app");
    var appType :- Index(app, "appType");
    var dir := if appType == Str("app") then "page" else "watchface";
    var over :- Lookup(config, "target_dir_override");
    if over != Str("") then
      if over.Str? then Ok(over.s) else Err(TypeError)
    else Ok(dir)
  }

  /** `str(path)[:-4]` */
  function DropExtension(path: string): (r: string)
    ensures |path| >= 4 ==> path == r + path[|path| - 4..]
    ensures |path| < 4 ==> r == ""
  {
    if |path| >= 4 then path[..|path| - 4] else ""
  }

  /** `ZMakeContext`: the state the build handlers share. */
  class ZMakeContext {
    var path: string
    var pathAssets: string
    var targetDir: string
    var config: Dict<Json>
    var appJson: Json

    /** `__init__`: empty state, then `load_config`. */
    constructor (path: string, appPath: string, configDir: string, files: map<string, Dict<Json>>)
      ensures this.path == path && pathAssets == Join(path, "assets") && targetDir == ""
      ensures appJson == Obj([])
      ensures config == Overlaid([], Present(ConfigLocations(appPath, configDir, path), files))
    {
      this.path := path;
      pathAssets := Join(path, "assets");
      targetDir := "";
      config := [];
      appJson := Obj([]);
      new;
      LoadConfig(ConfigLocations(appPath, configDir, path), files);
    }

    /** `load_config`: every existing file of the list overlays its keys in order;
        missing files are skipped. */
    method LoadConfig(locations: seq<string>, files: map<string, Dict<Json>>)
      modifies this
      ensures config == Overlaid(old(config), Present(locations, files))
      ensures path == old(path) && pathAssets == old(pathAssets) && targetDir == old(targetDir) && appJson == old(appJson)
    {
      ghost var start := config;
      for i := 0 to |locations|
        invariant config == Overlaid(start, Present(locations[..i], files))
        invariant path == old(path) && pathAssets == old(pathAssets) && targetDir == old(targetDir) && appJson == old(appJson)
      {
        PresentStep(locations, files, i);
        var file := locations[i];
        if file !in files {
          continue;
        }
        var overlay := files[file];
        OverlaidSnoc(start, Present(locations[..i], files), overlay);
        config := MergeOverlay(config, overlay);
      }
      assert locations[..|locations|] == locations;
    }

    /** `process_bin`: the project becomes the archive's name without its four-character
        extension, which must not be an existing directory. Extraction and decoding
        are not modelled. */
    method ProcessBin(directories: set<string>) returns (r: Result<()>)
      modifies this
      ensures var dest := DropExtension(old(path));
              if dest in directories then r == Err(FileExistsError) && path == old(path)
              else r == Ok(()) && path == dest
      ensures pathAssets == old(pathAssets) && targetDir == old(targetDir) && config == old(config) && appJson == old(appJson)
    {
      var dest := DropExtension(path);
      if dest in directories {
        return Err(FileExistsError);
      }
      path := dest;
      return Ok(());
    }

    /** `process_project`: read app.json (through its override), choose the target
        directory, then run every registered handler once in order. `jsonFiles` maps
        the existing JSON files to their parsed content. */
    method ProcessProject(jsonFiles: map<string, Json>, registry: Registry) returns (r: Result<seq<string>>)
      modifies this
      ensures var file := CheckOverride(old(config), old(path), Join(old(path), "app.json"));
              && (file.Err? ==> r == Err(file.error))
              && (file.Ok? && file.value !in jsonFiles ==> r == Err(FileNotFoundError))
              && (file.Ok? && file.value in jsonFiles ==>
                    && appJson == jsonFiles[file.value]
                    && (TargetDir(appJson, config).Err? ==> r == Err(TargetDir(appJson, config).error))
                    && (TargetDir(appJson, config).Ok? ==> targetDir == TargetDir(appJson, config).value && r == Ok(registry.handlers)))
      ensures path == old(path) && config == old(config) && pathAssets == old(pathAssets)
    {
      var file := CheckOverride(config, path, Join(path, "app.json"));
      if file.Err? {
        return Err(file.error);
      }
      if file.value !in jsonFiles {
        return Err(FileNotFoundError);
      }
      appJson := jsonFiles[file.value];
      targetDir := "watchface";
      var dir := TargetDir(appJson, config);
      if dir.Err? {
        return Err(dir.error);
      }
      targetDir := dir.value;
      var ran := registry.RunAll();
      return Ok(ran);
    }
  }
}

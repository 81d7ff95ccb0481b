/** zmake/project_build.py: the build handlers' decisions that do not depend on outside
    tools. Directory walks, file contents, the clock and the zmake version are inputs;
    what the handlers write is returned (entry names, file texts, the new app.json). */
module ProjectBuild {
  import opened Bytes
  import opened Strings
  import opened Dicts
  import Context

  // ---------------------------------------------------------------------------
  // Registered handlers

  /** The handler names in the order the decorators register them. */
  const HANDLER_NAMES: seq<string> := [
    "Pre-build command", "Prepare", "Process app.json", "Convert assets", "Common files",
    "Build app.js", "Build page from src/lib", "Process JS files", "Post-processing JS files",
    "Preview", "Package BIN and ZIP", "Make ZEUS package", "ADB Install", "Post-build command"]

  /** Importing the module registers every handler once, in file order. */
  method RegisterHandlers(registry: Context.Registry)
    modifies registry
    ensures registry.handlers == old(registry.handlers) + HANDLER_NAMES
  {
    for i := 0 to |HANDLER_NAMES|
      invariant registry.handlers == old(registry.handlers) + HANDLER_NAMES[..i]
    {
      assert HANDLER_NAMES[..i + 1] == HANDLER_NAMES[..i] + [HANDLER_NAMES[i]];
      registry.Register(HANDLER_NAMES[i]);
    }
    assert HANDLER_NAMES[..|HANDLER_NAMES|] == HANDLER_NAMES;
  }

  // ---------------------------------------------------------------------------
  // should_ignore_file

  const DEFAULT_IGNORE: seq<Json> := [Str(".DS_Store"), Str("Thumbs.db")]

  /** `config.get("ignore_files", [".DS_Store", "Thumbs.db"])`; a setting that is not a
      list is treated as a TypeError. */
  function IgnoreEntries(config: Dict<Json>): (r: Result<seq<Json>>)
    ensures !Has(config, "ignore_files") ==> r == Ok(DEFAULT_IGNORE)
    ensures Has(config, "ignore_files") ==>
              if Get(config, "ignore_files").value.Arr? then r == Ok(Get(config, "ignore_files").value.items)
              else r == Err(TypeError)
  {
    match Get(config, "ignore_files")
    case None => Ok(DEFAULT_IGNORE)
    case Some(v) => if v.Arr? then Ok(v.items) else Err(TypeError)
  }

  /** The loop over the ignore list: true at the first entry that is a substring of the
      name; a non-string entry reached before that is a TypeError for `in`. */
  function Ignored(filename: string, entries: seq<Json>): (r: Result<bool>)
    ensures r.Err? ==> r.error == TypeError
    ensures AllStrings(entries) ==> r.Ok?
  {
    if entries == [] then Ok(false)
    else if !entries[0].Str? then Err(TypeError)
    else if Contains(filename, entries[0].s) then Ok(true)
    else Ignored(filename, entries[1..])
  }

  predicate AllStrings(entries: seq<Json>)
  {
    forall i :: 0 <= i < |entries| ==> entries[i].Str?
  }

  /** With a list of strings, a name is ignored iff some entry occurs in it. */
  lemma {:induction false} IgnoredIff(filename: string, entries: seq<Json>)
    requires forall i :: 0 <= i < |entries| ==> entries[i].Str?
    ensures Ignored(filename, entries) == Ok(exists i :: 0 <= i < |entries| && Contains(filename, entries[i].s))
    decreases |entries|
  {
    if entries != [] {
      IgnoredIff(filename, entries[1..]);
      if exists i :: 0 <= i < |entries| && Contains(filename, entries[i].s) {
        var i :| 0 <= i < |entries| && Contains(filename, entries[i].s);
        if i > 0 {
          assert entries[1..][i - 1] == entries[i];
        }
      }
      if exists i :: 0 <= i < |entries[1..]| && Contains(filename, entries[1..][i].s) {
        var i :| 0 <= i < |entries[1..]| && Contains(filename, entries[1..][i].s);
        assert entries[i + 1] == entries[1..][i];
      }
    }
  }

  /** With the default list, exactly names holding ".DS_Store" or "Thumbs.db" are
      ignored. */
  lemma DefaultIgnore(config: Dict<Json>, filename: string)
    requires !Has(config, "ignore_files")
    ensures ShouldIgnore(filename, config) == Ok(Contains(filename, ".DS_Store") || Contains(filename, "Thumbs.db"))
  {
    IgnoredIff(filename, DEFAULT_IGNORE);
    assert DEFAULT_IGNORE[0].s == ".DS_Store" && DEFAULT_IGNORE[1].s == "Thumbs.db";
  }

  /** What `should_ignore_file` returns. */
  function ShouldIgnore(filename: string, config: Dict<Json>): (r: Result<bool>)
    ensures r.Err? ==> r.error == TypeError
    ensures IgnoreListValid(config) ==> r.Ok?
  {
    var entries :- IgnoreEntries(config);
    Ignored(filename, entries)
  }

  /** The ignore setting is absent or a list of strings. */
  predicate IgnoreListValid(config: Dict<Json>)
  {
    IgnoreEntries(config).Ok? && AllStrings(IgnoreEntries(config).value)
  }

  /** `should_ignore_file` */
  method ShouldIgnoreFile(filename: string, config: Dict<Json>) returns (r: Result<bool>)
    ensures r == ShouldIgnore(filename, config)
  {
    var entries := IgnoreEntries(config);
    if entries.Err? {
      return Err(entries.error);
    }
    var list := entries.value;
    for i := 0 to |list|
      invariant Ignored(filename, list) == Ignored(filename, list[i..])
    {
      assert list[i..][1..] == list[i + 1..];
      if !list[i].Str? {
        return Err(TypeError);
      }
      if Contains(filename, list[i].s) {
        return Ok(true);
      }
    }
    return Ok(false);
  }

  // ---------------------------------------------------------------------------
  // process_app_json

  /** `package_info`; `timeStamp` is `round(time.time())` and `version` is zmake's
      version string. */
  function PackageInfo(timeStamp: int, version: string): Json
  {
    Obj([("mode", Str("preview")), ("timeStamp", Num(timeStamp)), ("expiredTime", Num(157680000)),
         ("zpm", Str("2.6.6")), ("zmake", Str(version))])
  }

  /** The target id: the configured `zeus_target` when it names one of the targets, else
      the first target (IndexError when there is none). A list or an object cannot be
      looked up in a dict (TypeError); any other non-string names no target. */
  function ChosenTarget(configured: Json, targets: Dict<Json>): (r: Result<string>)
    ensures r.Ok? ==> Has(targets, r.value)
    ensures configured.Str? && Has(targets, configured.s) ==> r == Ok(configured.s)
    ensures !configured.Arr? && !configured.Obj? && !(configured.Str? && Has(targets, configured.s)) ==>
              r == if targets == [] then Err(IndexError) else Ok(targets[0].0)
  {
    if configured.Arr? || configured.Obj? then Err(TypeError)
    else if configured.Str? && Has(targets, configured.s) then Ok(configured.s)
    else if targets == [] then Err(IndexError)
    else
      assert Find(targets, targets[0].0) == Some(0);
      Ok(targets[0].0)
  }

  /** The id and the keys of the target that is merged, from the "targets" value. */
  function SelectedTarget(targets: Json, config: Dict<Json>): (r: Result<(string, Dict<Json>)>)
    ensures r.Ok? ==> targets.Obj? && Get(targets.fields, r.value.0) == Some(Obj(r.value.1))
    ensures r.Ok? ==> Has(config, "zeus_target") && ChosenTarget(Get(config, "zeus_target").value, targets.fields) == Ok(r.value.0)
    ensures r.Ok? <==> Has(config, "zeus_target") && targets.Obj?
                       && ChosenTarget(Get(config, "zeus_target").value, targets.fields).Ok?
                       && Get(targets.fields, ChosenTarget(Get(config, "zeus_target").value, targets.fields).value).Some?
                       && Get(targets.fields, ChosenTarget(Get(config, "zeus_target").value, targets.fields).value).value.Obj?
  {
    var configured :- Lookup(config, "zeus_target");
    if !targets.Obj? then Err(TypeError)
    else
      var id :- ChosenTarget(configured, targets.fields);
      var target := Get(targets.fields, id);
      if target.Some? && target.value.Obj? then Ok((id, target.value.fields)) else Err(TypeError)
  }

  /** app.json with the package information and the platforms set. */
  function Stamped(fields: Dict<Json>, timeStamp: int, version: string, platforms: Json): (r: Dict<Json>)
    ensures Has(r, "packageInfo") && Has(r, "platforms")
  {
    var withInfo := Set(fields, "packageInfo", PackageInfo(timeStamp, version));
    GetSet(fields, "packageInfo", PackageInfo(timeStamp, version));
    SetKeeps(withInfo, "platforms", platforms);
    GetSet(withInfo, "platforms", platforms);
    Set(withInfo, "platforms", platforms)
  }

  /** The chosen target and its keys when app.json has "targets", None otherwise. */
  function TargetMerge(fields: Dict<Json>, config: Dict<Json>): Result<Option<(string, Dict<Json>)>>
  {
    match Get(fields, "targets")
    case None => Ok(None)
    case Some(targets) =>
      var selected :- SelectedTarget(targets, config);
      Ok(Some(selected))
  }

  /** The new app.json and asset path after `process_app_json`. */
  function ProcessedAppJson(appJson: Json, config: Dict<Json>, path: string, pathAssets: string, timeStamp: int, version: string)
    : (r: Result<(Json, string)>)
    ensures !appJson.Obj? ==> r == Err(TypeError)
    ensures appJson.Obj? && !Has(config, "zeus_platforms") ==> r == Err(KeyError)
    ensures r.Ok? ==> r.value.0.Obj? && Has(r.value.0.fields, "packageInfo") && Has(r.value.0.fields, "platforms")
  {
    if !appJson.Obj? then Err(TypeError)
    else
      var platforms :- Lookup(config, "zeus_platforms");
      var fields := Stamped(appJson.fields, timeStamp, version, platforms);
      var merge :- TargetMerge(fields, config);
      match merge
      case None => Ok((Obj(fields), pathAssets))
      case Some((id, target)) =>
        var merged := Update(fields, target);
        UpdateKeeps(fields, target);
        DelKeeps(merged, "targets", "packageInfo");
        DelKeeps(merged, "targets", "platforms");
        Ok((Obj(Del(merged, "targets")), Join(Join(path, "assets"), id)))
  }

  /** What app.json holds after `process_app_json`: without targets, the package
      information and the platforms are set and every other key is kept, with the
      assets where they were; with targets, in addition every key of the chosen target
      overrides the top-level key, "targets" is gone, and the assets come from
      assets/<target>. */
  lemma ProcessedAppJsonKeys(appJson: Json, config: Dict<Json>, path: string, pathAssets: string, timeStamp: int, version: string, k: string)
    requires UniqueKeys(appJson) && appJson.Obj?
    requires ProcessedAppJson(appJson, config, path, pathAssets, timeStamp, version).Ok?
    ensures var (j, assets) := ProcessedAppJson(appJson, config, path, pathAssets, timeStamp, version).value;
            var before := if k == "platforms" then Get(config, "zeus_platforms")
                          else if k == "packageInfo" then Some(PackageInfo(timeStamp, version))
                          else Get(appJson.fields, k);
            var merge := TargetMerge(appJson.fields, config);
            && j.Obj? && merge.Ok?
            && (merge.value.None? ==> assets == pathAssets && Get(j.fields, k) == before)
            && (merge.value.Some? ==>
                  var (id, target) := merge.value.value;
                  && assets == Join(Join(path, "assets"), id)
                  && Get(j.fields, k) == if k == "targets" then None else if Has(target, k) then Get(target, k) else before)
  {
    var platforms := Get(config, "zeus_platforms").value;
    var fields := Stamped(appJson.fields, timeStamp, version, platforms);
    StampedGet(appJson.fields, timeStamp, version, platforms, k);
    assert TargetMerge(fields, config) == TargetMerge(appJson.fields, config);
    if Has(appJson.fields, "targets") {
      var targets := Get(appJson.fields, "targets").value;
      var (id, target) := SelectedTarget(targets, config).value;
      NestedUnique(appJson, "targets");
      NestedUnique(targets, id);
      UpdateUnique(fields, target);
      GetUpdate(fields, target, k);
      GetDel(Update(fields, target), "targets", k);
    }
  }

  /** Stamping sets the package information and the platforms, keeps every other key
      (among them "targets") and keeps the keys unique. */
  lemma StampedGet(fields: Dict<Json>, timeStamp: int, version: string, platforms: Json, k: string)
    requires Unique(fields)
    ensures var r := Stamped(fields, timeStamp, version, platforms);
            && Unique(r)
            && Get(r, "targets") == Get(fields, "targets")
            && Get(r, k) == if k == "platforms" then Some(platforms)
                            else if k == "packageInfo" then Some(PackageInfo(timeStamp, version))
                            else Get(fields, k)
  {
    var s1 := Set(fields, "packageInfo", PackageInfo(timeStamp, version));
    SetKeys(fields, "packageInfo", PackageInfo(timeStamp, version));
    SetKeys(s1, "platforms", platforms);
    GetSetOther(fields, "packageInfo", PackageInfo(timeStamp, version), "targets");
    GetSetOther(s1, "platforms", platforms, "targets");
    if k == "platforms" {
      GetSet(s1, k, platforms);
    } else {
      GetSetOther(s1, "platforms", platforms, k);
      if k == "packageInfo" {
        GetSet(fields, k, PackageInfo(timeStamp, version));
      } else {
        GetSetOther(fields, "packageInfo", PackageInfo(timeStamp, version), k);
      }
    }
  }

  /** A value stored in a document with unique keys has unique keys itself. */
  lemma NestedUnique(j: Json, k: string)
    requires UniqueKeys(j) && j.Obj? && Has(j.fields, k)
    ensures UniqueKeys(Get(j.fields, k).value)
  {
    var i := Find(j.fields, k).value;
    assert Get(j.fields, k).value == j.fields[i].1;
  }

  /** `process_app_json`: the handler updates the context's app.json and asset path.
      Writing the JSON text to build/app.json is not modelled. */
  method ProcessAppJson(ctx: Context.ZMakeContext, timeStamp: int, version: string) returns (r: Result<()>)
    modifies ctx
    ensures var p := ProcessedAppJson(old(ctx.appJson), old(ctx.config), old(ctx.path), old(ctx.pathAssets), timeStamp, version);
            && (p.Ok? ==> r == Ok(()) && ctx.appJson == p.value.0 && ctx.pathAssets == p.value.1)
            && (p.Err? ==> r == Err(p.error))
    ensures ctx.path == old(ctx.path) && ctx.config == old(ctx.config) && ctx.targetDir == old(ctx.targetDir)
  {
    if !ctx.appJson.Obj? {
      return Err(TypeError);
    }
    var fields := Set(ctx.appJson.fields, "packageInfo", PackageInfo(timeStamp, version));
    ctx.appJson := Obj(fields);
    var platforms := Lookup(ctx.config, "zeus_platforms");
    if platforms.Err? {
      return Err(platforms.error);
    }
    fields := Set(fields, "platforms", platforms.value);
    ctx.appJson := Obj(fields);
    var targets := Get(fields, "targets");
    if targets.None? {
      return Ok(());
    }
    var selected := SelectedTarget(targets.value, ctx.config);
    if selected.Err? {
      return Err(selected.error);
    }
    var (id, target) := selected.value;
    ctx.pathAssets := Join(Join(ctx.path, "assets"), id);
    ghost var stamped := fields;
    for i := 0 to |target|
      invariant Update(stamped, target) == Update(fields, target[i..])
      invariant ctx.path == old(ctx.path) && ctx.config == old(ctx.config) && ctx.targetDir == old(ctx.targetDir)
    {
      assert target[i..][1..] == target[i + 1..];
      fields := Set(fields, target[i].0, target[i].1);
    }
    ctx.appJson := Obj(Del(fields, "targets"));
    return Ok(());
  }

  // ---------------------------------------------------------------------------
  // handle_src

  /** A JavaScript file: its path and its text. */
  type Source = (string, string)

  /** The text one file contributes to index.js. */
  function Piece(file: Source): string
  {
    "// source: " + file.0 + "\n" + file.1 + "\n"
  }

  function Concatenation(files: seq<Source>): string
  {
    if files == [] then "" else Concatenation(files[..|files| - 1]) + Piece(files[|files| - 1])
  }

  /** The text of consecutive file lists is the texts one after the other. */
  lemma {:induction false} ConcatenationAppend(a: seq<Source>, b: seq<Source>)
    ensures Concatenation(a + b) == Concatenation(a) + Concatenation(b)
    decreases |b|
  {
    if b != [] {
      assert (a + b)[..|a + b| - 1] == a + b[..|b| - 1];
      assert (a + b)[|a + b| - 1] == b[|b| - 1];
      ConcatenationAppend(a, b[..|b| - 1]);
    } else {
      assert a + b == a;
    }
  }

  /** The files `handle_src` reads, in order: lib/ when it exists, src/, then
      entrypoint.js when it exists. Each directory's files are given in sorted order. */
  function Sources(path: string, lib: Option<seq<Source>>, src: seq<Source>, entrypoint: Option<string>): seq<Source>
  {
    (if lib.Some? then lib.value else []) + src
    + (if entrypoint.Some? then [(Join(path, "entrypoint.js"), entrypoint.value)] else [])
  }

  /** The combined text is the lib/ text, then the src/ text, then the entry point's. */
  lemma SourceOrder(path: string, lib: seq<Source>, src: seq<Source>, entrypoint: string)
    ensures Concatenation(Sources(path, Some(lib), src, Some(entrypoint)))
            == Concatenation(lib) + Concatenation(src) + Piece((Join(path, "entrypoint.js"), entrypoint))
  {
    var e := [(Join(path, "entrypoint.js"), entrypoint)];
    ConcatenationAppend(lib + src, e);
    ConcatenationAppend(lib, src);
    assert Concatenation(e) == Piece(e[0]) by {
      assert e[..0] == [];
    }
  }

  /** The `out +=` loop over one directory's files. */
  method AppendSources(out: string, files: seq<Source>) returns (r: string)
    ensures r == out + Concatenation(files)
  {
    r := out;
    for i := 0 to |files|
      invariant r == out + Concatenation(files[..i])
    {
      assert files[..i + 1][..i] == files[..i];
      r := r + "// source: " + files[i].0 + "\n";
      r := r + files[i].1 + "\n";
    }
    assert files[..|files|] == files;
  }

  /** A template with one "{content}" place gets the combined text in that place. */
  lemma TemplateFilled(pre: string, post: string, content: string)
    requires !Contains(post, "{content}")
    requires forall i :: 0 <= i < |pre| ==> !StartsWith((pre + "{content}" + post)[i..], "{content}")
    ensures ReplaceAll(pre + "{content}" + post, "{content}", content) == pre + content + post
  {
    ReplaceAllOnce(pre, "{content}", post, content);
  }

  /** `handle_src`: nothing when src/ is missing (`src` is None) or <target_dir>/index.js
      exists in the project; otherwise build/<target_dir>/index.js gets the template
      with "{content}" replaced by the combined text. */
  method HandleSrc(ctx: Context.ZMakeContext, lib: Option<seq<Source>>, src: Option<seq<Source>>, entrypoint: Option<string>,
                   indexExists: bool, template: string)
    returns (written: Option<(string, string)>)
    ensures src.None? || indexExists ==> written == None
    ensures src.Some? && !indexExists ==>
              written == Some((Join(Join(Join(ctx.path, "build"), ctx.targetDir), "index.js"),
                               ReplaceAll(template, "{content}", Concatenation(Sources(ctx.path, lib, src.value, entrypoint)))))
  {
    if src.None? || indexExists {
      return None;
    }
    var out := "";
    var dirs := [if lib.Some? then lib.value else [], src.value];
    for d := 0 to 2
      invariant out == Concatenation(if d == 0 then [] else if d == 1 then dirs[0] else dirs[0] + dirs[1])
    {
      if d == 1 {
        ConcatenationAppend(dirs[0], dirs[1]);
      }
      out := AppendSources(out, dirs[d]);
    }
    var entry := [];
    if entrypoint.Some? {
      entry := [(Join(ctx.path, "entrypoint.js"), entrypoint.value)];
    }
    out := AppendSources(out, entry);
    ConcatenationAppend(dirs[0] + dirs[1], entry);
    assert dirs[0] + dirs[1] + entry == Sources(ctx.path, lib, src.value, entrypoint);
    out := ReplaceAll(template, "{content}", out);
    return Some((Join(Join(Join(ctx.path, "build"), ctx.targetDir), "index.js"), out));
  }

  // ---------------------------------------------------------------------------
  // Archive entries of package and make_zeus_pkg

  /** `str(file)[len(str(build)):]`: the name keeps the separator after the prefix. */
  function EntryName(build: string, file: string): (r: string)
    ensures StartsWith(file, build) ==> file == build + r
  {
    if |build| <= |file| then file[|build|..] else ""
  }

  /** The (file, entry name) pairs written for the build directory's files, skipping
      ignored names. */
  function Entries(build: string, files: seq<string>, config: Dict<Json>): (r: Result<seq<(string, string)>>)
    ensures r.Err? ==> r.error == TypeError
    ensures IgnoreListValid(config) ==> r.Ok?
    ensures r.Ok? ==> |r.value| <= |files|
  {
    if files == [] then Ok([])
    else
      var last := files[|files| - 1];
      var init :- Entries(build, files[..|files| - 1], config);
      var name := EntryName(build, last);
      var ignore :- ShouldIgnore(name, config);
      if ignore then Ok(init) else Ok(init + [(last, name)])
  }

  /** Every entry written comes from a file of the build directory under its entry name,
      and that name is not ignored; every file whose name is not ignored is written. */
  lemma {:induction false} EntriesWritten(build: string, files: seq<string>, config: Dict<Json>)
    requires Entries(build, files, config).Ok?
    ensures var r := Entries(build, files, config).value;
            && (forall i :: 0 <= i < |r| ==>
                  r[i].0 in files && r[i].1 == EntryName(build, r[i].0) && ShouldIgnore(r[i].1, config) == Ok(false))
            && (forall f :: f in files && ShouldIgnore(EntryName(build, f), config) == Ok(false) ==> (f, EntryName(build, f)) in r)
    decreases |files|
  {
    if files != [] {
      var init := files[..|files| - 1];
      var last := files[|files| - 1];
      assert files == init + [last];
      EntriesWritten(build, init, config);
    }
  }

  /** The archive loop: each file of the build directory not ignored is written under
      its entry name. */
  method WriteEntries(build: string, files: seq<string>, config: Dict<Json>) returns (r: Result<seq<(string, string)>>)
    ensures r == Entries(build, files, config)
  {
    var written := [];
    for i := 0 to |files|
      invariant Entries(build, files[..i], config) == Ok(written)
    {
      assert files[..i + 1][..i] == files[..i];
      assert files[..i + 1][i] == files[i];
      var fn := EntryName(build, files[i]);
      var ignore := ShouldIgnoreFile(fn, config);
      if ignore.Err? {
        EntriesErrs(build, files, config, i + 1);
        return Err(ignore.error);
      }
      if ignore.value {
        continue;
      }
      written := written + [(files[i], fn)];
    }
    assert files[..|files|] == files;
    return Ok(written);
  }

  /** Once a prefix fails, the whole list fails the same way. */
  lemma {:induction false} EntriesErrs(build: string, files: seq<string>, config: Dict<Json>, i: nat)
    requires i <= |files| && Entries(build, files[..i], config).Err?
    ensures Entries(build, files, config) == Entries(build, files[..i], config)
    decreases |files| - i
  {
    if i < |files| {
      assert files[..i + 1][..i] == files[..i];
      EntriesErrs(build, files, config, i + 1);
    } else {
      assert files[..i] == files;
    }
  }

  /** The archives `package` writes: the device archive and its entries, and, unless the
      extension is "zip", the outer ZIP and its entry names. */
  datatype Package = Package(deviceZip: string, entries: seq<(string, string)>, outer: Option<(string, seq<string>)>)

  /** The entry names of the outer ZIP. */
  function OuterEntries(basename: string, hasPreview: bool): (r: seq<string>)
    ensures |r| == if hasPreview then 3 else 2
    ensures r[0] == basename + "/" + basename + ".bin" && r[1] == basename + "/infos.xml"
    ensures hasPreview ==> r[2] == basename + "/" + basename + ".png"
  {
    [basename + "/" + basename + ".bin", basename + "/infos.xml"]
    + (if hasPreview then [basename + "/" + basename + ".png"] else [])
  }

  /** `package`: `files` is the build directory's walk and `hasPreview` whether
      dist/preview.png exists. A `package_extension` that is not a string is treated as
      a TypeError. */
  method MakePackage(ctx: Context.ZMakeContext, files: seq<string>, hasPreview: bool) returns (r: Result<Package>)
    ensures var ext := Lookup(ctx.config, "package_extension");
            var entries := Entries(Join(ctx.path, "build"), files, ctx.config);
            var basename := Name(ctx.path);
            && (ext.Err? ==> r == Err(KeyError))
            && (ext.Ok? && !ext.value.Str? ==> r == Err(TypeError))
            && (ext.Ok? && ext.value.Str? && entries.Err? ==> r == Err(entries.error))
            && (ext.Ok? && ext.value.Str? && entries.Ok? ==>
                  && r.Ok?
                  && r.value.deviceZip == Join(Join(ctx.path, "dist"), basename + "." + ext.value.s)
                  && r.value.entries == entries.value
                  && (r.value.outer.Some? <==> ext.value.s != "zip")
                  && (r.value.outer.Some? ==>
                        r.value.outer.value == (Join(Join(ctx.path, "dist"), basename + ".zip"), OuterEntries(basename, hasPreview))))
  {
    var basename := Name(ctx.path);
    var ext := Lookup(ctx.config, "package_extension");
    if ext.Err? {
      return Err(ext.error);
    }
    if !ext.value.Str? {
      return Err(TypeError);
    }
    var deviceExtension := ext.value.s;
    var deviceZip := Join(Join(ctx.path, "dist"), basename + "." + deviceExtension);
    var entries := WriteEntries(Join(ctx.path, "build"), files, ctx.config);
    if entries.Err? {
      return Err(entries.error);
    }
    var outer := None;
    if deviceExtension != "zip" {
      var names := [basename + "/" + basename + ".bin", basename + "/infos.xml"];
      if hasPreview {
        names := names + [basename + "/" + basename + ".png"];
      }
      assert names == OuterEntries(basename, hasPreview);
      outer := Some((Join(Join(ctx.path, "dist"), basename + ".zip"), names));
    }
    return Ok(Package(deviceZip, entries.value, outer));
  }

  /** The ZEUS package: its file name, the device archive's entries and the app-side
      archive's single entry. The `.zpk` file holds the two archives as its entries
      "device.zip" and "app-side.zip". */
  datatype Zpk = Zpk(name: string, device: seq<(string, string)>, appSide: (string, string))


  /** `make_zeus_pkg`: nothing without `with_zeus_compat`; otherwise the device archive
      holds the same entries as the BIN file and the app side holds build/app.json as
      "app.json". */
  method MakeZeusPackage(ctx: Context.ZMakeContext, files: seq<string>) returns (r: Result<Option<Zpk>>)
    ensures var compat := Lookup(ctx.config, "with_zeus_compat");
            var entries := Entries(Join(ctx.path, "build"), files, ctx.config);
            && (compat.Err? ==> r == Err(KeyError))
            && (compat.Ok? && !Truthy(compat.value) ==> r == Ok(None))
            && (compat.Ok? && Truthy(compat.value) && entries.Err? ==> r == Err(entries.error))
            && (compat.Ok? && Truthy(compat.value) && entries.Ok? ==>
                  r == Ok(Some(Zpk(Join(Join(ctx.path, "dist"), Name(ctx.path) + ".zpk"), entries.value,
                                   (Join(Join(ctx.path, "build"), "app.json"), "app.json")))))
  {
    var compat := Lookup(ctx.config, "with_zeus_compat");
    if compat.Err? {
      return Err(compat.error);
    }
    if !Truthy(compat.value) {
      return Ok(None);
    }
    var basename := Name(ctx.path);
    var device := WriteEntries(Join(ctx.path, "build"), files, ctx.config);
    if device.Err? {
      return Err(device.error);
    }
    var appSide := (Join(Join(ctx.path, "build"), "app.json"), "app.json");
    return Ok(Some(Zpk(Join(Join(ctx.path, "dist"), basename + ".zpk"), device.value, appSide)));
  }
}

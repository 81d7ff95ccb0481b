/** zmake/zab_patch.py: turning a ZAB bundle into a served set of packages. Modelled:
    the device and source maps of each package, the URLs it is served under, the check
    that a bundle holds one kind of package, and the composition of patches over the
    entries of ZIP archives. Archives are given already opened, as lists of entries;
    the device table `source_to_device` is an input. */
module ZabPatch {
  import opened Bytes
  import opened Strings
  import opened Dicts

  // ---------------------------------------------------------------------------
  // First-occurrence deduplication

  /** The elements of s without repeats, each where it first occurs. */
  function Distinct<T(==,!new)>(s: seq<T>): (r: seq<T>)
    ensures forall x :: x in r <==> x in s
    ensures |r| <= |s|
  {
    if s == [] then []
    else
      var d := Distinct(s[..|s| - 1]);
      assert s == s[..|s| - 1] + [s[|s| - 1]];
      if s[|s| - 1] in d then d else d + [s[|s| - 1]]
  }

  /** One more element is added unless it was seen already. */
  lemma DistinctSnoc<T(!new)>(s: seq<T>, x: T)
    ensures Distinct(s + [x]) == if x in Distinct(s) then Distinct(s) else Distinct(s) + [x]
  {
    assert (s + [x])[..|s|] == s;
  }

  predicate NoRepeats<T(==)>(s: seq<T>)
  {
    forall i, j :: 0 <= i < j < |s| ==> s[i] != s[j]
  }

  /** Deduplication leaves no repeats, and leaves a sequence without repeats alone. */
  lemma {:induction false} DistinctNoRepeats<T(!new)>(s: seq<T>)
    ensures NoRepeats(Distinct(s))
    ensures NoRepeats(s) ==> Distinct(s) == s
    decreases |s|
  {
    if s != [] {
      var init := s[..|s| - 1];
      DistinctNoRepeats(init);
      if NoRepeats(s) {
        assert NoRepeats(init);
        assert s[|s| - 1] !in init;
        assert s == init + [s[|s| - 1]];
      }
    }
  }

  // ---------------------------------------------------------------------------
  // get_device_map

  /** A list or an object cannot be a dictionary key: `in` on a dict raises TypeError. */
  predicate Unhashable(j: Json)
  {
    j.Arr? || j.Obj?
  }

  /** The `deviceSource` of each platform, in order. A platform without one is a
      KeyError (TypeError when it is not an object), a list or object as the source is
      a TypeError, and a source missing from the table is a ValueError, whichever
      platform comes first. */
  function KnownSources(platforms: seq<Json>, table: map<Json, string>): (r: Result<seq<Json>>)
    ensures r.Err? ==> r.error == KeyError || r.error == TypeError || r.error == ValueError
    ensures r.Ok? ==> |r.value| == |platforms|
    ensures r.Ok? ==> forall i :: 0 <= i < |platforms| ==>
              Index(platforms[i], "deviceSource") == Ok(r.value[i]) && !Unhashable(r.value[i]) && r.value[i] in table
  {
    if platforms == [] then Ok([])
    else
      var init :- KnownSources(platforms[..|platforms| - 1], table);
      var source :- Index(platforms[|platforms| - 1], "deviceSource");
      if Unhashable(source) then Err(TypeError)
      else if source !in table then Err(ValueError)
      else Ok(init + [source])
  }

  /** The devices of the sources, in order. */
  function DevicesOf(sources: seq<Json>, table: map<Json, string>): (r: seq<string>)
    requires forall i :: 0 <= i < |sources| ==> sources[i] in table
    ensures |r| == |sources| && forall i :: 0 <= i < |sources| ==> r[i] == table[sources[i]]
  {
    seq(|sources|, i requires 0 <= i < |sources| => table[sources[i]])
  }

  /** The platform is an object whose deviceSource is hashable and in the table. */
  predicate SourceKnown(platform: Json, table: map<Json, string>)
  {
    var id := Index(platform, "deviceSource");
    id.Ok? && !Unhashable(id.value) && id.value in table
  }

  /** The sources are read exactly when every platform names a known source. */
  lemma {:induction false} KnownSourcesOk(platforms: seq<Json>, table: map<Json, string>)
    ensures KnownSources(platforms, table).Ok? <==> forall i :: 0 <= i < |platforms| ==> SourceKnown(platforms[i], table)
  {
    if platforms != [] {
      var init := platforms[..|platforms| - 1];
      KnownSourcesOk(init, table);
      assert forall i :: 0 <= i < |init| ==> init[i] == platforms[i];
    }
  }

  /** An unknown source makes the map fail with ValueError when every earlier platform
      names a known source. */
  lemma {:induction false} UnknownSourceFails(platforms: seq<Json>, table: map<Json, string>, k: nat)
    requires k < |platforms| && KnownSources(platforms[..k], table).Ok?
    requires Index(platforms[k], "deviceSource").Ok?
    requires !Unhashable(Index(platforms[k], "deviceSource").value) && Index(platforms[k], "deviceSource").value !in table
    ensures KnownSources(platforms, table) == Err(ValueError)
    decreases |platforms| - k
  {
    assert platforms[..k + 1][..k] == platforms[..k];
    if k + 1 < |platforms| {
      FailurePersists(platforms, table, k + 1);
    } else {
      assert platforms[..k + 1] == platforms;
    }
  }

  /** A list or object as the source makes the map fail with TypeError when every
      earlier platform names a known source. */
  lemma {:induction false} UnhashableSourceFails(platforms: seq<Json>, table: map<Json, string>, k: nat)
    requires k < |platforms| && KnownSources(platforms[..k], table).Ok?
    requires Index(platforms[k], "deviceSource").Ok? && Unhashable(Index(platforms[k], "deviceSource").value)
    ensures KnownSources(platforms, table) == Err(TypeError)
  {
    assert platforms[..k + 1][..k] == platforms[..k];
    if k + 1 < |platforms| {
      FailurePersists(platforms, table, k + 1);
    } else {
      assert platforms[..k + 1] == platforms;
    }
  }

  lemma {:induction false} FailurePersists(platforms: seq<Json>, table: map<Json, string>, k: nat)
    requires k <= |platforms| && KnownSources(platforms[..k], table).Err?
    ensures KnownSources(platforms, table) == KnownSources(platforms[..k], table)
    decreases |platforms| - k
  {
    if k < |platforms| {
      assert platforms[..k + 1][..k] == platforms[..k];
      FailurePersists(platforms, table, k + 1);
    } else {
      assert platforms[..k] == platforms;
    }
  }

  /** Every key mapped to the same value, in order. */
  function WithValue<K>(keys: seq<K>, v: string): (m: seq<(K, string)>)
    ensures |m| == |keys| && forall i :: 0 <= i < |keys| ==> m[i] == (keys[i], v)
  {
    seq(|keys|, i requires 0 <= i < |keys| => (keys[i], v))
  }

  /** What `get_device_map` returns: each distinct device, in first-occurrence order,
      mapped to the QR URL, and each distinct source mapped to the redirect URL. */
  function DeviceMap(platforms: seq<Json>, table: map<Json, string>, redirectUrl: string, qrUrl: string)
    : (r: Result<(seq<(string, string)>, seq<(Json, string)>)>)
    ensures r.Ok? <==> forall i :: 0 <= i < |platforms| ==> SourceKnown(platforms[i], table)
    ensures r.Err? <==> KnownSources(platforms, table).Err?
    ensures r.Err? ==> r.error == KnownSources(platforms, table).error
    ensures r.Err? ==> r.error == KeyError || r.error == TypeError || r.error == ValueError
    ensures r.Ok? ==> |r.value.0| <= |platforms| && |r.value.1| <= |platforms|
  {
    KnownSourcesOk(platforms, table);
    var sources :- KnownSources(platforms, table);
    Ok((WithValue(Distinct(DevicesOf(sources, table)), qrUrl), WithValue(Distinct(sources), redirectUrl)))
  }

  /** The device map has each device of the platforms once, all mapped to the QR URL;
      the source map's keys are exactly the platforms' sources, once each, all mapped to
      the redirect URL. */
  lemma DeviceMapKeys(platforms: seq<Json>, table: map<Json, string>, redirectUrl: string, qrUrl: string)
    requires DeviceMap(platforms, table, redirectUrl, qrUrl).Ok?
    ensures var (deviceQr, sourceMap) := DeviceMap(platforms, table, redirectUrl, qrUrl).value;
            var sources := KnownSources(platforms, table).value;
            && NoRepeats(Keys(deviceQr))
            && (forall i :: 0 <= i < |deviceQr| ==> deviceQr[i].1 == qrUrl)
            && (forall d :: d in Keys(deviceQr) <==> d in DevicesOf(sources, table))
            && NoRepeats(Keys(sourceMap))
            && (forall i :: 0 <= i < |sourceMap| ==> sourceMap[i].1 == redirectUrl)
            && (forall s :: s in Keys(sourceMap) <==> s in sources)
  {
    var sources := KnownSources(platforms, table).value;
    var devices := DevicesOf(sources, table);
    DistinctWithValue(devices, qrUrl);
    DistinctWithValue(sources, redirectUrl);
  }

  /** Deduplicated keys all mapped to one value: each key of s once, with that value. */
  lemma DistinctWithValue<K(!new)>(s: seq<K>, v: string)
    ensures var m := WithValue(Distinct(s), v);
            && NoRepeats(Keys(m))
            && (forall i :: 0 <= i < |m| ==> m[i].1 == v)
            && (forall x :: x in Keys(m) <==> x in s)
  {
    DistinctNoRepeats(s);
    KeysWithValue(Distinct(s), v);
  }

  /** `get_device_map`: three loops, for the devices, the device map and the source
      map. */
  method GetDeviceMap(zpkInfo: Json, table: map<Json, string>, redirectUrl: string, qrUrl: string)
    returns (r: Result<(seq<(string, string)>, seq<(Json, string)>)>)
    ensures var platforms := Index(zpkInfo, "platforms");
            && (platforms.Err? ==> r == Err(platforms.error))
            && (platforms.Ok? && !platforms.value.Arr? ==> r == Err(TypeError))
            && (platforms.Ok? && platforms.value.Arr? ==> r == DeviceMap(platforms.value.items, table, redirectUrl, qrUrl))
  {
    var platformsJson := Index(zpkInfo, "platforms");
    if platformsJson.Err? {
      return Err(platformsJson.error);
    }
    if !platformsJson.value.Arr? {
      return Err(TypeError);
    }
    var platforms := platformsJson.value.items;
    var devices := Devices(platforms, table);
    if devices.Err? {
      return Err(devices.error);
    }
    DistinctNoRepeats(DevicesOf(KnownSources(platforms, table).value, table));
    var deviceQr := DeviceQr(devices.value, qrUrl);
    var sourceMap := SourceMap(platforms, table, redirectUrl);
    return Ok((deviceQr, sourceMap));
  }

  /** The first loop of `get_device_map`: the devices of the platforms, each once. */
  method Devices(platforms: seq<Json>, table: map<Json, string>) returns (r: Result<seq<string>>)
    ensures var sources := KnownSources(platforms, table);
            && (sources.Err? ==> r == Err(sources.error))
            && (sources.Ok? ==> r == Ok(Distinct(DevicesOf(sources.value, table))))
  {
    var devices := [];
    ghost var sources := [];
    for i := 0 to |platforms|
      invariant KnownSources(platforms[..i], table) == Ok(sources)
      invariant devices == Distinct(DevicesOf(sources, table))
    {
      var sourceId := Index(platforms[i], "deviceSource");
      if sourceId.Err? || Unhashable(sourceId.value) || sourceId.value !in table {
        DevicesFail(platforms, table, i);
        return Err(if sourceId.Err? then sourceId.error else if Unhashable(sourceId.value) then TypeError else ValueError);
      }
      var deviceId := table[sourceId.value];
      DevicesStep(platforms, table, i, sources, sourceId.value);
      if deviceId !in devices {
        devices := devices + [deviceId];
      }
      sources := sources + [sourceId.value];
    }
    assert platforms[..|platforms|] == platforms;
    return Ok(devices);
  }

  /** A platform without a known source ends the first loop with its error. */
  lemma DevicesFail(platforms: seq<Json>, table: map<Json, string>, i: nat)
    requires i < |platforms| && KnownSources(platforms[..i], table).Ok?
    requires var id := Index(platforms[i], "deviceSource"); id.Err? || Unhashable(id.value) || id.value !in table
    ensures var id := Index(platforms[i], "deviceSource");
            KnownSources(platforms, table)
            == Err(if id.Err? then id.error else if Unhashable(id.value) then TypeError else ValueError)
  {
    assert platforms[..i + 1][..i] == platforms[..i];
    FailurePersists(platforms, table, i + 1);
  }

  /** A platform with a known source adds its device unless it is already there. */
  lemma DevicesStep(platforms: seq<Json>, table: map<Json, string>, i: nat, sources: seq<Json>, x: Json)
    requires i < |platforms| && KnownSources(platforms[..i], table) == Ok(sources)
    requires Index(platforms[i], "deviceSource") == Ok(x) && !Unhashable(x) && x in table
    ensures KnownSources(platforms[..i + 1], table) == Ok(sources + [x])
    ensures var devices := Distinct(DevicesOf(sources, table));
            Distinct(DevicesOf(sources + [x], table))
            == if table[x] in devices then devices else devices + [table[x]]
  {
    KnownSourcesSnoc(platforms, table, i, sources, x);
    DevicesOfSnoc(sources, table, x);
    DistinctSnoc(DevicesOf(sources, table), table[x]);
  }

  lemma KnownSourcesSnoc(platforms: seq<Json>, table: map<Json, string>, i: nat, sources: seq<Json>, x: Json)
    requires i < |platforms| && KnownSources(platforms[..i], table) == Ok(sources)
    requires Index(platforms[i], "deviceSource") == Ok(x) && !Unhashable(x) && x in table
    ensures KnownSources(platforms[..i + 1], table) == Ok(sources + [x])
  {
    var q := platforms[..i + 1];
    assert q[..|q| - 1] == platforms[..i];
    assert q[|q| - 1] == platforms[i];
  }

  lemma DevicesOfSnoc(sources: seq<Json>, table: map<Json, string>, x: Json)
    requires (forall i :: 0 <= i < |sources| ==> sources[i] in table) && x in table
    ensures DevicesOf(sources + [x], table) == DevicesOf(sources, table) + [table[x]]
  {
  }

  /** The device-map loop; the check for a device already present never succeeds, the
      devices being distinct. */
  method DeviceQr(devices: seq<string>, qrUrl: string) returns (deviceQr: seq<(string, string)>)
    requires NoRepeats(devices)
    ensures deviceQr == WithValue(devices, qrUrl)
  {
    deviceQr := [];
    for i := 0 to |devices|
      invariant deviceQr == WithValue(devices[..i], qrUrl)
    {
      if devices[i] in Keys(deviceQr) {
        continue;
      }
      deviceQr := deviceQr + [(devices[i], qrUrl)];
    }
    assert devices[..|devices|] == devices;
  }

  /** The source-map loop, over the platforms whose sources the first loop found. */
  method SourceMap(platforms: seq<Json>, table: map<Json, string>, redirectUrl: string) returns (sourceMap: seq<(Json, string)>)
    requires KnownSources(platforms, table).Ok?
    ensures sourceMap == WithValue(Distinct(KnownSources(platforms, table).value), redirectUrl)
  {
    sourceMap := [];
    for i := 0 to |platforms|
      invariant sourceMap == WithValue(Distinct(KnownSources(platforms, table).value[..i]), redirectUrl)
    {
      var sourceId := Index(platforms[i], "deviceSource").value;
      SourceMapStep(platforms, table, i, sourceMap, redirectUrl);
      if sourceId in Keys(sourceMap) {
        continue;
      }
      sourceMap := sourceMap + [(sourceId, redirectUrl)];
    }
    SourceMapDone(platforms, table);
  }

  lemma SourceMapDone(platforms: seq<Json>, table: map<Json, string>)
    requires KnownSources(platforms, table).Ok?
    ensures KnownSources(platforms, table).value[..|platforms|] == KnownSources(platforms, table).value
  {
  }

  /** One more platform adds its source to the source map unless it is already there. */
  lemma SourceMapStep(platforms: seq<Json>, table: map<Json, string>, i: nat, sourceMap: seq<(Json, string)>, v: string)
    requires i < |platforms| && KnownSources(platforms, table).Ok?
    requires sourceMap == WithValue(Distinct(KnownSources(platforms, table).value[..i]), v)
    ensures Index(platforms[i], "deviceSource").Ok?
    ensures var x := Index(platforms[i], "deviceSource").value;
            WithValue(Distinct(KnownSources(platforms, table).value[..i + 1]), v)
            == if x in Keys(sourceMap) then sourceMap else sourceMap + [(x, v)]
  {
    var sources := KnownSources(platforms, table).value;
    var x := sources[i];
    assert Index(platforms[i], "deviceSource") == Ok(x);
    var seen := Distinct(sources[..i]);
    KeysWithValue(seen, v);
    assert sources[..i + 1] == sources[..i] + [x];
    DistinctSnoc(sources[..i], x);
    WithValueSnoc(seen, x, v);
  }

  lemma KeysWithValue<K>(keys: seq<K>, v: string)
    ensures Keys(WithValue(keys, v)) == keys
  {
  }

  lemma WithValueSnoc<K>(keys: seq<K>, x: K, v: string)
    ensures WithValue(keys + [x], v) == WithValue(keys, v) + [(x, v)]
  {
  }

  // ---------------------------------------------------------------------------
  // Names and URLs

  /** `zab_path.name.split("-")[0]` */
  function ServerId(zabName: string): (r: string)
    ensures StartsWith(zabName, r) && '-' !in r
    ensures |r| < |zabName| ==> zabName[|r|] == '-'
  {
    BeforeFirst(zabName, '-')
  }

  /** A bundle named "<id>-<rest>" is served under id. */
  lemma ServerIdOf(id: string, rest: string)
    requires '-' !in id
    ensures ServerId(id + "-" + rest) == id
  {
    BeforeFirstOf(id, rest);
  }

  lemma {:induction false} BeforeFirstOf(id: string, rest: string)
    requires '-' !in id
    ensures BeforeFirst(id + "-" + rest, '-') == id
    decreases |id|
  {
    if id != [] {
      assert (id + "-" + rest)[1..] == id[1..] + "-" + rest;
      BeforeFirstOf(id[1..], rest);
    }
  }

  /** The URLs of one package: (redirect, QR). */
  function AppUrls(downloadUrl: string, filename: string): (string, string)
  {
    (downloadUrl + "/" + filename, ReplaceAll(downloadUrl, "https:", "zpkd1:") + "/" + filename)
  }

  /** A watch face is served through its .json description. */
  function WatchfaceUrls(downloadUrl: string, filename: string): (string, string)
  {
    var jsonName := ReplaceAll(filename, ".zpk", ".json");
    (downloadUrl + "/" + jsonName, ReplaceAll(downloadUrl, "https:", "watchface:") + "/" + jsonName)
  }

  /** The URLs `process` takes for a package of the given appType. */
  function PackageUrls(appType: Json, serverUrl: string, serverId: string, filename: string): (r: (string, string))
    ensures var folder := serverUrl + "/" + serverId + "/";
            && StartsWith(r.0, folder)
            && EndsWith(r.1, "/" + r.0[|folder|..])
    ensures appType == Str("app") ==> r.0[|serverUrl + "/" + serverId + "/"|..] == filename
  {
    var downloadUrl := serverUrl + "/" + serverId;
    var name := if appType == Str("app") then filename else ReplaceAll(filename, ".zpk", ".json");
    var r := if appType == Str("app") then AppUrls(downloadUrl, filename) else WatchfaceUrls(downloadUrl, filename);
    assert r.0 == (downloadUrl + "/") + name;
    assert r.0[|downloadUrl + "/"|..] == name;
    r
  }

  /** For an https server, an app's redirect URL is the download URL plus the file name
      and its QR URL is the same address under the "zpkd1:" scheme. */
  lemma AppUrlsOfHttps(rest: string, filename: string)
    requires !Contains(rest, "https:")
    ensures AppUrls("https:" + rest, filename) == ("https:" + rest + "/" + filename, "zpkd1:" + rest + "/" + filename)
  {
    ReplaceAllPrefix("https:", rest, "zpkd1:");
  }

  /** For an https server and a file "<stem>.zpk", a watch face is served through
      "<stem>.json" under the "watchface:" scheme. */
  lemma WatchfaceUrlsOfHttps(rest: string, stem: string)
    requires !Contains(rest, "https:")
    requires forall i :: 0 <= i < |stem| ==> !StartsWith((stem + ".zpk")[i..], ".zpk")
    ensures WatchfaceUrls("https:" + rest, stem + ".zpk")
            == ("https:" + rest + "/" + stem + ".json", "watchface:" + rest + "/" + stem + ".json")
  {
    ReplaceAllPrefix("https:", rest, "watchface:");
    ReplaceAllSuffix(stem, ".zpk", ".json");
    assert "https:" + rest + "/" + (stem + ".json") == "https:" + rest + "/" + stem + ".json";
    assert "watchface:" + rest + "/" + (stem + ".json") == "watchface:" + rest + "/" + stem + ".json";
  }

  // ---------------------------------------------------------------------------
  // The appType check of process

  /** The appType loop of `process`: the first non-empty type is kept and any later
      different one is a ValueError. */
  method CheckAppTypes(types: seq<Json>) returns (r: Result<Json>)
    ensures r.Err? <==> exists i, j :: 0 <= i < j < |types| && types[i] != Str("") && types[j] != types[i]
    ensures r.Err? ==> r.error == ValueError
    ensures r.Ok? ==> forall i :: 0 <= i < |types| ==> types[i] == Str("") || types[i] == r.value
    ensures r.Ok? && r.value != Str("") ==> r.value in types
  {
    var targetType := Str("");
    for k := 0 to |types|
      invariant forall i :: 0 <= i < k ==> types[i] == Str("") || types[i] == targetType
      invariant targetType != Str("") ==> targetType in types[..k]
      invariant !exists i, j :: 0 <= i < j < k && types[i] != Str("") && types[j] != types[i]
    {
      if targetType == Str("") {
        targetType := types[k];
      } else if targetType != types[k] {
        var f :| 0 <= f < k && types[f] == targetType;
        return Err(ValueError);
      }
    }
    assert types[..|types|] == types;
    return Ok(targetType);
  }

  // ---------------------------------------------------------------------------
  // Patches over archives

  /** The content of an archive entry: bytes, a JSON document that parses, or a nested
      archive. */
  datatype Data = Raw(bytes: seq<byte>) | Document(doc: Json) | Archive(entries: seq<Entry>)

  datatype Entry = Entry(name: string, data: Data)

  /** The patches `process` can apply. */
  datatype Patch = Prod2Preview

  /** `patch_prod2preview`: only app.json changes; in it packageInfo.mode becomes
      "preview" when packageInfo exists. */
  function Prod2PreviewDoc(doc: Json): (r: Result<Json>)
    ensures doc.Obj? && !Has(doc.fields, "packageInfo") ==> r == Ok(doc)
    ensures doc.Obj? && Has(doc.fields, "packageInfo") && Get(doc.fields, "packageInfo").value.Obj? ==>
              r.Ok? && r.value.Obj?
              && Get(r.value.fields, "packageInfo") == Some(Obj(Set(Get(doc.fields, "packageInfo").value.fields, "mode", Str("preview"))))
              && forall k :: k != "packageInfo" ==> Get(r.value.fields, k) == Get(doc.fields, k)
  {
    if doc.Obj? then
      var fields := doc.fields;
      match Get(fields, "packageInfo")
      case None => Ok(doc)
      case Some(info) =>
        if info.Obj? then
          var patched := Set(fields, "packageInfo", Obj(Set(info.fields, "mode", Str("preview"))));
          GetSet(fields, "packageInfo", Obj(Set(info.fields, "mode", Str("preview"))));
          assert forall k :: k != "packageInfo" ==> Get(patched, k) == Get(fields, k) by {
            forall k | k != "packageInfo" {
              GetSetOther(fields, "packageInfo", Obj(Set(info.fields, "mode", Str("preview"))), k);
            }
          }
          Ok(Obj(patched))
        else Err(TypeError)
    else if doc.Str? then
      if Contains(doc.s, "packageInfo") then Err(TypeError) else Ok(doc)
    else if doc.Arr? then
      if Str("packageInfo") in doc.items then Err(TypeError) else Ok(doc)
    else Err(TypeError)
  }

  /** One patch applied to one entry of the archive section. */
  function ApplyPatch(patch: Patch, section: string, file: string, data: Data): (r: Result<Data>)
    ensures file != "app.json" ==> r == Ok(data)
  {
    match patch
    case Prod2Preview =>
      if file != "app.json" then Ok(data)
      else if !data.Document? then Err(JsonDecodeError)
      else
        var doc :- Prod2PreviewDoc(data.doc);
        Ok(Document(doc))
  }

  /** The patches applied to one entry, in list order. */
  function ApplyPatches(patches: seq<Patch>, section: string, file: string, data: Data): (r: Result<Data>)
    ensures file != "app.json" ==> r == Ok(data)
    ensures r.Err? ==> r.error == JsonDecodeError || r.error == TypeError
    decreases |patches|
  {
    if patches == [] then Ok(data)
    else
      var next :- ApplyPatch(patches[0], section, file, data);
      ApplyPatches(patches[1..], section, file, next)
  }

  /** Applying a list of patches and then another is applying their concatenation. */
  lemma {:induction false} ApplyPatchesAppend(p: seq<Patch>, q: seq<Patch>, section: string, file: string, data: Data)
    ensures ApplyPatches(p + q, section, file, data)
            == match ApplyPatches(p, section, file, data)
               case Err(e) => Err(e)
               case Ok(d) => ApplyPatches(q, section, file, d)
    decreases |p|
  {
    if p != [] {
      assert (p + q)[1..] == p[1..] + q;
      var first := ApplyPatch(p[0], section, file, data);
      if first.Ok? {
        ApplyPatchesAppend(p[1..], q, section, file, first.value);
      }
    } else {
      assert p + q == q;
    }
  }

  /** The preview patch changes nothing when applied a second time. */
  lemma Prod2PreviewIdempotent(section: string, file: string, data: Data)
    requires ApplyPatch(Prod2Preview, section, file, data).Ok?
    ensures var once := ApplyPatch(Prod2Preview, section, file, data).value;
            ApplyPatch(Prod2Preview, section, file, once) == Ok(once)
  {
    if file == "app.json" {
      var doc := data.doc;
      if doc.Obj? && Has(doc.fields, "packageInfo") {
        var info := Get(doc.fields, "packageInfo").value;
        var patchedInfo := Set(info.fields, "mode", Str("preview"));
        var once := Prod2PreviewDoc(doc).value;
        assert Get(once.fields, "packageInfo") == Some(Obj(patchedInfo));
        GetSet(info.fields, "mode", Str("preview"));
        SetTwice(info.fields, "mode", Str("preview"));
        SetTwice(doc.fields, "packageInfo", Obj(patchedInfo));
      }
    }
  }

  /** Writing a key with the value it already has changes nothing. */
  lemma SetTwice<V>(d: Dict<V>, k: string, v: V)
    ensures Set(Set(d, k, v), k, v) == Set(d, k, v)
  {
    GetSet(d, k, v);
    var s := Set(d, k, v);
    var i := Find(s, k).value;
    assert s[i] == (k, v);
    assert s[i := (k, v)] == s;
  }

  /** What `apply_zip` writes: every entry under its own name, with the patches applied
      to its data. */
  function PatchedEntries(entries: seq<Entry>, patches: seq<Patch>, section: string): (r: Result<seq<Entry>>)
    ensures r.Ok? ==> |r.value| == |entries|
    ensures r.Ok? ==> forall i :: 0 <= i < |entries| ==>
              r.value[i].name == entries[i].name
              && ApplyPatches(patches, section, entries[i].name, entries[i].data) == Ok(r.value[i].data)
  {
    if entries == [] then Ok([])
    else
      var init :- PatchedEntries(entries[..|entries| - 1], patches, section);
      var last := entries[|entries| - 1];
      var data :- ApplyPatches(patches, section, last.name, last.data);
      Ok(init + [Entry(last.name, data)])
  }

  /** `apply_zip` */
  method ApplyZip(entries: seq<Entry>, patches: seq<Patch>, section: string) returns (r: Result<seq<Entry>>)
    ensures r == PatchedEntries(entries, patches, section)
  {
    var output := [];
    for i := 0 to |entries|
      invariant PatchedEntries(entries[..i], patches, section) == Ok(output)
    {
      assert entries[..i + 1][..i] == entries[..i];
      assert entries[..i + 1][i] == entries[i];
      var data := ApplyAll(patches, section, entries[i].name, entries[i].data);
      if data.Err? {
        PatchedEntriesErrs(entries, patches, section, i + 1);
        return Err(data.error);
      }
      output := output + [Entry(entries[i].name, data.value)];
    }
    assert entries[..|entries|] == entries;
    return Ok(output);
  }

  /** `for patch in patches: data = patch(section, filename, data)` */
  method ApplyAll(patches: seq<Patch>, section: string, file: string, data: Data) returns (r: Result<Data>)
    ensures r == ApplyPatches(patches, section, file, data)
  {
    var current := data;
    for j := 0 to |patches|
      invariant ApplyPatches(patches[..j], section, file, data) == Ok(current)
    {
      assert patches[..j + 1] == patches[..j] + [patches[j]];
      ApplyPatchesAppend(patches[..j], [patches[j]], section, file, data);
      assert [patches[j]][1..] == [];
      var next := ApplyPatch(patches[j], section, file, current);
      if next.Err? {
        PatchFailurePersists(patches, j + 1, section, file, data);
        return Err(next.error);
      }
      current := next.value;
    }
    assert patches[..|patches|] == patches;
    return Ok(current);
  }

  lemma PatchFailurePersists(patches: seq<Patch>, j: nat, section: string, file: string, data: Data)
    requires j <= |patches| && ApplyPatches(patches[..j], section, file, data).Err?
    ensures ApplyPatches(patches, section, file, data) == ApplyPatches(patches[..j], section, file, data)
  {
    assert patches == patches[..j] + patches[j..];
    ApplyPatchesAppend(patches[..j], patches[j..], section, file, data);
  }

  lemma {:induction false} PatchedEntriesErrs(entries: seq<Entry>, patches: seq<Patch>, section: string, i: nat)
    requires i <= |entries| && PatchedEntries(entries[..i], patches, section).Err?
    ensures PatchedEntries(entries, patches, section) == PatchedEntries(entries[..i], patches, section)
    decreases |entries| - i
  {
    if i < |entries| {
      assert entries[..i + 1][..i] == entries[..i];
      PatchedEntriesErrs(entries, patches, section, i + 1);
    } else {
      assert entries[..i] == entries;
    }
  }

  /** What `apply_zpk` writes: only the ".zip" entries, each patched as an archive of
      its own with its name as the section. */
  function PatchedPackage(entries: seq<Entry>, patches: seq<Patch>): (r: Result<seq<Entry>>)
    ensures r.Ok? ==> forall i :: 0 <= i < |r.value| ==> EndsWith(r.value[i].name, ".zip") && r.value[i].data.Archive?
  {
    if entries == [] then Ok([])
    else
      var init :- PatchedPackage(entries[..|entries| - 1], patches);
      var last := entries[|entries| - 1];
      if !EndsWith(last.name, ".zip") then Ok(init)
      else if !last.data.Archive? then Err(BadZipFile)
      else
        var inner :- PatchedEntries(last.data.entries, patches, last.name);
        Ok(init + [Entry(last.name, Archive(inner))])
  }

  /** The names `apply_zpk` keeps are exactly the ".zip" names, in order. */
  lemma {:induction false} PatchedPackageNames(entries: seq<Entry>, patches: seq<Patch>)
    requires PatchedPackage(entries, patches).Ok?
    ensures var r := PatchedPackage(entries, patches).value;
            |r| == |ZipNames(entries)| && forall i :: 0 <= i < |r| ==> r[i].name == ZipNames(entries)[i]
    decreases |entries|
  {
    if entries != [] {
      PatchedPackageNames(entries[..|entries| - 1], patches);
    }
  }

  /** The names of the ".zip" entries, in order. */
  function ZipNames(entries: seq<Entry>): (r: seq<string>)
    ensures forall n :: n in r <==> exists i :: 0 <= i < |entries| && entries[i].name == n && EndsWith(n, ".zip")
  {
    if entries == [] then []
    else
      var init := ZipNames(entries[..|entries| - 1]);
      var last := entries[|entries| - 1];
      assert forall i :: 0 <= i < |entries| - 1 ==> entries[..|entries| - 1][i] == entries[i];
      if EndsWith(last.name, ".zip") then init + [last.name] else init
  }

  /** `apply_zpk` */
  method ApplyZpk(entries: seq<Entry>, patches: seq<Patch>) returns (r: Result<seq<Entry>>)
    ensures r == PatchedPackage(entries, patches)
  {
    var output := [];
    for i := 0 to |entries|
      invariant PatchedPackage(entries[..i], patches) == Ok(output)
    {
      assert entries[..i + 1][..i] == entries[..i];
      assert entries[..i + 1][i] == entries[i];
      var filename := entries[i].name;
      if !EndsWith(filename, ".zip") {
        continue;
      }
      if !entries[i].data.Archive? {
        PackageErrs(entries, patches, i + 1);
        return Err(BadZipFile);
      }
      var newData := ApplyZip(entries[i].data.entries, patches, filename);
      if newData.Err? {
        PackageErrs(entries, patches, i + 1);
        return Err(newData.error);
      }
      output := output + [Entry(filename, Archive(newData.value))];
    }
    assert entries[..|entries|] == entries;
    return Ok(output);
  }

  lemma {:induction false} PackageErrs(entries: seq<Entry>, patches: seq<Patch>, i: nat)
    requires i <= |entries| && PatchedPackage(entries[..i], patches).Err?
    ensures PatchedPackage(entries, patches) == PatchedPackage(entries[..i], patches)
    decreases |entries| - i
  {
    if i < |entries| {
      assert entries[..i + 1][..i] == entries[..i];
      PackageErrs(entries, patches, i + 1);
    } else {
      assert entries[..i] == entries;
    }
  }

  /** `process_app_zpk`: the package with the preview patch applied, and its URLs. */
  method ProcessAppZpk(zpk: seq<Entry>, filename: string, downloadUrl: string) returns (r: Result<(seq<Entry>, string, string)>)
    ensures var patched := PatchedPackage(zpk, [Prod2Preview]);
            && (patched.Err? ==> r == Err(patched.error))
            && (patched.Ok? ==> r == Ok((patched.value, AppUrls(downloadUrl, filename).0, AppUrls(downloadUrl, filename).1)))
  {
    var patched := ApplyZpk(zpk, [Prod2Preview]);
    if patched.Err? {
      return Err(patched.error);
    }
    var redirectUrl := downloadUrl + "/" + filename;
    var qrUrl := ReplaceAll(downloadUrl, "https:", "zpkd1:") + "/" + filename;
    return Ok((patched.value, redirectUrl, qrUrl));
  }
}

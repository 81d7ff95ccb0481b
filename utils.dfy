/** zmake/utils.py: the in-place counter `increment_or_add` and the decision inside
    `image_color_compress` between quantising through RGB and quantising directly. */
module Utils {
  import opened Bytes
  import opened TgaFormat
  import opened Strings

  // ---------------------------------------------------------------------------
  // increment_or_add

  /** The counters after one `increment_or_add(d, key)`. */
  function Incremented(m: map<string, int>, key: string): (r: map<string, int>)
    ensures r.Keys == m.Keys + {key}
    ensures r[key] == if key in m then m[key] + 1 else 1
    ensures forall k :: k in m && k != key ==> r[k] == m[k]
  {
    m[key := if key in m then m[key] + 1 else 1]
  }

  /** The counters after `increment_or_add` for each key in turn. */
  function Tally(m: map<string, int>, keys: seq<string>): map<string, int>
    decreases |keys|
  {
    if keys == [] then m else Tally(Incremented(m, keys[0]), keys[1..])
  }

  /** How often key occurs in keys. */
  function Occurrences(keys: seq<string>, key: string): (n: nat)
    ensures n <= |keys|
  {
    if keys == [] then 0 else (if keys[0] == key then 1 else 0) + Occurrences(keys[1..], key)
  }

  /** After a run of calls a key is present iff it was before or was counted, and its
      value grew by the number of times it was counted. */
  lemma {:induction false} TallyCounts(m: map<string, int>, keys: seq<string>, k: string)
    ensures k in Tally(m, keys) <==> k in m || k in keys
    ensures k in Tally(m, keys) ==> Tally(m, keys)[k] == (if k in m then m[k] else 0) + Occurrences(keys, k)
    decreases |keys|
  {
    if keys != [] {
      TallyCounts(Incremented(m, keys[0]), keys[1..], k);
      assert k in keys <==> k == keys[0] || k in keys[1..];
    }
  }

  /** n calls on a key that was absent leave it at n. */
  lemma FreshKeyCounts(m: map<string, int>, key: string, n: nat)
    requires key !in m && n > 0
    ensures key in Tally(m, seq(n, _ => key)) && Tally(m, seq(n, _ => key))[key] == n
  {
    var keys := seq(n, _ => key);
    assert keys[0] == key;
    TallyCounts(m, keys, key);
    OccurrencesOfRepeat(key, n);
  }

  lemma {:induction false} OccurrencesOfRepeat(key: string, n: nat)
    ensures Occurrences(seq(n, _ => key), key) == n
  {
    if n > 0 {
      assert seq(n, _ => key)[1..] == seq(n - 1, _ => key);
      OccurrencesOfRepeat(key, n - 1);
    }
  }

  /** The `statistics` dict of the image encoder: one counter per target format. */
  class Counter {
    var counts: map<string, int>

    constructor ()
      ensures counts == map[]
    {
      counts := map[];
    }

    /** `increment_or_add(self.counts, key)` */
    method IncrementOrAdd(key: string)
      modifies this
      ensures counts == Incremented(old(counts), key)
    {
      if key !in counts {
        counts := counts[key := 1];
        return;
      }
      counts := counts[key := counts[key] + 1];
    }

    /** One `increment_or_add` per key, in order. */
    method CountAll(keys: seq<string>)
      modifies this
      ensures counts == Tally(old(counts), keys)
    {
      for i := 0 to |keys|
        invariant Tally(old(counts), keys) == Tally(counts, keys[i..])
      {
        assert keys[i..][1..] == keys[i + 1..];
        IncrementOrAdd(keys[i]);
      }
    }
  }

  // ---------------------------------------------------------------------------
  // image_color_compress

  predicate Opaque(c: Rgba) { c.a == 255 }

  /** The opacity scan: `is_rgb` stays true unless the mode is "RGBA" and some pixel is
      not fully opaque. `scanned` is how many pixels were looked at; the loop stops at
      the first translucent one. */
  method ScanOpacity(mode: string, pixels: seq<Rgba>) returns (isRgb: bool, scanned: nat)
    ensures isRgb <==> mode != "RGBA" || forall k :: 0 <= k < |pixels| ==> Opaque(pixels[k])
    ensures mode != "RGBA" ==> scanned == 0
    ensures mode == "RGBA" && isRgb ==> scanned == |pixels|
    ensures mode == "RGBA" && !isRgb ==>
              0 < scanned <= |pixels| && !Opaque(pixels[scanned - 1])
              && forall k :: 0 <= k < scanned - 1 ==> Opaque(pixels[k])
  {
    isRgb := true;
    scanned := 0;
    if mode == "RGBA" {
      while scanned < |pixels|
        invariant scanned <= |pixels|
        invariant forall k :: 0 <= k < scanned ==> Opaque(pixels[k])
      {
        scanned := scanned + 1;
        if pixels[scanned - 1].a != 255 {
          isRgb := false;
          break;
        }
      }
    }
  }

  /** Which quantisation `image_color_compress` applies. */
  datatype Quantization =
    | ThroughRgb   // convert("RGB").quantize(256).convert("RGBA")
    | Direct       // quantize(256)

  /** The backup file name `<time tag>__<name>` inside the backup directory, where the time tag is the clock's text
      with spaces made underscores and colons removed. */
  function BackupName(now: string, fileName: string): (r: string)
    ensures EndsWith(r, "__" + fileName)
    ensures forall k :: 0 <= k < |r| - |fileName| - 2 ==> r[k] != ' ' && r[k] != ':'
  {
    var tag := ReplaceAll(ReplaceAll(now, " ", "_"), ":", "");
    BackupTagClean(now);
    var r := tag + "__" + fileName;
    assert r[|r| - |"__" + fileName|..] == "__" + fileName;
    assert forall k :: 0 <= k < |r| - |fileName| - 2 ==> r[k] == tag[k];
    r
  }

  /** A replaced single character no longer occurs, when the replacement is not it. */
  lemma {:induction false} ReplaceCharRemoves(s: string, c: char, repl: string)
    requires c !in repl
    ensures c !in ReplaceAll(s, [c], repl)
    decreases |s|
  {
    if |s| >= 1 {
      ReplaceCharRemoves(s[1..], c, repl);
    }
  }

  /** The time tag has no spaces and no colons. */
  lemma BackupTagClean(now: string)
    ensures var tag := ReplaceAll(ReplaceAll(now, " ", "_"), ":", "");
            ' ' !in tag && ':' !in tag
  {
    var s1 := ReplaceAll(now, " ", "_");
    ReplaceCharRemoves(now, ' ', "_");
    ReplaceCharRemoves(s1, ':', "");
    KeepsAbsentChar(s1, ':', "", ' ');
  }

  /** Replacing introduces no character that neither s nor the replacement holds. */
  lemma {:induction false} KeepsAbsentChar(s: string, c: char, repl: string, d: char)
    requires d !in s && d !in repl
    ensures d !in ReplaceAll(s, [c], repl)
    decreases |s|
  {
    if |s| >= 1 {
      KeepsAbsentChar(s[1..], c, repl, d);
    }
  }

  /** What `image_color_compress` does with an image: the backup it saves (when a file
      is given) under `backupDir`, and the quantisation it picks. */
  method ColorCompress(mode: string, pixels: seq<Rgba>, file: Option<string>, now: string, backupDir: string)
    returns (backup: Option<string>, q: Quantization)
    ensures backup.Some? <==> file.Some?
    ensures file.Some? ==> backup.value == Join(backupDir, BackupName(now, Name(file.value)))
    ensures q == ThroughRgb <==> mode != "RGBA" || forall k :: 0 <= k < |pixels| ==> Opaque(pixels[k])
  {
    backup := None;
    if file.Some? {
      var timeTag := ReplaceAll(ReplaceAll(now, " ", "_"), ":", "");
      backup := Some(Join(backupDir, timeTag + "__" + Name(file.value)));
    }
    var isRgb, _ := ScanOpacity(mode, pixels);
    if isRgb {
      q := ThroughRgb;
    } else {
      q := Direct;
    }
  }
}

/** The detection cache (`.claude/flux-drive.yaml`) and the command line of detect-domains:
    when the cache answers, how a found detection is written back, and the exit codes. */
module Cache {
  import opened Values
  import opened Fs
  import opened Snapshot
  import opened Detection

  /** The cache format version written into every cache file. */
  const CacheVersion: int := 1

  /** The comment line that opens every cache file. */
  const Header: string := "# Auto-detected by flux-drive. Edit to override.\n"

  /** One detected domain as the cache and the output record it: the `primary` key is present
      only on the primary domain. */
  function ResultValue(d: Detected): (v: Value)
    ensures v.VMap? && "name" in v.fields && "confidence" in v.fields
    ensures v.fields["name"] == d.name && v.fields["confidence"] == VReal(d.confidence)
    ensures "primary" in v.fields <==> d.primary
  {
    var base := map["name" := d.name, "confidence" := VReal(d.confidence)];
    VMap(if d.primary then base["primary" := VBool(true)] else base)
  }

  function ResultsValue(rs: seq<Detected>): (v: Value)
    ensures v.VList? && |v.items| == |rs|
    ensures Truthy(v) <==> rs != []
  {
    VList(seq(|rs|, i requires 0 <= i < |rs| => ResultValue(rs[i])))
  }

  /** The document `write_cache` dumps. */
  function CachePayload(rs: seq<Detected>, detectedAt: string): Value {
    VMap(map["cache_version" := VInt(CacheVersion), "domains" := ResultsValue(rs), "detected_at" := VStr(detectedAt)])
  }

  /** The text of a cache file: the header comment, then the dumped payload. */
  function CacheText(rs: seq<Detected>, detectedAt: string, p: Parsers): (t: string)
    ensures Header <= t
  {
    Header + p.dumpYaml(CachePayload(rs, detectedAt))
  }

  /** The text of the file `name`, or None when it does not exist. */
  function FileText(files: map<string, string>, name: string): Option<string> {
    if name in files then Some(files[name]) else None
  }

  /** `read_cache`: the record when the file exists, parses to a mapping and has a non-empty
      `domains`; None otherwise. */
  function ReadCache(text: Option<string>, p: Parsers): (r: Option<map<string, Value>>)
    ensures r.Some? ==> text.Some? && p.yaml(text.value) == Some(VMap(r.value)) && TruthyField(r.value, "domains")
    ensures (text.Some? && p.yaml(text.value).Some? && p.yaml(text.value).value.VMap?
             && TruthyField(p.yaml(text.value).value.fields, "domains")) ==> r.Some?
  {
    match text
    case None => None
    case Some(t) =>
      match p.yaml(t)
      case Some(VMap(m)) => if Truthy(Get(m, "domains", VNone)) then Some(m) else None
      case _ => None
  }

  /** Whether the command line answers from the cache: always when the cache is usable and
      `--no-cache` is off; with `--no-cache`, only when the cache says `override: true`. */
  function AnswerFromCache(noCache: bool, cached: Option<map<string, Value>>): (r: bool)
    ensures r <==> cached.Some? && (!noCache || TruthyField(cached.value, "override"))
  {
    if !noCache && cached.Some? then true
    else if noCache then cached.Some? && Truthy(Get(cached.value, "override", VNone))
    else false
  }

  /** A cache file written by `write_cache` is read back by `read_cache` exactly when it holds
      at least one domain, provided the YAML loader inverts the dumper (the header is a YAML
      comment). */
  lemma CacheRoundTrip(rs: seq<Detected>, detectedAt: string, p: Parsers)
    requires p.yaml(CacheText(rs, detectedAt, p)) == Some(CachePayload(rs, detectedAt))
    ensures ReadCache(Some(CacheText(rs, detectedAt, p)), p).Some? <==> rs != []
    ensures rs != [] ==> ReadCache(Some(CacheText(rs, detectedAt, p)), p) == Some(CachePayload(rs, detectedAt).fields)
  {
    assert CachePayload(rs, detectedAt).fields["domains"] == ResultsValue(rs);
  }

  /** A found detection always carries a primary domain into the cache, and only one. */
  lemma CachedPrimary(root: Node, p: Parsers, domains: seq<DomainSpec>, skip: bool)
    ensures var v := ResultsValue(DetectionOf(root, p, domains, skip));
      forall i :: 0 <= i < |v.items| ==> ("primary" in v.items[i].fields <==> i == 0)
  {
    DetectionProperties(root, p, domains, skip);
  }

  /** `write_cache`: the payload goes to a found temp file in the cache's directory, is
      synced, closed and renamed over the cache.  All or nothing: on success the cache holds
      the new text; on any failure the other files are untouched, the temp file is gone
      unless removing it failed too, no descriptor is left open, and the error propagates. */
  method WriteCache(dir: Directory, target: string, temp: string, rs: seq<Detected>, detectedAt: string, p: Parsers, faults: Faults)
    returns (ok: bool)
    requires dir.Valid()
    modifies dir
    ensures dir.Valid()
    ensures ok <==> NoFault(faults) && temp !in old(dir.files)
    ensures ok ==> dir.files == old(dir.files)[target := CacheText(rs, detectedAt, p)]
    ensures !ok ==> OnlyTempDiffers(old(dir.files), dir.files, temp)
    ensures !ok && temp in dir.files ==> temp in old(dir.files) || RemoveFile in faults.failing
    ensures dir.open == old(dir.open)
  {
    var content := CacheText(rs, detectedAt, p);
    ok := dir.MakeDirectory(faults);
    if !ok {
      return;
    }
    ok := dir.CreateTempFile(temp, faults);
    if !ok {
      return;
    }
    ok := dir.WriteAll(temp, content, faults);
    assert ok ==> dir.files == old(dir.files)[temp := content] by {
      assert "" + content == content;
    }
    assert old(dir.files)[temp := content] - {temp} == old(dir.files);
    assert OnlyTempDiffers(old(dir.files), dir.files, temp);
    ok := SyncAndReplace(dir, temp, target, faults, ok);
  }

  /** `write_cache` as written: the count `os.write` returns is ignored, so a short write is
      synced and renamed into place as if it were the whole file. */
  method WriteCacheAsWritten(dir: Directory, target: string, temp: string, rs: seq<Detected>, detectedAt: string, p: Parsers, faults: Faults)
    returns (ok: bool)
    requires dir.Valid()
    modifies dir
    ensures dir.Valid()
    ensures ok <==> NoFault(faults) && temp !in old(dir.files)
    ensures ok ==> dir.files == old(dir.files)[target := CacheText(rs, detectedAt, p)[..Accepted(faults, |CacheText(rs, detectedAt, p)|)]]
    ensures ok && 0 < faults.chunk < |CacheText(rs, detectedAt, p)| ==> dir.files[target] != CacheText(rs, detectedAt, p)
    ensures !ok ==> OnlyTempDiffers(old(dir.files), dir.files, temp)
    ensures dir.open == old(dir.open)
  {
    var content := CacheText(rs, detectedAt, p);
    ok := dir.MakeDirectory(faults);
    if !ok {
      return;
    }
    ok := dir.CreateTempFile(temp, faults);
    if !ok {
      return;
    }
    var n;
    ok, n := dir.WriteOnce(temp, content, faults);
    assert "" + content[..n] == content[..n];
    assert ok ==> n == Accepted(faults, |content|) && dir.files == old(dir.files)[temp := content[..n]];
    assert ok && 0 < faults.chunk < |content| ==> |content[..n]| < |content|;
    assert old(dir.files)[temp := content[..n]] - {temp} == old(dir.files);
    assert OnlyTempDiffers(old(dir.files), dir.files, temp);
    ok := SyncAndReplace(dir, temp, target, faults, ok);
  }

  /** The end of `write_cache`, once the payload is written (`written`) or its write has
      failed: sync, close and rename when it was written; on any failure the descriptor is
      closed again and the temp file removed.  Either way the temp file ends up closed. */
  method SyncAndReplace(dir: Directory, temp: string, target: string, faults: Faults, written: bool)
    returns (ok: bool)
    requires dir.Valid() && temp in dir.files && temp in dir.open
    modifies dir
    ensures dir.Valid()
    ensures ok <==> written && Sync !in faults.failing && CloseFile !in faults.failing && RenameFile !in faults.failing
    ensures ok ==> dir.files == (old(dir.files) - {temp})[target := old(dir.files)[temp]]
    ensures !ok ==> OnlyTempDiffers(old(dir.files), dir.files, temp)
    ensures !ok && temp in dir.files ==> RemoveFile in faults.failing
    ensures dir.open == old(dir.open) - {temp}
  {
    ok := written;
    if ok {
      ok := dir.SyncFile(temp, faults);
    }
    if ok {
      ok := dir.Close(temp, faults);
    }
    if ok {
      ok := dir.Rename(temp, target, faults);
      assert ok && temp == target ==> (old(dir.files) - {temp})[target := old(dir.files)[temp]] == old(dir.files);
    }
    if !ok {
      var closedAgain := dir.Close(temp, faults);
      var removed := dir.Remove(temp, faults);
    }
  }

  /** The document the command line prints. */
  function Reply(domains: Value, detectedAt: Value): Value {
    VMap(map["domains" := domains, "detected_at" := detectedAt])
  }

  /** The reply given from a usable cache record. */
  function CachedReply(cached: map<string, Value>): Value
    requires "domains" in cached
  {
    Reply(cached["domains"], Get(cached, "detected_at", VStr("")))
  }

  /** The domains a found detection finds, or None when the catalog cannot be loaded. */
  function FreshDetection(root: Node, indexText: Option<string>, p: Parsers): Option<seq<Detected>> {
    match (if indexText.Some? then LoadIndex(p.yaml(indexText.value)) else None)
    case None => None
    case Some(domains) => Some(DetectionOf(root, p, domains, true))
  }

  /** `main` of detect-domains.  `index` is None when the catalog file does not exist and
      Some(None) when it cannot be read; `writtenAt` and `printedAt` are the two clock
      readings.  The exit code is 0 when domains are reported, 1 when none are detected and
      2 on any error. */
  method Run(root: Node, index: Option<Option<string>>, dir: Directory, cacheName: string, temp: string,
             noCache: bool, p: Parsers, faults: Faults, writtenAt: string, printedAt: string)
    returns (code: int, reply: Option<Value>)
    requires dir.Valid()
    modifies dir
    ensures dir.Valid()
    ensures code == 0 <==> reply.Some?
    ensures code == 0 || code == 1 || code == 2
    ensures dir.open == old(dir.open)
    ensures !root.Dir? || index.None? ==> code == 2 && dir.files == old(dir.files)
    ensures root.Dir? && index.Some? && AnswerFromCache(noCache, ReadCache(FileText(old(dir.files), cacheName), p)) ==>
      code == 0 && dir.files == old(dir.files)
      && reply == Some(CachedReply(ReadCache(FileText(old(dir.files), cacheName), p).value))
    ensures root.Dir? && index.Some? && !AnswerFromCache(noCache, ReadCache(FileText(old(dir.files), cacheName), p)) ==>
      (var found := FreshDetection(root, index.value, p);
      && (found.None? ==> code == 2 && dir.files == old(dir.files))
      && (found == Some([]) ==> code == 1 && dir.files == old(dir.files))
      && (found.Some? && found.value != [] ==>
            (code == 0 <==> NoFault(faults) && temp !in old(dir.files))
            && (code == 0 ==>
                  dir.files == old(dir.files)[cacheName := CacheText(found.value, writtenAt, p)]
                  && reply == Some(Reply(ResultsValue(found.value), VStr(printedAt))))
            && (code != 0 ==> OnlyTempDiffers(old(dir.files), dir.files, temp))))
  {
    reply := None;
    if !root.Dir? || index.None? {
      return 2, None;
    }
    var cached := ReadCache(FileText(dir.files, cacheName), p);
    if AnswerFromCache(noCache, cached) {
      return 0, Some(CachedReply(cached.value));
    }
    if index.value.None? {
      return 2, None;
    }
    var domains := LoadIndex(p.yaml(index.value.value));
    if domains.None? {
      return 2, None;
    }
    var results := Detect(root, p, domains.value, true);
    if results == [] {
      return 1, None;
    }
    var ok := WriteCache(dir, cacheName, temp, results, writtenAt, p, faults);
    if !ok {
      return 2, None;
    }
    code := 0;
    reply := Some(Reply(ResultsValue(results), VStr(printedAt)));
  }
}

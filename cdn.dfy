/** keg/cdn.py, the part that is pure: the logical path of every content category, the
    read-then-verify policy shared by every CDN backend (`BaseCDN.fetch_*`), and the way
    `RemoteCDN` places a logical path under its URL prefix. */
module Cdn {
  import opened Common
  import opened Io
  import opened Utils

  // ---------------------------------------------------------------------------------
  // Logical paths (keg/cdn.py:20-41)

  function UnderPrefix(prefix: string, key: string): (r: Result<string>)
    ensures r.Err? <==> |key| < 4
    ensures r.Err? ==> r.error == ValueError(key)
  {
    var p :- PartitionHash(key);
    Ok(prefix + p)
  }

  function ConfigPath(key: string): Result<string> { UnderPrefix("/config/", key) }

  function DataPath(key: string): Result<string> { UnderPrefix("/data/", key) }

  function DataIndexPath(key: string): Result<string> {
    var p :- DataPath(key);
    Ok(p + ".index")
  }

  function PatchPath(key: string): Result<string> { UnderPrefix("/patch/", key) }

  function PatchIndexPath(key: string): Result<string> {
    var p :- PatchPath(key);
    Ok(p + ".index")
  }

  function ConfigItemPath(key: string): Result<string> { UnderPrefix("/", key) }

  /** Every logical path is its category's prefix, then `ab/cd/<key>`, then `.index` for
      the two index categories; every builder refuses exactly the keys shorter than 4. */
  lemma LogicalPathLayout(key: string)
    requires |key| >= 4
    ensures var p := key[..2] + "/" + key[2..4] + "/" + key;
      && ConfigPath(key) == Ok("/config/" + p)
      && DataPath(key) == Ok("/data/" + p)
      && DataIndexPath(key) == Ok("/data/" + p + ".index")
      && PatchPath(key) == Ok("/patch/" + p)
      && PatchIndexPath(key) == Ok("/patch/" + p + ".index")
      && ConfigItemPath(key) == Ok("/" + p)
  {
  }

  lemma LogicalPathsRejectShortKeys(key: string)
    requires |key| < 4
    ensures ConfigPath(key) == DataPath(key) == DataIndexPath(key) == Err(ValueError(key))
    ensures PatchPath(key) == PatchIndexPath(key) == ConfigItemPath(key) == Err(ValueError(key))
  {
  }

  /** Within one category, distinct keys have distinct paths. */
  lemma {:induction false} UnderPrefixInjective(prefix: string, a: string, b: string)
    requires UnderPrefix(prefix, a).Ok? && UnderPrefix(prefix, a) == UnderPrefix(prefix, b)
    ensures a == b
  {
    var pa, pb := PartitionHash(a).value, PartitionHash(b).value;
    assert pa == (prefix + pa)[|prefix|..] == (prefix + pb)[|prefix|..] == pb;
    PartitionHashInjective(a, b);
  }

  /** The config, data and patch trees never share a path. */
  lemma CategoriesDisjoint(a: string, b: string)
    requires |a| >= 4 && |b| >= 4
    ensures ConfigPath(a) != DataPath(b) && ConfigPath(a) != PatchPath(b) && DataPath(a) != PatchPath(b)
    ensures ConfigPath(a) != DataIndexPath(b) && ConfigPath(a) != PatchIndexPath(b)
    ensures DataPath(a) != PatchIndexPath(b) && DataIndexPath(a) != PatchPath(b)
  {
    var pa, pb := PartitionHash(a).value, PartitionHash(b).value;
    assert ("/config/" + pa)[1] == 'c';
    assert ("/data/" + pa)[1] == 'd' && ("/data/" + pb)[1] == 'd' && ("/data/" + pb + ".index")[1] == 'd';
    assert ("/patch/" + pb)[1] == 'p' && ("/patch/" + pb + ".index")[1] == 'p';
    assert ("/data/" + pa + ".index")[1] == 'd';
  }

  /** Because `partition_hash` checks only the length, a data key that itself ends in
      ".index" lands on the index path of the shorter key. */
  lemma DataKeyCanShadowIndex(key: string)
    requires |key| >= 4
    ensures DataPath(key + ".index") == DataIndexPath(key)
  {
    var k := key + ".index";
    assert k[0..2] == key[0..2] && k[2..4] == key[2..4];
    assert "/data/" + (k[0..2] + "/" + k[2..4] + "/" + k)
        == "/data/" + (key[0..2] + "/" + key[2..4] + "/" + key) + ".index";
  }

  // ---------------------------------------------------------------------------------
  // Read, then verify: BaseCDN.fetch_* (keg/cdn.py:44-98)

  /** A CDN backend, seen through the two reads every backend provides: an item of the
      content tree and an item of the config tree, each by logical path. */
  datatype ContentSource = ContentSource(getItem: string -> Result<Bytes>, getConfigItem: string -> Result<Bytes>)

  /** Resolve the logical path, then read the whole item. */
  function ReadAll(get: string -> Result<Bytes>, path: Result<string>): Result<Bytes> {
    var p :- path;
    get(p)
  }

  /** Read, then `verify_data` on `checked(data)`, then return the whole payload. */
  function ReadVerified(get: string -> Result<Bytes>, path: Result<string>, md5: Digest,
                        objectName: string, key: string, verify: bool, footerOnly: bool): (r: Result<Bytes>)
    ensures ReadAll(get, path).Err? ==> r == ReadAll(get, path)
    ensures r.Ok? <==> ReadAll(get, path).Ok?
                       && (!verify || md5(Checked(ReadAll(get, path).value, footerOnly)) == key)
    ensures r.Ok? ==> r.value == ReadAll(get, path).value
    ensures ReadAll(get, path).Ok? && r.Err? ==>
              r.error == IntegrityError(objectName, md5(Checked(ReadAll(get, path).value, footerOnly)), key)
  {
    var data :- ReadAll(get, path);
    var _ :- VerifyData(md5, objectName, Checked(data, footerOnly), key, verify);
    Ok(data)
  }

  /** The bytes the hash is taken over: the whole payload, or `data[-28:]`. */
  function Checked(data: Bytes, footerOnly: bool): Bytes {
    if footerOnly then Tail(data, 28) else data
  }

  /** `fetch_config`: the payload served at `/config/<p>`; with `verify`, its digest must
      be the key, or the fetch fails with an integrity error naming the config file. */
  function FetchConfig(src: ContentSource, md5: Digest, key: string, verify: bool): (r: Result<Bytes>)
    ensures ReadAll(src.getItem, ConfigPath(key)).Err? ==> r == ReadAll(src.getItem, ConfigPath(key))
    ensures r.Ok? ==> r == ReadAll(src.getItem, ConfigPath(key)) && (verify ==> md5(r.value) == key)
    ensures ReadAll(src.getItem, ConfigPath(key)).Ok? && r.Err? ==>
              verify && r.error == IntegrityError("config file", md5(ReadAll(src.getItem, ConfigPath(key)).value), key)
    ensures ReadAll(src.getItem, ConfigPath(key)).Ok? && !verify ==> r.Ok?
  {
    ReadVerified(src.getItem, ConfigPath(key), md5, "config file", key, verify, false)
  }

  /** `fetch_config_data`: the same rule for a config item, read from the config tree. */
  function FetchConfigData(src: ContentSource, md5: Digest, key: string, verify: bool): (r: Result<Bytes>)
    ensures ReadAll(src.getConfigItem, ConfigItemPath(key)).Err? ==> r == ReadAll(src.getConfigItem, ConfigItemPath(key))
    ensures r.Ok? ==> r == ReadAll(src.getConfigItem, ConfigItemPath(key)) && (verify ==> md5(r.value) == key)
    ensures ReadAll(src.getConfigItem, ConfigItemPath(key)).Ok? && r.Err? ==>
              verify && r.error == IntegrityError("config item", md5(ReadAll(src.getConfigItem, ConfigItemPath(key)).value), key)
    ensures ReadAll(src.getConfigItem, ConfigItemPath(key)).Ok? && !verify ==> r.Ok?
  {
    ReadVerified(src.getConfigItem, ConfigItemPath(key), md5, "config item", key, verify, false)
  }

  /** `fetch_index`: the payload of the data index, never hashed whatever `verify` says:
      what the backend serves at the index path, or the backend's own error. */
  function FetchIndex(src: ContentSource, md5: Digest, key: string, verify: bool): (r: Result<Bytes>)
    ensures |key| >= 4 ==> r == src.getItem(DataIndexPath(key).value)
    ensures |key| < 4 ==> r == Err(ValueError(key))
  {
    ReadAll(src.getItem, DataIndexPath(key))
  }

  /** `fetch_patch`: the payload served at `/patch/<p>`, hashed whole when verifying. */
  function FetchPatch(src: ContentSource, md5: Digest, key: string, verify: bool): (r: Result<Bytes>)
    ensures ReadAll(src.getItem, PatchPath(key)).Err? ==> r == ReadAll(src.getItem, PatchPath(key))
    ensures r.Ok? ==> r == ReadAll(src.getItem, PatchPath(key)) && (verify ==> md5(r.value) == key)
    ensures ReadAll(src.getItem, PatchPath(key)).Ok? && r.Err? ==>
              verify && r.error == IntegrityError("patch file", md5(ReadAll(src.getItem, PatchPath(key)).value), key)
    ensures ReadAll(src.getItem, PatchPath(key)).Ok? && !verify ==> r.Ok?
  {
    ReadVerified(src.getItem, PatchPath(key), md5, "patch file", key, verify, false)
  }

  /** `fetch_patch_index`: only `data[-28:]` is hashed, the whole payload is returned. */
  function FetchPatchIndex(src: ContentSource, md5: Digest, key: string, verify: bool): (r: Result<Bytes>)
    ensures ReadAll(src.getItem, PatchIndexPath(key)).Err? ==> r == ReadAll(src.getItem, PatchIndexPath(key))
    ensures r.Ok? ==> r == ReadAll(src.getItem, PatchIndexPath(key)) && (verify ==> md5(Tail(r.value, 28)) == key)
    ensures ReadAll(src.getItem, PatchIndexPath(key)).Ok? && r.Err? ==>
              verify && r.error == IntegrityError("patch index", md5(Tail(ReadAll(src.getItem, PatchIndexPath(key)).value, 28)), key)
    ensures ReadAll(src.getItem, PatchIndexPath(key)).Ok? && !verify ==> r.Ok?
  {
    ReadVerified(src.getItem, PatchIndexPath(key), md5, "patch index", key, verify, true)
  }

  /** `download_data`: the raw data item, never hashed: what the backend serves at the
      data path, or the backend's own error. */
  function DownloadData(src: ContentSource, key: string): (r: Result<Bytes>)
    ensures |key| >= 4 ==> r == src.getItem(DataPath(key).value)
    ensures |key| < 4 ==> r == Err(ValueError(key))
  {
    ReadAll(src.getItem, DataPath(key))
  }

  /** With `verify` off, every fetch returns exactly what the backend served (or the
      backend's own error): no fetch fails on integrity. */
  lemma UnverifiedFetchesPassThrough(src: ContentSource, md5: Digest, key: string)
    ensures FetchConfig(src, md5, key, false) == ReadAll(src.getItem, ConfigPath(key))
    ensures FetchConfigData(src, md5, key, false) == ReadAll(src.getConfigItem, ConfigItemPath(key))
    ensures FetchPatch(src, md5, key, false) == ReadAll(src.getItem, PatchPath(key))
    ensures FetchPatchIndex(src, md5, key, false) == ReadAll(src.getItem, PatchIndexPath(key))
    ensures FetchIndex(src, md5, key, false) == ReadAll(src.getItem, DataIndexPath(key))
    ensures DownloadData(src, key) == ReadAll(src.getItem, DataPath(key))
  {
  }

  /** `fetch_index` neither hashes nor looks at `verify`: its result depends on neither. */
  lemma FetchIndexIgnoresVerification(src: ContentSource, md5: Digest, md5': Digest, key: string, verify: bool)
    ensures FetchIndex(src, md5, key, verify) == FetchIndex(src, md5', key, false)
  {
  }

  /** When the digest tells payloads apart, a verified fetch of a payload other than the
      one named by the key fails with an integrity error. */
  lemma VerifiedFetchRejectsTampering(src: ContentSource, md5: Digest, key: string, genuine: Bytes)
    requires forall a, b :: md5(a) == md5(b) ==> a == b
    requires md5(genuine) == key && |key| >= 4
    requires src.getItem(ConfigPath(key).value).Ok? && src.getItem(ConfigPath(key).value).value != genuine
    ensures FetchConfig(src, md5, key, true).Err? && FetchConfig(src, md5, key, true).error.IntegrityError?
  {
  }

  /** `fetch_patch_index` with `verify`: two payloads with the same last 28 bytes pass or
      fail together, whatever comes before the footer. */
  lemma PatchIndexIgnoresBodyCorruption(src: ContentSource, src': ContentSource, md5: Digest, key: string)
    requires |key| >= 4
    requires src.getItem(PatchIndexPath(key).value).Ok? && src'.getItem(PatchIndexPath(key).value).Ok?
    requires Tail(src.getItem(PatchIndexPath(key).value).value, 28) == Tail(src'.getItem(PatchIndexPath(key).value).value, 28)
    ensures FetchPatchIndex(src, md5, key, true).Ok? == FetchPatchIndex(src', md5, key, true).Ok?
  {
  }

  /** ... while a payload whose footer differs from a passing one fails, when the digest
      tells footers apart. */
  lemma PatchIndexDetectsFooterCorruption(src: ContentSource, src': ContentSource, md5: Digest, key: string)
    requires forall a, b :: md5(a) == md5(b) ==> a == b
    requires FetchPatchIndex(src, md5, key, true).Ok?
    requires src'.getItem(PatchIndexPath(key).value).Ok?
    requires Tail(src.getItem(PatchIndexPath(key).value).value, 28) != Tail(src'.getItem(PatchIndexPath(key).value).value, 28)
    ensures FetchPatchIndex(src', md5, key, true).Err?
    ensures FetchPatchIndex(src', md5, key, true).error.IntegrityError?
  {
  }
}

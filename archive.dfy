/** Archives and archive groups (keg/archive.py:11-36, 110-160): lazy reads of a file
    out of an archive's data, the merged index of a group built once and kept, and the
    lookups of a key in a group. */
module Archives {
  import opened Common
  import opened Io
  import Cdn
  import opened ArchiveFormat
  import opened ArchiveIndexes
  import opened GroupIndexes

  /** The `cdn` object archives and groups are given, seen through the two calls they
      make on it: `get_index(key, verify)` and `download_data(key)`, and whether the
      stream `download_data` returns can seek. */
  datatype CdnClient = CdnClient(getIndex: (string, bool) -> Result<ArchiveIndex>, downloadData: string -> Result<Bytes>,
                                 seekableData: bool)

  /** A `BaseCDN` over a content source: `get_index` fetches the index unverified and
      opens it (verifying its footer when asked), `download_data` reads the data item.
      The data stream of `LocalCDN` is a file opened "rb", which seeks; that of
      `RemoteCDN` is an HTTP body (raw, or wrapped in `TqdmReadable`), which does not. */
  function BaseCdn(src: Cdn.ContentSource, md5: Digest, seekable: bool): CdnClient {
    CdnClient((k, verify) => GetIndex(src, md5, k, verify), k => Cdn.DownloadData(src, k), seekable)
  }

  /** `b"".join(BLTEDecoder(BytesIO(data), key, verify=verify).blocks)`: the BLTE
      decoder is not part of this model, so it is a parameter. */
  type Decoder = (Bytes, string, bool) -> Result<Bytes>

  /** `seek(offset)` then `read(size)` on a file opened "rb": a negative offset is
      refused by the seek; a size below -1 is refused by the read, wherever the file
      stands; an offset at or past the end reads nothing, and -1 reads to the end. */
  function ReadRange(data: Bytes, size: int, offset: int): (r: Result<Bytes>)
    ensures r.Ok? <==> offset >= 0 && size >= -1
    ensures offset < 0 ==> r == Err(InvalidSeek)
    ensures offset >= 0 && size < -1 ==> r == Err(ValueError(ReadLengthMessage))
    ensures r.Ok? ==> var avail := Max(0, |data| - offset);
                      |r.value| == (if size == -1 then avail else Min(size, avail))
    ensures r.Ok? ==> forall i :: 0 <= i < |r.value| ==> r.value[i] == data[offset + i]
  {
    if offset < 0 then Err(InvalidSeek)
    else if size < -1 then Err(ValueError(ReadLengthMessage))
    else if offset >= |data| then Ok([])
    else Ok(Take(data[offset..], size))
  }

  /** The message of the `ValueError` a buffered file's `read` raises for a size below -1. */
  const ReadLengthMessage: string := "read length must be non-negative or -1"

  /** A read that the data covers returns exactly the bytes at `offset..offset+size`. */
  lemma ReadRangeInside(data: Bytes, size: nat, offset: nat)
    requires offset + size <= |data|
    ensures ReadRange(data, size, offset) == Ok(data[offset..offset + size])
  {
    if offset < |data| {
      assert ReadRange(data, size, offset) == Ok(Take(data[offset..], size));
      assert Take(data[offset..], size) == data[offset..offset + size];
    } else {
      assert data[offset..offset + size] == [];
    }
  }

  /** The bytes `get_file_data` reads: from the stream already open, or else from the one
      `download_data` opens now; on a stream that cannot seek, `seek` raises. */
  function DataAt(stream: Result<Bytes>, seekable: bool, size: int, offset: int): Result<Bytes> {
    var data :- stream;
    if !seekable then Err(Unseekable) else ReadRange(data, size, offset)
  }

  /** Over a stream that seeks, an opened archive's read of a covered range is exactly the
      slice of the downloaded data; over one that does not, every read fails. */
  lemma DataAtReadsSlice(stream: Result<Bytes>, seekable: bool, size: nat, offset: nat)
    requires stream.Ok?
    ensures !seekable ==> DataAt(stream, seekable, size, offset) == Err(Unseekable)
    ensures seekable && offset + size <= |stream.value| ==>
              DataAt(stream, seekable, size, offset) == Ok(stream.value[offset..offset + size])
  {
    if seekable && offset + size <= |stream.value| {
      ReadRangeInside(stream.value, size, offset);
    }
  }

  /** What an archive keeps of the stream a read used: its content, or nothing when the
      download failed. */
  function Kept(stream: Result<Bytes>): (d: Option<Bytes>)
    ensures d.Some? <==> stream.Ok?
    ensures d.Some? ==> d.value == stream.value
  {
    if stream.Ok? then Some(stream.value) else None
  }

  /** One archive of the CDN, by key. `data` is the content of the data stream once
      `download_data` has opened it. */
  class Archive {
    const key: string
    const cdn: CdnClient
    var data: Option<Bytes>

    constructor (key: string, cdn: CdnClient)
      ensures this.key == key && this.cdn == cdn && data == None
    {
      this.key := key;
      this.cdn := cdn;
      data := None;
    }

    /** The stream the next read uses. */
    function Stream(): Result<Bytes>
      reads this
    {
      if data.Some? then Ok(data.value) else cdn.downloadData(key)
    }

    /** `get_file_data`: the data stream is opened on the first call only and kept; a
        download that fails leaves it unopened. */
    method GetFileData(size: int, offset: int) returns (r: Result<Bytes>)
      modifies this
      ensures old(data).Some? ==> data == old(data)
      ensures data == Kept(old(Stream()))
      ensures r == DataAt(old(Stream()), cdn.seekableData, size, offset)
    {
      if data.None? {
        var content :- cdn.downloadData(key);
        data := Some(content);
      }
      if !cdn.seekableData {
        return Err(Unseekable);
      }
      r := ReadRange(data.value, size, offset);
    }

    /** `get_file`: the raw bytes at `offset`, BLTE-decoded. */
    method GetFile(fileKey: string, size: int, offset: int, verify: bool, decode: Decoder) returns (r: Result<Bytes>)
      modifies this
      ensures old(data).Some? ==> data == old(data)
      ensures data == Kept(old(Stream()))
      ensures r == (var raw :- DataAt(old(Stream()), cdn.seekableData, size, offset); decode(raw, fileKey, verify))
    {
      var raw :- GetFileData(size, offset);
      r := decode(raw, fileKey, verify);
    }
  }

  /** The index of the archive `key` loads and its walk completes. */
  predicate Loads(cdn: CdnClient, key: string, verify: bool) {
    cdn.getIndex(key, verify).Ok? && cdn.getIndex(key, verify).value.Walked().1.None?
  }

  /** The entries of each index of a group, in `archive_keys` order, as the generator of
      `ArchiveGroupIndex` pulls them: `get_index` of one archive, then its whole walk,
      then the next archive; the first failure ends it. */
  function Collected(cdn: CdnClient, keys: seq<string>, verify: bool): (r: Result<seq<seq<Entry>>>)
    ensures r.Ok? ==> |r.value| == |keys|
    decreases |keys|
  {
    if keys == [] then Ok([])
    else
      var index :- cdn.getIndex(keys[0], verify);
      var (entries, error) := index.Walked();
      if error.Some? then Err(error.value)
      else
        var rest :- Collected(cdn, keys[1..], verify);
        Ok([entries] + rest)
  }

  /** The collection succeeds exactly when every index loads and walks to the end. */
  lemma {:induction false} CollectedOk(cdn: CdnClient, keys: seq<string>, verify: bool)
    ensures Collected(cdn, keys, verify).Ok? <==> forall i :: 0 <= i < |keys| ==> Loads(cdn, keys[i], verify)
    decreases |keys|
  {
    if keys != [] {
      CollectedOk(cdn, keys[1..], verify);
      assert forall i :: 1 <= i < |keys| ==> keys[i] == keys[1..][i - 1];
    }
  }

  /** A collection that succeeds holds, in order, the entries of each index. */
  lemma {:induction false} CollectedEntries(cdn: CdnClient, keys: seq<string>, verify: bool)
    requires Collected(cdn, keys, verify).Ok?
    ensures forall i :: 0 <= i < |keys| ==>
              Loads(cdn, keys[i], verify)
              && cdn.getIndex(keys[i], verify).value.Walked().0 == Collected(cdn, keys, verify).value[i]
    decreases |keys|
  {
    if keys != [] {
      CollectedHead(cdn, keys, verify);
      CollectedEntries(cdn, keys[1..], verify);
      assert forall i :: 1 <= i < |keys| ==> keys[i] == keys[1..][i - 1];
    }
  }

  /** What `merged_index` builds: `ArchiveGroupIndex(self.indices, ...)`. */
  function Merged(cdn: CdnClient, keys: seq<string>, groupKey: string, verify: bool): (r: Result<GroupIndex>)
    ensures r.Ok? <==> forall i :: 0 <= i < |keys| ==> Loads(cdn, keys[i], verify)
  {
    CollectedOk(cdn, keys, verify);
    var lists :- Collected(cdn, keys, verify);
    Ok(MergeIndices(lists, groupKey))
  }

  /** Every merged entry names an archive of the group. */
  lemma MergedNamesArchives(cdn: CdnClient, keys: seq<string>, groupKey: string, verify: bool)
    requires forall i :: 0 <= i < |keys| ==> Loads(cdn, keys[i], verify)
    ensures forall x :: x in Merged(cdn, keys, groupKey, verify).value.items ==> x.archiveId < |keys|
  {
    CollectedOk(cdn, keys, verify);
    MergedArchiveIds(Collected(cdn, keys, verify).value, groupKey);
  }

  /** Some entry of `entries` has key `k`. */
  predicate Holds(entries: seq<Entry>, k: string) {
    exists j :: 0 <= j < |entries| && entries[j].Key() == k
  }

  /** `get_archive_by_key`: the first archive in `keys` order whose index (fetched
      unverified) yields key `k`. An archive is answered as soon as its walk reaches
      `k`, so a walk that would fail later does not matter; a walk that fails before,
      or an index that does not load, ends the search with that error. */
  function FindArchive(cdn: CdnClient, keys: seq<string>, k: string): (r: Result<Option<string>>)
    ensures r.Ok? && r.value.Some? ==> r.value.value in keys
    decreases |keys|
  {
    if keys == [] then Ok(None)
    else
      var index :- cdn.getIndex(keys[0], false);
      var (entries, error) := index.Walked();
      if Holds(entries, k) then Ok(Some(keys[0]))
      else if error.Some? then Err(error.value)
      else FindArchive(cdn, keys[1..], k)
  }

  /** The archive `key` is passed over in the search for `k`: its index loads
      unverified, its walk completes, and no entry has key `k`. */
  predicate Passes(cdn: CdnClient, key: string, k: string) {
    var index := cdn.getIndex(key, false);
    index.Ok? && index.value.Walked().1.None? && !Holds(index.value.Walked().0, k)
  }

  /** The search reaches archive `i` with the same answer once it passes every
      archive before it. */
  lemma {:induction false} FindArchiveFrom(cdn: CdnClient, keys: seq<string>, i: nat, k: string)
    requires i <= |keys|
    requires forall j :: 0 <= j < i ==> Passes(cdn, keys[j], k)
    ensures FindArchive(cdn, keys, k) == FindArchive(cdn, keys[i..], k)
    decreases i
  {
    if i > 0 {
      assert forall j :: 0 <= j < i - 1 ==> keys[1..][j] == keys[j + 1];
      FindArchiveFrom(cdn, keys[1..], i - 1, k);
      assert keys[1..][i - 1..] == keys[i..];
      assert Passes(cdn, keys[0], k);
    } else {
      assert keys[0..] == keys;
    }
  }

  /** Where the search stops at archive `i`, once it passes every archive before it and
      not this one. */
  lemma FindArchiveAt(cdn: CdnClient, keys: seq<string>, i: nat, k: string)
    requires i < |keys| && !Passes(cdn, keys[i], k)
    requires forall j :: 0 <= j < i ==> Passes(cdn, keys[j], k)
    ensures var index := cdn.getIndex(keys[i], false);
            FindArchive(cdn, keys, k) ==
              if index.Err? then Err(index.error)
              else if Holds(index.value.Walked().0, k) then Ok(Some(keys[i]))
              else Err(index.value.Walked().1.value)
  {
    FindArchiveFrom(cdn, keys, i, k);
    assert keys[i..][0] == keys[i];
  }

  /** The inner loop of `get_archive_by_key`: whether some entry has key `k`. */
  method HoldsKey(entries: seq<Entry>, k: string) returns (found: bool)
    ensures found == Holds(entries, k)
  {
    var j := 0;
    while j < |entries|
      invariant 0 <= j <= |entries|
      invariant forall m :: 0 <= m < j ==> entries[m].Key() != k
    {
      if entries[j].Key() == k {
        return true;
      }
      j := j + 1;
    }
    return false;
  }

  /** Verification only decides whether an index opens: an index that opens verified
      also opens unverified, with the same entries. */
  ghost predicate VerifyOnlyGates(cdn: CdnClient, verify: bool) {
    forall k :: cdn.getIndex(k, verify).Ok? ==>
      cdn.getIndex(k, false).Ok? && cdn.getIndex(k, false).value.Walked() == cdn.getIndex(k, verify).value.Walked()
  }

  /** `BaseCDN.get_index` checks only the footer, and the walk does not look at the
      flag: verification gates an index and changes nothing in it. */
  lemma BaseCdnVerifyOnlyGates(src: Cdn.ContentSource, md5: Digest, seekable: bool, verify: bool)
    ensures VerifyOnlyGates(BaseCdn(src, md5, seekable), verify)
  {
    forall k | GetIndex(src, md5, k, verify).Ok?
      ensures GetIndex(src, md5, k, false).Ok?
      ensures GetIndex(src, md5, k, false).value.Walked() == GetIndex(src, md5, k, verify).value.Walked()
    {
      var data := Cdn.FetchIndex(src, md5, k, false).value;
      assert ParseFooter(md5, data, k, false) == ParseFooter(md5, data, k, verify);
    }
  }

  /** The position of the first index, in order, whose entries include key `k`. */
  function FirstHolding(lists: seq<seq<Entry>>, k: string): (r: Option<nat>)
    ensures r.Some? ==> r.value < |lists| && Holds(lists[r.value], k)
    ensures r.Some? ==> forall b :: 0 <= b < r.value ==> !Holds(lists[b], k)
    ensures r.None? ==> forall a :: 0 <= a < |lists| ==> !Holds(lists[a], k)
  {
    if lists == [] then None
    else if Holds(lists[0], k) then Some(0)
    else match FirstHolding(lists[1..], k)
      case None => None
      case Some(a) => Some(a + 1)
  }

  /** A collection that succeeds is the first index's entries ahead of the rest's. */
  lemma CollectedHead(cdn: CdnClient, keys: seq<string>, verify: bool)
    requires keys != [] && Collected(cdn, keys, verify).Ok?
    ensures Loads(cdn, keys[0], verify)
    ensures Collected(cdn, keys[1..], verify).Ok?
    ensures Collected(cdn, keys, verify).value
            == [cdn.getIndex(keys[0], verify).value.Walked().0] + Collected(cdn, keys[1..], verify).value
  {
  }

  /** When the merged index builds, `get_archive_by_key` answers without error: the
      first archive, in `archive_keys` order, whose index yields the key, or `None`
      when no index does (exactly when `has_file` is false, by `MergedKeys`). */
  lemma {:induction false} FindArchiveAgreesWithMerge(cdn: CdnClient, keys: seq<string>, verify: bool, k: string)
    requires Collected(cdn, keys, verify).Ok? && VerifyOnlyGates(cdn, verify)
    ensures FindArchive(cdn, keys, k) ==
              match FirstHolding(Collected(cdn, keys, verify).value, k)
                case None => Ok(None)
                case Some(a) => Ok(Some(keys[a]))
    decreases |keys|
  {
    if keys != [] {
      CollectedHead(cdn, keys, verify);
      var lists := Collected(cdn, keys, verify).value;
      var rest := Collected(cdn, keys[1..], verify).value;
      assert lists[1..] == rest;
      var index := cdn.getIndex(keys[0], false);
      assert index.Ok? && index.value.Walked() == cdn.getIndex(keys[0], verify).value.Walked();
      if !Holds(lists[0], k) {
        FindArchiveAgreesWithMerge(cdn, keys[1..], verify, k);
      }
    }
  }

  /** The entries `ArchiveGroupIndex` pulls from the group's `indices`: for each key in
      turn, `get_index`, then the whole `items` walk of that index. */
  method CollectIndices(cdn: CdnClient, keys: seq<string>, verify: bool) returns (r: Result<seq<seq<Entry>>>)
    ensures r == Collected(cdn, keys, verify)
  {
    var lists: seq<seq<Entry>> := [];
    var i := 0;
    while i < |keys|
      invariant 0 <= i <= |keys| && |lists| == i
      invariant forall j :: 0 <= j < i ==>
                  Loads(cdn, keys[j], verify) && cdn.getIndex(keys[j], verify).value.Walked().0 == lists[j]
    {
      var index := cdn.getIndex(keys[i], verify);
      if index.Err? {
        CollectedStops(cdn, keys, i, verify);
        return Err(index.error);
      }
      var entries, error := index.value.Items();
      if error.Some? {
        CollectedStops(cdn, keys, i, verify);
        return Err(error.value);
      }
      lists := lists + [entries];
      i := i + 1;
    }
    CollectedEach(cdn, keys, verify, lists);
    r := Ok(lists);
  }

  /** When every archive loads, the collection is the entries of each, in order. */
  lemma CollectedEach(cdn: CdnClient, keys: seq<string>, verify: bool, lists: seq<seq<Entry>>)
    requires |lists| == |keys|
    requires forall j :: 0 <= j < |keys| ==>
               Loads(cdn, keys[j], verify) && cdn.getIndex(keys[j], verify).value.Walked().0 == lists[j]
    ensures Collected(cdn, keys, verify) == Ok(lists)
  {
    CollectedOk(cdn, keys, verify);
    CollectedEntries(cdn, keys, verify);
    var all := Collected(cdn, keys, verify).value;
    assert |all| == |lists|;
    assert forall j :: 0 <= j < |keys| ==> all[j] == lists[j];
    assert all == lists;
  }

  /** Why the archive `key` does not load: the error of `get_index`, or the one its
      walk stops on. */
  function LoadError(cdn: CdnClient, key: string, verify: bool): Error
    requires !Loads(cdn, key, verify)
  {
    var index := cdn.getIndex(key, verify);
    if index.Err? then index.error else index.value.Walked().1.value
  }

  /** The collection ends with the error of the first archive that does not load. */
  lemma {:induction false} CollectedStops(cdn: CdnClient, keys: seq<string>, i: nat, verify: bool)
    requires i < |keys| && !Loads(cdn, keys[i], verify)
    requires forall j :: 0 <= j < i ==> Loads(cdn, keys[j], verify)
    ensures Collected(cdn, keys, verify) == Err(LoadError(cdn, keys[i], verify))
    decreases i
  {
    if i > 0 {
      assert keys[1..][i - 1] == keys[i];
      assert forall j :: 0 <= j < i - 1 ==> keys[1..][j] == keys[j + 1];
      CollectedStops(cdn, keys[1..], i - 1, verify);
      assert Loads(cdn, keys[0], verify);
    }
  }

  /** The loop of `get_file_by_key`: the position of the first item with key `k`. */
  method FindFirst(items: seq<GroupItem>, k: string) returns (r: Option<nat>)
    ensures r == FirstWithKey(items, k)
  {
    var i := 0;
    while i < |items|
      invariant 0 <= i <= |items|
      invariant forall j :: 0 <= j < i ==> items[j].key != k
    {
      if items[i].key == k {
        return Some(i);
      }
      i := i + 1;
    }
    return None;
  }

  /** One fresh, unopened `Archive` per key, in order. */
  method OpenArchives(keys: seq<string>, cdn: CdnClient) returns (list: seq<Archive>)
    ensures |list| == |keys|
    ensures forall j :: 0 <= j < |keys| ==> list[j].key == keys[j] && list[j].cdn == cdn
    ensures forall j :: 0 <= j < |keys| ==> fresh(list[j]) && list[j].data == None
    ensures forall j, m :: 0 <= j < m < |keys| ==> list[j] != list[m]
  {
    list := [];
    var i := 0;
    while i < |keys|
      invariant 0 <= i <= |keys| && |list| == i
      invariant forall j :: 0 <= j < i ==> list[j].key == keys[j] && list[j].cdn == cdn
      invariant forall j :: 0 <= j < i ==> fresh(list[j]) && list[j].data == None
      invariant forall j, m :: 0 <= j < m < i ==> list[j] != list[m]
    {
      var a := new Archive(keys[i], cdn);
      list := list + [a];
      i := i + 1;
    }
  }

  /** A group of archives that share one merged index. */
  class ArchiveGroup {
    const archiveKeys: seq<string>
    const key: string
    const cdn: CdnClient
    const verify: bool
    const archives: seq<Archive>
    var mergedIndex: Option<GroupIndex>
    /** What building the merged index gives, whether or not it has been built. */
    ghost const merged: Result<GroupIndex>

    /** One archive per key, in order, and a cached merged index that is the one the
        group's indices build. */
    ghost predicate Valid()
      reads this
    {
      && |archives| == |archiveKeys|
      && (forall i :: 0 <= i < |archives| ==> archives[i].key == archiveKeys[i] && archives[i].cdn == cdn)
      && (mergedIndex.Some? ==> merged == Ok(mergedIndex.value))
      && (merged.Ok? ==> forall x :: x in merged.value.items ==> x.archiveId < |archives|)
    }

    ghost predicate Built() {
      merged == Merged(cdn, archiveKeys, key, verify)
    }

    constructor (archiveKeys: seq<string>, key: string, cdn: CdnClient, verify: bool)
      ensures Valid() && Built() && mergedIndex == None
      ensures this.archiveKeys == archiveKeys && this.key == key && this.cdn == cdn && this.verify == verify
      ensures forall i :: 0 <= i < |archives| ==> fresh(archives[i]) && archives[i].data == None
      ensures forall i, j :: 0 <= i < j < |archives| ==> archives[i] != archives[j]
    {
      var list := OpenArchives(archiveKeys, cdn);
      this.archiveKeys := archiveKeys;
      this.key := key;
      this.cdn := cdn;
      this.verify := verify;
      archives := list;
      mergedIndex := None;
      merged := Merged(cdn, archiveKeys, key, verify);
      if Merged(cdn, archiveKeys, key, verify).Ok? {
        MergedNamesArchives(cdn, archiveKeys, key, verify);
      }
    }

    /** `merged_index`: built from the group's indices on first use and kept; a build
        that fails leaves nothing cached. */
    method MergedIndex() returns (r: Result<GroupIndex>)
      requires Valid() && Built()
      modifies this
      ensures Valid()
      ensures r == merged
      ensures old(mergedIndex).Some? ==> mergedIndex == old(mergedIndex)
      ensures mergedIndex == (if r.Ok? then Some(r.value) else None)
    {
      if mergedIndex.Some? {
        return Ok(mergedIndex.value);
      }
      var lists :- CollectIndices(cdn, archiveKeys, verify);
      var g := MergeIndices(lists, key);
      mergedIndex := Some(g);
      r := Ok(g);
    }

    /** `has_file`: whether some index of the group yields the key. */
    method HasFile(k: string) returns (r: Result<bool>)
      requires Valid() && Built()
      modifies this
      ensures Valid()
      ensures old(mergedIndex).Some? ==> mergedIndex == old(mergedIndex)
      ensures mergedIndex == (if merged.Ok? then Some(merged.value) else None)
      ensures r == (if merged.Ok? then Ok(k in merged.value.itemKeys) else Err(merged.error))
    {
      var g :- MergedIndex();
      r := Ok(k in g.itemKeys);
    }

    /** `get_file_by_key`: the file of the first merged item with key `k` (the smallest
        copy, then the lowest archive position, then the lowest offset), read and decoded
        from its archive; a missing key is a `KeyError`. */
    method GetFileByKey(k: string, decode: Decoder) returns (r: Result<Bytes>)
      requires Valid() && Built()
      modifies this, archives
      ensures Valid()
      ensures old(mergedIndex).Some? ==> mergedIndex == old(mergedIndex)
      ensures mergedIndex == (if merged.Ok? then Some(merged.value) else None)
      ensures merged.Err? ==> r == Err(merged.error)
      ensures merged.Ok? && FirstWithKey(merged.value.items, k).None? ==> r == Err(MissingKey(k))
      ensures merged.Ok? && FirstWithKey(merged.value.items, k).Some? ==>
                var item := merged.value.items[FirstWithKey(merged.value.items, k).value];
                && item.archiveId < |archives|
                && r == (var raw :- DataAt(old(archives[item.archiveId].Stream()), cdn.seekableData, item.size, item.offset);
                         decode(raw, k, false))
                && archives[item.archiveId].data == Kept(old(archives[item.archiveId].Stream()))
                && forall a :: a in archives && a != archives[item.archiveId] ==> a.data == old(a.data)
      ensures merged.Err? || FirstWithKey(merged.value.items, k).None? ==>
                forall a :: a in archives ==> a.data == old(a.data)
      ensures forall a :: a in archives && old(a.data).Some? ==> a.data == old(a.data)
    {
      var g :- MergedIndex();
      r := ReadFirst(g, k, decode);
    }

    /** The part of `get_file_by_key` after the merged index is at hand. */
    method ReadFirst(g: GroupIndex, k: string, decode: Decoder) returns (r: Result<Bytes>)
      requires Valid() && merged == Ok(g)
      modifies archives
      ensures FirstWithKey(g.items, k).None? ==> r == Err(MissingKey(k))
      ensures FirstWithKey(g.items, k).Some? ==>
                var item := g.items[FirstWithKey(g.items, k).value];
                && item.archiveId < |archives|
                && r == (var raw :- DataAt(old(archives[item.archiveId].Stream()), cdn.seekableData, item.size, item.offset);
                         decode(raw, k, false))
                && archives[item.archiveId].data == Kept(old(archives[item.archiveId].Stream()))
                && forall a :: a in archives && a != archives[item.archiveId] ==> a.data == old(a.data)
      ensures FirstWithKey(g.items, k).None? ==> forall a :: a in archives ==> a.data == old(a.data)
      ensures forall a :: a in archives && old(a.data).Some? ==> a.data == old(a.data)
    {
      var found := FindFirst(g.items, k);
      if found.None? {
        return Err(MissingKey(k));
      }
      var item := g.items[found.value];
      assert item in g.items;
      r := archives[item.archiveId].GetFile(k, item.size, item.offset, false, decode);
    }

    /** `get_archive_by_key`: the key of the first archive whose index yields `k`,
        reading every index afresh and unverified. */
    method GetArchiveByKey(k: string) returns (r: Result<Option<string>>)
      ensures r == FindArchive(cdn, archiveKeys, k)
    {
      var i := 0;
      while i < |archiveKeys|
        invariant 0 <= i <= |archiveKeys|
        invariant forall j :: 0 <= j < i ==> Passes(cdn, archiveKeys[j], k)
      {
        var index := cdn.getIndex(archiveKeys[i], false);
        if index.Err? {
          FindArchiveAt(cdn, archiveKeys, i, k);
          return Err(index.error);
        }
        var entries, error := index.value.Items();
        var found := HoldsKey(entries, k);
        if found {
          FindArchiveAt(cdn, archiveKeys, i, k);
          return Ok(Some(archiveKeys[i]));
        }
        if error.Some? {
          FindArchiveAt(cdn, archiveKeys, i, k);
          return Err(error.value);
        }
        i := i + 1;
      }
      FindArchiveFrom(cdn, archiveKeys, i, k);
      assert archiveKeys[i..] == [];
      return Ok(None);
    }
  }
}

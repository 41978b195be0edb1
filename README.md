# keg: a verified model of the mirror core

keg keeps a local mirror of a content-addressed CDN. Every item is named by a hex key.
Its logical path is the category prefix followed by the key partitioned as `ab/cd/<key>`.
This project models the core of that mirror in Dafny and proves what it promises:

- **Path derivation** (`Utils`, `Cdn`, `Local`, `Remote`, `UrlParse`). `partition_hash`,
  the six logical-path builders, and where the local mirror places a logical path under
  its roots. It also covers how `RemoteCDN._join_path` places it under a URL prefix.
  `urllib.parse.urljoin` is modelled for plain paths.
- **Verification policy** (`Cdn`, `Fetching.VerifyRule`, `ArchiveIndexes.ParseFooter`).
  Config, config-item and patch payloads are hashed whole when verifying. A patch index
  has only its last 28 bytes hashed. A data index is fetched unverified and only its
  footer is checked, when it is opened. Each fetch directive kind has its own rule on
  the staged file.
- **Staged writes** (`Io`, `Local`, `Utils.AtomicWrite`). The file system is a map from
  paths to contents plus a set of directories. `HTTPCacheWrapper`, `write_temp_file`,
  `upgrade_temp_file`, `write_encrypted_file` and `atomic_write` are methods on a
  `FileSystem` object. Each ties its result and the disk it leaves to a function of
  the old disk: which files change (the target holds exactly the streamed bytes, the
  staging file is gone, nothing else changes) and which directories may appear.
- **Fetch scheduling** (`Fetching`, `FetchQueues`). `FetchDirective.fetch` for every
  directive kind. `FetchQueue` is a class over a set of keys; its `drain` visits them in
  sorted order, yields the missing ones and removes each key it consumes.
- **Archive indices and groups** (`ArchiveFormat`, `ArchiveIndexes`, `GroupIndexes`,
  `Archives`). The 28-byte footer `<8s8BI8s` and the 24-byte entries `>16sII` are
  modelled with round-trip proofs. The `items` walk with its block skips is a loop
  proved equal to a recursive reference and to a closed form (entry i at slot
  `i % per` of block `i / per`). `ArchiveGroupIndex` sorts all tagged entries.
  `ArchiveGroup` caches that merged index, and its lookups are `has_file`,
  `get_file_by_key` and `get_archive_by_key`. `Archive.get_file_data` opens the
  data stream lazily.

Hashing (MD5), the BLTE decoder, decryption and the random staging name are parameters.
The model never looks inside them.

Some behaviour of the code:

- `_join_path` appends a `/` to the prefix and strips every leading `/` from the
  relative path. So `/foo/bar` joined with `baz` or with `/baz` gives `/foo/bar/baz`;
  a bare `urljoin` would give `/foo/baz` and `/baz` (`Remote.JoinPathBareBase`,
  `Remote.JoinPathAnchoredPath`).
- The encrypted object store is addressed by the logical path with its leading
  separators stripped (`get_encrypted_path`), not by a partition of it.
- `partition_hash` checks only that the key has at least 4 characters, not that it is
  hex. So a data key ending in `.index` lands on another key's index path
  (`Cdn.DataKeyCanShadowIndex`).

More behaviour of the code:

- `Archive.get_file_data` seeks the data stream. `LocalCDN` serves a file opened `rb`,
  which seeks; `RemoteCDN` serves an HTTP body, which does not, so the read fails
  (`Archives.DataAtReadsSlice`).
- A patch index shorter than 28 bytes passes `fetch_patch_index` but fails the
  directive's seek (`Fetching.ShortIndexOnlyRefusedByDirective`).
- A footer that records 0 KiB blocks makes `items` yield the first entry over and
  over (`ArchiveIndexes.EmptyBlocksRepeatFirstRecord`).
- `get_archive_by_key` reads the indices unverified and may name a different archive
  from the one `get_file_by_key` reads. The former takes the first archive in key
  order (`Archives.FindArchiveAgreesWithMerge`). The latter takes the least merged
  tuple: smallest size first (`GroupIndexes.FirstWithKeyIsLeast`).

## Model

| member | source | states |
|---|---|---|
| Utils.PartitionHash | keg/utils.py:44-47 | fails with ValueError exactly when the key is shorter than 4; otherwise the result is the key behind `ab/cd/`, whose two directory names repeat the key's first four characters |
| Utils.UnpartitionAfterPartition | keg/utils.py:44-47 | a partitioned path gives back its key: the partitioning loses nothing |
| Utils.PartitionAfterUnpartition | keg/utils.py:44-47 | every path of the `ab/cd/<key>` shape is the partition of its key |
| Utils.PartitionHashInjective | keg/utils.py:44-47 | distinct keys never share a partitioned path |
| Utils.VerifyData | keg/utils.py:50-56 | succeeds (with True) exactly when verification is off or the digest equals the key; the failure names the object, the digest and the key |
| Utils.TakeUntilNulIsCString | keg/utils.py:59-68 | the C string read is a NUL-free prefix of the stream that stops at the first NUL or at the end |
| Utils.ReadCstr | keg/utils.py:59-68 | returns the bytes before the first NUL and consumes them plus the NUL, when there is one |
| Utils.TqdmReadable.Read | keg/utils.py:23-27 | returns what the wrapped stream returns, advances it by that much and adds its length to the bar's counter |
| Utils.TempName | keg/utils.py:31 | the staging name never equals the final path |
| Utils.AtomicWrite | keg/utils.py:30-35 | returns the length written; afterwards the path holds exactly the content, the staging name is gone and nothing else changed |
| Io.Take | keg/utils.py:24 | a read returns a prefix of the unread bytes: all of them for -1 (callers pass only -1 or a non-negative size; any other negative size is read like -1, as a `BytesIO` does), at most `size` otherwise |
| Io.Reader.Read | keg/utils.py:24 | returns that prefix and advances the stream past exactly it |
| Io.Disk.Open | keg/cdn.py:163 | opening succeeds exactly for a regular file and yields its content; a directory or a missing path gives its own error |
| Io.Disk.Renamed | keg/cdn.py:246 | the destination holds the source's content, the source is gone unless it is the destination, and every other file is unchanged |
| Io.FileSystem.Rename | keg/cdn.py:246 | returns success exactly when the source file exists, and the disk is then the renamed one; on failure it returns FileNotFound for the source and nothing changes |
| Io.FileSystem.MakeDirs | keg/cdn.py:243-245 | succeeds exactly when the directory exists or has a name; then the directory exists and no file changed; `makedirs("")` fails and changes nothing |
| Io.Disk.EnsuredDir | keg/cdn.py:243-245 | no file changes, the directory exists afterwards, it is the only directory that may be added, and an existing one changes nothing |
| Io.Disk.MovedInto | keg/cdn.py:238-246 | making the target's directory then renaming succeeds exactly when that directory can be made and the source file exists; the target then holds the source's content and the source is gone; a failure is FileNotFound with no file changed; the directories are the old ones with the target's ensured |
| Io.Disk.StagedMove | keg/cdn.py:251-260 | staging then moving into a path that has a directory succeeds exactly when the staging directory can be made; on failure nothing changes; on success the target holds the content and the staging file is gone; the only directories that may appear are the staging and target directories |
| Io.DirnameOfNested | keg/cdn.py:243 | a path with a `/` has a non-empty `dirname`, so making its directory never calls `makedirs("")` |
| Io.LStrip | keg/cdn.py:151 | the result is a suffix of the input, everything cut off is the stripped character, and the result does not start with it |
| Io.RStrip | keg/cdn.py:243 | the result is a prefix of the input, everything cut off is the stripped character, and the result does not end with it |
| Io.RFind | keg/cdn.py:243 | the last index holding the character, or -1 when none does |
| Io.JoinStrippedUnder | keg/cdn.py:150-151 | a path stripped of leading separators always lands under the directory it is joined to, and two such joins agree only when the stripped paths do |
| Cdn.UnderPrefix | keg/cdn.py:20-41 | every logical-path builder fails exactly on keys shorter than 4, with ValueError |
| Cdn.LogicalPathLayout | keg/cdn.py:20-41 | each category's path is its prefix, then `ab/cd/<key>`, then `.index` for the two index categories |
| Cdn.LogicalPathsRejectShortKeys | keg/cdn.py:20-41 | all six builders refuse a short key with the same ValueError |
| Cdn.UnderPrefixInjective | keg/cdn.py:20-41 | within one category, distinct keys have distinct paths |
| Cdn.CategoriesDisjoint | keg/cdn.py:20-37 | config, data and patch paths never coincide, whichever keys |
| Cdn.DataKeyCanShadowIndex | keg/cdn.py:24-29 | a data key ending in `.index` has the same path as the index of the shorter key |
| Cdn.ReadVerified | keg/cdn.py:51-77 | a fetch fails with the backend's error, or succeeds with the whole payload exactly when verification is off or the digest of the checked bytes is the key, else fails with an integrity error |
| Cdn.FetchConfig | keg/cdn.py:51-55 | the payload at the config path; with verify, only a payload whose digest is the key, else an integrity error for "config file"; without verify, never an integrity error |
| Cdn.FetchConfigData | keg/cdn.py:57-61 | the same rule for the config item, read from the config tree and named "config item" |
| Cdn.FetchIndex | keg/cdn.py:63-65 | a long enough key returns exactly what the backend serves at the data index path, with no check at all; a short key fails with ValueError |
| Cdn.FetchPatch | keg/cdn.py:67-71 | the same rule as fetch_config for the patch path, named "patch file" |
| Cdn.FetchPatchIndex | keg/cdn.py:73-77 | the whole payload is returned but only its last 28 bytes are hashed when verifying |
| Cdn.DownloadData | keg/cdn.py:97-98 | a long enough key returns exactly what the backend serves at the data path, never hashed; a short key fails with ValueError |
| Cdn.UnverifiedFetchesPassThrough | keg/cdn.py:51-77 | with verify off, each of `fetch_config`, `fetch_config_data`, `fetch_patch`, `fetch_patch_index` and `fetch_index`, and `download_data` too, returns exactly what the backend served at its path (or the backend's or the path's error) |
| Cdn.FetchIndexIgnoresVerification | keg/cdn.py:63-65 | fetch_index depends on neither the digest nor the verify flag |
| Cdn.VerifiedFetchRejectsTampering | keg/cdn.py:51-55 | when the digest separates payloads, a verified fetch of a payload other than the genuine one fails with an integrity error |
| Cdn.PatchIndexIgnoresBodyCorruption | keg/cdn.py:73-77 | two patch-index payloads with the same last 28 bytes pass or fail verification together |
| Cdn.PatchIndexDetectsFooterCorruption | keg/cdn.py:73-77 | a payload whose last 28 bytes differ from a passing one fails with an integrity error |
| Local.Staged | keg/cdn.py:226-234 | a staged copy holds the whole rest of the stream, except that a buffer size of 0 copies nothing |
| Local.LocalCdn.FragmentPath | keg/cdn.py:159-160 | fails exactly on keys shorter than 4; otherwise the partitioned key under the fragments directory |
| Local.LocalCdn.LocalPathsStayUnderTheirRoots | keg/cdn.py:150-157 | the full, encrypted and config paths are their root's directory prefix followed by the stripped logical path, and two logical paths share a file exactly when they agree after stripping |
| Local.LocalCdn.GetItem | keg/cdn.py:162-163 | succeeds exactly when a regular file is at the full path, with its content |
| Local.LocalCdn.GetConfigItem | keg/cdn.py:165-166 | succeeds exactly when a regular file is at the config path, with its content |
| Local.LocalCdn.GetFragment | keg/cdn.py:168-169 | a short key fails with ValueError; otherwise succeeds exactly when the fragment file exists, with its content |
| Local.LocalCdn.Has | keg/cdn.py:171-187 | a short key raises before any lookup; otherwise the answer is whether anything exists at the full path |
| Local.LocalCdn.HasConfigItem | keg/cdn.py:189-190 | fails exactly on short keys; otherwise whether the item exists under the config tree |
| Local.LocalCdn.HasFragment | keg/cdn.py:192-193 | fails exactly on short keys; otherwise whether the fragment exists |
| Local.LocalCdn.HasAgreesWithGetItem | keg/cdn.py:162-172 | an item that does not exist fails to read with FileNotFound, and an item that reads exists |
| Local.LocalCdn.MirroredConfigVerifies | keg/cdn.py:51-55 | a config file mirrored with the bytes its key names passes a verified fetch from the mirror, which returns those bytes |
| Local.LocalCdn.MissingDataNotServed | keg/cdn.py:97-98 | a data item the mirror does not have cannot be downloaded from it |
| Local.LocalCdn.GetDecryptionKey | keg/cdn.py:205-215 | fails with ArmadilloKeyNotFound exactly when nothing is at `<armadillo>/<name>.ak`; succeeds exactly when a file is there, with its bytes |
| Local.LocalCdn.WriteTempFile | keg/cdn.py:217-236 | fails, changing nothing and reading nothing, exactly when the staging directory is missing and unnamed; otherwise returns the staging path, the disk is the old one with the staging directory ensured and the staging file holding the streamed bytes, and the stream has advanced past exactly those bytes (not at all for a buffer size of 0) |
| Local.LocalCdn.UpgradeTempFile | keg/cdn.py:238-246 | result and disk are those of `Io.Disk.MovedInto` from the staging path to the full path: success exactly when the staged file exists and the target's directory can be made; the target then holds the staged content and the staging file is gone |
| Local.LocalCdn.WrittenEncrypted | keg/cdn.py:251-260 | `write_encrypted_file` fails, changing nothing, exactly when the staging directory is missing and unnamed; otherwise the encrypted path holds the content, the staging file is gone, no other file changed, and only the staging and target directories may appear |
| Local.LocalCdn.EncryptedPathHasDirectory | keg/cdn.py:153-154 | every encrypted path has a non-empty directory, so the rename's `makedirs` never fails |
| Local.LocalCdn.ConfigPathHasDirectory | keg/cdn.py:156-157 | every config path has a non-empty directory |
| Local.LocalCdn.NestedPathHasDirectory | keg/cdn.py:150-151 | the full path of a logical path with a nested separator has a non-empty directory |
| Local.LocalCdn.WriteEncryptedFile | keg/cdn.py:251-260 | result and disk are those of `Local.LocalCdn.WrittenEncrypted` over the streamed bytes, and the result of the final rename is the method's result; the stream advances past exactly the staged bytes, or not at all when staging fails |
| Local.LocalCdn.SaveItem | keg/cdn.py:195-198 | fails exactly when the target's directory is empty and missing, and then changes nothing, the stream included; otherwise the full path holds the rest of the stream, the `.keg_temp` file is gone, no other file changed, the only directory that may appear is the target's, and the stream is drained and closed |
| Local.LocalCdn.SaveConfigItem | keg/cdn.py:200-203 | always succeeds, because the config path has a directory; the config path holds the rest of the stream, the `.keg_temp` file is gone, no other file changed, the only directory that may appear is the target's, and the stream is drained and closed |
| Local.CopyInto | keg/cdn.py:225-234 | the staging file holds exactly the streamed bytes, copied in one read or in chunks, and the stream has advanced past exactly them |
| Local.CopyChunks | keg/cdn.py:229-234 | the chunk loop appends the rest of the stream to the file and leaves the stream empty; a buffer size of 0 appends nothing and leaves the stream where it was |
| Local.SaveThrough | keg/cdn.py:195-203 | fails exactly when the cache path's directory is empty and missing, and then changes nothing, the stream included; otherwise the cache path holds the rest of the stream, the `.keg_temp` file is gone, no other file changed, the only directory that may appear is the cache path's, and the stream is drained and closed (keg/cdn.py:283-293) |
| Local.MoveInto | keg/cdn.py:238-246 | result and disk are exactly `Io.Disk.MovedInto`'s, the rename's result included |
| Local.HttpCacheWrapper.constructor | keg/cdn.py:264-273 | makes the directory when missing and opens an empty `.keg_temp` file next to the path |
| Local.HttpCacheWrapper.Read | keg/cdn.py:295-302 | passes the read through and appends exactly what it returned to the staging file |
| Local.HttpCacheWrapper.Close | keg/cdn.py:282-293 | drains the stream; the real path then holds every byte that followed the wrapper's creation, the staging file is gone and the stream is closed |
| Remote.JoinPathAppendsUnderBase | keg/cdn.py:108-115 | `Remote.JoinPath` (`_join_path`): for any plain base with any number of trailing separators and any plain relative path with any number of leading separators, the joined URL path is the base without its trailing separators, one `/`, then the path |
| Remote.SegmentsUnderBase | keg/cdn.py:115 | because the base is given a trailing `/`, its last segment is never dropped: the segments resolved are the base's followed by the path's |
| Remote.JoinPathBareBase | keg/cdn.py:111-112 | a base without a trailing `/` keeps its last segment: `/a/b` joined with `c` is `/a/b/c` |
| Remote.JoinPathTrailingSeparator | keg/cdn.py:112 | `/a/b/` joined with `c` is `/a/b/c` |
| Remote.JoinPathDoubledSeparator | keg/cdn.py:113 | `/a/b//` joined with `c` is `/a/b/c` |
| Remote.JoinPathAnchoredPath | keg/cdn.py:108-115 | a path with a leading `/` still lands under the base, because the separator is stripped before joining |
| Remote.RemoteCdn.UrlPathsUnderPrefixes | keg/cdn.py:123-137 | `get_item` requests a plain logical path under the content prefix and `get_config_item` under the config prefix: each is the prefix without trailing separators, one `/`, then the path without leading separators |
| Fetching.GetFullPath | keg/core/fetcher.py:86-143 | each directive kind's logical path fails exactly on short keys; the base class (which product configs inherit) raises NotImplementedError |
| Fetching.KeyExistsLooksAtTarget | keg/core/fetcher.py:22-77 | `Fetching.KeyExists` (`key_exists`) looks exactly at the full path of the kind's logical path (for product configs, at the config tree), which is where its fetch puts the item |
| Fetching.KeyExists | keg/core/fetcher.py:22-27 | the existence check fails with ValueError exactly on keys shorter than 4, for every kind |
| Fetching.VerifyRule | keg/core/fetcher.py:89-145 | config, patch-entry and signature items pass exactly when the whole content hashes to the key; index items exactly when they hold at least 28 bytes and the last 28 hash to the key (a shorter one fails the seek); archives exactly when their index exists; loose files exactly when the BLTE check passes; the base class raises |
| Fetching.ShortIndexOnlyRefusedByDirective | keg/core/fetcher.py:137-140 | a patch index shorter than 28 bytes whose bytes hash to the key passes `fetch_patch_index`'s check but fails the directive's seek |
| Fetching.Fetcher.constructor | keg/core/fetcher.py:246-247 | a fetcher starts with no decryption key name and no key |
| Fetching.FetchItem | keg/core/fetcher.py:37-62 | a failed existence check or a present item returns that answer and changes nothing; a failed download returns its error and changes nothing; with a key name but no key the item goes to the encrypted store as `Local.LocalCdn.WrittenEncrypted` says, unless one is already there; otherwise result and disk are `Fetching.Promoted`'s, and it succeeds exactly when the staging directory can be made and, when the fetcher verifies, the rule passes |
| Fetching.StoreEncrypted | keg/core/fetcher.py:48-56 | succeeds and changes nothing when `Local.LocalCdn.HasEncryptedFile` (`has_encrypted_file`, keg/cdn.py:248-249: anything exists at the encrypted path) holds; otherwise result and disk are `Local.LocalCdn.WrittenEncrypted`'s for the served bytes |
| Fetching.StageVerifyPromote | keg/core/fetcher.py:58-62 | result and disk are exactly `Fetching.Promoted`'s |
| Fetching.Promoted | keg/core/fetcher.py:58-62 | staging, verifying when asked and promoting succeeds exactly when the staging directory can be made, the rule passes (when verifying) and the target's directory can be made; an unmakeable staging directory changes nothing; a failed rule returns its error and leaves only the staged file; on success the full path holds the payload and the staging file is gone; a failure changes no file but the staging file; only the staging and target directories may appear |
| Fetching.DirectivePathHasDirectory | keg/core/fetcher.py:86-143 | every directive kind's full path has a non-empty directory, so promoting never calls `makedirs("")` |
| Fetching.FetchProductConfig | keg/core/fetcher.py:79-83 | a short key fails and changes nothing; a present item succeeds and changes nothing; a failed download returns its error and changes nothing; a served item always succeeds, and then the config path holds exactly it, the `.keg_temp` file is gone and the only directory that may appear is the target's |
| Fetching.Fetch | keg/core/fetcher.py:37-83 | for every kind, a failed existence check returns its error and changes nothing, and an item that is already present succeeds and changes nothing; each branch's full contract is on `Fetching.FetchItem` and `Fetching.FetchProductConfig` |
| FetchQueues.DrainWalk | keg/core/fetcher.py:178-182 | a drain never consumes more keys than the queue holds |
| FetchQueues.DrainWalkStops | keg/core/fetcher.py:178-182 | a drain consumes every key exactly when no check fails; otherwise it stops at the key whose check raised, with that error |
| FetchQueues.DrainWalkYieldsMissing | keg/core/fetcher.py:179-180 | a drain yields exactly the consumed keys whose check says they are missing |
| FetchQueues.DrainWalkKeepsOrder | keg/core/fetcher.py:178 | over ascending keys, the yielded keys are ascending too |
| FetchQueues.DrainYieldsMissingSorted | keg/core/fetcher.py:172-182 | a drain that runs to its end yields every queued key missing locally and nothing else, once each, in ascending order |
| FetchQueues.FetchQueue.constructor | keg/core/fetcher.py:154-157 | a new queue is empty with nothing drained |
| FetchQueues.FetchQueue.Len | keg/core/fetcher.py:159-160 | the number of queued keys, 0 exactly when the queue is empty |
| FetchQueues.FetchQueue.Add | keg/core/fetcher.py:162-164 | an empty key is ignored; any other key joins the set, and the length grows by one only when the key was new |
| FetchQueues.FetchQueue.Exists | keg/core/fetcher.py:166-170 | asks the existence check of the queue's directive kind |
| FetchQueues.FetchQueue.Drain | keg/core/fetcher.py:172-182 | yields one directive of the queue's kind per key of the drain walk over the sorted queue, counts them in `drained`, stops with the first check's error, and leaves queued exactly the keys not yet consumed (none when no check failed) |
| FetchQueues.Directives | keg/core/fetcher.py:180 | one directive per key, of the queue's kind, in order |
| FetchQueues.SortedSeqNoDups | keg/core/fetcher.py:178 | `sorted` of a set lists no key twice |
| FetchQueues.SortedKeys | keg/core/fetcher.py:178 | computes `sorted` of the queue |
| FetchQueues.First | keg/core/fetcher.py:178 | the key taken first is the least key of the set |
| StringOrder.LessEqTotal | keg/core/fetcher.py:178 | any two keys are ordered one way or the other, so `sorted` is well defined |
| StringOrder.LessEqAntisymmetric | keg/core/fetcher.py:178 | two keys ordered both ways are equal |
| StringOrder.LessEqTransitive | keg/core/fetcher.py:178 | the order on keys is transitive |
| StringOrder.LeastExists | keg/core/fetcher.py:178 | every non-empty queue has a first key |
| StringOrder.LeastUnique | keg/core/fetcher.py:178 | ... and only one |
| StringOrder.SortedSeqIsSorted | keg/core/fetcher.py:178 | `sorted` of the queue lists each of its keys exactly once, in strictly ascending order |
| GroupIndexes.ItemLessEqTotal | keg/archive.py:96-100 | any two merged tuples are ordered one way or the other |
| GroupIndexes.ItemLessEqAntisymmetric | keg/archive.py:96-100 | two tuples ordered both ways are equal |
| GroupIndexes.ItemLessEqTransitive | keg/archive.py:96-100 | the order on the tuples is transitive |
| GroupIndexes.Insert | keg/archive.py:96 | inserting keeps every item and adds one, and keeps a sorted sequence sorted |
| GroupIndexes.Sort | keg/archive.py:96 | `sorted`: the result is in ascending tuple order and is a permutation of the input |
| GroupIndexes.SortedUnique | keg/archive.py:96 | two sorted permutations of the same items are equal |
| GroupIndexes.SortIsSorted | keg/archive.py:96 | any sorted permutation of the items is exactly what `sorted` returns |
| GroupIndexes.Tagged | keg/archive.py:97-99 | one tagged item per entry of an index, each carrying that index's position |
| GroupIndexes.FlattenHas | keg/archive.py:97-99 | every entry of every index occurs in the generated tuples, tagged with its index's position |
| GroupIndexes.FlattenSource | keg/archive.py:97-99 | each generated tuple is an entry of some index, tagged with that index's position |
| GroupIndexes.MergeIndices | keg/archive.py:85-102 | the merged items are in ascending tuple order and are a permutation of the tagged entries of all indices |
| GroupIndexes.MergedItems | keg/archive.py:96-100 | a tuple is among the merged items exactly when some index yields that entry at that position |
| GroupIndexes.MergedHas | keg/archive.py:96-100 | every entry of every index is among the merged items |
| GroupIndexes.MergedKeys | keg/archive.py:102-144 | a key is in `item_keys` (so `has_file` holds) exactly when some index yields an entry with that key |
| GroupIndexes.MergedArchiveIds | keg/archive.py:97-98 | every merged item names an archive position of the group |
| GroupIndexes.FirstWithKey | keg/archive.py:150-153 | the position of the first item with the key, with no earlier item having it; none when no item has it |
| GroupIndexes.FirstWithKeyIsLeast | keg/archive.py:96-152 | in the sorted merge the copy found first is the least of the copies with that key: smallest size, then archive position, then offset |
| ArchiveFormat.Hexlify | keg/archive.py:81 | two lower-case hex digits per key byte |
| ArchiveFormat.UnhexlifyHexlify | keg/archive.py:81 | the hex rendering of a key loses nothing |
| ArchiveFormat.HexlifyUnhexlify | keg/archive.py:81 | every even-length lower-case hex string is the rendering of some bytes |
| ArchiveFormat.HexlifyInjective | keg/archive.py:81 | distinct key bytes render as distinct key strings |
| ArchiveFormat.LeRoundTrip | keg/archive.py:61 | the little-endian `I` field is a bijection between 4 bytes and the integers below 2^32 |
| ArchiveFormat.BeRoundTrip | keg/archive.py:80 | the big-endian `I` field is a bijection between 4 bytes and the integers below 2^32 |
| ArchiveFormat.UnpackFooter | keg/archive.py:49-61 | unpacking `<8s8BI8s` succeeds exactly on 28 bytes, otherwise fails with a struct error |
| ArchiveFormat.FooterRoundTrip | keg/archive.py:49-61 | packing then unpacking a footer gives it back, and every 28-byte footer is the packing of what it unpacks to |
| ArchiveFormat.KeyNamesEntry | keg/archive.py:80-81 | two entries yielded under the same key string have the same key bytes |
| ArchiveFormat.UnpackEntry | keg/archive.py:80 | unpacking `>16sII` succeeds exactly on 24 bytes, otherwise fails with a struct error |
| ArchiveFormat.EntryRoundTrip | keg/archive.py:80 | packing then unpacking an entry gives it back, and every 24-byte record is the packing of what it unpacks to |
| ArchiveFormat.ReadStart | keg/archive.py:73-75 | an entry that fits in what is left of the block is read where the stream stands; otherwise after a skip over the rest of the block |
| ArchiveFormat.Starts | keg/archive.py:72-77 | one read offset per item |
| ArchiveFormat.RecordsAt | keg/archive.py:79-80 | the records read from given offsets, stopping with a struct error at the first one that is not 24 bytes |
| ArchiveFormat.RecordsAtSlices | keg/archive.py:79 | record i is the 24 bytes of the data at offset i |
| ArchiveFormat.RecordsAtComplete | keg/archive.py:79-80 | the reads stop early exactly when the entry size is not 24 or an entry runs past the end of the data |
| ArchiveFormat.ReadAt | keg/archive.py:79 | a read returns at most the bytes asked for, and exactly those when the data holds them |
| ArchiveFormat.Walk | keg/archive.py:67-82 | the items walk yields at most `num_items` records; it completes exactly when it yields all of them, stops only with a struct error, and fails at once when the entry size is below 24 |
| ArchiveFormat.WalkYieldsFullRecords | keg/archive.py:79-80 | every record the walk yields is a full 24-byte read |
| ArchiveFormat.WalkReadsStarts | keg/archive.py:70-80 | with 24-byte entries the walk reads entry i at the i-th offset and stops at the first entry cut short by the end of the data |
| ArchiveFormat.SlotInsideBlock | keg/archive.py:73-77 | with blocks of at least 24 bytes no entry crosses a block boundary |
| ArchiveFormat.StepFromState | keg/archive.py:73-79 | from the state before entry i the next read is at its slot and leaves the state before entry i + 1 |
| ArchiveFormat.StartsAreSlots | keg/archive.py:70-79 | from the state before entry i, every later entry j is read at slot i + j |
| ArchiveFormat.WalkFromStartUsesSlots | keg/archive.py:68-79 | from the start of the data, entry j is read at slot `j % per` of block `j / per`, where per is the number of 24-byte entries a block holds |
| ArchiveIndexes.ParseFooter | keg/archive.py:44-61 | opening succeeds exactly when the payload holds a full footer and, when verifying, the last 28 bytes hash to the key; the footer decoded is exactly those last 28 bytes; a digest mismatch is an integrity error for "archive index" and a short payload that passes is a struct error |
| ArchiveIndexes.FooterOnlyIsVerified | keg/archive.py:44-47 | two payloads with the same last 28 bytes open alike, whatever entries precede the footer |
| ArchiveIndexes.ArchiveIndex.Items | keg/archive.py:66-82 | yields the entries of the items walk, at most `num_items` of them, all of them exactly when no read failed |
| ArchiveIndexes.UnpackedEntries | keg/archive.py:80 | entry i is what `>16sII` unpacks record i to |
| ArchiveIndexes.ReadRecords | keg/archive.py:68-80 | the loop's reads are exactly the records of the items walk from offset 0 with a whole block left, with the same stopping error |
| ArchiveIndexes.SkipToEntry | keg/archive.py:73-77 | the seek before a read moves to the read start of the walk and leaves the room the walk has after the read |
| ArchiveIndexes.ReadStep | keg/archive.py:72-80 | one pass of the loop either ends the walk with a struct error or adds the chunk read and moves on |
| ArchiveIndexes.WalkFromStart | keg/archive.py:68-80 | the walk with records carried along, starting from nothing, is the items walk |
| ArchiveIndexes.OpenIndex | keg/archive.py:39-61 | an index opens exactly when its footer parses, and keeps the payload and that footer |
| ArchiveIndexes.GetIndex | keg/cdn.py:94-95 | the index payload is fetched without verification and opened with the caller's flag, so only its footer is ever checked |
| ArchiveIndexes.StandardItems | keg/archive.py:67-82 | with 24-byte entries and blocks of at least 24 bytes, entry i is the one packed at slot `i % per` of block `i / per`, and the walk yields all items exactly when every slot lies inside the payload |
| ArchiveIndexes.EmptyBlocksRepeatFirstRecord | keg/archive.py:70-77 | a footer recording 0 KiB blocks makes every seek return to the start, so the walk yields the first record `num_items` times |
| Archives.ReadRange | keg/archive.py:29-31 | succeeds exactly when the offset is not negative and the size is at least -1; a negative offset fails the seek, a size below -1 fails the read with ValueError even past the end; otherwise the bytes from the offset on: all that remain for -1, at most `size` otherwise |
| Archives.ReadRangeInside | keg/archive.py:29-31 | a read the data covers returns exactly the bytes at `offset..offset+size` |
| Archives.Archive.constructor | keg/archive.py:12-15 | a new archive has its key and CDN and no open data stream |
| Archives.Archive.GetFileData | keg/archive.py:24-31 | the result is `Archives.DataAt` of the stream already open, or else the one downloaded now: a failed download gives its error, an unseekable stream Unseekable, otherwise `Archives.ReadRange`, so a size below -1 is a ValueError; the archive then keeps that stream's content, or nothing when the download failed, and a kept stream is never replaced |
| Archives.Archive.GetFile | keg/archive.py:33-36 | the same read and the same kept stream, then the BLTE decode of the raw bytes under the file key |
| Archives.DataAtReadsSlice | keg/archive.py:24-31 | `Archives.DataAt`, the seek then read of `get_file_data`: on a stream that cannot seek every read fails with Unseekable; on one that can, a covered range reads exactly the slice of the data |
| Archives.Kept | keg/archive.py:28-29 | an archive keeps a stream exactly when the download succeeded, with its content |
| Archives.Collected | keg/archive.py:94-135 | a collection that succeeds holds one entry list per archive key |
| Archives.CollectedOk | keg/archive.py:94-135 | the collection succeeds exactly when every index loads and its walk completes |
| Archives.CollectedEntries | keg/archive.py:94-135 | a collection that succeeds holds, in order, exactly the entries each index's walk yields |
| Archives.CollectedStops | keg/archive.py:94-135 | the collection fails with the error of the first archive whose index does not load or whose walk stops |
| Archives.CollectedEach | keg/archive.py:94-135 | when every index loads, the collection is exactly the entries of each, in order |
| Archives.CollectIndices | keg/archive.py:94-135 | the loop returns exactly the collection: every index's entries in key order, or the first failure |
| Archives.MergedNamesArchives | keg/archive.py:96-147 | when every index loads, every item of the merged index names an archive of the group |
| Archives.Merged | keg/archive.py:137-141 | the merged index builds exactly when every archive's index loads and walks to the end |
| Archives.FindArchive | keg/archive.py:155-160 | an archive named by the search is one of the group's keys |
| Archives.FindArchiveFrom | keg/archive.py:156-159 | archives that load, walk to the end and lack the key do not change the search's answer |
| Archives.FindArchiveAt | keg/archive.py:156-159 | the search stops at the first archive it does not pass: with its index error, with its key when its walk reaches the key, or with its walk error otherwise |
| Archives.HoldsKey | keg/archive.py:157-159 | the inner loop finds the key exactly when some entry of the index has it |
| Archives.BaseCdnVerifyOnlyGates | keg/cdn.py:94-95 | for the CDN backends, seekable or not, the verify flag only decides whether an index opens; an index that opens verified opens unverified with the same entries |
| Archives.FirstHolding | keg/archive.py:156-159 | the position of the first index holding the key, with no earlier one holding it; none when no index holds it |
| Archives.CollectedHead | keg/archive.py:96-99 | a successful collection is the first index's entries followed by the collection of the rest |
| Archives.FindArchiveAgreesWithMerge | keg/archive.py:143-160 | when the merged index builds, `get_archive_by_key` answers without error: the first archive in key order whose index yields the key, or None exactly when no index does |
| Archives.FindFirst | keg/archive.py:150-153 | the loop finds the first merged item with the key, or reports that none has it |
| Archives.OpenArchives | keg/archive.py:120-122 | one fresh, distinct, unopened archive per key, in order, on the group's CDN |
| Archives.ArchiveGroup.constructor | keg/archive.py:111-122 | a new group keeps its keys, key, CDN and flag, has one fresh unopened archive per key, and has not built its merged index |
| Archives.ArchiveGroup.MergedIndex | keg/archive.py:137-141 | returns what the group's indices build; built on first use and kept, and a failed build caches nothing |
| Archives.ArchiveGroup.HasFile | keg/archive.py:143-144 | whether the key is among the merged index's item keys, or the build's error; afterwards the merged index is cached exactly when the build succeeds, and a cached one is kept |
| Archives.ArchiveGroup.GetFileByKey | keg/archive.py:149-153 | a failed build gives its error; a key no merged item has is a KeyError and no archive changes; otherwise the file is the first merged item with the key (smallest size, then archive position, then offset), read from that archive's stream and decoded without verification; only that archive's kept stream may change, open streams stay open, and the merged index is cached exactly when the build succeeds |
| Archives.ArchiveGroup.ReadFirst | keg/archive.py:150-153 | with the merged index at hand: a missing key is a KeyError and no archive changes; otherwise the result is the first merged item's range read from its archive and decoded without verification, that archive keeps the stream it used, and every other archive is unchanged |
| Archives.ArchiveGroup.GetArchiveByKey | keg/archive.py:155-160 | the loop returns exactly what the search over the group's indices, fetched unverified, answers |
| Utils.TqdmReadable.Close | keg/utils.py:19-21 | leaving the wrapper closes both the wrapped stream and the bar |
| Common.Tail | keg/cdn.py:76 | `data[-28:]`: the last 28 elements, or everything when there are fewer |


## Left out

- HTTP transport (`get_response`, status codes, `requests`) is left out. A remote backend is a `Cdn.ContentSource` whose two reads may fail. The `RemoteCDN` progress-bar wrapping in `get_item` is not modelled; `TqdmReadable` itself is.
- `Remote.JoinPath`: only the plain-path case of `urljoin` is modelled, with no scheme, network location, parameters, query, fragment, whitespace or control character. Its `requires` keeps such paths out. A hex key gives a plain path; a key holding `?`, `#`, `:`, `;` or a space is outside the model, and `Remote.JoinPathAppendsUnderBase` covers only paths whose segments are not `.` or `..`.
- MD5 is a parameter `Digest`, because the hash function is not part of this code.
- `uuid4()` is left out: the staging name of `write_temp_file` is a parameter `tempId`.
- The BLTE decoder and `verify_blte_data` are parameters, because they belong to another module.
- The Armadillo key is represented only by its `decrypt_object`, a parameter. `get_decryption_key` returns the key file's bytes; parsing them is another module's job.
- The config parsers and `get_build_config`, `get_cdn_config`, `get_patch_config`, `get_product_config` and `get_archive` are left out, because they only compose a fetch with an external parser.
- The `cdn` object that archives and groups use is abstracted as `Archives.CdnClient`, with `get_index` and `download_data`. `Archives.BaseCdn` builds one from a content source.
- `ArchiveGroup.files` and `ArchiveGroup.get_file` are not separate members. Their read is `Archive.GetFile` as `get_file_by_key` uses it.
- `ArchiveGroup.indices` is folded into `Archives.CollectIndices`, which pulls each index and walks it in turn, as the merge's generator does.
- `FetchQueues.FetchQueue.Drain`: the generator is run to its end against one state of the mirror. It does not capture a consumer that fetches between yields, nor one that stops early.
- `Fetching.FetchItem`: the `verify` argument is accepted and ignored, as in the source; the fetcher's own flag decides.
- The `Drain` binding class and the `Fetcher` orchestration beyond the fields the directives read are left out.
- `Utils.ReadCstr` returns bytes. Their UTF-8 decode is left out.
- `Utils.AtomicWrite`, `Io.FileSystem.MakeDirs`: the disk records only the directories made, not their ancestors, and writing a file never checks for its parent directory. So `open(temp_path, "wb")` never fails for a missing directory, `makedirs` does not add the intermediate directories, and `os.path.exists` on those reads false.
- `ensure_dir_exists` is left out. The same check-then-make step is `Io.FileSystem.MakeDirs`, which the staged writes use.
- `Io.Disk`: a disk may list `""` among its directories, which makes `makedirs("")` succeed; `os.path.exists("")` is always false, so on a real disk it always raises. No validity condition excludes that disk.
- `Io.FileSystem.Rename`, `Io.FileSystem.WriteFile`: a rename onto an existing directory (keg/cdn.py:246, 260, 291) and `open(p, "wb")` onto a directory (keg/cdn.py:225, 273) succeed here, where the operating system raises.
- `__repr__`, `__del__` and the closing of file handles are left out; only the closing of wrapped streams is modelled. Operating-system atomicity and concurrent writers are left out too: a rename is one step of the model.
- `Archives.FindArchive`: its own contract only places the answer among the keys. The full characterisation is in `Archives.FindArchiveAt`, `Archives.FindArchiveFrom` and `Archives.FindArchiveAgreesWithMerge`.

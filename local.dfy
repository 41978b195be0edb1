/** keg/cdn.py, `LocalCDN` and `HTTPCacheWrapper`: the on-disk mirror. Logical paths are
    placed under the mirror's directories, reads come from the file system, and every
    write goes to a staging file first and is renamed into place only once complete. */
module Local {
  import opened Common
  import opened Io
  import opened Utils
  import Cdn

  /** What a staged write leaves in the staging file when the stream still holds `s`:
      everything, except that a buffer size of 0 reads nothing (`read(0)` is empty, which
      ends the copy loop at once). */
  function Staged(s: Bytes, bufSize: int): (r: Bytes)
    ensures bufSize != 0 ==> r == s
    ensures bufSize == 0 ==> r == []
  {
    if bufSize == 0 then [] else s
  }

  class LocalCdn {
    const baseDir: string
    const fragmentsDir: string
    const armadilloDir: string
    const tempDir: string
    const armadilloObjectsDir: string := PathJoin(armadilloDir, "objects")

    constructor (baseDir: string, fragmentsDir: string, armadilloDir: string, tempDir: string)
      ensures this.baseDir == baseDir && this.fragmentsDir == fragmentsDir
      ensures this.armadilloDir == armadilloDir && this.tempDir == tempDir
    {
      this.baseDir := baseDir;
      this.fragmentsDir := fragmentsDir;
      this.armadilloDir := armadilloDir;
      this.tempDir := tempDir;
    }

    // -------------------------------------------------------------------------------
    // Where things are (keg/cdn.py:150-160)

    /** `get_full_path`: the logical path, leading separators removed, under the base. */
    function FullPath(path: string): string {
      PathJoin(baseDir, LStrip(path, '/'))
    }

    /** `get_encrypted_path`: the same under the encrypted object store. */
    function EncryptedPath(path: string): string {
      PathJoin(armadilloObjectsDir, LStrip(path, '/'))
    }

    /** The root of the config tree, `<base>/configs/data`. */
    function ConfigRoot(): string {
      PathJoin(PathJoin(baseDir, "configs"), "data")
    }

    /** `get_config_path`: the same under the config tree. */
    function ConfigPath(path: string): string {
      PathJoin(ConfigRoot(), LStrip(path, '/'))
    }

    /** `get_fragment_path`: fragments are stored under their partitioned key. */
    function FragmentPath(key: string): (r: Result<string>)
      ensures r.Err? <==> |key| < 4
      ensures r.Ok? ==> r.value == PathJoin(fragmentsDir, Utils.PartitionHash(key).value)
    {
      var p :- PartitionHash(key);
      Ok(PathJoin(fragmentsDir, p))
    }

    /** Every logical path stays under its tree, whatever leading separators it has, and
        two logical paths share a file only when they agree once those are removed. */
    lemma LocalPathsStayUnderTheirRoots(p: string, q: string)
      ensures FullPath(p) == DirPrefix(baseDir) + LStrip(p, '/')
      ensures EncryptedPath(p) == DirPrefix(armadilloObjectsDir) + LStrip(p, '/')
      ensures ConfigPath(p) == DirPrefix(ConfigRoot()) + LStrip(p, '/')
      ensures FullPath(p) == FullPath(q) <==> LStrip(p, '/') == LStrip(q, '/')
      ensures EncryptedPath(p) == EncryptedPath(q) <==> LStrip(p, '/') == LStrip(q, '/')
      ensures ConfigPath(p) == ConfigPath(q) <==> LStrip(p, '/') == LStrip(q, '/')
    {
      JoinStrippedUnder(baseDir, p, q);
      JoinStrippedUnder(armadilloObjectsDir, p, q);
      JoinStrippedUnder(ConfigRoot(), p, q);
    }

    // -------------------------------------------------------------------------------
    // Reads (keg/cdn.py:162-193, 248-249)

    /** `get_item`: the content of the file at the full path. */
    function GetItem(disk: Disk, path: string): (r: Result<Bytes>)
      ensures r.Ok? <==> FullPath(path) in disk.files
      ensures r.Ok? ==> r.value == disk.files[FullPath(path)]
    {
      disk.Open(FullPath(path))
    }

    /** `get_config_item`: the content of the file under the config tree. */
    function GetConfigItem(disk: Disk, path: string): (r: Result<Bytes>)
      ensures r.Ok? <==> ConfigPath(path) in disk.files
      ensures r.Ok? ==> r.value == disk.files[ConfigPath(path)]
    {
      disk.Open(ConfigPath(path))
    }

    /** `get_fragment`: the content of the file at the fragment's partitioned path. */
    function GetFragment(disk: Disk, key: string): (r: Result<Bytes>)
      ensures r.Ok? <==> |key| >= 4 && FragmentPath(key).value in disk.files
      ensures r.Ok? ==> r.value == disk.files[FragmentPath(key).value]
      ensures |key| < 4 ==> r == Err(ValueError(key))
    {
      var p :- FragmentPath(key);
      disk.Open(p)
    }

    /** The mirror seen as a content source by the shared fetch policy. */
    function Source(disk: Disk): Cdn.ContentSource {
      Cdn.ContentSource(p => GetItem(disk, p), p => GetConfigItem(disk, p))
    }

    /** `exists`: anything (file or directory) at the full path. */
    predicate Exists(disk: Disk, path: string) {
      disk.Exists(FullPath(path))
    }

    /** `has_*`: whether the category's logical path exists; a key shorter than 4
        characters raises before anything is looked up. */
    function Has(disk: Disk, logical: Result<string>): (r: Result<bool>)
      ensures logical.Err? ==> r == Err(logical.error)
      ensures logical.Ok? ==> r == Ok(Exists(disk, logical.value))
    {
      var p :- logical;
      Ok(Exists(disk, p))
    }

    function HasConfig(disk: Disk, key: string): Result<bool> { Has(disk, Cdn.ConfigPath(key)) }
    function HasData(disk: Disk, key: string): Result<bool> { Has(disk, Cdn.DataPath(key)) }
    function HasIndex(disk: Disk, key: string): Result<bool> { Has(disk, Cdn.DataIndexPath(key)) }
    function HasPatch(disk: Disk, key: string): Result<bool> { Has(disk, Cdn.PatchPath(key)) }
    function HasPatchIndex(disk: Disk, key: string): Result<bool> { Has(disk, Cdn.PatchIndexPath(key)) }

    /** `has_config_item`: looks in the config tree, not under the base. */
    function HasConfigItem(disk: Disk, key: string): (r: Result<bool>)
      ensures r.Err? <==> |key| < 4
      ensures r.Ok? ==> (r.value <==> disk.Exists(ConfigPath(Cdn.ConfigItemPath(key).value)))
    {
      var p :- Cdn.ConfigItemPath(key);
      Ok(disk.Exists(ConfigPath(p)))
    }

    /** `has_fragment`. */
    function HasFragment(disk: Disk, key: string): (r: Result<bool>)
      ensures r.Err? <==> |key| < 4
      ensures r.Ok? ==> (r.value <==> disk.Exists(FragmentPath(key).value))
    {
      var p :- FragmentPath(key);
      Ok(disk.Exists(p))
    }

    /** `has_encrypted_file`. */
    predicate HasEncryptedFile(disk: Disk, path: string) {
      disk.Exists(EncryptedPath(path))
    }

    /** A `has_*` answer of "no" means the matching fetch fails with a missing file;
        a readable item means "yes". */
    lemma HasAgreesWithGetItem(disk: Disk, logical: string)
      ensures !Exists(disk, logical) ==> GetItem(disk, logical) == Err(FileNotFound(FullPath(logical)))
      ensures GetItem(disk, logical).Ok? ==> Exists(disk, logical)
    {
    }

    /** A config file mirrored with the bytes its key names passes a verified fetch from
        the mirror, and the fetch returns those bytes. */
    lemma MirroredConfigVerifies(disk: Disk, md5: Digest, key: string)
      requires |key| >= 4
      requires FullPath(Cdn.ConfigPath(key).value) in disk.files
      requires md5(disk.files[FullPath(Cdn.ConfigPath(key).value)]) == key
      ensures Cdn.FetchConfig(Source(disk), md5, key, true) == Ok(disk.files[FullPath(Cdn.ConfigPath(key).value)])
    {
    }

    /** A data item that is not mirrored cannot be downloaded from the mirror. */
    lemma MissingDataNotServed(disk: Disk, key: string)
      requires HasData(disk, key) == Ok(false)
      ensures Cdn.DownloadData(Source(disk), key) == Err(FileNotFound(FullPath(Cdn.DataPath(key).value)))
    {
    }

    /** `get_decryption_key`: the bytes of `<armadillo>/<name>.ak`; a missing key file is
        `ArmadilloKeyNotFound`. (Parsing the bytes into a key is not part of this model.) */
    function GetDecryptionKey(disk: Disk, keyName: string): (r: Result<Bytes>)
      ensures r.Err? && r.error == KeyNotFound(keyName) <==> !disk.Exists(PathJoin(armadilloDir, keyName + ".ak"))
      ensures r.Ok? <==> PathJoin(armadilloDir, keyName + ".ak") in disk.files
      ensures r.Ok? ==> r.value == disk.files[PathJoin(armadilloDir, keyName + ".ak")]
    {
      var keyPath := PathJoin(armadilloDir, keyName + ".ak");
      if !disk.Exists(keyPath) then Err(KeyNotFound(keyName))
      else disk.Open(keyPath)
    }

    // -------------------------------------------------------------------------------
    // Staged writes (keg/cdn.py:195-203, 217-260)

    /** The staging file `write_temp_file` uses for the identifier it draws. */
    function TempPath(tempId: string): string {
      PathJoin(tempDir, tempId)
    }

    /** The disk once `write_temp_file` has staged `content` under `tempId`. */
    function StagedDisk(disk: Disk, tempId: string, content: Bytes): Disk {
      disk.EnsuredDir(tempDir).Write(TempPath(tempId), content)
    }

    /** The encrypted store is never the top of a relative path, so creating the
        directory of anything stored in it cannot be `makedirs("")`. */
    lemma EncryptedPathHasDirectory(path: string)
      ensures Dirname(EncryptedPath(path)) != []
    {
      var root := armadilloObjectsDir;
      assert root != [];
      JoinStrippedUnder(root, path, path);
      DirnameOfNested(EncryptedPath(path), |DirPrefix(root)| - 1);
    }

    /** Nor is the config tree. */
    lemma ConfigPathHasDirectory(path: string)
      ensures Dirname(ConfigPath(path)) != []
    {
      var root := ConfigRoot();
      assert root != [];
      JoinStrippedUnder(root, path, path);
      DirnameOfNested(ConfigPath(path), |DirPrefix(root)| - 1);
    }

    /** A logical path `/<top>/...` (every config, data, index and patch path has this
        form) has a directory part under the base, whatever the base is. */
    lemma NestedPathHasDirectory(p: string, j: nat)
      requires 1 < j < |p| && p[0] == '/' && p[1] != '/' && p[j] == '/'
      ensures Dirname(FullPath(p)) != []
    {
      assert LStrip(p, '/') == p[1..];
      JoinStrippedUnder(baseDir, p, p);
      DirnameOfNested(FullPath(p), |DirPrefix(baseDir)| + j - 1);
    }

    /** `write_temp_file`: copies the rest of `fp` into a fresh file of the staging
        directory (in one read for a negative buffer size, in chunks otherwise) and
        returns its path. The random identifier is a parameter. */
    method WriteTempFile(fs: FileSystem, fp: Reader, bufSize: int, tempId: string) returns (r: Result<string>)
      requires fp.Valid()
      modifies fs, fp`pos
      ensures fp.Valid()
      ensures r.Err? <==> !old(fs.disk).CanEnsureDir(tempDir)
      ensures r.Err? ==> r.error == FileNotFound(tempDir) && fs.disk == old(fs.disk) && fp.pos == old(fp.pos)
      ensures r.Ok? ==> r.value == TempPath(tempId)
      ensures r.Ok? ==> fs.disk == StagedDisk(old(fs.disk), tempId, Staged(old(fp.Rest()), bufSize))
      ensures r.Ok? ==> fp.pos == old(fp.pos) + |Staged(old(fp.Rest()), bufSize)|
      ensures r.Ok? && bufSize != 0 ==> fp.Rest() == []
    {
      var temp := TempPath(tempId);
      var made := fs.MakeDirs(tempDir);
      if made.Err? {
        return Err(made.error);
      }
      CopyInto(fs, fp, temp, bufSize);
      r := Ok(temp);
    }

    /** `upgrade_temp_file`: moves a staged file onto the full path of `path`, creating
        its directory first. */
    method UpgradeTempFile(fs: FileSystem, tempPath: string, path: string) returns (r: Result<()>)
      modifies fs
      ensures Outcome(r, fs.disk) == old(fs.disk).MovedInto(tempPath, FullPath(path))
    {
      r := MoveInto(fs, tempPath, FullPath(path));
    }

    /** `write_encrypted_file` of `content` on `disk`: staged, then renamed into the
        encrypted object store. It fails only when the staging directory is empty and
        missing, and then changes nothing; on success the store holds exactly `content`
        at the encrypted path, the staging file is gone, no other file changed and the
        only directories that may have appeared are the staging directory and the
        target's. */
    function WrittenEncrypted(disk: Disk, path: string, content: Bytes, tempId: string): (o: Outcome)
      ensures o.result.Ok? <==> disk.CanEnsureDir(tempDir)
      ensures o.result.Err? ==> o == Outcome(Err(FileNotFound(tempDir)), disk)
      ensures o.result.Ok? ==> o.disk.files == (disk.files - {TempPath(tempId)})[EncryptedPath(path) := content]
      ensures disk.dirs <= o.disk.dirs <= disk.dirs + {tempDir, Dirname(EncryptedPath(path))}
    {
      EncryptedPathHasDirectory(path);
      disk.StagedMove(tempDir, TempPath(tempId), EncryptedPath(path), content)
    }

    /** `write_encrypted_file`: stages the stream, then moves it into the encrypted object
        store. */
    method WriteEncryptedFile(fs: FileSystem, fp: Reader, path: string, bufSize: int, tempId: string)
        returns (r: Result<()>)
      requires fp.Valid()
      modifies fs, fp`pos
      ensures fp.Valid()
      ensures Outcome(r, fs.disk) == WrittenEncrypted(old(fs.disk), path, Staged(old(fp.Rest()), bufSize), tempId)
      ensures fp.pos == old(fp.pos) + if old(fs.disk).CanEnsureDir(tempDir) then |Staged(old(fp.Rest()), bufSize)| else 0
    {
      var staged := WriteTempFile(fs, fp, bufSize, tempId);
      if staged.Err? {
        return Err(staged.error);
      }
      r := MoveInto(fs, staged.value, EncryptedPath(path));
    }

    /** `save_item`: streams `item` through a cache wrapper into the full path of `path`. */
    method SaveItem(fs: FileSystem, item: Reader, path: string) returns (r: Result<()>)
      requires item.Valid()
      modifies fs, item
      ensures r == if old(fs.disk).CanEnsureDir(Dirname(FullPath(path))) then Ok(()) else Err(FileNotFound([]))
      ensures r.Err? ==> fs.disk == old(fs.disk)
      ensures r.Ok? ==> fs.disk.files == (old(fs.disk.files) - {TempName(FullPath(path))})[FullPath(path) := old(item.Rest())]
      ensures r.Ok? ==> fs.disk.dirs == old(fs.disk).EnsuredDir(Dirname(FullPath(path))).dirs
      ensures item.Valid()
      ensures r.Ok? ==> item.closed && item.Rest() == []
      ensures r.Err? ==> item.pos == old(item.pos) && item.closed == old(item.closed)
    {
      r := SaveThrough(fs, item, FullPath(path));
    }

    /** `save_config_item`: the same into the config tree, where it cannot fail. */
    method SaveConfigItem(fs: FileSystem, item: Reader, path: string) returns (r: Result<()>)
      requires item.Valid()
      modifies fs, item
      ensures r == Ok(())
      ensures fs.disk.files == (old(fs.disk.files) - {TempName(ConfigPath(path))})[ConfigPath(path) := old(item.Rest())]
      ensures fs.disk.dirs == old(fs.disk).EnsuredDir(Dirname(ConfigPath(path))).dirs
      ensures item.Valid() && item.closed && item.Rest() == []
    {
      ConfigPathHasDirectory(path);
      r := SaveThrough(fs, item, ConfigPath(path));
    }
  }

  /** Create the directory of `dst` if missing, then rename `src` onto `dst`. */
  method MoveInto(fs: FileSystem, src: string, dst: string) returns (r: Result<()>)
    modifies fs
    ensures Outcome(r, fs.disk) == old(fs.disk).MovedInto(src, dst)
  {
    var made := fs.MakeDirs(Dirname(dst));
    if made.Err? {
      return Err(made.error);
    }
    r := fs.Rename(src, dst);
  }

  /** The `with open(temp_path, "wb")` block of `write_temp_file`: truncates `path`, then
      copies the rest of `fp` into it, in one read for a negative buffer size and in
      `bufSize` chunks until an empty read otherwise. */
  method CopyInto(fs: FileSystem, fp: Reader, path: string, bufSize: int)
    requires fp.Valid()
    modifies fs, fp`pos
    ensures fp.Valid()
    ensures fs.disk == old(fs.disk).Write(path, Staged(old(fp.Rest()), bufSize))
    ensures fp.pos == old(fp.pos) + |Staged(old(fp.Rest()), bufSize)|
    ensures bufSize != 0 ==> fp.Rest() == []
  {
    ghost var d0 := fs.disk;
    ghost var s := fp.Rest();
    fs.WriteFile(path, []);
    if bufSize < 0 {
      var b := fp.Read(-1);
      fs.AppendFile(path, b);
    } else {
      CopyChunks(fs, fp, path, bufSize);
    }
    assert [] + Staged(s, bufSize) == Staged(s, bufSize);
    assert d0.files[path := []][path := Staged(s, bufSize)] == d0.files[path := Staged(s, bufSize)];
  }

  /** The chunked copy loop: appends `read(bufSize)` to `path` until a read comes back
      empty. */
  method CopyChunks(fs: FileSystem, fp: Reader, path: string, bufSize: nat)
    requires fp.Valid() && path in fs.disk.files
    modifies fs, fp`pos
    ensures fp.Valid()
    ensures fs.disk == old(fs.disk).Write(path, old(fs.disk.files[path]) + Staged(old(fp.Rest()), bufSize))
    ensures fp.pos == old(fp.pos) + |Staged(old(fp.Rest()), bufSize)|
    ensures bufSize != 0 ==> fp.Rest() == []
  {
    ghost var s := fp.Rest();
    ghost var d0 := fs.disk;
    ghost var prefix := fs.disk.files[path];
    ghost var copied: Bytes := [];
    assert prefix + copied == prefix;
    assert d0.files[path := prefix] == d0.files;
    while true
      invariant fp.Valid()
      invariant fs.disk == d0.Write(path, prefix + copied)
      invariant copied + fp.Rest() == s
      invariant bufSize == 0 ==> copied == []
      decreases |fp.Rest()|
    {
      ghost var rest := fp.Rest();
      var b := fp.Read(bufSize);
      if b == [] {
        break;
      }
      fs.AppendFile(path, b);
      CopyStep(d0, path, prefix, copied, rest, b);
      copied := copied + b;
    }
    assert copied == Staged(s, bufSize);
  }

  /** One chunk copied: it leaves the stream and joins the staging file. */
  lemma CopyStep(d0: Disk, path: string, prefix: Bytes, copied: Bytes, rest: Bytes, b: Bytes)
    requires b <= rest
    ensures d0.Write(path, prefix + copied).Write(path, (prefix + copied) + b) == d0.Write(path, prefix + (copied + b))
    ensures (copied + b) + rest[|b|..] == copied + rest
  {
    assert (prefix + copied) + b == prefix + (copied + b);
    assert rest == b + rest[|b|..];
  }

  /** Wrap `item` in a cache wrapper for `cachePath` and close it at once. The wrapper's
      constructor fails, before touching anything, when the directory of `cachePath` is
      empty and does not exist (`os.makedirs("")` raises). */
  method SaveThrough(fs: FileSystem, item: Reader, cachePath: string) returns (r: Result<()>)
    requires item.Valid()
    modifies fs, item
    ensures r == if old(fs.disk).CanEnsureDir(Dirname(cachePath)) then Ok(()) else Err(FileNotFound([]))
    ensures r.Err? ==> fs.disk == old(fs.disk)
    ensures r.Ok? ==> fs.disk.files == (old(fs.disk.files) - {TempName(cachePath)})[cachePath := old(item.Rest())]
    ensures r.Ok? ==> fs.disk.dirs == old(fs.disk).EnsuredDir(Dirname(cachePath)).dirs
    ensures item.Valid()
    ensures r.Ok? ==> item.closed && item.Rest() == []
    ensures r.Err? ==> item.pos == old(item.pos) && item.closed == old(item.closed)
  {
    if !fs.disk.CanEnsureDir(Dirname(cachePath)) {
      return Err(FileNotFound([]));
    }
    var f := new HttpCacheWrapper(item, fs, cachePath);
    f.Close();
    r := Ok(());
  }

  /** `HTTPCacheWrapper`: a reader that copies whatever passes through it into
      `<path>.keg_temp`, and on close drains the stream and renames the copy onto `path`,
      so that `path` never holds a partial download. */
  class HttpCacheWrapper {
    const fp: Reader
    const fs: FileSystem
    const realPath: string
    const tempPath: string
    /** Where the stream stood when the wrapper was made: only what follows is cached. */
    const start: nat
    var cacheOpen: bool

    /** While the cache file is open it holds exactly the bytes read through the wrapper. */
    predicate Valid()
      reads this, fp, fs
    {
      && fp.Valid()
      && start <= fp.pos
      && tempPath == TempName(realPath)
      && (cacheOpen ==> tempPath in fs.disk.files && fs.disk.files[tempPath] == fp.data[start..fp.pos])
    }

    constructor (fp: Reader, fs: FileSystem, path: string)
      requires fp.Valid()
      requires fs.disk.CanEnsureDir(Dirname(path))
      modifies fs
      ensures Valid() && cacheOpen
      ensures this.fp == fp && this.fs == fs && realPath == path && start == fp.pos
      ensures fs.disk == old(fs.disk).EnsuredDir(Dirname(path)).Write(TempName(path), [])
    {
      this.fp := fp;
      this.fs := fs;
      realPath := path;
      tempPath := TempName(path);
      start := fp.pos;
      cacheOpen := true;
      new;
      var _ := fs.MakeDirs(Dirname(path));
      fs.WriteFile(tempPath, []);
    }

    /** `read`: passes the read through and appends what it returned to the cache. */
    method Read(size: int) returns (r: Bytes)
      requires Valid() && cacheOpen
      modifies fp`pos, fs
      ensures Valid() && cacheOpen
      ensures r == Take(old(fp.Rest()), size)
      ensures fp.Rest() == old(fp.Rest())[|r|..]
      ensures fs.disk == old(fs.disk).Write(tempPath, old(fs.disk.files[tempPath]) + r)
    {
      r := fp.Read(size);
      if r != [] {
        fs.AppendFile(tempPath, r);
      } else {
        assert fs.disk.files[tempPath] + r == fs.disk.files[tempPath];
        assert fs.disk.files[tempPath := fs.disk.files[tempPath]] == fs.disk.files;
      }
    }

    /** `close`: reads the stream to its end in 8192-byte chunks, then renames the cache
        onto the real path. Afterwards the real path holds every byte that followed the
        wrapper's creation, and the staging file is gone. */
    method Close()
      requires Valid() && cacheOpen
      modifies this`cacheOpen, fp, fs
      ensures Valid() && !cacheOpen && fp.closed
      ensures fp.Rest() == []
      ensures fs.disk.files == (old(fs.disk.files) - {tempPath})[realPath := fp.data[start..]]
      ensures fs.disk.dirs == old(fs.disk.dirs)
    {
      while true
        invariant Valid() && cacheOpen
        invariant fs.disk.files - {tempPath} == old(fs.disk.files) - {tempPath}
        invariant fs.disk.dirs == old(fs.disk.dirs)
        decreases |fp.Rest()|
      {
        var b := Read(8192);
        if b == [] {
          break;
        }
      }
      assert fp.pos == |fp.data|;
      assert fs.disk.files[tempPath] == fp.data[start..];
      var _ := fs.Rename(tempPath, realPath);
      cacheOpen := false;
      fp.Close();
    }
  }
}

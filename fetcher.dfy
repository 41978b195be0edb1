/** keg/core/fetcher.py: fetch directives (one per kind of remote item) and the queues
    that hand them out. */
module Fetching {
  import opened Common
  import opened Io
  import opened Utils
  import opened StringOrder
  import Cdn
  import opened Local

  /** The directive classes. `SignatureFile` inherits its path from `LooseFile`. */
  datatype DirectiveKind =
    | ProductConfig | Config | Archive | LooseFile | DataIndex
    | PatchEntry | PatchArchive | PatchIndex | SignatureFile

  /** `get_full_path` of each directive class: the logical path of the item. The base
      class raises, and product configs do not override it (they never call it). */
  function GetFullPath(kind: DirectiveKind, key: string): (r: Result<string>)
    ensures kind == ProductConfig ==> r == Err(NotImplemented)
    ensures kind != ProductConfig ==> (r.Err? <==> |key| < 4)
  {
    match kind
    case ProductConfig => Err(NotImplemented)
    case Config => Cdn.ConfigPath(key)
    case Archive => Cdn.DataPath(key)
    case LooseFile => Cdn.DataPath(key)
    case SignatureFile => Cdn.DataPath(key)
    case DataIndex => Cdn.DataIndexPath(key)
    case PatchEntry => Cdn.PatchPath(key)
    case PatchArchive => Cdn.PatchPath(key)
    case PatchIndex => Cdn.PatchIndexPath(key)
  }

  /** `key_exists`: product configs ask `has_config_item`; every other kind asks whether
      anything exists at the full path of its logical path. */
  function KeyExists(kind: DirectiveKind, key: string, local: LocalCdn, disk: Disk): (r: Result<bool>)
    ensures r.Err? <==> |key| < 4
    ensures r.Err? ==> r.error == ValueError(key)
  {
    if kind == ProductConfig then local.HasConfigItem(disk, key)
    else
      var p :- GetFullPath(kind, key);
      Ok(local.Exists(disk, p))
  }

  /** The existence check of every kind but product configs looks exactly where a fetch
      of that kind promotes its item (and product configs look where they are saved). */
  lemma KeyExistsLooksAtTarget(kind: DirectiveKind, key: string, local: LocalCdn, disk: Disk)
    requires |key| >= 4
    ensures kind != ProductConfig ==>
              KeyExists(kind, key, local, disk) == Ok(disk.Exists(local.FullPath(GetFullPath(kind, key).value)))
    ensures kind == ProductConfig ==>
              KeyExists(kind, key, local, disk) == Ok(disk.Exists(local.ConfigPath(Cdn.ConfigItemPath(key).value)))
  {
  }

  /** The index kind whose presence an archive kind requires. */
  function IndexKind(kind: DirectiveKind): DirectiveKind {
    if kind == PatchArchive then PatchIndex else DataIndex
  }

  function RuleName(kind: DirectiveKind): string {
    match kind
    case Config => "config file"
    case DataIndex => "archive index"
    case PatchEntry => "patch entry"
    case PatchIndex => "patch index"
    case SignatureFile => "signature file"
    case _ => ""
  }

  predicate WholeFileRule(kind: DirectiveKind) {
    kind == Config || kind == PatchEntry || kind == SignatureFile
  }

  predicate FooterRule(kind: DirectiveKind) {
    kind == DataIndex || kind == PatchIndex
  }

  predicate IndexPresenceRule(kind: DirectiveKind) {
    kind == Archive || kind == PatchArchive
  }

  /** `verify` of each directive class, on the staged content. Whole-file kinds hash
      everything; index kinds seek to 28 bytes before the end (which fails on a shorter
      file) and hash the rest; archive kinds only require their index to be present;
      loose files are checked by the BLTE verifier, a parameter here. */
  function VerifyRule(kind: DirectiveKind, key: string, content: Bytes, md5: Digest,
                      blte: (Bytes, string) -> bool, local: LocalCdn, disk: Disk): (r: Result<()>)
    ensures WholeFileRule(kind) ==> (r.Ok? <==> md5(content) == key)
    ensures WholeFileRule(kind) && r.Err? ==> r.error == IntegrityError(RuleName(kind), md5(content), key)
    ensures FooterRule(kind) ==> (r.Ok? <==> |content| >= 28 && md5(Tail(content, 28)) == key)
    ensures FooterRule(kind) && |content| < 28 ==> r == Err(InvalidSeek)
    ensures FooterRule(kind) && |content| >= 28 && r.Err? ==>
              r.error == IntegrityError(RuleName(kind), md5(Tail(content, 28)), key)
    ensures IndexPresenceRule(kind) ==> (r.Ok? <==> KeyExists(IndexKind(kind), key, local, disk) == Ok(true))
    ensures IndexPresenceRule(kind) && |key| >= 4 && r.Err? ==> r.error.FileNotFound?
    ensures kind == LooseFile ==> (r.Ok? <==> blte(content, key))
    ensures kind == ProductConfig ==> r == Err(NotImplemented)
  {
    match kind
    case ProductConfig => Err(NotImplemented)
    case Config => WholeFile(kind, key, content, md5)
    case PatchEntry => WholeFile(kind, key, content, md5)
    case SignatureFile => WholeFile(kind, key, content, md5)
    case DataIndex => Footer(kind, key, content, md5)
    case PatchIndex => Footer(kind, key, content, md5)
    case Archive => IndexPresent(kind, key, local, disk)
    case PatchArchive => IndexPresent(kind, key, local, disk)
    case LooseFile => if blte(content, key) then Ok(()) else Err(BlteError(key))
  }

  function WholeFile(kind: DirectiveKind, key: string, content: Bytes, md5: Digest): Result<()> {
    var _ :- VerifyData(md5, RuleName(kind), content, key, true);
    Ok(())
  }

  function Footer(kind: DirectiveKind, key: string, content: Bytes, md5: Digest): Result<()> {
    if |content| < 28 then Err(InvalidSeek)
    else
      var _ :- VerifyData(md5, RuleName(kind), content[|content| - 28..], key, true);
      Ok(())
  }

  function IndexPresent(kind: DirectiveKind, key: string, local: LocalCdn, disk: Disk): Result<()> {
    var present :- KeyExists(IndexKind(kind), key, local, disk);
    if present then Ok(()) else Err(FileNotFound(key))
  }

  /** The directive's footer rule and `fetch_patch_index` disagree on payloads shorter
      than a footer: `data[-28:]` is then the whole payload, which `fetch_patch_index`
      hashes, while the directive's seek fails before anything is hashed. */
  lemma ShortIndexOnlyRefusedByDirective(key: string, content: Bytes, md5: Digest, blte: (Bytes, string) -> bool,
                                         local: LocalCdn, disk: Disk)
    requires |content| < 28 && md5(content) == key
    ensures VerifyData(md5, "patch index", Tail(content, 28), key, true).Ok?
    ensures VerifyRule(PatchIndex, key, content, md5, blte, local, disk) == Err(InvalidSeek)
  {
  }

  // ---------------------------------------------------------------------------------
  // Fetching one item (keg/core/fetcher.py:37-83)

  /** An `ArmadilloKey`, seen only through its `decrypt_object`. */
  datatype DecryptionKey = DecryptionKey(decryptObject: (string, Bytes) -> Bytes)

  /** The part of a `Fetcher` the directives consult. */
  class Fetcher {
    const localCdn: LocalCdn
    const remoteCdn: Cdn.ContentSource
    const verify: bool
    var decryptionKeyName: string
    var decryptionKey: Option<DecryptionKey>

    constructor (localCdn: LocalCdn, remoteCdn: Cdn.ContentSource, verify: bool)
      ensures this.localCdn == localCdn && this.remoteCdn == remoteCdn && this.verify == verify
      ensures decryptionKeyName == [] && decryptionKey == None
    {
      this.localCdn := localCdn;
      this.remoteCdn := remoteCdn;
      this.verify := verify;
      decryptionKeyName := [];
      decryptionKey := None;
    }

    /** A key name is set but the key itself is not loaded: items go, still encrypted,
        to the encrypted object store. */
    predicate ToCryptStore()
      reads this
    {
      decryptionKeyName != [] && decryptionKey.None?
    }

    /** What is staged for an item the remote served: decrypted when a key is loaded. */
    function Payload(key: string, served: Bytes): Bytes
      reads this
    {
      if decryptionKeyName != [] && decryptionKey.Some? then decryptionKey.value.decryptObject(key, served)
      else served
    }
  }

  /** One `FetchDirective`: a kind and a key. */
  datatype Directive = Directive(kind: DirectiveKind, key: string)

  /** `FetchDirective.exists`. */
  function Present(d: Directive, local: LocalCdn, disk: Disk): Result<bool> {
    KeyExists(d.kind, d.key, local, disk)
  }

  /** Every directive path has a directory part under the mirror's base, so promoting a
      fetched item never runs into `makedirs("")`. */
  lemma DirectivePathHasDirectory(kind: DirectiveKind, key: string, local: LocalCdn)
    requires kind != ProductConfig && |key| >= 4
    ensures Dirname(local.FullPath(GetFullPath(kind, key).value)) != []
  {
    Cdn.LogicalPathLayout(key);
    var p := GetFullPath(kind, key).value;
    var j := if kind == Config then 7 else if kind == PatchEntry || kind == PatchArchive || kind == PatchIndex then 6 else 5;
    local.NestedPathHasDirectory(p, j);
  }

  /** What staging, verifying (when asked) and promoting `payload` leaves on `disk`. The
      rule is checked against the disk as it is once the payload is staged. It fails when
      the staging directory is empty and missing (changing nothing), when the rule fails
      (leaving the staging file and nothing else), or when the target's directory cannot
      be made; otherwise the full path holds the payload, the staging file is gone and no
      other file changed. Either way the only directories that may appear are the staging
      directory and the target's. */
  function Promoted(d: Directive, local: LocalCdn, verify: bool, disk: Disk, path: string,
                    payload: Bytes, md5: Digest, blte: (Bytes, string) -> bool, tempId: string): (o: Outcome)
    ensures var staged := local.StagedDisk(disk, tempId, payload);
            var rule := VerifyRule(d.kind, d.key, payload, md5, blte, local, staged);
            && (o.result.Ok? <==> disk.CanEnsureDir(local.tempDir) && (!verify || rule.Ok?)
                                  && staged.CanEnsureDir(Dirname(local.FullPath(path))))
            && (!disk.CanEnsureDir(local.tempDir) ==> o == Outcome(Err(FileNotFound(local.tempDir)), disk))
            && (disk.CanEnsureDir(local.tempDir) && verify && rule.Err? ==> o == Outcome(Err(rule.error), staged))
    ensures o.result.Ok? ==> o.disk.files == (disk.files - {local.TempPath(tempId)})[local.FullPath(path) := payload]
    ensures o.result.Err? ==> o.disk.files - {local.TempPath(tempId)} == disk.files - {local.TempPath(tempId)}
    ensures disk.dirs <= o.disk.dirs <= disk.dirs + {local.tempDir, Dirname(local.FullPath(path))}
  {
    if !disk.CanEnsureDir(local.tempDir) then Outcome(Err(FileNotFound(local.tempDir)), disk)
    else
      var staged := local.StagedDisk(disk, tempId, payload);
      var rule := VerifyRule(d.kind, d.key, payload, md5, blte, local, staged);
      var temp := local.TempPath(tempId);
      assert staged.files == disk.files[temp := payload];
      assert (disk.files[temp := payload] - {temp})[local.FullPath(path) := payload]
          == (disk.files - {temp})[local.FullPath(path) := payload];
      assert disk.files[temp := payload] - {temp} == disk.files - {temp};
      if verify && rule.Err? then Outcome(Err(rule.error), staged)
      else staged.MovedInto(temp, local.FullPath(path))
  }

  /** `FetchDirective.fetch` for every kind but product configs. Nothing changes when the
      item is present. Otherwise the remote is asked for it; with a key name but no key
      it goes, still encrypted, to the encrypted store (unless something is there
      already); otherwise it is decrypted when a key is loaded, staged, verified when the
      fetcher verifies, and only then promoted to its full path. The `verify` argument is
      ignored, as in the source. */
  method FetchItem(d: Directive, fetcher: Fetcher, fs: FileSystem, md5: Digest,
                   blte: (Bytes, string) -> bool, tempId: string, verify: bool) returns (r: Result<()>)
    requires d.kind != ProductConfig
    modifies fs
    ensures Present(d, fetcher.localCdn, old(fs.disk)).Err? ==>
              r == Err(Present(d, fetcher.localCdn, old(fs.disk)).error) && fs.disk == old(fs.disk)
    ensures Present(d, fetcher.localCdn, old(fs.disk)) == Ok(true) ==> r == Ok(()) && fs.disk == old(fs.disk)
    ensures Present(d, fetcher.localCdn, old(fs.disk)) == Ok(false) ==> (
      var path := GetFullPath(d.kind, d.key).value;
      var local := fetcher.localCdn;
      var served := fetcher.remoteCdn.getItem(path);
      && (served.Err? ==> r == Err(served.error) && fs.disk == old(fs.disk))
      && (served.Ok? && fetcher.ToCryptStore() ==>
            if local.HasEncryptedFile(old(fs.disk), path) then r == Ok(()) && fs.disk == old(fs.disk)
            else Outcome(r, fs.disk) == local.WrittenEncrypted(old(fs.disk), path, served.value, tempId))
      && (served.Ok? && !fetcher.ToCryptStore() ==>
            var payload := fetcher.Payload(d.key, served.value);
            var rule := VerifyRule(d.kind, d.key, payload, md5, blte, local, local.StagedDisk(old(fs.disk), tempId, payload));
            && Outcome(r, fs.disk) == Promoted(d, local, fetcher.verify, old(fs.disk), path, payload, md5, blte, tempId)
            && (r.Ok? <==> old(fs.disk).CanEnsureDir(local.tempDir) && (!fetcher.verify || rule.Ok?))))
  {
    var local := fetcher.localCdn;
    var present := Present(d, local, fs.disk);
    if present.Err? {
      return Err(present.error);
    }
    if present.value {
      return Ok(());
    }
    var path := GetFullPath(d.kind, d.key).value;
    var served := fetcher.remoteCdn.getItem(path);
    if served.Err? {
      return Err(served.error);
    }
    if fetcher.decryptionKeyName != [] && fetcher.decryptionKey.None? {
      r := StoreEncrypted(local, fs, path, served.value, tempId);
      return;
    }
    var payload := fetcher.Payload(d.key, served.value);
    DirectivePathHasDirectory(d.kind, d.key, local);
    r := StageVerifyPromote(d, local, fetcher.verify, fs, path, payload, md5, blte, tempId);
  }

  /** The branch for a fetcher with a key name but no key: the item goes to the encrypted
      store under its logical path, unless something is already there. */
  method StoreEncrypted(local: LocalCdn, fs: FileSystem, path: string, served: Bytes, tempId: string)
      returns (r: Result<()>)
    modifies fs
    ensures local.HasEncryptedFile(old(fs.disk), path) ==> r == Ok(()) && fs.disk == old(fs.disk)
    ensures !local.HasEncryptedFile(old(fs.disk), path) ==>
              Outcome(r, fs.disk) == local.WrittenEncrypted(old(fs.disk), path, served, tempId)
  {
    if local.HasEncryptedFile(fs.disk, path) {
      return Ok(());
    }
    var item := new Reader(served);
    assert Staged(served, 8192) == served;
    r := local.WriteEncryptedFile(fs, item, path, 8192, tempId);
  }

  /** Stage the payload in a fresh file, verify it when asked, then rename it onto the
      full path. */
  method StageVerifyPromote(d: Directive, local: LocalCdn, verify: bool, fs: FileSystem, path: string,
                            payload: Bytes, md5: Digest, blte: (Bytes, string) -> bool, tempId: string)
      returns (r: Result<()>)
    modifies fs
    ensures Outcome(r, fs.disk) == Promoted(d, local, verify, old(fs.disk), path, payload, md5, blte, tempId)
  {
    ghost var d0 := fs.disk;
    var item := new Reader(payload);
    var staged := local.WriteTempFile(fs, item, 8192, tempId);
    if staged.Err? {
      return Err(staged.error);
    }
    var temp := staged.value;
    assert fs.disk == local.StagedDisk(d0, tempId, payload);
    if verify {
      var content := fs.disk.files[temp];
      var checked := VerifyRule(d.kind, d.key, content, md5, blte, local, fs.disk);
      if checked.Err? {
        return Err(checked.error);
      }
    }
    r := local.UpgradeTempFile(fs, temp, path);
  }

  /** `ProductConfigFetchDirective.fetch`: no verification; unless `has_config_item` says
      the item is there, it is saved through a cache wrapper into the config tree, which
      cannot fail once the remote has served it. */
  method FetchProductConfig(key: string, fetcher: Fetcher, fs: FileSystem) returns (r: Result<()>)
    modifies fs
    ensures |key| < 4 ==> r == Err(ValueError(key)) && fs.disk == old(fs.disk)
    ensures fetcher.localCdn.HasConfigItem(old(fs.disk), key) == Ok(true) ==> r == Ok(()) && fs.disk == old(fs.disk)
    ensures fetcher.localCdn.HasConfigItem(old(fs.disk), key) == Ok(false) ==> (
      var path := Cdn.ConfigItemPath(key).value;
      var target := fetcher.localCdn.ConfigPath(path);
      var served := fetcher.remoteCdn.getConfigItem(path);
      && (served.Err? ==> r == Err(served.error) && fs.disk == old(fs.disk))
      && (served.Ok? ==>
            && r == Ok(())
            && fs.disk.files == (old(fs.disk.files) - {TempName(target)})[target := served.value]
            && fs.disk.dirs == old(fs.disk).EnsuredDir(Dirname(target)).dirs))
  {
    var pathR := Cdn.ConfigItemPath(key);
    if pathR.Err? {
      return Err(pathR.error);
    }
    var path := pathR.value;
    var local := fetcher.localCdn;
    if local.HasConfigItem(fs.disk, key).value {
      return Ok(());
    }
    var served := fetcher.remoteCdn.getConfigItem(path);
    if served.Err? {
      return Err(served.error);
    }
    var item := new Reader(served.value);
    r := local.SaveConfigItem(fs, item, path);
  }

  /** `fetch` on any directive: a product config goes through its own override. */
  method Fetch(d: Directive, fetcher: Fetcher, fs: FileSystem, md5: Digest,
               blte: (Bytes, string) -> bool, tempId: string, verify: bool) returns (r: Result<()>)
    modifies fs
    ensures Present(d, fetcher.localCdn, old(fs.disk)).Err? ==>
              r == Err(Present(d, fetcher.localCdn, old(fs.disk)).error) && fs.disk == old(fs.disk)
    ensures Present(d, fetcher.localCdn, old(fs.disk)) == Ok(true) ==> r == Ok(()) && fs.disk == old(fs.disk)
  {
    if d.kind == ProductConfig {
      r := FetchProductConfig(d.key, fetcher, fs);
    } else {
      r := FetchItem(d, fetcher, fs, md5, blte, tempId, verify);
    }
  }
}

/** keg/core/fetcher.py:148-182: a set of keys of one directive kind, drained in sorted
    order. */
module FetchQueues {
  import opened Common
  import opened Io
  import opened StringOrder
  import opened Local
  import opened Fetching

  /** How far a drain over `keys` gets, when `check` is its existence check: the keys it
      yields, how many keys it consumes (checks and removes from the queue) and the error
      that stops it, if any. A key whose check raises stops the drain before it is
      removed. */
  datatype Walk = Walk(yielded: seq<string>, consumed: nat, error: Option<Error>)

  function DrainWalk(keys: seq<string>, check: string -> Result<bool>): (w: Walk)
    ensures w.consumed <= |keys|
    decreases |keys|
  {
    if keys == [] then Walk([], 0, None)
    else match check(keys[0])
      case Err(e) => Walk([], 0, Some(e))
      case Ok(present) =>
        var rest := DrainWalk(keys[1..], check);
        Walk((if present then [] else [keys[0]]) + rest.yielded, rest.consumed + 1, rest.error)
  }

  /** The existence check of a queue of `kind`. */
  function Check(kind: DirectiveKind, local: LocalCdn, disk: Disk): string -> Result<bool> {
    k => KeyExists(kind, k, local, disk)
  }

  /** A drain consumes every key unless a check fails, and then it stops at that key with
      that check's error. */
  lemma {:induction false} DrainWalkStops(keys: seq<string>, check: string -> Result<bool>)
    ensures DrainWalk(keys, check).error.None? <==> DrainWalk(keys, check).consumed == |keys|
    ensures var w := DrainWalk(keys, check);
            w.error.Some? ==> check(keys[w.consumed]) == Err(w.error.value)
    decreases |keys|
  {
    if keys != [] && check(keys[0]).Ok? {
      DrainWalkStops(keys[1..], check);
    }
  }

  /** A drain yields exactly the consumed keys whose check says they are missing. */
  lemma {:induction false} DrainWalkYieldsMissing(keys: seq<string>, check: string -> Result<bool>)
    ensures var w := DrainWalk(keys, check);
            forall x :: x in w.yielded <==> x in keys[..w.consumed] && check(x) == Ok(false)
    decreases |keys|
  {
    if keys != [] && check(keys[0]).Ok? {
      var tail := keys[1..];
      DrainWalkYieldsMissing(tail, check);
      var w := DrainWalk(keys, check);
      var rest := DrainWalk(tail, check);
      assert keys[..w.consumed] == [keys[0]] + tail[..rest.consumed];
    }
  }

  /** ... in the order of `keys`. */
  lemma {:induction false} DrainWalkKeepsOrder(keys: seq<string>, check: string -> Result<bool>)
    requires Ascending(keys)
    ensures Ascending(DrainWalk(keys, check).yielded)
    decreases |keys|
  {
    if keys != [] && check(keys[0]).Ok? {
      var tail := keys[1..];
      var rest := DrainWalk(tail, check);
      assert Ascending(tail);
      DrainWalkKeepsOrder(tail, check);
      DrainWalkYieldsMissing(tail, check);
      forall x | x in rest.yielded ensures LessEq(keys[0], x) && keys[0] != x {
        var j :| 0 <= j < rest.consumed && tail[j] == x;
        assert keys[j + 1] == x;
      }
    }
  }

  /** Drained to its end, a queue yields the keys missing locally, each once and in
      ascending order. */
  lemma DrainYieldsMissingSorted(queue: set<string>, check: string -> Result<bool>)
    requires DrainWalk(SortedSeq(queue), check).error.None?
    ensures var w := DrainWalk(SortedSeq(queue), check);
            && Ascending(w.yielded)
            && forall x :: x in w.yielded <==> x in queue && check(x) == Ok(false)
  {
    var keys := SortedSeq(queue);
    SortedSeqIsSorted(queue);
    DrainWalkStops(keys, check);
    DrainWalkYieldsMissing(keys, check);
    DrainWalkKeepsOrder(keys, check);
    assert keys[..|keys|] == keys;
  }

  class FetchQueue {
    const kind: DirectiveKind
    var queue: set<string>
    var drained: nat

    constructor (kind: DirectiveKind)
      ensures this.kind == kind && queue == {} && drained == 0
    {
      this.kind := kind;
      queue := {};
      drained := 0;
    }

    /** `len(queue)`. */
    function Len(): (n: nat)
      reads this
      ensures n == |queue|
    ensures n == 0 <==> queue == {}
    {
      |queue|
    }

    /** `add`: an empty key is ignored; adding a queued key changes nothing. */
    method Add(key: string)
      modifies this`queue
      ensures queue == if key == [] then old(queue) else old(queue) + {key}
      ensures Len() == old(Len()) + (if key == [] || key in old(queue) then 0 else 1)
    {
      if key != [] {
        if key in queue {
          assert queue + {key} == queue;
        }
        queue := queue + {key};
      }
    }

    /** `exists`: the existence check of the queue's kind. */
    method Exists(key: string, local: LocalCdn, disk: Disk) returns (r: Result<bool>)
      ensures r == Check(kind, local, disk)(key)
    {
      r := KeyExists(kind, key, local, disk);
    }

    /** `drain`, run to its end against one state of the local mirror: the keys are
        visited in sorted order; each is checked, yielded as a directive when missing
        (counted in `drained`), then removed. A failing check stops the drain with that
        key still queued. */
    method Drain(local: LocalCdn, disk: Disk) returns (yielded: seq<Directive>, error: Option<Error>)
      modifies this`queue, this`drained
      ensures var w := DrainWalk(SortedSeq(old(queue)), Check(kind, local, disk));
              && yielded == Directives(kind, w.yielded)
              && error == w.error
              && drained == old(drained) + |w.yielded|
              && queue == Elements(SortedSeq(old(queue))[w.consumed..])
      ensures error.None? ==> queue == {}
    {
      var keys := SortedKeys(queue);
      SortedSeqNoDups(queue);
      ElementsOfSorted(queue);
      ghost var check := Check(kind, local, disk);
      ghost var whole := DrainWalk(keys, check);
      var missing: seq<string> := [];
      error := None;
      assert whole == Prefixed([], 0, whole);
      var i := 0;
      while i < |keys|
        invariant 0 <= i <= |keys|
        invariant queue == Elements(keys[i..]) && NoDups(keys[i..])
        invariant drained == old(drained) + |missing|
        invariant whole == Prefixed(missing, i, DrainWalk(keys[i..], check))
      {
        var key := keys[i];
        DrainStep(keys, i, missing, whole, check);
        var present := Exists(key, local, disk);
        if present.Err? {
          error := Some(present.error);
          break;
        }
        if !present.value {
          missing := missing + [key];
          drained := drained + 1;
        }
        queue := queue - {key};
        i := i + 1;
      }
      yielded := Directives(kind, missing);
      if error.None? {
        assert keys[i..] == [];
        assert missing + [] == missing;
      }
    }
  }

  /** One step of a drain at `keys[i]`: where it stops, or how it goes on. */
  lemma DrainStep(keys: seq<string>, i: nat, ys: seq<string>, whole: Walk, check: string -> Result<bool>)
    requires i < |keys| && NoDups(keys[i..])
    requires whole == Prefixed(ys, i, DrainWalk(keys[i..], check))
    ensures check(keys[i]).Err? ==> whole == Walk(ys, i, Some(check(keys[i]).error))
    ensures check(keys[i]) == Ok(true) ==> whole == Prefixed(ys, i + 1, DrainWalk(keys[i + 1..], check))
    ensures check(keys[i]) == Ok(false) ==> whole == Prefixed(ys + [keys[i]], i + 1, DrainWalk(keys[i + 1..], check))
    ensures Elements(keys[i..]) - {keys[i]} == Elements(keys[i + 1..]) && NoDups(keys[i + 1..])
  {
    assert keys[i..] == [keys[i]] + keys[i + 1..];
    if check(keys[i]).Err? {
      WalkStops(whole, ys, i, keys[i], keys[i + 1..], check);
    } else {
      WalkAdvances(whole, ys, i, keys[i], keys[i + 1..], check);
    }
    ElementsStep(keys[i..]);
    assert keys[i..][1..] == keys[i + 1..];
  }

  /** The directives a drain yields for `keys`, one per key, in order. */
  function Directives(kind: DirectiveKind, keys: seq<string>): (r: seq<Directive>)
    ensures |r| == |keys|
    ensures forall n :: 0 <= n < |r| ==> r[n] == Directive(kind, keys[n])
  {
    if keys == [] then [] else Directives(kind, keys[..|keys| - 1]) + [Directive(kind, keys[|keys| - 1])]
  }

  /** `set(s)`. */
  function Elements(s: seq<string>): set<string> {
    set k | k in s
  }

  /** No key occurs twice in `s`. */
  predicate NoDups(s: seq<string>) {
    s == [] || (s[0] !in s[1..] && NoDups(s[1..]))
  }

  lemma ElementsStep(s: seq<string>)
    requires s != [] && NoDups(s)
    ensures Elements(s) - {s[0]} == Elements(s[1..]) && NoDups(s[1..])
  {
    assert forall k :: k in s <==> k == s[0] || k in s[1..];
  }

  lemma ElementsOfSorted(s: set<string>)
    ensures Elements(SortedSeq(s)) == s
  {
    SortedSeqIsSorted(s);
  }

  /** `sorted(s)` has no duplicates. */
  lemma {:induction false} SortedSeqNoDups(s: set<string>)
    ensures NoDups(SortedSeq(s))
    decreases |s|
  {
    if s != {} {
      var m := Least(s);
      SortedSeqNoDups(s - {m});
      SortedSeqIsSorted(s - {m});
      assert SortedSeq(s)[1..] == SortedSeq(s - {m});
    }
  }

  /** `sorted(s)`, by repeatedly taking the first remaining key. */
  method SortedKeys(s: set<string>) returns (r: seq<string>)
    ensures r == SortedSeq(s)
  {
    r := [];
    var rest := s;
    while rest != {}
      invariant r + SortedSeq(rest) == SortedSeq(s)
      decreases |rest|
    {
      var key := First(rest);
      assert SortedSeq(rest) == [key] + SortedSeq(rest - {key});
      assert r + ([key] + SortedSeq(rest - {key})) == (r + [key]) + SortedSeq(rest - {key});
      r := r + [key];
      rest := rest - {key};
    }
  }

  /** The walk so far, followed by the walk over the keys still to come. */
  function Prefixed(yielded: seq<string>, done: nat, w: Walk): Walk {
    Walk(yielded + w.yielded, done + w.consumed, w.error)
  }

  /** One key checked and found: the walk so far extends by that key. */
  lemma WalkAdvances(whole: Walk, keys: seq<string>, n: nat, key: string, rest: seq<string>,
                     check: string -> Result<bool>)
    requires whole == Prefixed(keys, n, DrainWalk([key] + rest, check))
    requires check(key).Ok?
    ensures check(key).value ==> whole == Prefixed(keys, n + 1, DrainWalk(rest, check))
    ensures !check(key).value ==> whole == Prefixed(keys + [key], n + 1, DrainWalk(rest, check))
  {
    var w := DrainWalk(rest, check);
    assert ([key] + rest)[0] == key && ([key] + rest)[1..] == rest;
    if check(key).value {
      assert DrainWalk([key] + rest, check) == Walk([] + w.yielded, w.consumed + 1, w.error);
      assert [] + w.yielded == w.yielded;
    } else {
      assert DrainWalk([key] + rest, check) == Walk([key] + w.yielded, w.consumed + 1, w.error);
      AppendAssoc(keys, [key], w.yielded);
    }
  }

  lemma AppendAssoc(a: seq<string>, b: seq<string>, c: seq<string>)
    ensures a + (b + c) == (a + b) + c
  {
  }

  /** A check that fails: the walk stops there. */
  lemma WalkStops(whole: Walk, keys: seq<string>, n: nat, key: string, rest: seq<string>,
                  check: string -> Result<bool>)
    requires whole == Prefixed(keys, n, DrainWalk([key] + rest, check))
    requires check(key).Err?
    ensures whole == Walk(keys, n, Some(check(key).error))
  {
    assert keys + [] == keys;
  }

  /** The first key of `sorted(s)`. */
  method First(s: set<string>) returns (m: string)
    requires s != {}
    ensures m in s && m == Least(s)
  {
    LeastExists(s);
    m :| m in s && IsLeast(m, s);
    LeastUnique(m, Least(s), s);
  }

}

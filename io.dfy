/** The world the code runs against, abstracted: byte streams that are read in chunks,
    a file system that maps paths to contents, and the `os.path` string operations the
    code uses to build those paths. */
module Io {
  import opened Common

  /** What `read(size)` returns when `s` is still unread: everything for -1, at most
      `size` bytes for a size of 0 or more. The streams read here are only ever asked
      for -1 or a non-negative size; other negative sizes are treated like -1, as a
      `BytesIO` does. */
  function Take(s: Bytes, size: int): (r: Bytes)
    ensures r <= s
    ensures size < 0 ==> r == s
    ensures size >= 0 ==> |r| == Min(size, |s|)
  {
    if size < 0 || size >= |s| then s else s[..size]
  }

  /** A readable stream over fixed content (an HTTP body, a BytesIO, or a file opened
      "rb", which is read here only with -1 or a non-negative size). */
  class Reader {
    const data: Bytes
    var pos: nat
    var closed: bool

    predicate Valid()
      reads this
    {
      pos <= |data|
    }

    /** The bytes not read yet. */
    function Rest(): Bytes
      reads this
      requires Valid()
    {
      data[pos..]
    }

    constructor (content: Bytes)
      ensures Valid() && data == content && pos == 0 && !closed
    {
      data := content;
      pos := 0;
      closed := false;
    }

    method Read(size: int) returns (b: Bytes)
      requires Valid()
      modifies this`pos
      ensures Valid()
      ensures b == Take(old(Rest()), size)
      ensures pos == old(pos) + |b|
      ensures Rest() == old(Rest())[|b|..]
    {
      b := Take(data[pos..], size);
      pos := pos + |b|;
    }

    method Close()
      modifies this`closed
      ensures closed
    {
      closed := true;
    }
  }

  /** The content of the file system: regular files and the directories made so far. */
  datatype Disk = Disk(files: map<string, Bytes>, dirs: set<string>) {

    /** `os.path.exists`: a file or a directory of that name. */
    predicate Exists(p: string) {
      p in files || p in dirs
    }

    /** `open(p, "rb").read()`. */
    function Open(p: string): (r: Result<Bytes>)
      ensures r.Ok? <==> p in files
      ensures r.Ok? ==> r.value == files[p]
      ensures r.Err? ==> r.error == (if p in dirs then IsADirectory(p) else FileNotFound(p))
    {
      if p in files then Ok(files[p])
      else if p in dirs then Err(IsADirectory(p))
      else Err(FileNotFound(p))
    }

    function Write(p: string, content: Bytes): Disk {
      Disk(files[p := content], dirs)
    }

    /** `os.rename(src, dst)` of an existing file; renaming a file onto itself changes nothing. */
    function Renamed(src: string, dst: string): (d: Disk)
      requires src in files
      ensures d.dirs == dirs
      ensures d.files == (files - {src})[dst := files[src]]
      ensures dst in d.files && d.files[dst] == files[src]
      ensures src != dst ==> src !in d.files
      ensures forall p :: p != src && p != dst ==> (p in d.files <==> p in files)
      ensures forall p :: p != src && p != dst && p in files ==> d.files[p] == files[p]
    {
      if src == dst then
      assert (files - {src})[dst := files[src]] == files;
      this
    else Disk((files - {src})[dst := files[src]], dirs)
    }

    /** Whether `if not os.path.exists(d): os.makedirs(d)` gets through: only
        `makedirs("")` raises. */
    predicate CanEnsureDir(d: string) {
      Exists(d) || d != []
    }

    /** `if not os.path.exists(d): os.makedirs(d)`: the files stay, `d` exists afterwards
        and is the only directory that may have been added. */
    function EnsuredDir(d: string): (r: Disk)
      ensures r.files == files
      ensures dirs <= r.dirs <= dirs + {d}
      ensures r.Exists(d)
      ensures Exists(d) ==> r == this
    {
      if Exists(d) then this else Disk(files, dirs + {d})
    }

    /** `if not os.path.exists(dirname(dst)): os.makedirs(dirname(dst))`, then
        `os.rename(src, dst)`. It fails when `src` is not a file, or when the directory
        is empty and missing; either way no file has changed. On success `dst` holds what
        `src` held and `src` is gone. The only directory that may appear is `dst`'s. */
    function MovedInto(src: string, dst: string): (o: Outcome)
      ensures o.result.Ok? <==> CanEnsureDir(Dirname(dst)) && src in files
      ensures o.result.Ok? ==> o.disk.files == (files - {src})[dst := files[src]]
      ensures o.result.Err? ==> o.result.error.FileNotFound? && o.disk.files == files
      ensures o.disk.dirs == if CanEnsureDir(Dirname(dst)) then EnsuredDir(Dirname(dst)).dirs else dirs
    {
      var dir := Dirname(dst);
      if !CanEnsureDir(dir) then Outcome(Err(FileNotFound(dir)), this)
      else
        var made := EnsuredDir(dir);
        if src !in made.files then Outcome(Err(FileNotFound(src)), made)
        else Outcome(Ok(()), made.Renamed(src, dst))
    }

    /** A staged write: `content` written to `temp` once `stageDir` is made if missing,
        then moved onto `dst`, whose directory part is not empty. Only making `stageDir`
        can fail, and then nothing changes; on success `dst` holds `content`, `temp` is
        gone, no other file changed, and the only directories that may appear are
        `stageDir` and that of `dst`. */
    function StagedMove(stageDir: string, temp: string, dst: string, content: Bytes): (o: Outcome)
      requires Dirname(dst) != []
      ensures o.result.Ok? <==> CanEnsureDir(stageDir)
      ensures o.result.Err? ==> o == Outcome(Err(FileNotFound(stageDir)), this)
      ensures o.result.Ok? ==> o.disk.files == (files - {temp})[dst := content]
      ensures dirs <= o.disk.dirs <= dirs + {stageDir, Dirname(dst)}
    {
      if !CanEnsureDir(stageDir) then Outcome(Err(FileNotFound(stageDir)), this)
      else
        var staged := EnsuredDir(stageDir).Write(temp, content);
        assert (files[temp := content] - {temp})[dst := content] == (files - {temp})[dst := content];
        staged.MovedInto(temp, dst)
    }
  }

  /** What a step on the file system leaves: whether it raised, and the disk after it. */
  datatype Outcome = Outcome(result: Result<()>, disk: Disk)

  class FileSystem {
    var disk: Disk

    constructor (initial: Disk)
      ensures disk == initial
    {
      disk := initial;
    }

    /** `open(p, "wb")` followed by one `write`: the file is truncated, then holds `content`. */
    method WriteFile(p: string, content: Bytes)
      modifies this
      ensures disk == old(disk).Write(p, content)
    {
      disk := disk.Write(p, content);
    }

    /** A further `write` to a file opened for writing. */
    method AppendFile(p: string, more: Bytes)
      requires p in disk.files
      modifies this
      ensures disk == old(disk).Write(p, old(disk.files[p]) + more)
    {
      disk := disk.Write(p, disk.files[p] + more);
    }

    method Rename(src: string, dst: string) returns (r: Result<()>)
      modifies this
      ensures r == if src in old(disk.files) then Ok(()) else Err(FileNotFound(src))
      ensures r.Ok? ==> disk == old(disk).Renamed(src, dst)
      ensures r.Err? ==> disk == old(disk)
    {
      if src in disk.files {
        disk := disk.Renamed(src, dst);
        r := Ok(());
      } else {
        r := Err(FileNotFound(src));
      }
    }

    /** `if not os.path.exists(d): os.makedirs(d)`; `makedirs("")` raises. */
    method MakeDirs(d: string) returns (r: Result<()>)
      modifies this
      ensures r.Ok? <==> old(disk).CanEnsureDir(d)
      ensures r.Ok? ==> disk == old(disk).EnsuredDir(d)
      ensures r.Err? ==> r.error == FileNotFound(d) && disk == old(disk)
    {
      if disk.Exists(d) {
        r := Ok(());
      } else if d == [] {
        r := Err(FileNotFound(d));
      } else {
        disk := Disk(disk.files, disk.dirs + {d});
        r := Ok(());
      }
    }
  }

  /** `s.lstrip(c)`: `s` without its leading run of `c`. */
  function LStrip(s: string, c: char): (r: string)
    ensures |r| <= |s| && r == s[|s| - |r|..]
    ensures forall i :: 0 <= i < |s| - |r| ==> s[i] == c
    ensures r == [] || r[0] != c
  {
    if s != [] && s[0] == c then LStrip(s[1..], c) else s
  }

  /** `s.rstrip(c)`: `s` without its trailing run of `c`. */
  function RStrip(s: string, c: char): (r: string)
    ensures r <= s
    ensures forall i :: |r| <= i < |s| ==> s[i] == c
    ensures r == [] || r[|r| - 1] != c
  {
    if s != [] && s[|s| - 1] == c then RStrip(s[..|s| - 1], c) else s
  }

  /** `s.rfind(c)`: the last index of `c` in `s`, or -1. */
  function RFind(s: string, c: char): (i: int)
    ensures -1 <= i < |s|
    ensures i >= 0 ==> s[i] == c
    ensures forall j :: i < j < |s| ==> s[j] != c
  {
    if s == [] then -1
    else if s[|s| - 1] == c then |s| - 1
    else RFind(s[..|s| - 1], c)
  }

  /** `posixpath.join(a, b)`: an absolute `b` replaces `a`; otherwise `b` goes under `a`. */
  function PathJoin(a: string, b: string): string {
    if b != [] && b[0] == '/' then b
    else if a == [] || a[|a| - 1] == '/' then a + b
    else a + "/" + b
  }

  /** What `posixpath.join(d, x)` puts before a relative `x`. */
  function DirPrefix(d: string): string {
    if d == [] || d[|d| - 1] == '/' then d else d + "/"
  }

  /** A path stripped of its leading separators always lands under the directory it is
      joined to, and two such paths land on the same place only when they are equal. */
  lemma JoinStrippedUnder(d: string, p: string, q: string)
    ensures PathJoin(d, LStrip(p, '/')) == DirPrefix(d) + LStrip(p, '/')
    ensures PathJoin(d, LStrip(p, '/')) == PathJoin(d, LStrip(q, '/')) <==> LStrip(p, '/') == LStrip(q, '/')
  {
    var a, b := LStrip(p, '/'), LStrip(q, '/');
    if PathJoin(d, a) == PathJoin(d, b) {
      assert a == (DirPrefix(d) + a)[|DirPrefix(d)|..];
      assert b == (DirPrefix(d) + b)[|DirPrefix(d)|..];
    }
  }

  /** `posixpath.dirname(p)`: everything up to the last separator, trailing separators
      removed unless the head is made of separators only. */
  function Dirname(p: string): string {
    var head := p[..RFind(p, '/') + 1];
    if head != [] && RStrip(head, '/') != [] then RStrip(head, '/') else head
  }

  /** A path with a separator in it has a directory part, so `os.makedirs` of that part
      cannot be the `makedirs("")` that raises. */
  lemma DirnameOfNested(p: string, i: nat)
    requires i < |p| && p[i] == '/'
    ensures Dirname(p) != []
  {
    assert RFind(p, '/') >= i;
  }
}

/** keg/utils.py: key partitioning, hash verification, C-string reading, the
    progress-counting reader and the rename-based atomic write. */
module Utils {
  import opened Common
  import opened Io

  /** `partition_hash`: a key becomes `ab/cd/<key>`. Only the length is checked; any
      characters are accepted. */
  function PartitionHash(h: string): (r: Result<string>)
    ensures r.Err? <==> |h| < 4
    ensures r.Err? ==> r.error == ValueError(h)
    ensures r.Ok? ==> |r.value| == |h| + 6 && r.value[6..] == h
    ensures r.Ok? ==> r.value[2] == '/' && r.value[5] == '/'
    ensures r.Ok? ==> r.value[..2] == r.value[6..8] && r.value[3..5] == r.value[8..10]
  {
    if |h| < 4 then Err(ValueError(h))
    else
      var p := h[0..2] + "/" + h[2..4] + "/" + h;
      assert p[6..] == h && p[8..10] == h[2..4] && p[3..5] == h[2..4];
      Ok(p)
  }

  /** The inverse of `PartitionHash`: recovers the key from a partitioned path, if it is one. */
  function UnpartitionHash(p: string): (r: Option<string>)
    ensures r.Some? ==> |r.value| >= 4
  {
    if |p| >= 10 && p[2] == '/' && p[5] == '/' && p[..2] == p[6..8] && p[3..5] == p[8..10]
    then Some(p[6..])
    else None
  }

  lemma UnpartitionAfterPartition(h: string)
    requires |h| >= 4
    ensures UnpartitionHash(PartitionHash(h).value) == Some(h)
  {
  }

  lemma PartitionAfterUnpartition(p: string)
    requires UnpartitionHash(p).Some?
    ensures PartitionHash(UnpartitionHash(p).value) == Ok(p)
  {
    var h := p[6..];
    var q := h[0..2] + "/" + h[2..4] + "/" + h;
    assert forall i :: 0 <= i < |p| ==> p[i] == q[i] by {
      assert p[..2] == p[6..8] && p[3..5] == p[8..10];
      forall i | 0 <= i < |p| ensures p[i] == q[i] {
        if i < 2 { assert p[i] == p[..2][i]; }
        else if 2 < i < 5 { assert p[i] == p[3..5][i - 3]; }
      }
    }
    assert p == q;
  }

  /** Distinct keys never share a partitioned path. */
  lemma PartitionHashInjective(a: string, b: string)
    requires PartitionHash(a).Ok? && PartitionHash(a) == PartitionHash(b)
    ensures a == b
  {
    UnpartitionAfterPartition(a);
    UnpartitionAfterPartition(b);
  }

  /** `verify_data`: with `verify` set, the digest of `data` must equal `key`. */
  function VerifyData(md5: Digest, objectName: string, data: Bytes, key: string, verify: bool): (r: Result<bool>)
    ensures r.Ok? <==> !verify || md5(data) == key
    ensures r.Ok? ==> r.value
    ensures r.Err? ==> r.error == IntegrityError(objectName, md5(data), key)
  {
    if verify && md5(data) != key then Err(IntegrityError(objectName, md5(data), key))
    else Ok(true)
  }

  /** The bytes of `s` before its first NUL (all of `s` when there is none). */
  function TakeUntilNul(s: Bytes): Bytes {
    if s == [] || s[0] == 0 then [] else [s[0]] + TakeUntilNul(s[1..])
  }

  /** What `read_cstr` returns is the NUL-free prefix of the stream that stops at the
      first NUL or at the end. */
  lemma {:induction false} TakeUntilNulIsCString(s: Bytes)
    ensures TakeUntilNul(s) <= s
    ensures 0 !in TakeUntilNul(s)
    ensures |TakeUntilNul(s)| < |s| ==> s[|TakeUntilNul(s)|] == 0
  {
    if s != [] && s[0] != 0 {
      TakeUntilNulIsCString(s[1..]);
    }
  }

  /** `read_cstr`: reads one byte at a time until a NUL or the end of the stream; the
      NUL is consumed and not returned. (The UTF-8 decode of the result is not modelled.) */
  method ReadCstr(fp: Reader) returns (r: Bytes)
    requires fp.Valid()
    modifies fp`pos
    ensures fp.Valid()
    ensures r == TakeUntilNul(old(fp.Rest()))
    ensures fp.pos == old(fp.pos) + |r| + (if |r| < |old(fp.Rest())| then 1 else 0)
  {
    ghost var s := fp.Rest();
    r := [];
    while true
      invariant fp.Valid()
      invariant r + fp.Rest() == s && fp.pos == old(fp.pos) + |r|
      invariant TakeUntilNul(s) == r + TakeUntilNul(fp.Rest())
      decreases |fp.Rest()|
    {
      ghost var rest := fp.Rest();
      var c := fp.Read(1);
      if c == [] || c == [0] {
        break;
      }
      CStringStep(s, r, rest);
      r := r + c;
    }
  }

  /** One non-NUL byte read: it joins the string read so far. */
  lemma CStringStep(s: Bytes, r: Bytes, rest: Bytes)
    requires r + rest == s && TakeUntilNul(s) == r + TakeUntilNul(rest)
    requires rest != [] && rest[0] != 0
    ensures Take(rest, 1) == [rest[0]]
    ensures (r + [rest[0]]) + rest[1..] == s
    ensures TakeUntilNul(s) == (r + [rest[0]]) + TakeUntilNul(rest[1..])
  {
    assert rest == [rest[0]] + rest[1..];
  }

  /** The progress bar that `TqdmReadable` feeds: only its counter is modelled. */
  class ProgressBar {
    var n: nat
    var closed: bool

    constructor ()
      ensures n == 0 && !closed
    {
      n := 0;
      closed := false;
    }
  }

  /** `TqdmReadable`: passes reads through and counts the bytes read on a progress bar. */
  class TqdmReadable {
    const readable: Reader
    const bar: ProgressBar

    constructor (readable: Reader, bar: ProgressBar)
      ensures this.readable == readable && this.bar == bar
    {
      this.readable := readable;
      this.bar := bar;
    }

    method Read(size: int) returns (r: Bytes)
      requires readable.Valid()
      modifies readable`pos, bar`n
      ensures readable.Valid()
      ensures r == Take(old(readable.Rest()), size)
      ensures readable.Rest() == old(readable.Rest())[|r|..]
      ensures bar.n == old(bar.n) + |r|
    {
      r := readable.Read(size);
      if r != [] {
        bar.n := bar.n + |r|;
      }
    }

    /** `__exit__`: closes the wrapped stream and the bar. */
    method Close()
      modifies readable`closed, bar`closed
      ensures readable.closed && bar.closed
    {
      readable.Close();
      bar.closed := true;
    }
  }

  /** The staging name `atomic_write` uses. */
  function TempName(path: string): (t: string)
    ensures t != path
  {
    assert |path + ".keg_temp"| != |path|;
    path + ".keg_temp"
  }

  /** `atomic_write`: writes `content` to `path + ".keg_temp"`, then renames it onto
      `path`. Afterwards `path` holds exactly `content`, the staging name is gone and
      nothing else changed. */
  method AtomicWrite(fs: FileSystem, path: string, content: Bytes) returns (n: nat)
    modifies fs
    ensures n == |content|
    ensures fs.disk.files == (old(fs.disk.files) - {TempName(path)})[path := content]
    ensures fs.disk.dirs == old(fs.disk.dirs)
  {
    var temp := TempName(path);
    fs.WriteFile(temp, content);
    n := |content|;
    var _ := fs.Rename(temp, path);
  }
}

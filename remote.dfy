/** keg/cdn.py, `RemoteCDN`: where a logical path ends up under the server's URL prefix. */
module Remote {
  import opened Common
  import opened Io
  import opened UrlParse

  // ---------------------------------------------------------------------------------
  // RemoteCDN._join_path (keg/cdn.py:108-115)

  /** `_join_path`: `urljoin(base_path + "/", path.lstrip("/"))`. */
  function JoinPath(basePath: string, path: string): string
    requires PlainUrlPath(basePath + "/") && PlainUrlChars(path)
  {
    LStripKeepsPlainChars(path);
    UrlJoin(basePath + "/", LStrip(path, '/'))
  }

  lemma LStripKeepsPlainChars(path: string)
    requires PlainUrlChars(path)
    ensures PlainUrlChars(LStrip(path, '/'))
  {
    var rel := LStrip(path, '/');
    assert forall i :: 0 <= i < |rel| ==> rel[i] == path[|path| - |rel| + i];
  }

  /** The URL-path prefixes of a remote CDN: one for the content tree, one for configs. */
  datatype RemoteCdn = RemoteCdn(server: string, path: string, configPath: string, withTqdm: bool) {

    /** The URL path `get_item` requests. */
    function ItemUrlPath(logical: string): string
      requires PlainUrlPath(path + "/") && PlainUrlChars(logical)
    {
      JoinPath(path, logical)
    }

    /** The URL path `get_config_item` requests. */
    function ConfigItemUrlPath(logical: string): string
      requires PlainUrlPath(configPath + "/") && PlainUrlChars(logical)
    {
      JoinPath(configPath, logical)
    }

    /** `get_item` and `get_config_item` request a logical path under the content and
        the config prefix respectively, whatever separators either side carries. */
    lemma UrlPathsUnderPrefixes(bsegs: seq<string>, k: nat, csegs: seq<string>, c: nat, m: nat, psegs: seq<string>)
      requires BaseSegments(bsegs, k) && BaseSegments(csegs, c) && PathSegments(psegs)
      requires path == JoinSegs(bsegs) + Slashes(k) && configPath == JoinSegs(csegs) + Slashes(c)
      ensures PlainUrlPath(path + "/") && PlainUrlPath(configPath + "/") && PlainUrlChars(Slashes(m) + JoinSegs(psegs))
      ensures ItemUrlPath(Slashes(m) + JoinSegs(psegs)) == JoinSegs(bsegs) + "/" + JoinSegs(psegs)
      ensures ConfigItemUrlPath(Slashes(m) + JoinSegs(psegs)) == JoinSegs(csegs) + "/" + JoinSegs(psegs)
    {
      JoinPathAppendsUnderBase(bsegs, k, m, psegs);
      JoinPathAppendsUnderBase(csegs, c, m, psegs);
    }
  }

  /** A base made of segments with a plain one first (or an empty one, for an absolute
      base, followed by a plain one), then `k` separators: a plain URL path. */
  predicate BaseSegments(bsegs: seq<string>, k: nat) {
    && |bsegs| >= 1
    && (bsegs[0] == [] || PlainSegment(bsegs[0]))
    && (forall i :: 1 <= i < |bsegs| ==> PlainSegment(bsegs[i]))
    && (bsegs == [[]] ==> k == 0)
  }

  predicate PathSegments(psegs: seq<string>) {
    |psegs| >= 1 && forall i :: 0 <= i < |psegs| ==> PlainSegment(psegs[i])
  }

  /** The relative path always lands under the base, whatever leading separators it has
      and however many trailing separators the base has: the result is the base without
      its trailing separators, one '/', and the relative path. */
  lemma JoinPathAppendsUnderBase(bsegs: seq<string>, k: nat, m: nat, psegs: seq<string>)
    requires BaseSegments(bsegs, k) && PathSegments(psegs)
    ensures PlainUrlPath(JoinSegs(bsegs) + Slashes(k) + "/") && PlainUrlChars(Slashes(m) + JoinSegs(psegs))
    ensures JoinPath(JoinSegs(bsegs) + Slashes(k), Slashes(m) + JoinSegs(psegs))
         == JoinSegs(bsegs) + "/" + JoinSegs(psegs)
  {
    var p0 := JoinSegs(psegs);
    var base := JoinSegs(bsegs) + Slashes(k) + "/";
    BaseSplits(bsegs, k);
    RelativeStripped(m, psegs);
    UrlJoinIsJoined(base, p0);
    SegmentsUnderBase(bsegs, k, psegs);
    var segs := bsegs + psegs;
    forall i | 0 <= i < |segs| ensures segs[i] != "." && segs[i] != ".." {
      if i < |bsegs| {
        assert segs[i] == bsegs[i];
      } else {
        assert segs[i] == psegs[i - |bsegs|];
      }
    }
    JoinedWithoutDots(segs);
    JoinSegsAppend(bsegs, psegs);
  }

  lemma UrlJoinIsJoined(base: string, url: string)
    requires PlainUrlPath(base) && PlainUrlPath(url) && base != [] && url != []
    ensures UrlJoin(base, url) == Joined(Segments(base, url))
  {
  }

  /** The base's directory is the whole base, so the segments to resolve are the base's
      own followed by the relative path's. */
  lemma SegmentsUnderBase(bsegs: seq<string>, k: nat, psegs: seq<string>)
    requires BaseSegments(bsegs, k) && PathSegments(psegs)
    ensures JoinSegs(psegs) != []
    ensures Segments(JoinSegs(bsegs) + Slashes(k) + "/", JoinSegs(psegs)) == bsegs + psegs
  {
    var base := JoinSegs(bsegs) + Slashes(k) + "/";
    BaseSplits(bsegs, k);
    PlainSegmentHead(psegs);
    SplitJoinSegs(psegs);
    var parts := bsegs + Empties(k + 1);
    assert parts[|parts| - 1] == [];
    assert BaseDir(Split(base)) == parts;
    MiddleFiltered(bsegs, k, psegs);
  }

  lemma JoinedWithoutDots(segs: seq<string>)
    requires |segs| >= 2 && forall i :: 0 <= i < |segs| ==> segs[i] != "." && segs[i] != ".."
    ensures Joined(segs) == JoinSegs(segs)
  {
    ResolveWithoutDots([], segs);
    assert [] + segs == segs;
    JoinedResolved(segs);
  }

  lemma JoinedResolved(segs: seq<string>)
    requires |segs| >= 1 && ResolveDots([], segs) == segs && JoinSegs(segs) != []
    requires segs[|segs| - 1] != "." && segs[|segs| - 1] != ".."
    ensures Joined(segs) == JoinSegs(segs)
  {
    var last := segs[|segs| - 1];
    var extra: seq<string> := if last == "." || last == ".." then [[]] else [];
    assert extra == [];
    assert ResolveDots([], segs) + extra == segs;
  }

  /** The base splits into its own segments followed by `k + 1` empty ones. */
  lemma BaseSplits(bsegs: seq<string>, k: nat)
    requires BaseSegments(bsegs, k)
    ensures PlainUrlPath(JoinSegs(bsegs) + Slashes(k) + "/")
    ensures Split(JoinSegs(bsegs) + Slashes(k) + "/") == bsegs + Empties(k + 1)
  {
    var b0 := JoinSegs(bsegs);
    SegmentsChars(bsegs);
    SlashesAfter(b0, k);
    FirstSegmentChar(bsegs, k);
    SplitJoinSegs(bsegs);
    SplitSlashes(k);
    SplitAtSlash(b0, Slashes(k));
  }

  /** Separators after plain characters: plain characters, and one more separator at
      the end reads as one more at the front. */
  lemma SlashesAfter(b0: string, k: nat)
    requires PlainUrlChars(b0)
    ensures PlainUrlChars(b0 + Slashes(k) + "/")
    ensures b0 + Slashes(k) + "/" == b0 + "/" + Slashes(k)
  {
    assert Slashes(k) + "/" == "/" + Slashes(k);
    var s := b0 + Slashes(k) + "/";
    assert forall i :: 0 <= i < |s| ==> s[i] == (if i < |b0| then b0[i] else '/');
  }

  /** The relative path loses exactly its leading separators. */
  lemma RelativeStripped(m: nat, psegs: seq<string>)
    requires PathSegments(psegs)
    ensures PlainUrlChars(Slashes(m) + JoinSegs(psegs))
    ensures LStrip(Slashes(m) + JoinSegs(psegs), '/') == JoinSegs(psegs)
    ensures JoinSegs(psegs) != [] && JoinSegs(psegs)[0] != '/'
  {
    var p0 := JoinSegs(psegs);
    SegmentsChars(psegs);
    PlainSegmentHead(psegs);
    var path := Slashes(m) + p0;
    assert path[m] == p0[0] && path[m..] == p0;
  }

  /** No segment is dropped from either side and the empty ones between them go. */
  lemma MiddleFiltered(bsegs: seq<string>, k: nat, psegs: seq<string>)
    requires BaseSegments(bsegs, k) && PathSegments(psegs)
    ensures FilterMiddle(bsegs + Empties(k + 1) + psegs) == bsegs + psegs
  {
    var all := bsegs + Empties(k + 1) + psegs;
    var init := psegs[..|psegs| - 1];
    var last := psegs[|psegs| - 1];
    SliceInside(bsegs, Empties(k + 1), psegs);
    assert forall i :: 0 <= i < |init| ==> init[i] == psegs[i];
    MiddleNonEmpty(bsegs[1..], k, init);
    assert FilterMiddle(all) == [bsegs[0]] + (bsegs[1..] + init) + [last];
    Regroup(bsegs, psegs);
  }

  /** Everything between the first and the last element of `xs + e + ys`. */
  lemma SliceInside(xs: seq<string>, e: seq<string>, ys: seq<string>)
    requires |xs| >= 1 && |ys| >= 1
    ensures var all := xs + e + ys;
            && all[0] == xs[0] && all[|all| - 1] == ys[|ys| - 1]
            && all[1..|all| - 1] == xs[1..] + e + ys[..|ys| - 1]
  {
  }

  lemma Regroup(xs: seq<string>, ys: seq<string>)
    requires |xs| >= 1 && |ys| >= 1
    ensures [xs[0]] + (xs[1..] + ys[..|ys| - 1]) + [ys[|ys| - 1]] == xs + ys
  {
    assert [xs[0]] + xs[1..] == xs;
    assert ys[..|ys| - 1] + [ys[|ys| - 1]] == ys;
  }

  lemma MiddleNonEmpty(xs: seq<string>, k: nat, ys: seq<string>)
    requires forall i :: 0 <= i < |xs| ==> xs[i] != []
    requires forall i :: 0 <= i < |ys| ==> ys[i] != []
    ensures NonEmpty(xs + Empties(k + 1) + ys) == xs + ys
  {
    NonEmptyKeepsNonEmpty(xs);
    NonEmptyDropsEmpty(Empties(k + 1));
    NonEmptyKeepsNonEmpty(ys);
    NonEmptyAround(xs, Empties(k + 1), ys);
  }

  lemma NonEmptyAround(xs: seq<string>, e: seq<string>, ys: seq<string>)
    requires NonEmpty(xs) == xs && NonEmpty(e) == [] && NonEmpty(ys) == ys
    ensures NonEmpty(xs + e + ys) == xs + ys
  {
    NonEmptyAppend(xs + e, ys);
    NonEmptyAppend(xs, e);
    assert xs + [] == xs;
  }

  lemma {:induction false} SegmentsChars(xs: seq<string>)
    requires forall i :: 0 <= i < |xs| ==> xs[i] == [] || PlainSegment(xs[i])
    ensures PlainUrlChars(JoinSegs(xs))
  {
    if |xs| > 1 {
      SegmentsChars(xs[1..]);
    }
  }

  /** A base with a non-empty first segment, or with one after the leading separator, does
      not start with "//". */
  lemma FirstSegmentChar(bsegs: seq<string>, k: nat)
    requires BaseSegments(bsegs, k)
    ensures var s := JoinSegs(bsegs) + Slashes(k) + "/"; !(|s| >= 2 && s[0] == '/' && s[1] == '/')
  {
    var s := JoinSegs(bsegs) + Slashes(k) + "/";
    if bsegs[0] != [] {
      assert s[0] == bsegs[0][0];
    } else if |bsegs| >= 2 {
      assert JoinSegs(bsegs) == "/" + JoinSegs(bsegs[1..]);
      PlainSegmentHead(bsegs[1..]);
      assert s[1] == bsegs[1][0];
    }
  }

  lemma PlainSegmentHead(xs: seq<string>)
    requires |xs| >= 1 && PlainSegment(xs[0])
    ensures |JoinSegs(xs)| >= 1 && JoinSegs(xs)[0] == xs[0][0] && JoinSegs(xs)[0] != '/'
  {
  }

  /** The segments of `/a/b` and of `c`, used by the cases below. */
  lemma ThreeSegments(a: string, b: string, c: string)
    requires PlainSegment(a) && PlainSegment(b) && PlainSegment(c)
    ensures BaseSegments(["", a, b], 2) && PathSegments([c])
    ensures JoinSegs(["", a, b]) == "/" + a + "/" + b && JoinSegs([c]) == c
  {
    assert JoinSegs(["", a, b])[1..] == JoinSegs([a, b]);
    assert JoinSegs([a, b]) == a + "/" + JoinSegs([b]);
  }

  /** The cases quoted beside `_join_path`, for any plain segments `a`, `b`, `c` (the
      comment uses `foo`, `bar` and `baz`): a base without a trailing separator, with one,
      with two, and a relative path with a leading separator all place `c` under `/a/b`.
      In the last case the leading separator is stripped first, so it does not make the
      path replace the base as a bare `urljoin` would. */
  lemma JoinPathBareBase(a: string, b: string, c: string)
    requires PlainSegment(a) && PlainSegment(b) && PlainSegment(c)
    ensures PlainUrlPath("/" + a + "/" + b + "/") && PlainUrlChars(c)
    ensures JoinPath("/" + a + "/" + b, c) == "/" + a + "/" + b + "/" + c
  {
    ThreeSegments(a, b, c);
    JoinPathAppendsUnderBase(["", a, b], 0, 0, [c]);
    assert "/" + a + "/" + b + Slashes(0) == "/" + a + "/" + b && Slashes(0) + c == c;
  }

  lemma JoinPathTrailingSeparator(a: string, b: string, c: string)
    requires PlainSegment(a) && PlainSegment(b) && PlainSegment(c)
    ensures PlainUrlPath("/" + a + "/" + b + "/" + "/") && PlainUrlChars(c)
    ensures JoinPath("/" + a + "/" + b + "/", c) == "/" + a + "/" + b + "/" + c
  {
    ThreeSegments(a, b, c);
    JoinPathAppendsUnderBase(["", a, b], 1, 0, [c]);
    assert "/" + a + "/" + b + Slashes(1) == "/" + a + "/" + b + "/" && Slashes(0) + c == c;
  }

  lemma JoinPathDoubledSeparator(a: string, b: string, c: string)
    requires PlainSegment(a) && PlainSegment(b) && PlainSegment(c)
    ensures PlainUrlPath("/" + a + "/" + b + "//" + "/") && PlainUrlChars(c)
    ensures JoinPath("/" + a + "/" + b + "//", c) == "/" + a + "/" + b + "/" + c
  {
    ThreeSegments(a, b, c);
    JoinPathAppendsUnderBase(["", a, b], 2, 0, [c]);
    assert "/" + a + "/" + b + Slashes(2) == "/" + a + "/" + b + "//" && Slashes(0) + c == c;
  }

  lemma JoinPathAnchoredPath(a: string, b: string, c: string)
    requires PlainSegment(a) && PlainSegment(b) && PlainSegment(c)
    ensures PlainUrlPath("/" + a + "/" + b + "/" + "/") && PlainUrlChars("/" + c)
    ensures JoinPath("/" + a + "/" + b + "/", "/" + c) == "/" + a + "/" + b + "/" + c
  {
    ThreeSegments(a, b, c);
    JoinPathAppendsUnderBase(["", a, b], 1, 1, [c]);
    assert "/" + a + "/" + b + Slashes(1) == "/" + a + "/" + b + "/" && Slashes(1) + c == "/" + c;
  }
}

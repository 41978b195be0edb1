/** `urllib.parse.urljoin` restricted to plain paths: no scheme, no network location, no
    parameters, query or fragment. It is what `RemoteCDN._join_path` relies on: split both
    paths on '/', drop the last segment of the base unless the base ends with '/', drop
    empty segments in the middle, resolve '.' and '..', and join again. */
module UrlParse {

  /** `s.split('/')`. */
  function Split(s: string): (r: seq<string>)
    ensures |r| >= 1
  {
    if s == [] then [[]]
    else
      var rest := Split(s[1..]);
      if s[0] == '/' then [[]] + rest else [[s[0]] + rest[0]] + rest[1..]
  }

  /** `'/'.join(xs)`. */
  function JoinSegs(xs: seq<string>): string {
    if xs == [] then ""
    else if |xs| == 1 then xs[0]
    else xs[0] + "/" + JoinSegs(xs[1..])
  }

  /** `list(filter(None, xs))`: the non-empty segments, in order. */
  function NonEmpty(xs: seq<string>): seq<string> {
    if xs == [] then []
    else if xs[0] == [] then NonEmpty(xs[1..])
    else [xs[0]] + NonEmpty(xs[1..])
  }

  /** `segments[1:-1] = filter(None, segments[1:-1])`: keep the first and the last segment,
      drop the empty ones in between. */
  function FilterMiddle(xs: seq<string>): seq<string> {
    if |xs| < 2 then xs else [xs[0]] + NonEmpty(xs[1..|xs| - 1]) + [xs[|xs| - 1]]
  }

  /** The resolution loop: '..' pops the last kept segment (if any), '.' is skipped,
      anything else is kept. */
  function ResolveDots(acc: seq<string>, segs: seq<string>): seq<string>
    decreases |segs|
  {
    if segs == [] then acc
    else if segs[0] == ".." then ResolveDots(if acc == [] then [] else acc[..|acc| - 1], segs[1..])
    else if segs[0] == "." then ResolveDots(acc, segs[1..])
    else ResolveDots(acc + [segs[0]], segs[1..])
  }

  /** The characters that leave `urlparse` with nothing but a path: no separator of a
      scheme, parameters, query or fragment, and no whitespace or control character. */
  predicate PlainUrlChar(c: char) {
    c > ' ' && c != ':' && c != ';' && c != '?' && c != '#'
  }

  predicate PlainUrlChars(s: string) {
    forall i :: 0 <= i < |s| ==> PlainUrlChar(s[i])
  }

  /** A plain path that `urlparse` would not read as starting with a network location. */
  predicate PlainUrlPath(s: string) {
    PlainUrlChars(s) && !(|s| >= 2 && s[0] == '/' && s[1] == '/')
  }

  function UrlJoin(base: string, url: string): string
    requires PlainUrlPath(base) && PlainUrlPath(url)
  {
    if base == [] then url
    else if url == [] then base
    else Joined(Segments(base, url))
  }

  /** The base's directory: its segments without the last, unless the last is empty
      (the base ends with '/'). */
  function BaseDir(parts: seq<string>): seq<string>
    requires |parts| >= 1
  {
    if parts[|parts| - 1] != [] then parts[..|parts| - 1] else parts
  }

  /** The segments to resolve: an absolute `url` on its own, a relative one after the
      base's directory with the empty segments in between dropped. */
  function Segments(base: string, url: string): (r: seq<string>)
    requires url != []
    ensures |r| >= 1
  {
    if url[0] == '/' then Split(url) else FilterMiddle(BaseDir(Split(base)) + Split(url))
  }

  /** Dot segments resolved and the result joined; a trailing dot segment leaves a
      trailing '/', and an empty result is the root. */
  function Joined(segments: seq<string>): string
    requires |segments| >= 1
  {
    var last := segments[|segments| - 1];
    var resolved := ResolveDots([], segments) + (if last == "." || last == ".." then [[]] else []);
    var joined := JoinSegs(resolved);
    if joined == [] then "/" else joined
  }

  // ---------------------------------------------------------------------------------
  // Facts about splitting and joining segments.

  lemma {:induction false} SplitNoSlash(s: string)
    requires '/' !in s
    ensures Split(s) == [s]
  {
    if s != [] {
      assert s[0] != '/' && '/' !in s[1..];
      SplitNoSlash(s[1..]);
      assert [s[0]] + s[1..] == s;
    }
  }

  lemma {:induction false} SplitAtSlash(a: string, c: string)
    ensures Split(a + "/" + c) == Split(a) + Split(c)
  {
    if a == [] {
      assert a + "/" + c == "/" + c;
      assert ("/" + c)[1..] == c;
    } else {
      assert (a + "/" + c)[1..] == a[1..] + "/" + c;
      SplitAtSlash(a[1..], c);
    }
  }

  /** A segment that survives the whole join unchanged: non-empty, no separator, not a
      dot segment, and nothing `urlparse` would treat specially. */
  predicate PlainSegment(s: string) {
    s != [] && s != "." && s != ".." && '/' !in s && PlainUrlChars(s)
  }

  lemma {:induction false} SplitJoinSegs(xs: seq<string>)
    requires |xs| >= 1
    requires forall i :: 0 <= i < |xs| ==> '/' !in xs[i]
    ensures Split(JoinSegs(xs)) == xs
  {
    if |xs| == 1 {
      SplitNoSlash(xs[0]);
    } else {
      SplitJoinSegs(xs[1..]);
      SplitNoSlash(xs[0]);
      SplitAtSlash(xs[0], JoinSegs(xs[1..]));
    }
  }

  lemma {:induction false} JoinSegsAppend(xs: seq<string>, ys: seq<string>)
    requires |xs| >= 1 && |ys| >= 1
    ensures JoinSegs(xs + ys) == JoinSegs(xs) + "/" + JoinSegs(ys)
  {
    if |xs| == 1 {
      assert (xs + ys)[1..] == ys;
    } else {
      assert (xs + ys)[1..] == xs[1..] + ys;
      JoinSegsAppend(xs[1..], ys);
    }
  }

  lemma {:induction false} NonEmptyAppend(xs: seq<string>, ys: seq<string>)
    ensures NonEmpty(xs + ys) == NonEmpty(xs) + NonEmpty(ys)
  {
    if xs == [] {
      assert xs + ys == ys;
    } else {
      assert (xs + ys)[1..] == xs[1..] + ys;
      NonEmptyAppend(xs[1..], ys);
    }
  }

  lemma {:induction false} NonEmptyKeepsNonEmpty(xs: seq<string>)
    requires forall i :: 0 <= i < |xs| ==> xs[i] != []
    ensures NonEmpty(xs) == xs
  {
    if xs != [] {
      NonEmptyKeepsNonEmpty(xs[1..]);
    }
  }

  lemma {:induction false} NonEmptyDropsEmpty(xs: seq<string>)
    requires forall i :: 0 <= i < |xs| ==> xs[i] == []
    ensures NonEmpty(xs) == []
  {
    if xs != [] {
      NonEmptyDropsEmpty(xs[1..]);
    }
  }

  lemma {:induction false} ResolveWithoutDots(acc: seq<string>, segs: seq<string>)
    requires forall i :: 0 <= i < |segs| ==> segs[i] != "." && segs[i] != ".."
    ensures ResolveDots(acc, segs) == acc + segs
    decreases |segs|
  {
    if segs != [] {
      ResolveWithoutDots(acc + [segs[0]], segs[1..]);
      assert acc + [segs[0]] + segs[1..] == acc + segs;
    }
  }

  function Slashes(k: nat): (s: string)
    ensures |s| == k && forall i :: 0 <= i < k ==> s[i] == '/'
  {
    seq(k, _ => '/')
  }

  function Empties(k: nat): (s: seq<string>)
    ensures |s| == k && forall i :: 0 <= i < k ==> s[i] == []
  {
    seq(k, _ => [])
  }

  lemma {:induction false} SplitSlashes(k: nat)
    ensures Split(Slashes(k)) == Empties(k + 1)
  {
    if k > 0 {
      SplitSlashes(k - 1);
      assert Slashes(k)[1..] == Slashes(k - 1);
      assert [[]] + Empties(k) == Empties(k + 1);
    }
  }
}

/**
 * Item resolver: turns one illustration record into (url, path) download
 * pairs, rewriting the image host to the proxy and sanitising the title.
 */
module Resolver {
  import opened Wrappers
  import opened Text

  /**
   * One illustration record as the API returns it. `singlePageUrl` is
   * `meta_single_page.original_image_url` when `meta_single_page` is a
   * non-empty object and `None` when it is empty; `pageUrls` holds the
   * `image_urls.original` of every `meta_pages` entry, in order.
   */
  datatype Illust = Illust(
    id: nat,
    title: string,
    visible: bool,
    singlePageUrl: Option<string>,
    pageUrls: seq<string>,
    totalBookmarks: int)

  /** One unit of download work: the source url and the destination path. */
  datatype IoPair = IoPair(url: string, path: string)

  /** `output_dir`. */
  const OutputDir: string := "outputs"

  /** The separator `os.path.join` uses on Windows, the only platform the program starts on. */
  const Sep: char := '\\'

  /** The regular expression `to_local` searches for; each `.` matches any character but a newline. */
  const ImageHostPattern: string := "i.pximg.net"

  const ProxyHost: string := "proxy.pixivel.moe"

  /** `os.path.join(dir, name)` for a relative `name`. */
  function PathJoin(dir: string, name: string): string
  {
    dir + [Sep] + name
  }

  /**
   * The window `w` matches the pattern `i.pximg.net`, character by
   * character: each `.` of the pattern matches any character but a newline.
   */
  predicate MatchesPattern(w: string)
  {
    && |w| == |ImageHostPattern|
    && w[0] == 'i' && w[1] != '\n' && w[2] == 'p' && w[3] == 'x' && w[4] == 'i' && w[5] == 'm'
    && w[6] == 'g' && w[7] != '\n' && w[8] == 'n' && w[9] == 'e' && w[10] == 't'
  }

  /** The pattern matches `url` starting at position `k`. */
  predicate MatchAt(url: string, k: nat)
  {
    k + |ImageHostPattern| <= |url| && MatchesPattern(url[k..k + |ImageHostPattern|])
  }

  /**
   * `to_local`: `re.sub('i.pximg.net', 'proxy.pixivel.moe', url)`, i.e. every
   * leftmost non-overlapping match, scanning left to right, is replaced.
   */
  function ToLocal(url: string): string
    decreases |url|
  {
    if url == [] then []
    else if MatchAt(url, 0) then ProxyHost + ToLocal(url[|ImageHostPattern|..])
    else [url[0]] + ToLocal(url[1..])
  }

  /** The pattern matches at position `m` of `url` exactly when it matches at the start of `url[m..]`. */
  lemma MatchAtSuffix(url: string, m: nat)
    requires m <= |url|
    ensures MatchAt(url[m..], 0) == MatchAt(url, m)
  {
    if m + |ImageHostPattern| <= |url| {
      assert url[m..][0..|ImageHostPattern|] == url[m..m + |ImageHostPattern|];
    }
  }

  /**
   * Rewriting never shortens a url: each replacement of the 11-character
   * pattern by the 17-character proxy host adds exactly 6 characters.
   */
  lemma {:induction false} ToLocalLength(url: string)
    ensures |ToLocal(url)| >= |url|
    ensures (|ToLocal(url)| - |url|) % (|ProxyHost| - |ImageHostPattern|) == 0
    decreases |url|
  {
    if url != [] {
      if MatchAt(url, 0) {
        ToLocalLength(url[|ImageHostPattern|..]);
      } else {
        ToLocalLength(url[1..]);
      }
    }
  }

  /** Where no match starts, `to_local` copies one character and goes on. */
  lemma ToLocalCopiesUnmatched(url: string)
    requires url != [] && !MatchAt(url, 0)
    ensures ToLocal(url) == [url[0]] + ToLocal(url[1..])
  {
  }

  /** A prefix in which no match starts is copied unchanged. */
  lemma {:induction false} ToLocalKeepsUnmatchedPrefix(url: string, k: nat)
    requires k <= |url|
    requires forall j :: 0 <= j < k ==> !MatchAt(url, j)
    ensures ToLocal(url) == url[..k] + ToLocal(url[k..])
    decreases k
  {
    if k == 0 {
      assert url[..0] + url[0..] == url;
    } else {
      ToLocalKeepsUnmatchedPrefix(url, k - 1);
      MatchAtSuffix(url, k - 1);
      ToLocalCopiesUnmatched(url[k - 1..]);
      assert url[k - 1..][1..] == url[k..];
      assert url[..k] == url[..k - 1] + [url[k - 1]];
    }
  }

  /** A url with no match of the pattern is left exactly as it is. */
  lemma ToLocalWithoutMatch(url: string)
    requires forall j :: 0 <= j < |url| ==> !MatchAt(url, j)
    ensures ToLocal(url) == url
  {
    ToLocalKeepsUnmatchedPrefix(url, |url|);
    assert url[..|url|] == url;
  }

  /** The image host of an `https` url is replaced by the proxy host; the rest is rewritten on its own. */
  lemma ToLocalRewritesHost(rest: string)
    ensures ToLocal("https://" + ImageHostPattern + rest) == "https://" + ProxyHost + ToLocal(rest)
  {
    var tail := ImageHostPattern + rest;
    var url := "https://" + tail;
    forall j | 0 <= j < 8
      ensures !MatchAt(url, j)
    {
      assert url[j] == "https://"[j] != 'i';
      assert url[j..j + |ImageHostPattern|][0] == url[j];
    }
    ToLocalKeepsUnmatchedPrefix(url, 8);
    assert url[..8] == "https://" && url[8..] == tail;
    ToLocalHostAtStart(rest);
    assert url == "https://" + ImageHostPattern + rest;
  }

  /** A url that starts with the image host has it replaced by the proxy host. */
  lemma ToLocalHostAtStart(rest: string)
    ensures ToLocal(ImageHostPattern + rest) == ProxyHost + ToLocal(rest)
  {
    var tail := ImageHostPattern + rest;
    assert tail[..|ImageHostPattern|] == ImageHostPattern;
    assert MatchAt(tail, 0);
    assert tail[|ImageHostPattern|..] == rest;
  }

  /** The character class `[\|/.*?"<>]` of the title sanitiser. */
  predicate Forbidden(c: char)
  {
    c == '|' || c == '/' || c == '.' || c == '*' || c == '?' || c == '"' || c == '<' || c == '>'
  }

  /** `re.sub('[\|/.*?"<>]', ' ', title)`. */
  function SanitizeTitle(title: string): (r: string)
    ensures |r| == |title|
    ensures forall i :: 0 <= i < |title| ==> r[i] == if Forbidden(title[i]) then ' ' else title[i]
    ensures forall i :: 0 <= i < |r| ==> !Forbidden(r[i])
  {
    if title == [] then []
    else [if Forbidden(title[0]) then ' ' else title[0]] + SanitizeTitle(title[1..])
  }

  /** Sanitising twice is the same as sanitising once. */
  lemma SanitizeIdempotent(title: string)
    ensures SanitizeTitle(SanitizeTitle(title)) == SanitizeTitle(title)
  {
  }

  /** A title without forbidden characters is left unchanged. */
  lemma SanitizeKeepsCleanTitle(title: string)
    requires forall i :: 0 <= i < |title| ==> !Forbidden(title[i])
    ensures SanitizeTitle(title) == title
  {
  }

  /** The file name of the 1-based page `index`: `str(index).zfill(3) + '.png'`. */
  function PageFileName(index: nat): (name: string)
    ensures |name| >= 7
    ensures name[|name| - 4..] == ".png"
  {
    ZFill(NatToString(index), 3) + ".png"
  }

  /** The digits of a page file name read back as the page number. */
  lemma PageFileNameValue(index: nat)
    ensures var name := PageFileName(index);
      AllDigits(name[..|name| - 4]) && ParseDigits(name[..|name| - 4]) == index
  {
    var digits := ZFill(NatToString(index), 3);
    ZFillValue(NatToString(index), 3);
    assert PageFileName(index)[..|digits|] == digits;
  }

  /** Pages 1 to 999 get exactly three digits. */
  lemma PageFileNameWidth(index: nat)
    requires 1 <= index <= 999
    ensures |PageFileName(index)| == 7
  {
    NatToStringShort(index);
  }

  /** Different pages never share a file name. */
  lemma PageFileNamesDistinct(i: nat, j: nat)
    requires i != j
    ensures PageFileName(i) != PageFileName(j)
  {
    PageFileNameValue(i);
    PageFileNameValue(j);
  }

  /** Two different pages of one directory get different paths. */
  lemma PagePathsDistinct(dir: string, i: nat, j: nat)
    requires i != j
    ensures PathJoin(dir, PageFileName(i)) != PathJoin(dir, PageFileName(j))
  {
    var p, q := PathJoin(dir, PageFileName(i)), PathJoin(dir, PageFileName(j));
    PageFileNamesDistinct(i, j);
    assert p[|dir| + 1..] == PageFileName(i);
    assert q[|dir| + 1..] == PageFileName(j);
  }

  /** `zip(a, b)`: pairs up the two lists, as long as the shorter one. */
  function Zip(a: seq<string>, b: seq<string>): (r: seq<IoPair>)
    ensures |r| == if |a| <= |b| then |a| else |b|
    ensures forall i :: 0 <= i < |r| ==> r[i] == IoPair(a[i], b[i])
  {
    if a == [] || b == [] then [] else [IoPair(a[0], b[0])] + Zip(a[1..], b[1..])
  }

  /** `[to_local(u) for u in urls]`. */
  function LocalUrls(urls: seq<string>): (r: seq<string>)
    ensures |r| == |urls| && forall i :: 0 <= i < |r| ==> r[i] == ToLocal(urls[i])
  {
    if urls == [] then [] else [ToLocal(urls[0])] + LocalUrls(urls[1..])
  }

  /** The paths of pages 1 to `n` inside `dir`. */
  function PagePaths(dir: string, n: nat): (r: seq<string>)
    ensures |r| == n && forall i :: 0 <= i < n ==> r[i] == PathJoin(dir, PageFileName(i + 1))
  {
    if n == 0 then [] else PagePaths(dir, n - 1) + [PathJoin(dir, PageFileName(n))]
  }

  /** `f'{title}-{id}'` with the sanitised title. */
  function Stem(img: Illust): string
  {
    SanitizeTitle(img.title) + "-" + NatToString(img.id)
  }

  /** The directory that holds the pages of a multi-page record. */
  function TargetDir(img: Illust): string
  {
    PathJoin(OutputDir, Stem(img))
  }

  /**
   * `get_io_pairs`: nothing for an empty record or an invisible one; one pair
   * `outputs\<title>-<id>.png` for a single-page record; otherwise one pair per
   * page, in order, at `outputs\<title>-<id>\<NNN>.png`.
   */
  function GetIoPairs(img: Option<Illust>): (r: seq<IoPair>)
    ensures img.None? ==> r == []
    ensures img.Some? && !img.value.visible ==> r == []
    ensures img.Some? && img.value.visible && img.value.singlePageUrl.Some? ==>
      r == [IoPair(ToLocal(img.value.singlePageUrl.value), PathJoin(OutputDir, Stem(img.value) + ".png"))]
    ensures img.Some? && img.value.visible && img.value.singlePageUrl.None? ==>
      && |r| == |img.value.pageUrls|
      && forall i :: 0 <= i < |r| ==>
           r[i] == IoPair(ToLocal(img.value.pageUrls[i]), PathJoin(TargetDir(img.value), PageFileName(i + 1)))
  {
    match img
    case None => []
    case Some(x) =>
      if !x.visible then []
      else if x.singlePageUrl.Some? then
        [IoPair(ToLocal(x.singlePageUrl.value), PathJoin(OutputDir, Stem(x) + ".png"))]
      else
        var urls := LocalUrls(x.pageUrls);
        Zip(urls, PagePaths(TargetDir(x), |urls|))
  }

  /** The destination of page `i + 1` of a visible multi-page record. */
  lemma MultiPagePath(x: Illust, i: nat)
    requires x.visible && x.singlePageUrl.None? && i < |x.pageUrls|
    ensures i < |GetIoPairs(Some(x))|
    ensures GetIoPairs(Some(x))[i].path == PathJoin(TargetDir(x), PageFileName(i + 1))
  {
  }

  /** The destination of a visible single-page record. */
  lemma SinglePagePath(x: Illust)
    requires x.visible && x.singlePageUrl.Some?
    ensures |GetIoPairs(Some(x))| == 1
    ensures GetIoPairs(Some(x))[0].path == PathJoin(OutputDir, Stem(x) + ".png")
  {
  }

  /** No two pairs of one record write to the same path. */
  lemma IoPairPathsDistinct(img: Option<Illust>, i: nat, j: nat)
    requires i != j
    ensures i < |GetIoPairs(img)| && j < |GetIoPairs(img)| ==> GetIoPairs(img)[i].path != GetIoPairs(img)[j].path
  {
    if i < |GetIoPairs(img)| && j < |GetIoPairs(img)| && img.Some? && img.value.visible && img.value.singlePageUrl.None? {
      MultiPagePathsDistinct(img.value, i, j);
    }
  }

  lemma MultiPagePathsDistinct(x: Illust, i: nat, j: nat)
    requires x.visible && x.singlePageUrl.None?
    requires i < |x.pageUrls| && j < |x.pageUrls| && i != j
    ensures GetIoPairs(Some(x))[i].path != GetIoPairs(Some(x))[j].path
  {
    MultiPagePath(x, i);
    MultiPagePath(x, j);
    PagedPathsDistinct(GetIoPairs(Some(x)), TargetDir(x), i, j);
  }

  /** Two pairs whose paths are pages `i + 1` and `j + 1` of one directory do not collide. */
  lemma PagedPathsDistinct(r: seq<IoPair>, dir: string, i: nat, j: nat)
    requires i < |r| && j < |r| && i != j
    requires r[i].path == PathJoin(dir, PageFileName(i + 1))
    requires r[j].path == PathJoin(dir, PageFileName(j + 1))
    ensures r[i].path != r[j].path
  {
    PagePathsDistinct(dir, i + 1, j + 1);
  }

  /** Every path of a record lies under the output directory. */
  lemma IoPairsUnderOutputDir(img: Option<Illust>, i: nat)
    requires i < |GetIoPairs(img)|
    ensures GetIoPairs(img)[i].path[..|OutputDir| + 1] == OutputDir + [Sep]
  {
    var x := img.value;
    if x.singlePageUrl.Some? {
      SinglePagePath(x);
      PathJoinPrefix(OutputDir, Stem(x) + ".png");
    } else {
      MultiPagePath(x, i);
      NestedPathJoinPrefix(OutputDir, Stem(x), PageFileName(i + 1));
    }
  }

  lemma PathJoinPrefix(dir: string, name: string)
    ensures PathJoin(dir, name)[..|dir| + 1] == dir + [Sep]
  {
  }

  /** A path joined inside a joined directory still starts with the outer directory. */
  lemma NestedPathJoinPrefix(dir: string, sub: string, name: string)
    ensures PathJoin(PathJoin(dir, sub), name)[..|dir| + 1] == dir + [Sep]
  {
    assert PathJoin(PathJoin(dir, sub), name) == dir + [Sep] + (sub + [Sep] + name);
  }

  /** `[y for x in xs for y in f(x)]`. */
  function FlatMap<T, U>(xs: seq<T>, f: T -> seq<U>): seq<U>
  {
    if xs == [] then [] else f(xs[0]) + FlatMap(xs[1..], f)
  }

  /** Flattening distributes over concatenation of the inputs. */
  lemma {:induction false} FlatMapAppend<T, U>(a: seq<T>, b: seq<T>, f: T -> seq<U>)
    ensures FlatMap(a + b, f) == FlatMap(a, f) + FlatMap(b, f)
  {
    if a != [] {
      assert (a + b)[1..] == a[1..] + b;
      FlatMapAppend(a[1..], b, f);
    } else {
      assert a + b == b;
    }
  }

  /** The pairs of one accepted record. */
  function PairsOf(x: Illust): seq<IoPair>
  {
    GetIoPairs(Some(x))
  }

  /** `[pair for illust in illusts for pair in get_io_pairs(illust)]`. */
  function AllIoPairs(illusts: seq<Illust>): (r: seq<IoPair>)
    ensures illusts == [] ==> r == []
    ensures |illusts| == 1 ==> r == GetIoPairs(Some(illusts[0]))
  {
    assert |illusts| == 1 ==> FlatMap(illusts, PairsOf) == PairsOf(illusts[0]) + FlatMap([], PairsOf);
    FlatMap(illusts, PairsOf)
  }

  /** The flattened list is the concatenation of the pairs of each part. */
  lemma AllIoPairsAppend(a: seq<Illust>, b: seq<Illust>)
    ensures AllIoPairs(a + b) == AllIoPairs(a) + AllIoPairs(b)
  {
    FlatMapAppend(a, b, PairsOf);
  }
}

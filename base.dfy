/**
 * `crawlers/base.py`: the post record, its dictionary form, the relative
 * URL rule shared by the page crawlers, and the slice-and-catch wrapper
 * around parsing.
 */
module Crawler {
  import opened Wrappers
  import opened Text

  /** `MAX_POSTS_PER_SOURCE`, the default `max_posts` of every crawler. */
  const MaxPostsPerSource: nat := 10

  /** A scraped post. `date` is `YYYY.MM.DD` or whatever text the source showed. */
  datatype Post = Post(title: string, url: string, summary: string, date: string, source: string)

  /** `Post(...)`: an empty date becomes today's date (`today` is
      `datetime.now().strftime('%Y.%m.%d')`, given by the caller). */
  function MakePost(title: string, url: string, summary: string, date: string,
                    source: string, today: string): (p: Post)
    ensures p.title == title && p.url == url && p.summary == summary && p.source == source
    ensures date != [] ==> p.date == date
    ensures date == [] ==> p.date == today
  {
    Post(title, url, summary, if date != [] then date else today, source)
  }

  /** A post as the pipeline sees it: a dictionary from field names to text. */
  type PostDict = map<string, string>

  const PostKeys: set<string> := {"title", "url", "summary", "date", "source"}

  /** `Post.to_dict`. */
  function ToDict(p: Post): (d: PostDict)
    ensures d.Keys == PostKeys
  {
    map["title" := p.title, "url" := p.url, "summary" := p.summary,
        "date" := p.date, "source" := p.source]
  }

  /** Reads a post back from its dictionary. */
  function FromDict(d: PostDict): Post
    requires PostKeys <= d.Keys
  {
    Post(d["title"], d["url"], d["summary"], d["date"], d["source"])
  }

  /** `to_dict` keeps every field: reading the dictionary back gives the post. */
  lemma DictRoundTrip(p: Post)
    ensures FromDict(ToDict(p)) == p
  {
  }

  /** Characters allowed in a URL scheme after the first letter (RFC 3986, section 3.1). */
  predicate IsSchemeChar(c: char) {
    ('a' <= c <= 'z') || ('A' <= c <= 'Z') || IsDigit(c) || c == '+' || c == '-' || c == '.'
  }

  function AsciiLower(s: string): (r: string)
    ensures |r| == |s|
  {
    if s == [] then []
    else [if 'A' <= s[0] <= 'Z' then (s[0] as int + 32) as char else s[0]] + AsciiLower(s[1..])
  }

  /** Index of the first character of `s` in `stops`, or `|s|`. */
  function IndexOfAny(s: string, stops: set<char>): (k: nat)
    ensures k <= |s|
    ensures k < |s| ==> s[k] in stops
    ensures forall j :: 0 <= j < k ==> s[j] !in stops
  {
    if s == [] then 0 else if s[0] in stops then 0 else 1 + IndexOfAny(s[1..], stops)
  }

  /** The scheme and authority (`netloc`) that `urllib.parse.urlparse` finds:
      the scheme is the text before the first `:` when it is a valid scheme
      (lower-cased), and the authority follows `//` up to `/`, `?` or `#`. */
  datatype UrlParts = UrlParts(scheme: string, netloc: string)

  predicate ValidScheme(s: string) {
    s != [] && (('a' <= s[0] <= 'z') || ('A' <= s[0] <= 'Z')) &&
    forall i :: 0 <= i < |s| ==> IsSchemeChar(s[i])
  }

  function UrlSplit(url: string): (r: UrlParts)
    ensures |r.scheme| + |r.netloc| <= |url|
    ensures r.scheme != [] <==> IndexOf(url, ':') < |url| && ValidScheme(url[..IndexOf(url, ':')])
    ensures r.scheme != [] ==> |r.scheme| == IndexOf(url, ':')
    ensures forall j :: 0 <= j < |r.netloc| ==> r.netloc[j] !in {'/', '?', '#'}
  {
    var i := IndexOf(url, ':');
    var (scheme, rest) :=
      if i < |url| && ValidScheme(url[..i]) then (AsciiLower(url[..i]), url[i + 1..]) else ([], url);
    if StartsWith(rest, "//") then
      var k := IndexOfAny(rest[2..], {'/', '?', '#'});
      UrlParts(scheme, rest[2..][..k])
    else UrlParts(scheme, [])
  }

  /** `BaseCrawler._make_absolute_url`: an href not starting with `/` is
      kept as it is; a root-relative one is put after the base URL's scheme
      and authority. */
  function MakeAbsoluteUrl(baseUrl: string, href: string): (r: string)
    ensures !StartsWith(href, "/") ==> r == href
    ensures StartsWith(href, "/") ==>
      |r| >= |href| && r[|r| - |href|..] == href &&
      StartsWith(r, UrlSplit(baseUrl).scheme + "://" + UrlSplit(baseUrl).netloc)
  {
    if StartsWith(href, "http") then
      assert href[0] == href[..4][0] == 'h';
      href
    else if StartsWith(href, "/") then
      var parts := UrlSplit(baseUrl);
      var prefix := parts.scheme + "://" + parts.netloc;
      var r := prefix + href;
      assert r[|r| - |href|..] == href && r[..|prefix|] == prefix;
      r
    else href
  }

  lemma {:induction false} AsciiLowerOfLower(s: string)
    requires forall i :: 0 <= i < |s| ==> !('A' <= s[i] <= 'Z')
    ensures AsciiLower(s) == s
  {
    if s != [] {
      AsciiLowerOfLower(s[1..]);
    }
  }

  /** A base URL `scheme://host/path` splits into its lower-case scheme and its host. */
  lemma SplitOfBase(scheme: string, host: string, path: string)
    requires ValidScheme(scheme) && forall i :: 0 <= i < |scheme| ==> !('A' <= scheme[i] <= 'Z')
    requires forall i :: 0 <= i < |host| ==> host[i] !in {'/', '?', '#'}
    requires path == [] || path[0] == '/'
    ensures UrlSplit(scheme + "://" + host + path) == UrlParts(scheme, host)
  {
    var url := scheme + "://" + host + path;
    var tail := "//" + host + path;
    assert url == scheme + (":" + tail);
    ColonAfterScheme(scheme, tail);
    assert url[..|scheme|] == scheme;
    assert url[|scheme| + 1..] == tail;
    AsciiLowerOfLower(scheme);
    assert StartsWith(tail, "//") && tail[2..] == host + path;
    HostEnds(host, path);
    UrlSplitAt(url, |scheme|, tail, scheme, host);
  }

  /** `UrlSplit` once the colon, the scheme and the authority's end are known. */
  lemma UrlSplitAt(url: string, n: nat, tail: string, scheme: string, host: string)
    requires n == IndexOf(url, ':') && n < |url|
    requires url[..n] == scheme && ValidScheme(scheme) && AsciiLower(scheme) == scheme
    requires url[n + 1..] == tail && StartsWith(tail, "//")
    requires IndexOfAny(tail[2..], {'/', '?', '#'}) == |host| <= |tail[2..]|
    requires tail[2..][..|host|] == host
    ensures UrlSplit(url) == UrlParts(scheme, host)
  {
  }

  /** The first `:` of `scheme:tail` is the one after the scheme. */
  lemma ColonAfterScheme(scheme: string, tail: string)
    requires ValidScheme(scheme)
    ensures IndexOf(scheme + (":" + tail), ':') == |scheme|
  {
    var url := scheme + (":" + tail);
    forall i | 0 <= i < |scheme| ensures url[i] != ':' {
      assert url[i] == scheme[i] && IsSchemeChar(scheme[i]);
    }
    assert url[|scheme|] == ':';
  }

  /** The authority of `host + path` stops where the path begins. */
  lemma HostEnds(host: string, path: string)
    requires forall i :: 0 <= i < |host| ==> host[i] !in {'/', '?', '#'}
    requires path == [] || path[0] == '/'
    ensures IndexOfAny(host + path, {'/', '?', '#'}) == |host|
    ensures (host + path)[..|host|] == host
  {
    var s := host + path;
    assert forall j :: 0 <= j < |host| ==> s[j] == host[j];
    assert path != [] ==> s[|host|] == path[0];
  }

  /** A root-relative href is joined to the scheme and host of the base URL;
      the result ends with the href. */
  lemma AbsoluteOfRootRelative(scheme: string, host: string, path: string, href: string)
    requires ValidScheme(scheme) && forall i :: 0 <= i < |scheme| ==> !('A' <= scheme[i] <= 'Z')
    requires forall i :: 0 <= i < |host| ==> host[i] !in {'/', '?', '#'}
    requires path == [] || path[0] == '/'
    requires StartsWith(href, "/")
    ensures MakeAbsoluteUrl(scheme + "://" + host + path, href) == scheme + "://" + host + href
  {
    SplitOfBase(scheme, host, path);
    assert href[0] == '/' && "http"[0] == 'h';
  }

  lemma HttpsIsLowerScheme(scheme: string)
    requires scheme == "https"
    ensures ValidScheme(scheme) && forall i :: 0 <= i < |scheme| ==> !('A' <= scheme[i] <= 'Z')
  {
  }

  /** A worked case: `/posts/123` against `https://example.com/blog`. */
  lemma AbsoluteExample(baseUrl: string, href: string)
    requires baseUrl == "https://example.com/blog" && href == "/posts/123"
    ensures MakeAbsoluteUrl(baseUrl, href) == "https://example.com/posts/123"
  {
    var scheme, host, path := "https", "example.com", "/blog";
    HttpsIsLowerScheme(scheme);
    assert forall i :: 0 <= i < |host| ==> host[i] !in {'/', '?', '#'};
    assert baseUrl == scheme + "://" + host + path;
    AbsoluteOfRootRelative(scheme, host, path, href);
    ExampleJoin(scheme, host, href);
  }

  lemma ExampleJoin(scheme: string, host: string, href: string)
    requires scheme == "https" && host == "example.com" && href == "/posts/123"
    ensures scheme + "://" + host + href == "https://example.com/posts/123"
  {
  }

  /** An href that is already absolute, or not root-relative, is returned as it is. */
  lemma AbsoluteKeepsOthers(baseUrl: string, href: string)
    requires StartsWith(href, "http") || !StartsWith(href, "/")
    ensures MakeAbsoluteUrl(baseUrl, href) == href
  {
  }

  /** `[post.to_dict() for post in posts]`. */
  function Dicts(ps: seq<Post>): (ds: seq<PostDict>)
    ensures |ds| == |ps|
    ensures forall i :: 0 <= i < |ps| ==> ds[i] == ToDict(ps[i])
  {
    seq(|ps|, i requires 0 <= i < |ps| => ToDict(ps[i]))
  }

  lemma DictsAppend(ps: seq<Post>, p: Post)
    ensures Dicts(ps + [p]) == Dicts(ps) + [ToDict(p)]
  {
    assert forall i :: 0 <= i < |ps| ==> (ps + [p])[i] == ps[i];
  }

  /** The dictionary's entries for the fields the pipeline reads. */
  lemma DictFields(p: Post)
    ensures "title" in ToDict(p) && "url" in ToDict(p) && "source" in ToDict(p)
    ensures ToDict(p)["title"] == p.title && ToDict(p)["url"] == p.url
    ensures ToDict(p)["source"] == p.source
  {
  }

  /** `BaseCrawler.fetch` after rendering: `None` when rendering or parsing
      raised (the exception is caught and `[]` returned), otherwise the first
      `max_posts` parsed posts as dictionaries, in parse order. */
  function Fetch(parsed: Option<seq<Post>>, maxPosts: nat): (r: seq<PostDict>)
    ensures parsed.None? ==> r == []
    ensures parsed.Some? ==>
      |r| == (if maxPosts < |parsed.value| then maxPosts else |parsed.value|) &&
      forall i :: 0 <= i < |r| ==> r[i] == ToDict(parsed.value[i])
  {
    match parsed
    case None => []
    case Some(posts) => Dicts(Take(posts, maxPosts))
  }
}

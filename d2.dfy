/**
 * `crawlers/d2.py`: Naver's D2 blog. Each `.cont_post` article has an
 * `h2 a` link (title and href), a `.post_txt` summary and a `dl dd` date.
 */
module D2 {
  import opened Wrappers
  import opened Text
  import opened Crawler
  import Listing

  const SourceId: string := "d2"
  const Origin: string := "https://d2.naver.com"
  const BaseUrl: string := "https://d2.naver.com/helloworld"

  /** The `h2 a` link of an article: its inner text and `href`. */
  datatype HeadLink = HeadLink(text: string, href: Option<string>)

  /** A `.cont_post` article: its link, and the inner text of its `.post_txt`
      and first `dl dd` (`None` when missing). `raises` marks an article on
      which a DOM call throws. */
  datatype Article = Article(link: Option<HeadLink>, postText: Option<string>,
                             dateText: Option<string>, raises: bool)

  /** What one article contributes before URL deduplication. There is no
      minimum title length here: any non-empty title is kept. */
  function Candidate(a: Article, today: string): (r: Option<Post>)
    ensures r.Some? <==>
      !a.raises && a.link.Some? && a.link.value.href.Some? && a.link.value.href.value != [] &&
      !AllSpace(a.link.value.text)
    ensures r.Some? ==>
      r.value.title == Strip(a.link.value.text) && IsStripped(r.value.title) &&
      r.value.url == MakeAbsoluteUrl(BaseUrl, a.link.value.href.value) && r.value.source == SourceId
    ensures r.Some? ==>
      r.value.summary == (if a.postText.Some? then Strip(a.postText.value) else []) &&
      r.value.date ==
        (if a.dateText.Some? && Strip(a.dateText.value) != [] then Strip(a.dateText.value) else today)
  {
    if a.raises || a.link.None? then None
    else
      StripEmptyIff(a.link.value.text);
      StripFacts(a.link.value.text);
      var title := Strip(a.link.value.text);
      var href := a.link.value.href;
      if href.None? || href.value == [] || title == [] then None
      else
        var summary := if a.postText.Some? then Strip(a.postText.value) else [];
        var date := if a.dateText.Some? then Strip(a.dateText.value) else [];
        Some(MakePost(title, MakeAbsoluteUrl(BaseUrl, href.value), summary, date, SourceId, today))
  }

  /** `D2Crawler.parse_posts` over the articles of the rendered page. */
  method ParsePosts(articles: seq<Article>, today: string) returns (posts: seq<Post>)
    ensures posts == Listing.DedupFirst(Listing.Collect(articles, a => Candidate(a, today)))
  {
    var candidate := a => Candidate(a, today);
    posts := [];
    var seen: set<string> := {};
    var i := 0;
    while i < |articles|
      invariant 0 <= i <= |articles|
      invariant posts == Listing.DedupFirst(Listing.Collect(articles[..i], candidate))
      invariant seen == Listing.Urls(posts)
    {
      var post := Visit(articles[i], seen, today);
      Listing.ListingVisit(articles, i, candidate, posts, post);
      if post.Some? {
        posts := posts + [post.value];
        seen := seen + {post.value.url};
      }
      i := i + 1;
    }
    assert articles[..i] == articles;
  }

  /** The body of the `parse_posts` loop for one article: its post, unless
      it has none or its URL is among `seen`. */
  method Visit(article: Article, seen: set<string>, today: string) returns (post: Option<Post>)
    ensures var c := Candidate(article, today);
      post == if c.Some? && c.value.url !in seen then c else None
  {
    ghost var c := Candidate(article, today);
    post := None;
    if !article.raises && article.link.Some? {
      var title := Strip(article.link.value.text);
      var href := article.link.value.href;
      if href.Some? && href.value != [] && title != [] {
        var url := MakeAbsoluteUrl(BaseUrl, href.value);
        if url !in seen {
          var summary := if article.postText.Some? then Strip(article.postText.value) else [];
          var date := if article.dateText.Some? then Strip(article.dateText.value) else [];
          post := Some(MakePost(title, url, summary, date, SourceId, today));
          assert c == post;
        }
      }
    }
  }

  lemma CandidateFacts(a: Article, today: string, p: Post)
    requires Candidate(a, today) == Some(p)
    ensures p.title != [] && p.source == SourceId
    ensures a.postText.None? ==> p.summary == []
    ensures a.dateText.None? ==> p.date == today
    ensures a.link.Some? && a.link.value.href.Some? &&
      p.url == MakeAbsoluteUrl(BaseUrl, a.link.value.href.value)
  {
  }

  /** D2 posts have distinct URLs from article links, non-empty titles, the
      source `d2`, an empty summary when `.post_txt` is missing and today's
      date when `dl dd` is missing. */
  lemma ParsedFacts(articles: seq<Article>, today: string)
    ensures var posts := Listing.DedupFirst(Listing.Collect(articles, a => Candidate(a, today)));
      Listing.DistinctUrls(posts) &&
      forall p :: p in posts ==>
        p.title != [] && p.source == SourceId &&
        exists i :: 0 <= i < |articles| && Candidate(articles[i], today) == Some(p) &&
          (articles[i].postText.None? ==> p.summary == []) &&
          (articles[i].dateText.None? ==> p.date == today)
  {
    var candidate := a => Candidate(a, today);
    var ps := Listing.Collect(articles, candidate);
    Listing.DedupDistinct(ps);
    forall p | p in Listing.DedupFirst(ps)
      ensures p.title != [] && p.source == SourceId &&
        exists i :: 0 <= i < |articles| && Candidate(articles[i], today) == Some(p) &&
          (articles[i].postText.None? ==> p.summary == []) &&
          (articles[i].dateText.None? ==> p.date == today)
    {
      Listing.ListedFrom(articles, candidate, p);
      var i :| 0 <= i < |articles| && candidate(articles[i]) == Some(p);
      CandidateFacts(articles[i], today, p);
    }
  }

  /** A root-relative href on the D2 blog resolves to `https://d2.naver.com`
      followed by the href, the join the standalone D2 script writes out. */
  lemma RootRelativeUrl(href: string)
    requires StartsWith(href, "/")
    ensures MakeAbsoluteUrl(BaseUrl, href) == Origin + href
  {
    var scheme, host, path := "https", "d2.naver.com", "/helloworld";
    HttpsIsLowerScheme(scheme);
    assert forall i :: 0 <= i < |host| ==> host[i] !in {'/', '?', '#'};
    BaseSplits(scheme, host, path);
    AbsoluteOfRootRelative(scheme, host, path, href);
  }

  lemma BaseSplits(scheme: string, host: string, path: string)
    requires scheme == "https" && host == "d2.naver.com" && path == "/helloworld"
    ensures BaseUrl == scheme + "://" + host + path && Origin == scheme + "://" + host
  {
  }
}

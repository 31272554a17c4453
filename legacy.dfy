/**
 * `d2_to_notion_complete.py`: the earlier single-file pipeline for the D2
 * blog alone. It crawls, filters against the cache file, publishes, and
 * appends each published URL to the cache file, without the cache class.
 */
module Legacy {
  import opened Wrappers
  import opened Text
  import opened Crawler
  import Listing
  import Notion
  import Cache
  import Pipeline
  import D2

  /** `posts[:10]`. */
  const MaxFetched: nat := 10
  /** The tag every page gets. */
  const Tag: string := "Articles"
  /** `WEBLINKS_DATA_SOURCE_ID`. */
  const DataSourceId: string := "89728ea5-acb0-423c-b047-14ef6ce4ca83"

  /** The script's own href join: a root-relative href is appended to the
      D2 origin, anything else is kept. */
  function AbsoluteUrl(href: string): (r: string)
    ensures !StartsWith(href, "/") ==> r == href
    ensures StartsWith(href, "/") ==> StartsWith(r, D2.Origin) && r[|D2.Origin|..] == href
  {
    if StartsWith(href, "/") then D2.Origin + href else href
  }

  /** The hand-written join agrees with the crawler's `_make_absolute_url`
      against the D2 listing URL, for every href. */
  lemma UrlAgreesWithCrawler(href: string)
    ensures AbsoluteUrl(href) == MakeAbsoluteUrl(D2.BaseUrl, href)
  {
    if StartsWith(href, "/") {
      D2.RootRelativeUrl(href);
    } else {
      AbsoluteKeepsOthers(D2.BaseUrl, href);
    }
  }

  /** What one `.cont_post` article contributes before deduplication. The
      date is the stripped `dl dd` text when the element exists (possibly
      empty) and today only when it does not. The dictionaries of this
      script have no `source`; the field is left empty. */
  function Candidate(a: D2.Article, today: string): (r: Option<Post>)
    ensures r.Some? <==>
      !a.raises && a.link.Some? && a.link.value.href.Some? && a.link.value.href.value != [] &&
      Strip(a.link.value.text) != []
    ensures r.Some? ==>
      r.value.title == Strip(a.link.value.text) && r.value.url == AbsoluteUrl(a.link.value.href.value) &&
      r.value.source == [] &&
      r.value.summary == (if a.postText.Some? then Strip(a.postText.value) else []) &&
      r.value.date == (if a.dateText.Some? then Strip(a.dateText.value) else today)
  {
    if a.raises || a.link.None? then None
    else
      var title := Strip(a.link.value.text);
      var href := a.link.value.href;
      if href.None? || href.value == [] || title == [] then None
      else
        var summary := if a.postText.Some? then Strip(a.postText.value) else [];
        var date := if a.dateText.Some? then Strip(a.dateText.value) else today;
        Some(Post(title, AbsoluteUrl(href.value), summary, date, []))
  }

  /** The script and the D2 crawler take the same articles, with the same
      title, URL and summary; their dates differ only when `dl dd` exists
      but is blank, where the crawler falls back to today and the script
      keeps `''`. */
  lemma CandidateAgrees(a: D2.Article, today: string)
    ensures Candidate(a, today).Some? <==> D2.Candidate(a, today).Some?
    ensures Candidate(a, today).Some? ==>
      var p, q := Candidate(a, today).value, D2.Candidate(a, today).value;
      p.title == q.title && p.url == q.url && p.summary == q.summary &&
      q.date == (if p.date == [] then today else p.date)
  {
    if Candidate(a, today).Some? {
      UrlAgreesWithCrawler(a.link.value.href.value);
    }
  }

  /** The four-key dictionary the script builds for a post. */
  function Dict(p: Post): (d: PostDict)
    ensures "title" in d && "url" in d && "summary" in d && "date" in d && "source" !in d
    ensures d["title"] == p.title && d["url"] == p.url
    ensures d["summary"] == p.summary && d["date"] == p.date
  {
    map["title" := p.title, "url" := p.url, "summary" := p.summary, "date" := p.date]
  }

  function Dicts(ps: seq<Post>): (ds: seq<PostDict>)
    ensures |ds| == |ps|
    ensures forall i :: 0 <= i < |ps| ==> ds[i] == Dict(ps[i])
    ensures forall d :: d in ds ==> "title" in d && "url" in d
  {
    if ps == [] then [] else [Dict(ps[0])] + Dicts(ps[1..])
  }

  /** The posts `fetch_d2_posts` returns; `None` stands for a page that
      could not be loaded, where the function answers `[]`. */
  function Fetched(page: Option<seq<D2.Article>>, today: string): (ps: seq<Post>)
    ensures |ps| <= MaxFetched
    ensures page.None? ==> ps == []
    ensures Listing.DistinctUrls(ps)
  {
    match page
    case None => []
    case Some(articles) =>
      Listing.DedupDistinct(Listing.Collect(articles, a => Candidate(a, today)));
      Take(Listing.DedupFirst(Listing.Collect(articles, a => Candidate(a, today))), MaxFetched)
  }

  /** `fetch_d2_posts`: a page that failed to load gives `[]`; otherwise the
      first ten posts of the article loop. */
  method FetchD2Posts(page: Option<seq<D2.Article>>, today: string) returns (posts: seq<PostDict>)
    ensures posts == Dicts(Fetched(page, today))
  {
    if page.None? {
      return [];
    }
    var parsed := ParseArticles(page.value, today);
    posts := Dicts(Take(parsed, MaxFetched));
  }

  /** The article loop of `fetch_d2_posts`. */
  method ParseArticles(articles: seq<D2.Article>, today: string) returns (parsed: seq<Post>)
    ensures parsed == Listing.DedupFirst(Listing.Collect(articles, a => Candidate(a, today)))
  {
    var candidate := a => Candidate(a, today);
    parsed := [];
    var seen: set<string> := {};
    var i := 0;
    while i < |articles|
      invariant 0 <= i <= |articles|
      invariant parsed == Listing.DedupFirst(Listing.Collect(articles[..i], candidate))
      invariant seen == Listing.Urls(parsed)
    {
      var post := Visit(articles[i], seen, today);
      Listing.ListingVisit(articles, i, candidate, parsed, post);
      if post.Some? {
        parsed := parsed + [post.value];
        seen := seen + {post.value.url};
      }
      i := i + 1;
    }
    assert articles[..i] == articles;
  }

  /** The body of the article loop for one article: its post, unless it has
      none or its URL is among `seen`. */
  method Visit(article: D2.Article, seen: set<string>, today: string) returns (post: Option<Post>)
    ensures var c := Candidate(article, today);
      post == if c.Some? && c.value.url !in seen then c else None
  {
    ghost var c := Candidate(article, today);
    post := None;
    if !article.raises && article.link.Some? {
      var title := Strip(article.link.value.text);
      var href := article.link.value.href;
      if href.Some? && href.value != [] && title != [] {
        var url := AbsoluteUrl(href.value);
        if url !in seen {
          var summary := if article.postText.Some? then Strip(article.postText.value) else [];
          var date := if article.dateText.Some? then Strip(article.dateText.value) else today;
          post := Some(Post(title, url, summary, date, []));
          assert c == post;
        }
      }
    }
  }

  /** At most ten posts, with distinct URLs, each the candidate of one
      article; a post whose article has no `dl dd` is dated today. */
  lemma FetchedFacts(page: Option<seq<D2.Article>>, today: string)
    ensures var ps := Fetched(page, today);
      |ps| <= MaxFetched && Listing.DistinctUrls(ps) &&
      (page.None? ==> ps == []) &&
      forall p :: p in ps ==>
        p.title != [] &&
        exists i :: 0 <= i < |page.value| && Candidate(page.value[i], today) == Some(p) &&
          (page.value[i].dateText.None? ==> p.date == today)
  {
    if page.Some? {
      var articles := page.value;
      var candidate := a => Candidate(a, today);
      var all := Listing.DedupFirst(Listing.Collect(articles, candidate));
      var ps := Fetched(page, today);
      Listing.DedupDistinct(Listing.Collect(articles, candidate));
      assert ps == all[..|ps|];
      forall p | p in ps
        ensures p.title != [] &&
          exists i :: 0 <= i < |articles| && Candidate(articles[i], today) == Some(p) &&
            (articles[i].dateText.None? ==> p.date == today)
      {
        assert p in all;
        Listing.ListedFrom(articles, candidate, p);
        var i :| 0 <= i < |articles| && candidate(articles[i]) == Some(p);
      }
    }
  }

  /** `create_notion_page`: with no token nothing is sent and the answer is
      `False`; otherwise the payload is sent and the answer is whether the
      request succeeded. */
  function CreateNotionPage(token: string, title: string, url: string, dataSourceId: string,
                            summary: string, date: string, accepted: bool): (a: Notion.Attempt)
    ensures token == [] ==> a == Notion.Attempt(None, false)
    ensures token != [] ==>
      a.request == Some(Notion.BuildPagePayload(dataSourceId, title, url, summary, date, Tag))
    ensures a.ok <==> token != [] && accepted
  {
    if token == [] then Notion.Attempt(None, false)
    else Notion.Attempt(Some(Notion.BuildPagePayload(dataSourceId, title, url, summary, date, Tag)), accepted)
  }

  /** The script's page creation is the client's `create_page` with the
      default tag. */
  lemma CreateAgrees(token: string, title: string, url: string, dataSourceId: string,
                     summary: string, date: string, accepted: bool)
    ensures CreateNotionPage(token, title, url, dataSourceId, summary, date, accepted) ==
      Notion.CreatePage(Notion.Client(token), title, url, dataSourceId, summary, date,
                        Notion.DefaultTag, accepted)
  {
  }

  /** `save_to_cache`: appends the URL as one more line, whether or not the
      file already holds it, creating the file if needed. */
  function SaveToCache(file: Option<seq<string>>, url: string): (r: Option<seq<string>>)
    ensures r.Some? && |Cache.FileLines(r)| == |Cache.FileLines(file)| + 1
    ensures Cache.FileLines(r)[..|Cache.FileLines(file)|] == Cache.FileLines(file)
    ensures Cache.FileLines(r)[|Cache.FileLines(file)|] == url
  {
    Some(Cache.FileLines(file) + [url])
  }

  /** Reading the file back after `save_to_cache` adds what the new line
      reads as, even when the URL was already there. A URL with a line
      break would be written as several lines, so it is excluded. */
  lemma SaveToCacheReload(file: Option<seq<string>>, url: string)
    requires '\n' !in url && '\r' !in url
    ensures Cache.LoadFile(SaveToCache(file, url)) == Cache.LoadFile(file) + Cache.LineUrls(url)
  {
    Cache.LoadedAppend(Cache.FileLines(file), url);
  }

  /** The publish loop of `main`: every post is sent; a confirmed one is
      appended to the cache file and counted. */
  method PublishAll(newPosts: seq<PostDict>, token: string, accepted: seq<bool>,
                    file: Option<seq<string>>)
    returns (added: nat, attempts: seq<Notion.Attempt>, saved: Option<seq<string>>)
    requires |accepted| == |newPosts| && forall p :: p in newPosts ==> Pipeline.Publishable(p)
    ensures attempts == Pipeline.Attempts(Notion.Client(token), newPosts, accepted)
    ensures added == Pipeline.Count(attempts)
    ensures saved == Pipeline.WithLines(file, Pipeline.SuccessUrls(newPosts, attempts))
  {
    added := 0;
    attempts := [];
    saved := file;
    var i := 0;
    while i < |newPosts|
      invariant Sent(newPosts, token, accepted, file, i, attempts, added, saved)
    {
      attempts, added, saved := SendOne(newPosts, token, accepted, file, i, attempts, added, saved);
      i := i + 1;
    }
    assert newPosts[..i] == newPosts && accepted[..i] == accepted;
  }

  /** The state of the publish loop after the first `i` posts: the attempts
      so far, how many were confirmed, and the cache file with their URLs. */
  ghost predicate Sent(posts: seq<PostDict>, token: string, accepted: seq<bool>,
                       file: Option<seq<string>>, i: nat, attempts: seq<Notion.Attempt>,
                       added: nat, saved: Option<seq<string>>)
  {
    |accepted| == |posts| && (forall p :: p in posts ==> Pipeline.Publishable(p)) &&
    i <= |posts| &&
    attempts == Pipeline.Attempts(Notion.Client(token), posts[..i], accepted[..i]) &&
    added == Pipeline.Count(attempts) &&
    saved == Pipeline.WithLines(file, Pipeline.SuccessUrls(posts[..i], attempts))
  }

  /** One iteration of the publish loop: send the post and, once confirmed,
      append its URL to the cache file. */
  method SendOne(posts: seq<PostDict>, token: string, accepted: seq<bool>,
                 ghost file: Option<seq<string>>, i: nat, attempts: seq<Notion.Attempt>,
                 added: nat, saved: Option<seq<string>>)
    returns (attempts': seq<Notion.Attempt>, added': nat, saved': Option<seq<string>>)
    requires i < |posts| && Sent(posts, token, accepted, file, i, attempts, added, saved)
    ensures Sent(posts, token, accepted, file, i + 1, attempts', added', saved')
  {
    var post := posts[i];
    assert post in posts;
    var attempt := PublishPost(post, token, accepted[i]);
    if attempt.ok {
      saved' := SaveToCache(saved, post["url"]);
      added' := added + 1;
    } else {
      saved' := saved;
      added' := added;
    }
    PublishStep(posts, token, accepted, file, i, attempts, saved, saved');
    attempts' := attempts + [attempt];
  }

  /** One `create_notion_page` call of the publish loop; it is the
      pipeline's publish of the same post. */
  method PublishPost(post: PostDict, token: string, accepted: bool) returns (attempt: Notion.Attempt)
    requires Pipeline.Publishable(post)
    ensures attempt == Pipeline.Publish(Notion.Client(token), post, accepted)
  {
    attempt := CreateNotionPage(token, post["title"], post["url"], DataSourceId,
      Pipeline.Get(post, "summary", ""), Pipeline.Get(post, "date", ""), accepted);
    CreateAgrees(token, post["title"], post["url"], DataSourceId,
      Pipeline.Get(post, "summary", ""), Pipeline.Get(post, "date", ""), accepted);
  }

  lemma PublishStep(posts: seq<PostDict>, token: string, accepted: seq<bool>,
                    file: Option<seq<string>>, i: nat, attempts: seq<Notion.Attempt>,
                    before: Option<seq<string>>, after: Option<seq<string>>)
    requires |accepted| == |posts| && i < |posts| && forall p :: p in posts ==> Pipeline.Publishable(p)
    requires attempts == Pipeline.Attempts(Notion.Client(token), posts[..i], accepted[..i])
    requires before == Pipeline.WithLines(file, Pipeline.SuccessUrls(posts[..i], attempts))
    requires posts[i] in posts
    requires var a := Pipeline.Publish(Notion.Client(token), posts[i], accepted[i]);
      after == if a.ok then SaveToCache(before, posts[i]["url"]) else before
    ensures var a := Pipeline.Publish(Notion.Client(token), posts[i], accepted[i]);
      attempts + [a] == Pipeline.Attempts(Notion.Client(token), posts[..i + 1], accepted[..i + 1]) &&
      after == Pipeline.WithLines(file, Pipeline.SuccessUrls(posts[..i + 1], attempts + [a])) &&
      Pipeline.Count(attempts + [a]) == Pipeline.Count(attempts) + (if a.ok then 1 else 0)
  {
    var a := Pipeline.Publish(Notion.Client(token), posts[i], accepted[i]);
    var succ := Pipeline.SuccessUrls(posts[..i], attempts);
    var url := posts[i]["url"];
    Pipeline.AttemptsStep(Notion.Client(token), posts, accepted, i);
    Pipeline.SuccessStep(posts, attempts, i, a);
    assert (attempts + [a])[..|attempts|] == attempts;
    var next := Pipeline.SuccessUrls(posts[..i + 1], attempts + [a]);
    if a.ok {
      assert next == succ + [url];
      Pipeline.WithLinesStep(file, succ, url);
      assert after == Some(Cache.FileLines(before) + [url]);
      assert after == Pipeline.WithLines(file, next);
    } else {
      assert next == succ;
    }
  }

  /** `main`: load the cache file, crawl, filter, publish; it returns early
      when nothing was crawled or nothing is new. */
  method Run(file: Option<seq<string>>, page: Option<seq<D2.Article>>, today: string,
              token: string, accepted: seq<bool>)
    returns (outcome: Pipeline.RunOutcome, attempts: seq<Notion.Attempt>, saved: Option<seq<string>>)
    requires |accepted| >= MaxFetched
    ensures outcome.NoPosts? <==> Fetched(page, today) == []
    ensures !outcome.Done? ==> attempts == [] && saved == file
    ensures outcome.NoNewPosts? ==>
      Pipeline.FilterNewPosts(Dicts(Fetched(page, today)), Cache.LoadFile(file)) == []
    ensures outcome.Done? ==>
      var newPosts := Pipeline.FilterNewPosts(Dicts(Fetched(page, today)), Cache.LoadFile(file));
      newPosts != [] && outcome.total == |newPosts| &&
      attempts == Pipeline.Attempts(Notion.Client(token), newPosts, accepted[..|newPosts|]) &&
      outcome.added == Pipeline.Count(attempts) &&
      saved == Pipeline.WithLines(file, Pipeline.SuccessUrls(newPosts, attempts))
  {
    var cached := Cache.LoadFile(file);
    var posts := FetchD2Posts(page, today);
    if posts == [] {
      return Pipeline.NoPosts, [], file;
    }
    var newPosts := Pipeline.FilterNewPosts(posts, cached);
    if newPosts == [] {
      return Pipeline.NoNewPosts, [], file;
    }
    FetchedFacts(page, today);
    var added;
    added, attempts, saved := PublishAll(newPosts, token, accepted[..|newPosts|], file);
    outcome := Pipeline.Done(added, |newPosts|);
  }

  /** Every line the script appends is a URL that was not in the cache file
      when the run began and whose publish was confirmed. */
  lemma AppendsOnlyNew(posts: seq<PostDict>, file: Option<seq<string>>,
                       attempts: seq<Notion.Attempt>, u: string)
    requires forall p :: p in posts ==> "title" in p && "url" in p
    requires |attempts| == |Pipeline.FilterNewPosts(posts, Cache.LoadFile(file))|
    requires u in Pipeline.SuccessUrls(Pipeline.FilterNewPosts(posts, Cache.LoadFile(file)), attempts)
    ensures u !in Cache.LoadFile(file)
    ensures exists i :: 0 <= i < |attempts| && attempts[i].ok
  {
    var newPosts := Pipeline.FilterNewPosts(posts, Cache.LoadFile(file));
    Pipeline.SuccessUrlsIff(newPosts, attempts, u);
    var i :| 0 <= i < |newPosts| && newPosts[i] in newPosts && attempts[i].ok && newPosts[i]["url"] == u;
  }
}

/**
 * `main.py`: one run of the ingestion pipeline. Posts of every registered
 * crawler are concatenated, the ones whose URL is cached are dropped, and
 * each remaining post is published; its URL is cached only once the
 * publish is confirmed.
 */
module Pipeline {
  import opened Wrappers
  import opened Crawler
  import Listing
  import Text
  import Notion
  import Cache

  /** The registered crawlers, in the order `crawl_all_blogs` runs them. */
  const Registry: seq<string> :=
    ["d2", "kakao", "toss", "daangn", "gccompany", "wanted", "coupang", "ridi"]

  /** A post dictionary the publish loop can read: it has a title and a URL. */
  predicate Publishable(p: PostDict) {
    "title" in p && "url" in p
  }

  /** The results of the crawlers, one after the other. */
  function Flatten(results: seq<seq<PostDict>>): (all: seq<PostDict>)
    ensures results == [] ==> all == []
    ensures results != [] ==>
      |all| >= |results[|results| - 1]| && all[|all| - |results[|results| - 1]|..] == results[|results| - 1]
  {
    if results == [] then []
    else Flatten(results[..|results| - 1]) + results[|results| - 1]
  }

  /** A post is in the concatenation exactly when some crawler returned it,
      and the concatenation is empty exactly when every result is. */
  lemma {:induction false} FlattenMembers(results: seq<seq<PostDict>>)
    ensures forall p :: p in Flatten(results) <==> exists i :: 0 <= i < |results| && p in results[i]
    ensures Flatten(results) == [] <==> forall i :: 0 <= i < |results| ==> results[i] == []
  {
    if results != [] {
      var init := results[..|results| - 1];
      FlattenMembers(init);
      assert forall i :: 0 <= i < |init| ==> init[i] == results[i];
      forall p | p in Flatten(results)
        ensures exists i :: 0 <= i < |results| && p in results[i]
      {
        if p !in Flatten(init) {
          assert p in results[|results| - 1];
        }
      }
    }
  }

  /** `crawl_all_blogs`: each crawler's posts, extended in registry order;
      a crawler with no posts adds nothing. */
  method CrawlAllBlogs(results: seq<seq<PostDict>>) returns (all: seq<PostDict>)
    requires |results| == |Registry|
    ensures all == Flatten(results)
  {
    all := [];
    var i := 0;
    while i < |results|
      invariant 0 <= i <= |results|
      invariant all == Flatten(results[..i])
    {
      assert results[..i + 1][..i] == results[..i];
      var posts := results[i];
      if posts != [] {
        all := all + posts;
      } else {
        assert Flatten(results[..i + 1]) == Flatten(results[..i]) + [];
      }
      i := i + 1;
    }
    assert results[..i] == results;
  }

  /** `filter_new_posts`: the posts whose URL is not cached, in order. */
  function FilterNewPosts(posts: seq<PostDict>, cached: set<string>): (r: seq<PostDict>)
    requires forall p :: p in posts ==> "url" in p
    ensures |r| <= |posts|
    ensures forall p :: p in r <==> p in posts && p["url"] !in cached
  {
    if posts == [] then []
    else
      var init := FilterNewPosts(posts[..|posts| - 1], cached);
      var last := posts[|posts| - 1];
      assert forall p :: p in posts <==> p in posts[..|posts| - 1] || p == last;
      if last["url"] !in cached then init + [last] else init
  }

  /** Which posts `filter_new_posts` keeps. */
  function NewMask(posts: seq<PostDict>, cached: set<string>): (m: seq<bool>)
    requires forall p :: p in posts ==> "url" in p
    ensures |m| == |posts|
    ensures forall i :: 0 <= i < |posts| ==> (m[i] <==> posts[i]["url"] !in cached)
  {
    seq(|posts|, i requires 0 <= i < |posts| => posts[i]["url"] !in cached)
  }

  /** The filter keeps order: it is the subsequence of the posts selected
      by the uncached flags. */
  lemma {:induction false} FilterIsSubsequence(posts: seq<PostDict>, cached: set<string>)
    requires forall p :: p in posts ==> "url" in p
    ensures FilterNewPosts(posts, cached) == Listing.Select(posts, NewMask(posts, cached))
  {
    if posts != [] {
      var init := posts[..|posts| - 1];
      FilterIsSubsequence(init, cached);
      assert NewMask(posts, cached)[..|posts| - 1] == NewMask(init, cached);
    }
  }

  /** When every URL is cached there is nothing new; and nothing cached
      comes back from the filter. */
  lemma {:induction false} AllCachedNothingNew(posts: seq<PostDict>, cached: set<string>)
    requires forall p :: p in posts ==> "url" in p && p["url"] in cached
    ensures FilterNewPosts(posts, cached) == []
  {
    if posts != [] {
      AllCachedNothingNew(posts[..|posts| - 1], cached);
    }
  }

  /** `d.get(key, default)`. */
  function Get(d: PostDict, key: string, default: string): string {
    if key in d then d[key] else default
  }

  /** The `create_page` call the loop makes for one post, with the default
      database and tag; `accepted` is whether the API answered. */
  function Publish(client: Notion.Client, post: PostDict, accepted: bool): (a: Notion.Attempt)
    requires Publishable(post)
    ensures a.ok <==> client.token != [] && accepted
    ensures a.request.Some? ==> a.request.value.properties.url == post["url"]
  {
    Notion.CreatePage(client, post["title"], post["url"], Notion.WeblinksDatabaseId,
      Get(post, "summary", ""), Get(post, "date", ""), Notion.DefaultTag, accepted)
  }

  /** The `create_page` call for each post, in order. */
  function Attempts(client: Notion.Client, posts: seq<PostDict>, accepted: seq<bool>): (attempts: seq<Notion.Attempt>)
    requires |accepted| == |posts| && forall p :: p in posts ==> Publishable(p)
    ensures |attempts| == |posts|
    ensures forall i :: 0 <= i < |posts| ==> attempts[i] == Publish(client, posts[i], accepted[i])
  {
    if posts == [] then []
    else
      var n := |posts| - 1;
      assert forall p :: p in posts[..n] ==> p in posts;
      assert posts[n] in posts && Publishable(posts[n]);
      Attempts(client, posts[..n], accepted[..n]) + [Publish(client, posts[n], accepted[n])]
  }

  lemma AttemptsStep(client: Notion.Client, posts: seq<PostDict>, accepted: seq<bool>, i: nat)
    requires |accepted| == |posts| && i < |posts| && forall p :: p in posts ==> Publishable(p)
    ensures posts[i] in posts
    ensures Attempts(client, posts[..i + 1], accepted[..i + 1]) ==
      Attempts(client, posts[..i], accepted[..i]) + [Publish(client, posts[i], accepted[i])]
  {
    assert posts[i] in posts;
    assert forall p :: p in posts[..i + 1] ==> p in posts;
  }

  /** The number of confirmed publishes. */
  function Count(attempts: seq<Notion.Attempt>): nat {
    if attempts == [] then 0
    else Count(attempts[..|attempts| - 1]) + (if attempts[|attempts| - 1].ok then 1 else 0)
  }

  lemma {:induction false} CountBound(attempts: seq<Notion.Attempt>)
    ensures Count(attempts) <= |attempts|
    ensures Count(attempts) == |attempts| <==> forall i :: 0 <= i < |attempts| ==> attempts[i].ok
    ensures Count(attempts) == 0 <==> forall i :: 0 <= i < |attempts| ==> !attempts[i].ok
  {
    if attempts != [] {
      var init := attempts[..|attempts| - 1];
      CountBound(init);
      assert forall i :: 0 <= i < |init| ==> init[i] == attempts[i];
    }
  }

  /** The URLs of the posts, in order. */
  function PostUrls(posts: seq<PostDict>): (us: seq<string>)
    requires forall p :: p in posts ==> Publishable(p)
    ensures |us| == |posts|
    ensures forall i :: 0 <= i < |posts| ==> posts[i] in posts && Publishable(posts[i]) && us[i] == posts[i]["url"]
  {
    if posts == [] then []
    else
      var n := |posts| - 1;
      assert forall p :: p in posts[..n] ==> p in posts;
      assert posts[n] in posts && Publishable(posts[n]);
      PostUrls(posts[..n]) + [posts[n]["url"]]
  }

  /** The URLs whose attempt was confirmed, in order. */
  function Confirmed(urls: seq<string>, attempts: seq<Notion.Attempt>): (us: seq<string>)
    requires |attempts| == |urls|
    ensures |us| == Count(attempts)
  {
    if urls == [] then []
    else
      var n := |urls| - 1;
      Confirmed(urls[..n], attempts[..n]) + (if attempts[n].ok then [urls[n]] else [])
  }

  /** A URL is confirmed exactly when an attempt for it was. */
  lemma {:induction false} ConfirmedIff(urls: seq<string>, attempts: seq<Notion.Attempt>, u: string)
    requires |attempts| == |urls|
    ensures u in Confirmed(urls, attempts) <==>
      exists i :: 0 <= i < |urls| && attempts[i].ok && urls[i] == u
  {
    if urls != [] {
      var n := |urls| - 1;
      var init, tried := urls[..n], attempts[..n];
      ConfirmedIff(init, tried, u);
      if u in Confirmed(urls, attempts) && u in Confirmed(init, tried) {
        var i :| 0 <= i < n && tried[i].ok && init[i] == u;
        assert urls[i] == init[i] && attempts[i] == tried[i];
      }
      if exists i :: 0 <= i < |urls| && attempts[i].ok && urls[i] == u {
        var i :| 0 <= i < |urls| && attempts[i].ok && urls[i] == u;
        if i < n {
          assert init[i] == urls[i] && tried[i] == attempts[i];
        }
      }
    }
  }

  /** The URLs of the posts whose publish was confirmed, in order. */
  function SuccessUrls(posts: seq<PostDict>, attempts: seq<Notion.Attempt>): (us: seq<string>)
    requires |attempts| == |posts| && forall p :: p in posts ==> Publishable(p)
    ensures |us| == Count(attempts)
  {
    Confirmed(PostUrls(posts), attempts)
  }

  /** A URL is among the successes exactly when some post with that URL was
      confirmed. */
  lemma SuccessUrlsIff(posts: seq<PostDict>, attempts: seq<Notion.Attempt>, u: string)
    requires |attempts| == |posts| && forall p :: p in posts ==> Publishable(p)
    ensures u in SuccessUrls(posts, attempts) <==>
      exists i :: 0 <= i < |posts| && posts[i] in posts && attempts[i].ok && posts[i]["url"] == u
  {
    ConfirmedIff(PostUrls(posts), attempts, u);
  }

  function UrlSet(us: seq<string>): set<string> {
    set u | u in us
  }

  /** The lines `cache.add` appends for `us`, starting from the cached
      set `known`: each URL not yet seen, once. */
  function Appended(known: set<string>, us: seq<string>): seq<string> {
    if us == [] then []
    else
      var init := us[..|us| - 1];
      var u := us[|us| - 1];
      Appended(known, init) + (if u in known + UrlSet(init) then [] else [u])
  }

  /** The appended lines are exactly the new URLs, each one once: a URL
      confirmed twice is stored once, and a cached one is not stored again. */
  lemma {:induction false} AppendedFacts(known: set<string>, us: seq<string>)
    ensures forall u :: u in Appended(known, us) <==> u in us && u !in known
    ensures forall i, j :: 0 <= i < j < |Appended(known, us)| ==>
      Appended(known, us)[i] != Appended(known, us)[j]
  {
    if us != [] {
      var init := us[..|us| - 1];
      var u := us[|us| - 1];
      AppendedFacts(known, init);
      assert forall v :: v in us <==> v in init || v == u;
      var a := Appended(known, us);
      var b := Appended(known, init);
      if u !in known + UrlSet(init) {
        assert a == b + [u];
        assert u !in b;
        forall i, j | 0 <= i < j < |a| ensures a[i] != a[j] {
          if j == |b| {
            assert a[i] == b[i] && b[i] in b;
          } else {
            assert a[i] == b[i] && a[j] == b[j];
          }
        }
      }
    }
  }

  /** `add_to_notion`: publishes every post in order; a confirmed publish
      adds the post's URL to the cache and counts towards `added`, a failed
      one leaves the cache alone. */
  method AddToNotion(posts: seq<PostDict>, client: Notion.Client, accepted: seq<bool>,
                     cache: Cache.URLCache) returns (added: nat, attempts: seq<Notion.Attempt>)
    requires |accepted| == |posts| && forall p :: p in posts ==> Publishable(p)
    requires cache.Valid()
    modifies cache
    ensures cache.Valid()
    ensures |attempts| == |posts|
    ensures attempts == Attempts(client, posts, accepted)
    ensures added == Count(attempts)
    ensures cache.Contents() == old(cache.Contents()) + UrlSet(SuccessUrls(posts, attempts))
    ensures cache.file == WithLines(old(cache.file), Appended(old(cache.Contents()), SuccessUrls(posts, attempts)))
  {
    ghost var known := cache.Contents();
    ghost var file0 := cache.file;
    ghost var succ: seq<string> := [];
    added := 0;
    attempts := [];
    var i := 0;
    while i < |posts|
      invariant i <= |posts| && cache.Valid()
      invariant Progress(client, posts, accepted, known, file0, i, attempts, succ, added,
                         cache.Contents(), cache.file)
    {
      attempts, succ, added := Advance(client, posts, accepted, known, file0, i, attempts, succ, added, cache);
      i := i + 1;
    }
    ProgressDone(client, posts, accepted, known, file0, attempts, succ, added,
                 cache.Contents(), cache.file);
  }

  /** One iteration of the loop of `add_to_notion`, carrying its state forward. */
  method Advance(client: Notion.Client, posts: seq<PostDict>, accepted: seq<bool>,
                 ghost known: set<string>, ghost file0: Option<seq<string>>, i: nat,
                 attempts: seq<Notion.Attempt>, ghost succ: seq<string>, added: nat,
                 cache: Cache.URLCache)
    returns (attempts': seq<Notion.Attempt>, ghost succ': seq<string>, added': nat)
    requires i < |posts| && cache.Valid()
    requires Progress(client, posts, accepted, known, file0, i, attempts, succ, added,
                      cache.Contents(), cache.file)
    modifies cache
    ensures cache.Valid()
    ensures Progress(client, posts, accepted, known, file0, i + 1, attempts', succ', added',
                     cache.Contents(), cache.file)
  {
    var post := posts[i];
    assert post in posts;
    ghost var contents := cache.Contents();
    ghost var file := cache.file;
    var attempt := PublishOne(post, client, accepted[i], cache);
    ProgressStep(client, posts, accepted, known, file0, i, attempts, succ, added,
                 contents, file, attempt, cache.Contents(), cache.file);
    attempts' := attempts + [attempt];
    if attempt.ok {
      added' := added + 1;
      succ' := succ + [post["url"]];
    } else {
      added' := added;
      succ' := succ;
    }
  }

  /** The loop state of `add_to_notion` after the first `i` posts: the
      attempts made so far, the confirmed URLs, the count, and the cache's
      set and file. */
  ghost predicate Progress(client: Notion.Client, posts: seq<PostDict>, accepted: seq<bool>,
                           known: set<string>, file0: Option<seq<string>>, i: nat,
                           attempts: seq<Notion.Attempt>, succ: seq<string>, added: nat,
                           contents: set<string>, file: Option<seq<string>>)
  {
    |accepted| == |posts| && (forall p :: p in posts ==> Publishable(p)) &&
    i <= |posts| &&
    attempts == Attempts(client, posts[..i], accepted[..i]) &&
    succ == SuccessUrls(posts[..i], attempts) &&
    added == |succ| &&
    contents == known + UrlSet(succ) &&
    file == WithLines(file0, Appended(known, succ))
  }

  lemma ProgressStep(client: Notion.Client, posts: seq<PostDict>, accepted: seq<bool>,
                     known: set<string>, file0: Option<seq<string>>, i: nat,
                     attempts: seq<Notion.Attempt>, succ: seq<string>, added: nat,
                     contents: set<string>, file: Option<seq<string>>,
                     attempt: Notion.Attempt, contents': set<string>, file': Option<seq<string>>)
    requires |accepted| == |posts| && forall p :: p in posts ==> Publishable(p)
    requires i < |posts|
    requires Progress(client, posts, accepted, known, file0, i, attempts, succ, added, contents, file)
    requires posts[i] in posts && attempt == Publish(client, posts[i], accepted[i])
    requires attempt.ok ==> contents' == contents + {posts[i]["url"]}
    requires attempt.ok && posts[i]["url"] in contents ==> file' == file
    requires attempt.ok && posts[i]["url"] !in contents ==>
      file' == Some(Cache.FileLines(file) + [posts[i]["url"]])
    requires !attempt.ok ==> contents' == contents && file' == file
    ensures Progress(client, posts, accepted, known, file0, i + 1, attempts + [attempt],
                     if attempt.ok then succ + [posts[i]["url"]] else succ,
                     if attempt.ok then added + 1 else added, contents', file')
  {
    var url := posts[i]["url"];
    SuccessStep(posts, attempts, i, attempt);
    AttemptsStep(client, posts, accepted, i);
    if attempt.ok {
      AppendedStep(known, succ, url);
      WithLinesStep(file0, Appended(known, succ), url);
      if url in contents {
        assert Appended(known, succ + [url]) == Appended(known, succ);
      } else {
        assert Appended(known, succ + [url]) == Appended(known, succ) + [url];
      }
    }
  }

  lemma ProgressDone(client: Notion.Client, posts: seq<PostDict>, accepted: seq<bool>,
                     known: set<string>, file0: Option<seq<string>>,
                     attempts: seq<Notion.Attempt>, succ: seq<string>, added: nat,
                     contents: set<string>, file: Option<seq<string>>)
    requires |accepted| == |posts| && forall p :: p in posts ==> Publishable(p)
    requires Progress(client, posts, accepted, known, file0, |posts|, attempts, succ, added, contents, file)
    ensures attempts == Attempts(client, posts, accepted)
    ensures added == Count(attempts) && succ == SuccessUrls(posts, attempts)
    ensures contents == known + UrlSet(succ)
    ensures file == WithLines(file0, Appended(known, succ))
  {
    assert posts[..|posts|] == posts && accepted[..|posts|] == accepted;
  }

  /** The cache file after `lines` were appended to it; appending nothing
      leaves a missing file missing. */
  function WithLines(file: Option<seq<string>>, lines: seq<string>): (r: Option<seq<string>>)
    ensures Cache.FileLines(r) == Cache.FileLines(file) + lines
    ensures lines != [] ==> r.Some?
  {
    if lines == [] then file else Some(Cache.FileLines(file) + lines)
  }

  lemma WithLinesStep(file: Option<seq<string>>, lines: seq<string>, u: string)
    ensures Some(Cache.FileLines(WithLines(file, lines)) + [u]) == WithLines(file, lines + [u])
  {
    assert Cache.FileLines(file) + lines + [u] == Cache.FileLines(file) + (lines + [u]);
  }

  /** One iteration of `add_to_notion`: publish the post; on confirmation,
      `cache.add` its URL. */
  method PublishOne(post: PostDict, client: Notion.Client, accepted: bool, cache: Cache.URLCache)
    returns (attempt: Notion.Attempt)
    requires Publishable(post) && cache.Valid()
    modifies cache
    ensures cache.Valid() && attempt == Publish(client, post, accepted)
    ensures attempt.ok ==> cache.Contents() == old(cache.Contents()) + {post["url"]}
    ensures attempt.ok && post["url"] in old(cache.Contents()) ==> cache.file == old(cache.file)
    ensures attempt.ok && post["url"] !in old(cache.Contents()) ==>
      cache.file == Some(Cache.FileLines(old(cache.file)) + [post["url"]])
    ensures !attempt.ok ==> cache.Contents() == old(cache.Contents()) && cache.file == old(cache.file)
  {
    attempt := Publish(client, post, accepted);
    if attempt.ok {
      cache.Add(post["url"]);
    }
  }

  /** How a run of `main` ends. */
  datatype RunOutcome = NoPosts | NoNewPosts | Done(added: nat, total: nat)

  lemma SuccessStep(posts: seq<PostDict>, attempts: seq<Notion.Attempt>, i: nat, attempt: Notion.Attempt)
    requires i < |posts| && |attempts| == i && forall p :: p in posts ==> Publishable(p)
    ensures posts[i] in posts
    ensures SuccessUrls(posts[..i + 1], attempts + [attempt]) ==
      SuccessUrls(posts[..i], attempts) + (if attempt.ok then [posts[i]["url"]] else [])
  {
    assert posts[..i + 1][..i] == posts[..i];
    assert (attempts + [attempt])[..i] == attempts;
    assert posts[i] in posts;
    assert PostUrls(posts[..i + 1])[..i] == PostUrls(posts[..i]);
  }

  lemma AppendedStep(known: set<string>, us: seq<string>, u: string)
    ensures UrlSet(us + [u]) == UrlSet(us) + {u}
    ensures Appended(known, us + [u]) ==
      Appended(known, us) + (if u in known + UrlSet(us) then [] else [u])
  {
    assert (us + [u])[..|us|] == us;
  }

  /** `main`: load the cache, crawl, filter, publish. With no posts or no
      new posts it returns before publishing anything. */
  method Run(results: seq<seq<PostDict>>, client: Notion.Client, accepted: seq<bool>,
              cache: Cache.URLCache) returns (outcome: RunOutcome, attempts: seq<Notion.Attempt>)
    requires |results| == |Registry|
    requires forall p :: p in Flatten(results) ==> "title" in p && "url" in p
    requires |accepted| >= |Flatten(results)|
    requires cache.Valid()
    modifies cache
    ensures cache.Valid()
    ensures outcome.NoPosts? <==> Flatten(results) == []
    ensures !outcome.Done? ==>
      attempts == [] && cache.file == old(cache.file) && cache.Contents() == old(cache.Contents())
    ensures outcome.NoNewPosts? ==> FilterNewPosts(Flatten(results), old(cache.Contents())) == []
    ensures outcome.Done? ==>
      var newPosts := FilterNewPosts(Flatten(results), old(cache.Contents()));
      newPosts != [] && outcome.total == |newPosts| &&
      attempts == Attempts(client, newPosts, accepted[..|newPosts|]) &&
      outcome.added == Count(attempts) &&
      var succ := SuccessUrls(newPosts, attempts);
      cache.Contents() == old(cache.Contents()) + UrlSet(succ) &&
      cache.file == WithLines(old(cache.file), Appended(old(cache.Contents()), succ))
  {
    var _ := cache.Load();
    var all := CrawlAllBlogs(results);
    if all == [] {
      return NoPosts, [];
    }
    var newPosts := FilterNewPosts(all, cache.Contents());
    if newPosts == [] {
      return NoNewPosts, [];
    }
    var added;
    added, attempts := AddToNotion(newPosts, client, accepted[..|newPosts|], cache);
    outcome := Done(added, |newPosts|);
  }

  /** Re-running after every new post was confirmed finds nothing new. */
  lemma RerunFindsNothing(posts: seq<PostDict>, known: set<string>, attempts: seq<Notion.Attempt>)
    requires forall p :: p in posts ==> "title" in p && "url" in p
    requires |attempts| == |FilterNewPosts(posts, known)|
    requires forall i :: 0 <= i < |attempts| ==> attempts[i].ok
    ensures FilterNewPosts(posts, known + UrlSet(SuccessUrls(FilterNewPosts(posts, known), attempts))) == []
  {
    var newPosts := FilterNewPosts(posts, known);
    var after := known + UrlSet(SuccessUrls(newPosts, attempts));
    forall p | p in posts ensures "url" in p && p["url"] in after {
      if p["url"] !in known {
        assert p in newPosts;
        var i :| 0 <= i < |newPosts| && newPosts[i] == p;
        SuccessUrlsIff(newPosts, attempts, p["url"]);
      }
    }
    AllCachedNothingNew(posts, after);
  }

  /** Two runs of `main` on the same crawl, the second a fresh process that
      reads the cache file the first left behind. With a token, every
      publish accepted, and every URL stripped, non-blank and free of line
      breaks, the second run finds nothing new and leaves the file as it is. */
  method RunTwice(results: seq<seq<PostDict>>, client: Notion.Client, accepted: seq<bool>,
                  cache: Cache.URLCache)
    returns (first: RunOutcome, second: RunOutcome, after: Option<seq<string>>)
    requires |results| == |Registry|
    requires forall p :: p in Flatten(results) ==> "title" in p && "url" in p && StoredUrl(p["url"])
    requires |accepted| >= |Flatten(results)| && forall i :: 0 <= i < |accepted| ==> accepted[i]
    requires client.token != [] && cache.Valid()
    modifies cache
    ensures first.Done? ==> first.added == first.total
    ensures second == if Flatten(results) == [] then NoPosts else NoNewPosts
    ensures after == cache.file
  {
    first := RunConfirmingAll(results, client, accepted, cache);
    var next := new Cache.URLCache(cache.file);
    var attempts;
    second, attempts := Run(results, client, accepted, next);
    after := next.file;
  }

  /** One run in which every publish is accepted: every new post is counted,
      and a fresh load of the cache file it leaves behind finds no new post. */
  method RunConfirmingAll(results: seq<seq<PostDict>>, client: Notion.Client, accepted: seq<bool>,
                          cache: Cache.URLCache) returns (outcome: RunOutcome)
    requires |results| == |Registry|
    requires forall p :: p in Flatten(results) ==> "title" in p && "url" in p && StoredUrl(p["url"])
    requires |accepted| >= |Flatten(results)| && forall i :: 0 <= i < |accepted| ==> accepted[i]
    requires client.token != [] && cache.Valid()
    modifies cache
    ensures cache.Valid()
    ensures outcome.Done? ==> outcome.added == outcome.total
    ensures FilterNewPosts(Flatten(results), Cache.LoadFile(cache.file)) == []
  {
    var attempts;
    outcome, attempts := Run(results, client, accepted, cache);
    ghost var before := old(cache.Contents());
    if outcome.Done? {
      AllConfirmed(Flatten(results), before, client, accepted, attempts);
    }
    FileCoversContents(Flatten(results), cache.Contents(), cache.file, cache.urls, cache.loaded);
  }

  /** When every publish is accepted, every new post is counted and every
      post's URL is cached afterwards. */
  lemma AllConfirmed(all: seq<PostDict>, before: set<string>, client: Notion.Client,
                     accepted: seq<bool>, attempts: seq<Notion.Attempt>)
    requires forall p :: p in all ==> "title" in p && "url" in p
    requires client.token != [] && forall i :: 0 <= i < |accepted| ==> accepted[i]
    requires |accepted| >= |FilterNewPosts(all, before)|
    requires attempts == Attempts(client, FilterNewPosts(all, before), accepted[..|FilterNewPosts(all, before)|])
    ensures Count(attempts) == |attempts|
    ensures FilterNewPosts(all, before + UrlSet(SuccessUrls(FilterNewPosts(all, before), attempts))) == []
  {
    var newPosts := FilterNewPosts(all, before);
    var taken := accepted[..|newPosts|];
    assert forall i :: 0 <= i < |taken| ==> taken[i];
    AllAcceptedOk(client, newPosts, taken);
    CountBound(attempts);
    RerunFindsNothing(all, before, attempts);
  }

  /** With a token and every answer accepting, every call succeeds. */
  lemma AllAcceptedOk(client: Notion.Client, posts: seq<PostDict>, accepted: seq<bool>)
    requires |accepted| == |posts| && forall p :: p in posts ==> Publishable(p)
    requires client.token != [] && forall i :: 0 <= i < |accepted| ==> accepted[i]
    ensures forall i :: 0 <= i < |posts| ==> Attempts(client, posts, accepted)[i].ok
  {
  }

  /** What the cache answers from, the file holds too, for URLs it keeps as
      themselves: a fresh load of the file finds no new post either. */
  lemma FileCoversContents(all: seq<PostDict>, contents: set<string>, file: Option<seq<string>>,
                           urls: set<string>, loaded: bool)
    requires forall p :: p in all ==> "url" in p && StoredUrl(p["url"])
    requires loaded ==> Cache.LoadFile(file) == Cache.StripAll(urls)
    requires contents == if loaded then urls else Cache.LoadFile(file)
    requires FilterNewPosts(all, contents) == []
    ensures FilterNewPosts(all, Cache.LoadFile(file)) == []
  {
    forall p | p in all
      ensures "url" in p && p["url"] in Cache.LoadFile(file)
    {
      assert p !in FilterNewPosts(all, contents);
      if loaded {
        Cache.MirroredUrl(file, urls, p["url"]);
      }
    }
    AllCachedNothingNew(all, Cache.LoadFile(file));
  }

  /** A URL the cache file keeps as itself: one line that reads back whole. */
  predicate StoredUrl(u: string) {
    u != [] && Text.IsStripped(u) && '\n' !in u && '\r' !in u
  }

  /** A post whose publish failed, and whose URL no confirmed post shares,
      stays out of the cache and is offered again on the next run. */
  lemma FailedIsRetried(posts: seq<PostDict>, known: set<string>, attempts: seq<Notion.Attempt>, i: nat)
    requires forall j :: 0 <= j < |posts| ==> "title" in posts[j] && "url" in posts[j]
    requires |attempts| == |posts| && i < |posts| && posts[i]["url"] !in known
    requires forall j :: 0 <= j < |posts| && posts[j]["url"] == posts[i]["url"] ==> !attempts[j].ok
    ensures posts[i]["url"] !in known + UrlSet(SuccessUrls(posts, attempts))
    ensures posts[i] in FilterNewPosts(posts, known + UrlSet(SuccessUrls(posts, attempts)))
  {
    SuccessUrlsIff(posts, attempts, posts[i]["url"]);
  }
}

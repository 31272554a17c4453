/** `crawlers/coupang.py`: the Coupang engineering blog, read from its Medium
    feed with the same entry rules as Daangn's. */
module Coupang {
  import opened Wrappers
  import opened Text
  import opened Crawler
  import FeedCrawler

  const SourceId: string := "coupang"
  const BaseUrl: string := "https://medium.com/@coupang-engineering-kr"
  const FeedUrl: string := "https://medium.com/feed/@coupang-engineering-kr"

  /** `CoupangCrawler._parse_entry`: `None` iff the stripped title or link is
      empty; otherwise a post from Coupang whose summary is the cleaned
      description (at most 500 characters) and whose date is the parsed one. */
  function ParseEntry(e: FeedCrawler.Entry, unescape: string -> string,
                      rfc2822: string -> Option<FeedCrawler.Date>, today: string): (r: Option<Post>)
    ensures r.None? <==> Strip(e.title) == [] || Strip(e.link) == []
    ensures r.Some? ==>
      r.value.source == SourceId && r.value.title == Strip(e.title) &&
      r.value.url == Strip(e.link) && |r.value.summary| <= FeedCrawler.SummaryMax &&
      r.value.summary == FeedCrawler.ExtractSummary(e, unescape) &&
      r.value.date == FeedCrawler.ParseDate(e, rfc2822, today)
  {
    FeedCrawler.ParseEntry(e, SourceId, unescape, rfc2822, today)
  }

  /** `CoupangCrawler.fetch` with the default `max_posts`: at most ten posts, in
      feed order, all from Coupang. */
  method Fetch(feed: Option<FeedCrawler.Feed>, unescape: string -> string,
               rfc2822: string -> Option<FeedCrawler.Date>, today: string) returns (posts: seq<PostDict>)
    ensures posts == Dicts(FeedCrawler.FetchedPosts(feed, SourceId, MaxPostsPerSource, unescape, rfc2822, today))
    ensures |posts| <= MaxPostsPerSource
    ensures forall i :: 0 <= i < |posts| ==> posts[i]["source"] == SourceId && posts[i]["title"] != [] && posts[i]["url"] != []
  {
    posts := FeedCrawler.Fetch(feed, SourceId, MaxPostsPerSource, unescape, rfc2822, today);
    FeedCrawler.FetchedDictFacts(feed, SourceId, MaxPostsPerSource, unescape, rfc2822, today);
  }
}

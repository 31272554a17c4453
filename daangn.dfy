/** `crawlers/daangn.py`: the Daangn engineering blog, read from its Medium feed. */
module Daangn {
  import opened Wrappers
  import opened Crawler
  import FeedCrawler

  const SourceId: string := "daangn"
  const BaseUrl: string := "https://medium.com/daangn"
  const FeedUrl: string := "https://medium.com/feed/daangn"

  /** `DaangnCrawler.fetch` with the default `max_posts`: at most ten posts, all from Daangn. */
  method Fetch(feed: Option<FeedCrawler.Feed>, unescape: string -> string,
               rfc2822: string -> Option<FeedCrawler.Date>, today: string) returns (posts: seq<PostDict>)
    ensures posts == Dicts(FeedCrawler.FetchedPosts(feed, SourceId, MaxPostsPerSource, unescape, rfc2822, today))
    ensures |posts| <= MaxPostsPerSource
    ensures forall i :: 0 <= i < |posts| ==> posts[i]["source"] == SourceId && posts[i]["title"] != [] && posts[i]["url"] != []
  {
    posts := FeedCrawler.Fetch(feed, SourceId, MaxPostsPerSource, unescape, rfc2822, today);
    FeedCrawler.FetchedDictFacts(feed, SourceId, MaxPostsPerSource, unescape, rfc2822, today);
  }
}

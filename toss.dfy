/**
 * `crawlers/toss.py`: the Toss tech blog. Each article link's text holds
 * the title and summary on fixed lines; the page gives no dates.
 */
module Toss {
  import opened Wrappers
  import opened Text
  import opened Crawler
  import Listing

  const SourceId: string := "toss"
  const BaseUrl: string := "https://toss.tech/category/engineering"

  /** An `a[href^="/article/"]` element: its `href` attribute and inner
      text. `raises` marks an element on which a DOM call throws; the loop
      then skips it. */
  datatype Link = Link(href: Option<string>, text: string, raises: bool)

  /** The stripped, non-blank lines among `parts`. */
  function NonBlank(parts: seq<string>): (lines: seq<string>)
    ensures |lines| <= |parts|
  {
    if parts == [] then []
    else if Strip(parts[0]) != [] then [Strip(parts[0])] + NonBlank(parts[1..])
    else NonBlank(parts[1..])
  }

  /** Every part that is not blank contributes its stripped form, and
      nothing else appears. */
  lemma {:induction false} NonBlankMembers(parts: seq<string>)
    ensures var lines := NonBlank(parts);
      (forall l :: l in lines ==> l != [] && IsStripped(l) && exists p :: p in parts && l == Strip(p)) &&
      (forall i :: 0 <= i < |parts| && Strip(parts[i]) != [] ==> Strip(parts[i]) in lines)
  {
    if parts != [] {
      NonBlankMembers(parts[1..]);
      StripFacts(parts[0]);
      assert forall i :: 1 <= i < |parts| ==> parts[i] == parts[1..][i - 1];
    }
  }

  /** The lines keep the order of the parts they come from. */
  lemma {:induction false} NonBlankAppend(a: seq<string>, b: seq<string>)
    ensures NonBlank(a + b) == NonBlank(a) + NonBlank(b)
    decreases |a|
  {
    if a != [] {
      NonBlankAppend(a[1..], b);
      var h := if Strip(a[0]) != [] then [Strip(a[0])] else [];
      assert (a + b)[0] == a[0] && (a + b)[1..] == a[1..] + b;
      assert NonBlank(a + b) == h + NonBlank(a[1..] + b);
      assert NonBlank(a) == h + NonBlank(a[1..]);
    } else {
      assert a + b == b;
    }
  }

  /** Splitting text that is stripped and not empty yields a non-blank line;
      splitting the empty text yields none. */
  lemma SplitHasLine(t: string)
    requires IsStripped(t)
    ensures NonBlank(Split(t, '\n')) != [] <==> t != []
  {
    var parts := Split(t, '\n');
    if t != [] {
      var k := IndexOf(t, '\n');
      assert parts[0] == t[..k];
      assert k > 0 && parts[0][0] == t[0];
      StripEmptyIff(parts[0]);
      NonBlankMembers(parts);
    } else {
      assert parts == [[]];
    }
  }

  /** `[line.strip() for line in text.strip().split('\n') if line.strip()]`:
      lines without breaks, present exactly when the text is not blank. */
  function ContentLines(text: string): (lines: seq<string>)
    ensures forall l :: l in lines ==> l != [] && IsStripped(l) && '\n' !in l
    ensures lines != [] <==> Strip(text) != []
  {
    var t := Strip(text);
    var parts := Split(t, '\n');
    SplitJoin(t, '\n');
    var lines := NonBlank(parts);
    NonBlankMembers(parts);
    assert forall l :: l in lines ==> '\n' !in l by {
      forall l | l in lines ensures '\n' !in l {
        var p :| p in parts && l == Strip(p);
        StripFacts(p);
      }
    }
    StripFacts(text);
    SplitHasLine(t);
    lines
  }

  /** `_parse_content`: lines 3 and 4 when there are at least four lines,
      lines 1 and 2 when there are two or three, the single line and `''`,
      or two empty strings. */
  function ParseContent(text: string): (r: (string, string))
    ensures r.0 != [] <==> Strip(text) != []
    ensures r.1 != [] ==> r.0 != []
  {
    var lines := ContentLines(text);
    assert forall i :: 0 <= i < |lines| ==> lines[i] in lines;
    if |lines| >= 4 then (lines[2], lines[3])
    else if |lines| >= 2 then (lines[0], lines[1])
    else if |lines| == 1 then (lines[0], [])
    else ([], [])
  }

  /** The title is non-empty exactly when the text has a non-blank line;
      title and summary are whole lines: stripped, without line breaks,
      and the summary is the line after the title. */
  lemma ParseContentFacts(text: string)
    ensures var lines := ContentLines(text);
      var (title, summary) := ParseContent(text);
      (title != [] <==> |lines| >= 1) &&
      (title != [] ==>
        exists k :: 0 <= k < |lines| && title == lines[k] &&
          (summary == [] || (k + 1 < |lines| && summary == lines[k + 1]))) &&
      IsStripped(title) && IsStripped(summary) && '\n' !in title && '\n' !in summary
  {
    var lines := ContentLines(text);
    var (title, summary) := ParseContent(text);
    if |lines| >= 4 {
      assert lines[2] in lines && lines[3] in lines;
    } else if |lines| >= 2 {
      assert lines[0] in lines && lines[1] in lines;
    } else if |lines| == 1 {
      assert lines[0] in lines;
    }
  }

  /** The absolute URL of a link to an article; `None` when the link is
      skipped for its href. */
  function ArticleUrl(link: Link): Option<string> {
    if link.raises || link.href.None? || link.href.value == [] || !ContainsSub(link.href.value, "/article/") then None
    else Some(MakeAbsoluteUrl(BaseUrl, link.href.value))
  }

  /** The post a link with URL `url` makes; `None` when its title is shorter
      than three characters. */
  function PostOf(link: Link, url: string, today: string): (r: Option<Post>)
    ensures r.Some? ==> r.value.url == url
  {
    var (title, summary) := ParseContent(link.text);
    if title == [] || |title| < 3 then None
    else Some(MakePost(title, url, summary, [], SourceId, today))
  }

  /** What one link contributes before URL deduplication: a post exactly
      when the link is an article link whose title has three characters or
      more; it carries that title, the next line as summary, and today's date. */
  function Candidate(link: Link, today: string): (r: Option<Post>)
    ensures r.Some? <==> ArticleUrl(link).Some? && |ParseContent(link.text).0| >= 3
    ensures r.Some? ==>
      r.value.url == ArticleUrl(link).value && r.value.title == ParseContent(link.text).0 &&
      r.value.summary == ParseContent(link.text).1 && r.value.date == today && r.value.source == SourceId
  {
    match ArticleUrl(link)
    case None => None
    case Some(url) => PostOf(link, url, today)
  }

  /** `TossCrawler.parse_posts` over the links of the rendered page. */
  method ParsePosts(links: seq<Link>, today: string) returns (posts: seq<Post>)
    ensures posts == Listing.DedupFirst(Listing.Collect(links, l => Candidate(l, today)))
  {
    var candidate := l => Candidate(l, today);
    posts := [];
    var seen: set<string> := {};
    var i := 0;
    while i < |links|
      invariant 0 <= i <= |links|
      invariant posts == Listing.DedupFirst(Listing.Collect(links[..i], candidate))
      invariant seen == Listing.Urls(posts)
    {
      var link := links[i];
      Listing.ListingStep(links, i, candidate, posts);
      var url := ArticleUrl(link);
      if url.Some? && url.value !in seen {
        var post := PostOf(link, url.value, today);
        if post.Some? {
          posts := posts + [post.value];
          seen := seen + {url.value};
        }
      }
      i := i + 1;
    }
    assert links[..i] == links;
  }

  /** What a candidate is made of. */
  lemma CandidateFacts(link: Link, today: string, p: Post)
    requires Candidate(link, today) == Some(p)
    ensures |p.title| >= 3 && p.date == today && p.source == SourceId
    ensures link.href.Some? && ContainsSub(link.href.value, "/article/")
    ensures p.url == MakeAbsoluteUrl(BaseUrl, link.href.value)
  {
  }

  /** Every Toss post has a distinct URL made from an href containing
      `/article/`, a title of at least three characters, and today's date. */
  lemma ParsedFacts(links: seq<Link>, today: string)
    ensures var posts := Listing.DedupFirst(Listing.Collect(links, l => Candidate(l, today)));
      Listing.DistinctUrls(posts) &&
      forall p :: p in posts ==>
        |p.title| >= 3 && p.date == today && p.source == SourceId &&
        exists i :: 0 <= i < |links| && links[i].href.Some? && ContainsSub(links[i].href.value, "/article/") &&
          p.url == MakeAbsoluteUrl(BaseUrl, links[i].href.value)
  {
    var candidate := l => Candidate(l, today);
    var ps := Listing.Collect(links, candidate);
    Listing.DedupDistinct(ps);
    forall p | p in Listing.DedupFirst(ps)
      ensures |p.title| >= 3 && p.date == today && p.source == SourceId &&
        exists i :: 0 <= i < |links| && links[i].href.Some? && ContainsSub(links[i].href.value, "/article/") &&
          p.url == MakeAbsoluteUrl(BaseUrl, links[i].href.value)
    {
      Listing.ListedFrom(links, candidate, p);
      var i :| 0 <= i < |links| && candidate(links[i]) == Some(p);
      CandidateFacts(links[i], today, p);
    }
  }
}

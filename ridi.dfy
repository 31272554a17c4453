/**
 * `crawlers/ridi.py`: the RIDI tech blog. Title, summary and date are each
 * the first of a list of CSS selectors that yields usable text.
 */
module Ridi {
  import opened Wrappers
  import opened Text
  import opened Crawler
  import Listing

  const SourceId: string := "ridi"
  const BaseUrl: string := "https://ridicorp.com/story-category/tech-blog/"

  const TitleSelectors: seq<string> :=
    [".entry-title", "h2", "h3", ".story-card__title", ".story-item__title",
     ".card__title", ".title", "[class*=\"title\"]"]
  const SummarySelectors: seq<string> :=
    [".entry-summary", "p", ".story-card__desc", ".story-item__desc",
     ".card__desc", ".summary", "[class*=\"desc\"]"]
  const DateSelectors: seq<string> :=
    [".entry-date", "time", ".date", ".post-date", "[class*=\"date\"]"]

  /** Texts shorter than or equal to this are not taken as a summary. */
  const SummaryMinExclusive: nat := 10

  /** A link element: its inner text and `href` attribute. */
  datatype Link = Link(text: string, href: Option<string>)

  /** An element searched with `query_selector`: the `.entry-title a` and
      `a[href*="/story/"]` links under it, and for each selector that matches
      the inner text of its first match. */
  datatype Container = Container(titleLink: Option<Link>, storyLink: Option<Link>,
                                 texts: map<string, string>)

  /** An `article` (or `.entry-meta`) element with its nested `.entry-meta`,
      if any. `raises` marks an element on which a DOM call throws. */
  datatype Item = Item(node: Container, meta: Option<Container>, raises: bool)

  /** The `article` elements and the `.entry-meta` elements of the page. */
  datatype Page = Page(articles: seq<Item>, entryMetas: seq<Item>)

  /** The elements the loop walks: the articles, or the `.entry-meta`
      elements when the page has no article. */
  function Elements(page: Page): (es: seq<Item>)
    ensures page.articles != [] ==> es == page.articles
    ensures page.articles == [] ==> es == page.entryMetas
  {
    if page.articles != [] then page.articles else page.entryMetas
  }

  /** `selector` matches and its stripped text is longer than `minLen`. */
  predicate Usable(texts: map<string, string>, selector: string, minLen: nat) {
    selector in texts && |Strip(texts[selector])| > minLen
  }

  /** The stripped text of the first usable selector, or `''`. */
  function FirstMatch(texts: map<string, string>, selectors: seq<string>, minLen: nat): (r: string)
    ensures r == [] || |r| > minLen
  {
    if selectors == [] then []
    else if Usable(texts, selectors[0], minLen) then Strip(texts[selectors[0]])
    else FirstMatch(texts, selectors[1..], minLen)
  }

  /** `FirstMatch` picks the first usable selector in list order, and is
      empty exactly when no selector is usable. */
  lemma {:induction false} FirstMatchIsFirst(texts: map<string, string>, selectors: seq<string>, minLen: nat)
    ensures FirstMatch(texts, selectors, minLen) == [] <==>
      forall i :: 0 <= i < |selectors| ==> !Usable(texts, selectors[i], minLen)
    ensures FirstMatch(texts, selectors, minLen) != [] ==>
      exists i :: 0 <= i < |selectors| && Usable(texts, selectors[i], minLen) &&
        FirstMatch(texts, selectors, minLen) == Strip(texts[selectors[i]]) &&
        forall j :: 0 <= j < i ==> !Usable(texts, selectors[j], minLen)
  {
    if selectors != [] && !Usable(texts, selectors[0], minLen) {
      var rest := selectors[1..];
      FirstMatchIsFirst(texts, rest, minLen);
      assert forall i :: 0 < i < |selectors| ==> selectors[i] == rest[i - 1];
      if FirstMatch(texts, rest, minLen) != [] {
        var i :| 0 <= i < |rest| && Usable(texts, rest[i], minLen) &&
          FirstMatch(texts, rest, minLen) == Strip(texts[rest[i]]) &&
          forall j :: 0 <= j < i ==> !Usable(texts, rest[j], minLen);
        assert selectors[i + 1] == rest[i];
      }
    }
  }

  /** The selector loop of `_extract_title`, `_extract_summary` and
      `_extract_date`: return the first usable stripped text. */
  method SelectFirst(texts: map<string, string>, selectors: seq<string>, minLen: nat) returns (r: string)
    ensures r == FirstMatch(texts, selectors, minLen)
  {
    var i := 0;
    while i < |selectors|
      invariant 0 <= i <= |selectors|
      invariant FirstMatch(texts, selectors, minLen) == FirstMatch(texts, selectors[i..], minLen)
    {
      assert selectors[i..][1..] == selectors[i + 1..];
      var selector := selectors[i];
      if selector in texts {
        var text := Strip(texts[selector]);
        if text != [] && |text| > minLen {
          return text;
        }
      }
      i := i + 1;
    }
    return [];
  }

  /** The title fallback: the first line of the stripped link text. */
  function FirstLine(text: string): (r: string)
    ensures '\n' !in r
    ensures r != [] <==> Strip(text) != []
  {
    var t := Strip(text);
    if t == [] then []
    else
      var k := IndexOf(t, '\n');
      StripFacts(text);
      FirstLineFacts(t, k);
      Strip(t[..k])
  }

  lemma FirstLineFacts(t: string, k: nat)
    requires t != [] && IsStripped(t) && k == IndexOf(t, '\n')
    ensures Strip(t[..k]) != [] && '\n' !in Strip(t[..k])
  {
    assert !IsSpace(t[0]);
    assert k > 0 by {
      assert IsSpace('\n');
    }
    StripFacts(t[..k]);
    StripEmptyIff(t[..k]);
    assert t[..k][0] == t[0];
  }

  /** `_extract_title`: a title selector's text, else the link's first line;
      empty only when neither gives any text. */
  function ExtractTitle(c: Container, link: Link): (r: string)
    ensures FirstMatch(c.texts, TitleSelectors, 0) != [] ==> r == FirstMatch(c.texts, TitleSelectors, 0)
    ensures FirstMatch(c.texts, TitleSelectors, 0) == [] ==> '\n' !in r
    ensures r != [] <==> FirstMatch(c.texts, TitleSelectors, 0) != [] || Strip(link.text) != []
  {
    var t := FirstMatch(c.texts, TitleSelectors, 0);
    if t != [] then t else FirstLine(link.text)
  }

  /** The element the fields are read from. */
  function ContainerOf(item: Item): (c: Container)
    ensures item.meta.Some? ==> c == item.meta.value
    ensures item.meta.None? ==> c == item.node
  {
    if item.meta.Some? then item.meta.value else item.node
  }

  /** `.entry-title a`, else `a[href*="/story/"]`. */
  function LinkOf(c: Container): (l: Option<Link>)
    ensures l.Some? <==> c.titleLink.Some? || c.storyLink.Some?
    ensures c.titleLink.Some? ==> l == c.titleLink
    ensures c.titleLink.None? ==> l == c.storyLink
  {
    if c.titleLink.Some? then c.titleLink else c.storyLink
  }

  /** What one element contributes before URL deduplication: a post exactly
      when the element has a link with a non-empty href and a title of three
      characters or more; it carries that title and the first usable summary. */
  function Candidate(item: Item, today: string): (r: Option<Post>)
    ensures r.Some? <==>
      var c := ContainerOf(item);
      var link := LinkOf(c);
      !item.raises && link.Some? && link.value.href.Some? && link.value.href.value != [] &&
      |ExtractTitle(c, link.value)| >= 3
    ensures r.Some? ==>
      var c := ContainerOf(item);
      var link := LinkOf(c).value;
      r.value.title == ExtractTitle(c, link) && r.value.url == MakeAbsoluteUrl(BaseUrl, link.href.value) &&
      r.value.summary == FirstMatch(c.texts, SummarySelectors, SummaryMinExclusive) &&
      r.value.source == SourceId
    ensures r.Some? ==>
      var d := FirstMatch(ContainerOf(item).texts, DateSelectors, 0);
      r.value.date == if d != [] then d else today
  {
    var c := ContainerOf(item);
    var link := LinkOf(c);
    if item.raises || link.None? || link.value.href.None? || link.value.href.value == [] then None
    else
      var title := ExtractTitle(c, link.value);
      if |title| < 3 then None
      else
        Some(MakePost(title, MakeAbsoluteUrl(BaseUrl, link.value.href.value),
          FirstMatch(c.texts, SummarySelectors, SummaryMinExclusive),
          FirstMatch(c.texts, DateSelectors, 0), SourceId, today))
  }

  /** `RidiCrawler.parse_posts` over the elements of the rendered page. The
      URL is checked against the ones already taken before the title is read. */
  method ParsePosts(page: Page, today: string) returns (posts: seq<Post>)
    ensures posts == Listing.DedupFirst(Listing.Collect(Elements(page), e => Candidate(e, today)))
  {
    var candidate := e => Candidate(e, today);
    var items := if page.articles != [] then page.articles else page.entryMetas;
    posts := [];
    var seen: set<string> := {};
    var i := 0;
    while i < |items|
      invariant 0 <= i <= |items|
      invariant posts == Listing.DedupFirst(Listing.Collect(items[..i], candidate))
      invariant seen == Listing.Urls(posts)
    {
      var post := Visit(items[i], seen, today);
      Listing.ListingVisit(items, i, candidate, posts, post);
      if post.Some? {
        posts := posts + [post.value];
        seen := seen + {post.value.url};
      }
      i := i + 1;
    }
    assert items[..i] == items;
  }

  /** The body of the `parse_posts` loop for one element: its post, unless
      it has none or its URL is among `seen`. */
  method Visit(item: Item, seen: set<string>, today: string) returns (post: Option<Post>)
    ensures var c := Candidate(item, today);
      post == if c.Some? && c.value.url !in seen then c else None
  {
    ghost var c := Candidate(item, today);
    var container := if item.meta.Some? then item.meta.value else item.node;
    var link := container.titleLink;
    if link.None? {
      link := container.storyLink;
    }
    assert container == ContainerOf(item) && link == LinkOf(container);
    post := None;
    if !item.raises && link.Some? && link.value.href.Some? && link.value.href.value != [] {
      var url := MakeAbsoluteUrl(BaseUrl, link.value.href.value);
      if url !in seen {
        var title := SelectFirst(container.texts, TitleSelectors, 0);
        if title == [] {
          title := FirstLine(link.value.text);
        }
        if |title| >= 3 {
          var summary := SelectFirst(container.texts, SummarySelectors, SummaryMinExclusive);
          var date := SelectFirst(container.texts, DateSelectors, 0);
          post := Some(MakePost(title, url, summary, date, SourceId, today));
          assert c == post;
        }
      }
    }
  }

  /** What a candidate is made of. */
  lemma CandidateFacts(item: Item, today: string, p: Post)
    requires Candidate(item, today) == Some(p)
    ensures |p.title| >= 3 && p.source == SourceId
    ensures p.summary == [] || |p.summary| > SummaryMinExclusive
    ensures LinkOf(ContainerOf(item)).Some? && LinkOf(ContainerOf(item)).value.href.Some?
    ensures p.url == MakeAbsoluteUrl(BaseUrl, LinkOf(ContainerOf(item)).value.href.value)
    ensures p.date == DateOf(item, today)
  {
  }

  /** The date a post from `item` carries: the first non-empty date
      selector's text, or today when there is none. */
  function DateOf(item: Item, today: string): string {
    var m := FirstMatch(ContainerOf(item).texts, DateSelectors, 0);
    if m != [] then m else today
  }

  /** RIDI posts have distinct URLs taken from the element's link, titles
      of at least three characters and a summary that is empty or longer
      than ten characters. */
  lemma ParsedFacts(page: Page, today: string)
    ensures var es := Elements(page);
      var posts := Listing.DedupFirst(Listing.Collect(es, e => Candidate(e, today)));
      Listing.DistinctUrls(posts) &&
      forall p :: p in posts ==>
        |p.title| >= 3 && p.source == SourceId &&
        (p.summary == [] || |p.summary| > SummaryMinExclusive) &&
        exists i :: 0 <= i < |es| && LinkOf(ContainerOf(es[i])).Some? &&
          LinkOf(ContainerOf(es[i])).value.href.Some? &&
          p.url == MakeAbsoluteUrl(BaseUrl, LinkOf(ContainerOf(es[i])).value.href.value) &&
          p.date == DateOf(es[i], today)
  {
    var es := Elements(page);
    var candidate := e => Candidate(e, today);
    var ps := Listing.Collect(es, candidate);
    Listing.DedupDistinct(ps);
    forall p | p in Listing.DedupFirst(ps)
      ensures |p.title| >= 3 && p.source == SourceId &&
        (p.summary == [] || |p.summary| > SummaryMinExclusive) &&
        exists i :: 0 <= i < |es| && LinkOf(ContainerOf(es[i])).Some? &&
          LinkOf(ContainerOf(es[i])).value.href.Some? &&
          p.url == MakeAbsoluteUrl(BaseUrl, LinkOf(ContainerOf(es[i])).value.href.value) &&
          p.date == DateOf(es[i], today)
    {
      Listing.ListedFrom(es, candidate, p);
      var i :| 0 <= i < |es| && candidate(es[i]) == Some(p);
      CandidateFacts(es[i], today, p);
    }
  }
}

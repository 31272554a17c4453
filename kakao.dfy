/**
 * `crawlers/kakao.py`: the Kakao tech blog. Each `.link_post` card carries
 * a title, a description and a date text from which a `YYYY.MM.DD` date
 * is searched.
 */
module Kakao {
  import opened Wrappers
  import opened Text
  import opened Crawler
  import Listing

  const SourceId: string := "kakao"
  const BaseUrl: string := "https://tech.kakao.com/blog"

  /** A `.link_post` card: its `href`, and the inner text of its `.tit_post`,
      `.desc_post` and `.txt_date` elements (`None` when the element is
      missing). `raises` marks a card on which a DOM call throws. */
  datatype Card = Card(href: Option<string>, title: Option<string>, desc: Option<string>,
                       date: Option<string>, raises: bool)

  /** `_extract_title`: the stripped `.tit_post` text, empty when the
      element is missing or blank. */
  function ExtractTitle(card: Card): (r: string)
    ensures IsStripped(r)
    ensures r != [] <==> card.title.Some? && !AllSpace(card.title.value)
    ensures card.title.Some? ==> forall c :: c in r ==> c in card.title.value
  {
    match card.title
    case Some(t) => StripFacts(t); StripEmptyIff(t); Strip(t)
    case None => []
  }

  /** `_extract_summary`: the stripped `.desc_post` text, empty when the
      element is missing or blank. */
  function ExtractSummary(card: Card): (r: string)
    ensures IsStripped(r)
    ensures r != [] <==> card.desc.Some? && !AllSpace(card.desc.value)
    ensures card.desc.Some? ==> forall c :: c in r ==> c in card.desc.value
  {
    match card.desc
    case Some(t) => StripFacts(t); StripEmptyIff(t); Strip(t)
    case None => []
  }

  predicate IsDateSep(c: char) {
    c == '.' || c == '-' || c == '/'
  }

  /** `\d{4}[.\-/]\d{2}[.\-/]\d{2}` matches at position `i`. */
  predicate DateAt(s: string, i: nat) {
    i + 10 <= |s| &&
    IsDigit(s[i]) && IsDigit(s[i + 1]) && IsDigit(s[i + 2]) && IsDigit(s[i + 3]) &&
    IsDateSep(s[i + 4]) && IsDigit(s[i + 5]) && IsDigit(s[i + 6]) &&
    IsDateSep(s[i + 7]) && IsDigit(s[i + 8]) && IsDigit(s[i + 9])
  }

  /** `re.search` for the date pattern from position `i`: the leftmost match. */
  function FindDate(s: string, i: nat): (k: Option<nat>)
    ensures k.Some? ==> i <= k.value && DateAt(s, k.value)
    ensures k.Some? ==> forall j :: i <= j < k.value ==> !DateAt(s, j)
    ensures k.None? ==> forall j :: i <= j ==> !DateAt(s, j)
    decreases |s| - i
  {
    if i + 10 > |s| then None
    else if DateAt(s, i) then Some(i)
    else FindDate(s, i + 1)
  }

  /** `.replace('-', '.').replace('/', '.')`. */
  function DotSeparators(d: string): string {
    ReplaceChar(ReplaceChar(d, '-', '.'), '/', '.')
  }

  /** `_extract_date`: the first date in the stripped `.txt_date` text, with
      `-` and `/` turned into `.`; `''` when there is no element or no match. */
  function ExtractDate(card: Card): (r: string)
    ensures r == [] || IsDateWith(r, '.')
    ensures r != [] <==> card.date.Some? && exists j: nat :: DateAt(Strip(card.date.value), j)
    ensures r != [] ==>
      var text := Strip(card.date.value);
      exists k: nat :: DateAt(text, k) && (forall j: nat :: j < k ==> !DateAt(text, j)) &&
        forall n :: 0 <= n < 10 && n != 4 && n != 7 ==> r[n] == text[k + n]
  {
    match card.date
    case None => []
    case Some(t) =>
      var text := Strip(t);
      match FindDate(text, 0)
      case None => []
      case Some(k) =>
        DotSeparatorsOfMatch(text, k);
        DotSeparators(text[k..k + 10])
  }

  lemma DotSeparatorsOfMatch(text: string, k: nat)
    requires DateAt(text, k)
    ensures var r := DotSeparators(text[k..k + 10]);
      IsDateWith(r, '.') && forall n :: 0 <= n < 10 && n != 4 && n != 7 ==> r[n] == text[k + n]
  {
    var m := text[k..k + 10];
    var r := DotSeparators(m);
    forall n | 0 <= n < 10
      ensures r[n] == if IsDateSep(m[n]) then '.' else text[k + n]
    {
      assert m[n] == text[k + n];
      assert ReplaceChar(m, '-', '.')[n] == (if m[n] == '-' then '.' else m[n]);
    }
  }

  /** What one card contributes before URL deduplication: a post exactly
      when the card has a usable href and a title of three characters or
      more, carrying its title, description and date (today when none). */
  function Candidate(card: Card, today: string): (r: Option<Post>)
    ensures r.Some? <==> CardUrl(card).Some? && |ExtractTitle(card)| >= 3
    ensures r.Some? ==>
      r.value.url == CardUrl(card).value && r.value.title == ExtractTitle(card) &&
      r.value.summary == ExtractSummary(card) && r.value.source == SourceId &&
      r.value.date == (if ExtractDate(card) != [] then ExtractDate(card) else today)
  {
    match CardUrl(card)
    case None => None
    case Some(url) => PostOf(card, url, today)
  }

  /** The absolute URL of a card; `None` when the card is skipped for its href. */
  function CardUrl(card: Card): Option<string> {
    if card.raises || card.href.None? || card.href.value == [] then None
    else Some(MakeAbsoluteUrl(BaseUrl, card.href.value))
  }

  /** The post a card with URL `url` makes; `None` when its title is shorter
      than three characters. */
  function PostOf(card: Card, url: string, today: string): (r: Option<Post>)
    ensures r.Some? ==> r.value.url == url
  {
    var title := ExtractTitle(card);
    if title == [] || |title| < 3 then None
    else Some(MakePost(title, url, ExtractSummary(card), ExtractDate(card), SourceId, today))
  }

  /** `KakaoCrawler.parse_posts` over the cards of the rendered page. */
  method ParsePosts(cards: seq<Card>, today: string) returns (posts: seq<Post>)
    ensures posts == Listing.DedupFirst(Listing.Collect(cards, c => Candidate(c, today)))
  {
    var candidate := c => Candidate(c, today);
    posts := [];
    var seen: set<string> := {};
    var i := 0;
    while i < |cards|
      invariant 0 <= i <= |cards|
      invariant posts == Listing.DedupFirst(Listing.Collect(cards[..i], candidate))
      invariant seen == Listing.Urls(posts)
    {
      var card := cards[i];
      Listing.ListingStep(cards, i, candidate, posts);
      var url := CardUrl(card);
      if url.Some? && url.value !in seen {
        var post := PostOf(card, url.value, today);
        if post.Some? {
          posts := posts + [post.value];
          seen := seen + {url.value};
        }
      }
      i := i + 1;
    }
    assert cards[..i] == cards;
  }

  lemma CandidateFacts(card: Card, today: string, p: Post)
    requires Candidate(card, today) == Some(p)
    ensures |p.title| >= 3 && p.source == SourceId
    ensures p.date == today || IsDateWith(p.date, '.')
    ensures card.href.Some? && p.url == MakeAbsoluteUrl(BaseUrl, card.href.value)
  {
  }

  /** Kakao posts have distinct URLs from card hrefs, titles of at least three
      characters, and a `YYYY.MM.DD` date or today's. */
  lemma ParsedFacts(cards: seq<Card>, today: string)
    ensures var posts := Listing.DedupFirst(Listing.Collect(cards, c => Candidate(c, today)));
      Listing.DistinctUrls(posts) &&
      forall p :: p in posts ==>
        |p.title| >= 3 && p.source == SourceId && (p.date == today || IsDateWith(p.date, '.')) &&
        exists i :: 0 <= i < |cards| && cards[i].href.Some? && p.url == MakeAbsoluteUrl(BaseUrl, cards[i].href.value)
  {
    var candidate := c => Candidate(c, today);
    var ps := Listing.Collect(cards, candidate);
    Listing.DedupDistinct(ps);
    forall p | p in Listing.DedupFirst(ps)
      ensures |p.title| >= 3 && p.source == SourceId && (p.date == today || IsDateWith(p.date, '.')) &&
        exists i :: 0 <= i < |cards| && cards[i].href.Some? && p.url == MakeAbsoluteUrl(BaseUrl, cards[i].href.value)
    {
      Listing.ListedFrom(cards, candidate, p);
      var i :| 0 <= i < |cards| && candidate(cards[i]) == Some(p);
      CandidateFacts(cards[i], today, p);
    }
  }
}

# notion-weblink-crawler, modelled in Dafny

The crawler collects recent articles from Korean tech blogs and adds each
new one to a Notion "Weblinks" database, once. This project models the
deduplicated ingestion pipeline. It starts where the browser or the feed
library has returned the fields of a page, and ends where the Notion API
call has succeeded or failed. The model covers:

- **The per-blog extraction rules** for D2, Kakao, Toss and RIDI (rendered
  pages) and for Daangn and Coupang (RSS feeds). They cover:
  - turning hrefs into absolute URLs;
  - cleaning feed summaries;
  - finding dates;
  - picking lines from card text;
  - choosing the first matching selector;
  - the rule that the first post with a given URL wins;
  - the cap on the number of posts per blog.
- **The Notion page payload** and the outcome of creating a page.
- **The URL cache**: a set of published URLs kept in memory, mirrored by an
  append-only file with one URL per line, and read lazily once.
- **The pipeline in `main.py`**: concatenate what the crawlers return, keep
  only posts whose URL is not cached, then publish them in order. A URL goes
  into the cache only after Notion confirmed its page.
- **The older single-blog script `d2_to_notion_complete.py`**, and how it
  relates to the pipeline.

The rendered DOM and the parsed feed are abstract records passed in as
sequences. Each element carries a `raises` flag for the element-level
`except Exception: continue`. The answer of the Notion API is a boolean
oracle, one per call. Three foreign functions are parameters: `html.unescape`,
`email.utils.parsedate_to_datetime`, and today's date as `YYYY.MM.DD`.

Modules:
- `Text`: Python's `strip`, `split`, `join`, slicing and `replace`.
- `Crawler`: `Post`, `to_dict`, `_make_absolute_url` and `fetch` from
  `crawlers/base.py`.
- `Listing`: the first-URL-wins listing loop, shared by every crawler.
- `FeedCrawler`: the shared logic of `Daangn` and `Coupang`.
- One module per blog: `Daangn`, `Coupang`, `Toss`, `Kakao`, `D2`, `Ridi`.
- `Notion`: the payload builder and `create_page`.
- `Cache`: the class `URLCache`.
- `Pipeline`: `main.py`.
- `Legacy`: `d2_to_notion_complete.py`.

Every listing loop is a `method` whose loop is proved to compute
`DedupFirst(Collect(elements, candidate))`:
- `Collect` is the sequence of posts the elements yield.
- `DedupFirst` keeps the first post of each URL.

Lemmas about that specification prove:
- the URLs are distinct;
- every URL seen is kept;
- the result is the subsequence of first occurrences.

The cache's invariant `Valid()` says that, once loaded, re-reading the file
gives back the in-memory set, up to `strip`.

## Model

| member | source | states |
|---|---|---|
| Text.StripIsSlice | cache.py:26 | `strip()` returns a contiguous slice of the input with only whitespace removed on either side, and the result has no whitespace at either end |
| Text.Strip | cache.py:26 | `strip()` never lengthens, leaves no whitespace at either end, and keeps a string that has none |
| Text.StripEmptyIff | cache.py:26 | a line strips to `''` exactly when it is all whitespace, which is when `load` skips it |
| Text.StripIdempotent | cache.py:26 | stripping twice is stripping once |
| Text.StripOfStripped | cache.py:26 | a string with no whitespace at either end is its own strip |
| Text.Take | crawlers/base.py:78 | `s[:n]` has length `min(n, len(s))` and is a prefix of `s` |
| Text.ReplaceChar | notion_client.py:121 | `replace(a, b)` keeps the length and changes exactly the characters equal to `a` |
| Text.IndexOf | crawlers/ridi.py:92 | the first occurrence of a character, or the length when it is absent |
| Text.Split | crawlers/toss.py:65 | `split('\n')` gives at least one piece, and no piece holds the separator |
| Text.SplitJoin | crawlers/toss.py:65 | `split('\n')` cuts only at separators: joining the pieces with the separator gives the input back |
| Crawler.MakePost | crawlers/base.py:20-26 | a `Post` keeps title, url, summary and source; an empty date becomes today's date and a non-empty one is kept |
| Crawler.ToDict | crawlers/base.py:28-36 | `to_dict` has exactly the keys `title`, `url`, `summary`, `date`, `source` |
| Crawler.DictFields | crawlers/base.py:28-36 | the `title`, `url` and `source` entries hold the post's own values |
| Crawler.DictRoundTrip | crawlers/base.py:28-36 | reading the five fields back from `to_dict` gives the same post |
| Crawler.AbsoluteKeepsOthers | crawlers/base.py:86-93 | an href that starts with `http`, or does not start with `/`, is returned unchanged |
| Crawler.MakeAbsoluteUrl | crawlers/base.py:84-93 | an href not starting with `/` is returned as it is; a root-relative href ends the result, which starts with the base URL's scheme, `://` and authority |
| Crawler.UrlSplit | crawlers/base.py:90-91 | the scheme is found exactly when the text before the first `:` is a valid scheme; the authority holds no `/`, `?` or `#` |
| Crawler.SplitOfBase | crawlers/base.py:90-91 | `urlparse` of `scheme://host/path` gives the lower-case scheme and the host up to the first `/`, `?` or `#` |
| Crawler.AbsoluteOfRootRelative | crawlers/base.py:88-92 | a root-relative href is joined to the base URL's scheme and authority, and the result ends with the href |
| Crawler.AbsoluteExample | crawlers/base.py:84-93 | `/posts/123` against `https://example.com/blog` gives `https://example.com/posts/123` |
| Crawler.AsciiLowerOfLower | crawlers/base.py:91 | lower-casing a scheme that has no upper-case letter leaves it as it is |
| Crawler.IndexOfAny | crawlers/base.py:91 | the authority ends at the first `/`, `?` or `#`, or at the end of the string |
| Crawler.Dicts | crawlers/base.py:78 | `[post.to_dict() for post in posts]`: same length, element by element |
| Crawler.Fetch | crawlers/base.py:64-82 | a failed page load gives `[]`; otherwise the first `min(max_posts, n)` parsed posts, in parse order, as dictionaries |
| Listing.Collect | crawlers/d2.py:31-65 | the posts the elements yield before deduplication, never more than the elements |
| Listing.CollectFrom | crawlers/d2.py:31-65 | every collected post is the candidate of some element |
| Listing.DedupFirst | crawlers/toss.py:39-55 | deduplication never lengthens the listing |
| Listing.DedupUrls | crawlers/toss.py:39-41 | deduplication keeps every URL that occurs in the listing |
| Listing.DedupDistinct | crawlers/toss.py:39-55 | the URLs of the kept posts are pairwise distinct |
| Listing.DedupSelectsFirst | crawlers/kakao.py:40-62 | the kept posts are exactly the first occurrences of each URL, in document order |
| Listing.DedupKeepsEveryUrl | crawlers/kakao.py:40-62 | for each listed post, a post with its URL is kept |
| Listing.FirstMask | crawlers/kakao.py:40-42 | position `i` is kept exactly when no earlier post has its URL |
| Listing.Select | main.py:42 | an order-preserving subsequence chosen by a mask |
| Listing.ListedFrom | crawlers/ridi.py:31-69 | every post a listing returns comes from one of its elements |
| Listing.ListingVisit | crawlers/ridi.py:51-69 | a loop iteration that keeps the element's post exactly when its URL is unseen extends the deduplicated listing by that post, and the seen set by its URL |
| FeedCrawler.StripTags | crawlers/daangn.py:72 | removing `<...>` runs never lengthens the text or adds characters |
| FeedCrawler.StripTagsTagFree | crawlers/daangn.py:72 | after `re.sub(r'<[^>]+>', '', ...)` no `<` is followed by one or more characters and then a `>` |
| FeedCrawler.StripTagsFixedIff | crawlers/daangn.py:72 | tag removal leaves a text unchanged exactly when it holds no `<...>` run |
| FeedCrawler.TagFreeKept | crawlers/daangn.py:72 | text without a `<...>` run is kept whole |
| FeedCrawler.StripTagsRemovesTag | crawlers/daangn.py:72 | a tag `<t>` after text without `<` is removed, and the text before it is kept |
| FeedCrawler.TagStartsAtFirstLt | crawlers/daangn.py:72 | a match starts at the first `<`: `<x<y>` is removed whole, although `<x` alone holds no tag |
| FeedCrawler.CollapseSpaces | crawlers/daangn.py:76 | collapsing whitespace never lengthens the text and empties only the empty text |
| FeedCrawler.CollapseFacts | crawlers/daangn.py:76 | `re.sub(r'\s+', ' ', ...)` leaves single spaces only and keeps every non-space character in order |
| FeedCrawler.NormalizeFacts | crawlers/daangn.py:76 | the collapsed and stripped text is single-spaced, has no whitespace at either end, and keeps the visible characters |
| FeedCrawler.Normalize | crawlers/daangn.py:76 | the normalised text is no longer than its input and has no whitespace at either end |
| FeedCrawler.Cap | crawlers/daangn.py:78-80 | at most 500 characters; text that fits is kept; longer text keeps its first 497 characters and ends in `...`; no whitespace is introduced at either end |
| FeedCrawler.ExtractSummary | crawlers/daangn.py:66-82 | the summary is at most 500 characters with no whitespace at either end |
| FeedCrawler.SummaryFacts | crawlers/daangn.py:66-82 | summary falls back to description; the result is at most 500 characters; text that fits is kept whole; longer text is its first 497 characters plus `...` |
| FeedCrawler.FormatDate | crawlers/daangn.py:92 | `strftime('%Y.%m.%d')` has the form `DDDD.DD.DD`, and its three fields read back as the year, month and day (modulo 10000, 100 and 100) |
| FeedCrawler.Fixed | crawlers/daangn.py:92 | a zero-padded field of the given width, all digits, whose decimal value is the number modulo 10 to the width |
| FeedCrawler.DateFallback | crawlers/daangn.py:84-107 | the parsed timestamp wins when it makes a valid datetime, then the RFC 2822 text, then today; every date but today's is `DDDD.DD.DD` |
| FeedCrawler.ParseDate | crawlers/daangn.py:84-107 | the date is today's or a `DDDD.DD.DD` date, and always the latter when the timestamp is a valid datetime |
| FeedCrawler.ParseEntry | crawlers/daangn.py:44-64 | `None` exactly when the stripped title or link is empty; otherwise the stripped title and link, the cleaned summary, the parsed date and the crawler's source id |
| FeedCrawler.Fetch | crawlers/daangn.py:21-42 | the loop over `entries[:max_posts]` appends the dictionary of each valid entry, in order |
| FeedCrawler.CollectDictsStep | crawlers/daangn.py:32-35 | one loop iteration appends the dictionary of a parsed entry and nothing for a skipped one |
| FeedCrawler.FetchedPosts | crawlers/daangn.py:27-35 | at most `max_posts` posts; no feed, or a malformed feed without entries, gives none |
| FeedCrawler.FetchedFacts | crawlers/daangn.py:27-35 | at most `max_posts` posts; a malformed feed with no entries gives `[]`; each post comes from one of the first `max_posts` entries |
| FeedCrawler.FetchedDictFacts | crawlers/daangn.py:32-35 | every dictionary carries the source id and a non-empty title and URL |
| Daangn.Fetch | crawlers/daangn.py:21-42 | at most ten posts, all tagged `daangn`, with non-empty titles and URLs |
| Coupang.ParseEntry | crawlers/coupang.py:48-65 | `None` exactly when the stripped title or link is empty; otherwise a `coupang` post with the cleaned summary (at most 500 characters) and the parsed date |
| Coupang.Fetch | crawlers/coupang.py:25-46 | at most ten posts, in entry order, all tagged `coupang`, with non-empty titles and URLs |
| Toss.NonBlank | crawlers/toss.py:65 | the comprehension keeps at most one line per piece |
| Toss.NonBlankMembers | crawlers/toss.py:65 | a line is kept exactly when it is the stripped form of a non-blank piece: each such piece contributes it, and nothing else appears |
| Toss.NonBlankAppend | crawlers/toss.py:65 | the lines keep the order of the pieces they come from |
| Toss.SplitHasLine | crawlers/toss.py:64-65 | a stripped text has a non-blank line exactly when it is not empty |
| Toss.ContentLines | crawlers/toss.py:64-65 | the lines of the link text are stripped, non-empty and free of line breaks, and there is at least one exactly when the text is not blank |
| Toss.ParseContent | crawlers/toss.py:62-82 | the title is non-empty exactly when the link text is not blank, and there is no summary without a title |
| Toss.ParseContentFacts | crawlers/toss.py:62-82 | the title is non-empty exactly when there is a line; title and summary are whole consecutive lines, or the summary is empty |
| Toss.PostOf | crawlers/toss.py:44-54 | a kept post carries the URL it was made for |
| Toss.Candidate | crawlers/toss.py:33-54 | a link gives a post exactly when it is an article link whose title has at least 3 characters; the post has that title, the next line as summary, today's date and source `toss` |
| Toss.ParsePosts | crawlers/toss.py:20-60 | the loop returns the first-URL-wins deduplication of the candidates, in link order |
| Toss.CandidateFacts | crawlers/toss.py:33-54 | a kept link has an href containing `/article/`, a title of at least 3 characters, today's date and source `toss` |
| Toss.ParsedFacts | crawlers/toss.py:20-60 | the URLs are distinct; every post has a title of at least 3 characters, today's date, and the absolute URL of an `/article/` href of the page |
| Kakao.FindDate | crawlers/kakao.py:89 | `re.search` finds the leftmost position where `DDDD?DD?DD` matches, with `?` in `. - /` |
| Kakao.ExtractTitle | crawlers/kakao.py:69-74 | the stripped `.tit_post` text; non-empty exactly when the element exists and is not blank |
| Kakao.ExtractSummary | crawlers/kakao.py:76-81 | the stripped `.desc_post` text; non-empty exactly when the element exists and is not blank |
| Kakao.DotSeparatorsOfMatch | crawlers/kakao.py:91 | replacing `-` and `/` by `.` in a match gives `DDDD.DD.DD` with the same digits |
| Kakao.ExtractDate | crawlers/kakao.py:83-92 | `''` exactly when there is no `.txt_date` element or no match; otherwise the leftmost match with dots as separators |
| Kakao.PostOf | crawlers/kakao.py:45-61 | a kept post carries the URL it was made for |
| Kakao.Candidate | crawlers/kakao.py:34-61 | a card gives a post exactly when it has an href and a title of at least 3 characters; the post has that title and summary, and the extracted date or else today's |
| Kakao.ParsePosts | crawlers/kakao.py:21-67 | the loop returns the first-URL-wins deduplication of the candidates, in card order |
| Kakao.CandidateFacts | crawlers/kakao.py:34-61 | a kept card has an href, a title of at least 3 characters, and a `DDDD.DD.DD` date or today's |
| Kakao.ParsedFacts | crawlers/kakao.py:21-67 | the URLs are distinct; every post has a title of at least 3 characters, source `kakao`, and the absolute URL of a card's href |
| D2.ParsePosts | crawlers/d2.py:20-70 | the loop returns the first-URL-wins deduplication of the candidates, in article order |
| D2.Visit | crawlers/d2.py:33-65 | one iteration keeps an article's post exactly when it has one and its URL is unseen |
| D2.Candidate | crawlers/d2.py:33-65 | an article gives a post exactly when it has a link with a non-empty href and a non-blank title; the post has the stripped title, the absolute URL, source `d2`, the stripped `.post_txt` text as summary (`''` when missing), and the stripped `dl dd` text as date, or today when that is missing or blank |
| D2.CandidateFacts | crawlers/d2.py:33-65 | a kept article has a link with an href and a non-empty title (no minimum length); no `.post_txt` gives an empty summary; no `dl dd` gives today's date |
| D2.ParsedFacts | crawlers/d2.py:20-70 | the URLs are distinct; every post has a non-empty title, source `d2`, and comes from one article of the page |
| D2.RootRelativeUrl | crawlers/d2.py:18 | against the D2 listing URL, a root-relative href becomes `https://d2.naver.com` followed by the href |
| Ridi.Elements | crawlers/ridi.py:27-29 | the `article` elements, or the `.entry-meta` elements when there is no article |
| Ridi.FirstMatch | crawlers/ridi.py:82-87 | the chosen text is empty or longer than the threshold |
| Ridi.FirstMatchIsFirst | crawlers/ridi.py:96-121 | the result is `''` exactly when no selector gives a usable text; otherwise it is the stripped text of the first selector that does |
| Ridi.SelectFirst | crawlers/ridi.py:82-87 | the loop over the candidate selectors returns the first-match choice |
| Ridi.FirstLine | crawlers/ridi.py:89-92 | the first line of the link text has no line break, and is non-empty exactly when the text is not blank |
| Ridi.FirstLineFacts | crawlers/ridi.py:92 | the stripped first line of a stripped non-blank text is non-empty |
| Ridi.ExtractTitle | crawlers/ridi.py:76-94 | the first usable title selector's text, else the first line of the link text; empty exactly when neither gives text |
| Ridi.ContainerOf | crawlers/ridi.py:33-37 | the nested `.entry-meta` when there is one, the element itself otherwise |
| Ridi.LinkOf | crawlers/ridi.py:39-43 | `.entry-title a` when present, else `a[href*="/story/"]`; none only when both are missing |
| Ridi.Candidate | crawlers/ridi.py:31-69 | an element gives a post exactly when its link has a non-empty href and its title has at least 3 characters; the post has that title, the absolute URL, the first usable summary, and the first non-empty date selector's text as date, or today when there is none |
| Ridi.ParsePosts | crawlers/ridi.py:20-74 | the loop returns the first-URL-wins deduplication of the candidates over the chosen elements |
| Ridi.Visit | crawlers/ridi.py:31-69 | one iteration keeps an element's post exactly when it has one and its URL is unseen |
| Ridi.CandidateFacts | crawlers/ridi.py:31-69 | a kept element has a link, from `.entry-title a` or else `a[href*="/story/"]`, with an href; its title is at least 3 characters; its summary is empty or longer than 10; its date is the first non-empty date selector's text, or today |
| Ridi.ParsedFacts | crawlers/ridi.py:20-74 | the URLs are distinct; every post has a title of at least 3 characters, a summary that is empty or longer than 10, and the URL and date (first non-empty date selector, or today) of one element |
| Notion.IsConfigured | notion_client.py:33-35 | a client is configured exactly when its token is non-empty |
| Notion.BuildPagePayload | notion_client.py:92-126 | name, URL, tag and parent are passed through; `Summary` exists exactly when the summary is non-empty, and holds its first at most 2000 characters; `Published Date` exists exactly when the date is non-empty, has the same length, has `-` wherever the date had `.`, and keeps every other character |
| Notion.PublishedDateIsIso | notion_client.py:120-124 | a `DDDD.DD.DD` date becomes `DDDD-DD-DD` |
| Notion.CreatePage | notion_client.py:71-90 | with no token nothing is sent and the answer is false; otherwise the built payload is sent, and the answer is true exactly when the API accepted it |
| Notion.QueryDatabase | notion_client.py:58-69 | no token, a failed request, or a body without results all give `[]`; otherwise the body's results |
| Cache.LoadedIff | cache.py:26 | a URL is read from the file exactly when it is the stripped form of some non-blank line |
| Cache.Loaded | cache.py:26 | every URL read from lines is non-blank and stripped; no lines give no URLs |
| Cache.LoadFile | cache.py:24-28 | a missing file gives the empty set; every URL read is non-blank and stripped |
| Cache.LoadFileIff | cache.py:24-28 | a fresh load holds exactly the stripped non-blank lines, and nothing when the file is missing |
| Cache.LoadedAppend | cache.py:46-47 | appending a line adds exactly what that line reads as |
| Cache.StripAllLoaded | cache.py:26 | every URL read from the file is already stripped and non-blank |
| Cache.AppendKeepsMirror | cache.py:44-47 | adding to the set and appending the same line keeps the file a mirror of the set |
| Cache.MirroredUrl | cache.py:24-47 | a stripped, non-blank URL held in the set is read back from a file that mirrors the set |
| Cache.ReloadSeesAppended | cache.py:24-47 | a stripped, non-blank URL without line breaks written by `add` is read back by a later load |
| Cache.PaddedUrlNotReloaded | cache.py:24-47 | a URL with surrounding whitespace is written as it is but is not read back as itself |
| Cache.URLCache.constructor | cache.py:14-17 | empty set, not loaded; the visible contents are what the file holds |
| Cache.URLCache.Load | cache.py:19-31 | the first call reads the file into the set; later calls return the set unchanged; the visible contents never change |
| Cache.URLCache.Contains | cache.py:33-37 | loads if needed, then answers membership without changing the contents or the file |
| Cache.URLCache.Add | cache.py:39-47 | a known URL leaves the file alone; a new one joins the set and is appended as exactly one line; the contents grow by the URL |
| Cache.URLCache.Size | cache.py:49-53 | loads if needed, then returns the number of cached URLs |
| Cache.URLCache.Has | cache.py:55-57 | `in` answers as `contains` does |
| Pipeline.FlattenMembers | main.py:22-37 | a post is in the concatenation exactly when some crawler returned it; it is empty exactly when every crawler returned nothing |
| Pipeline.Flatten | main.py:22-37 | no crawlers give no posts; otherwise the concatenation ends with the last crawler's posts |
| Pipeline.CrawlAllBlogs | main.py:22-37 | the loop concatenates the crawlers' results in registry order |
| Pipeline.FilterNewPosts | main.py:40-42 | a post is kept exactly when its URL is not cached |
| Pipeline.NewMask | main.py:42 | position `i` is kept exactly when its URL is not cached |
| Pipeline.FilterIsSubsequence | main.py:40-42 | the new posts are the order-preserving subsequence selected by that mask |
| Pipeline.AllCachedNothingNew | main.py:40-42 | if every URL is cached, there are no new posts |
| Pipeline.Publish | main.py:67-72 | one `create_page` call: true exactly when a token is set and the API accepted; the request carries the post's URL |
| Pipeline.Attempts | main.py:64-72 | the publish loop makes one call per post, in order |
| Pipeline.CountBound | main.py:60-81 | `added` is between 0 and the number of posts; it equals that number exactly when every call succeeded, and is 0 exactly when none did |
| Pipeline.Confirmed | main.py:67-74 | one URL per confirmed call |
| Pipeline.ConfirmedIff | main.py:67-74 | a URL is confirmed exactly when a call for it succeeded |
| Pipeline.SuccessUrls | main.py:67-74 | as many URLs go to `cache.add` as calls succeeded |
| Pipeline.SuccessUrlsIff | main.py:67-74 | a URL goes to `cache.add` exactly when the call for one of its posts succeeded |
| Pipeline.AppendedFacts | main.py:64-77 | the lines appended are exactly the confirmed URLs not already cached, each once, even when a URL is published twice |
| Pipeline.WithLines | cache.py:46-47 | appending lines extends the file by exactly those lines |
| Pipeline.PublishOne | main.py:67-77 | `cache.add` runs exactly when the publish succeeded; a failed publish leaves the cache alone |
| Pipeline.Advance | main.py:64-79 | one iteration keeps the loop state: attempts, count, and cache set and file |
| Pipeline.AddToNotion | main.py:60-81 | one call per post; `added` counts the successes; the cache gains exactly the confirmed URLs, and the file gains each new one once |
| Pipeline.Run | main.py:84-122 | no posts, or no new posts, end the run before any publish with the cache untouched; otherwise only the new posts are published and the cache grows by their confirmed URLs |
| Pipeline.RerunFindsNothing | main.py:40-77 | after a run in which every publish succeeded, the same posts are no longer new against the cache object's own set |
| Pipeline.AllConfirmed | main.py:60-81 | with a token and every publish accepted, every new post is counted and every crawled URL is in the set afterwards |
| Pipeline.FileCoversContents | cache.py:19-47 | for URLs that are stripped, non-blank and free of line breaks, what the cache answers from is also what a fresh load of its file reads, so a fresh load finds no new post either |
| Pipeline.RunConfirmingAll | main.py:84-122 | a run with a token and every publish accepted counts every new post, and a fresh load of the cache file it leaves behind finds no new post |
| Pipeline.RunTwice | main.py:84-122 | a second process started on the same crawl reads the file the first run left and ends with "no posts" or "no new posts", leaving the file unchanged |
| Pipeline.FailedIsRetried | main.py:76-77 | a post whose publishes all failed is still new on the next run |
| Legacy.UrlAgreesWithCrawler | d2_to_notion_complete.py:78-81 | the script's hand-written join agrees with the crawler's `_make_absolute_url` for every href |
| Legacy.AbsoluteUrl | d2_to_notion_complete.py:78-81 | an href not starting with `/` is kept; a root-relative one follows `https://d2.naver.com` |
| Legacy.CandidateAgrees | d2_to_notion_complete.py:64-101 | the script and the D2 crawler accept the same articles with the same title, URL and summary; their dates differ only when `dl dd` is present but blank |
| Legacy.Candidate | d2_to_notion_complete.py:64-101 | an article gives a post exactly when it has a link with a non-empty href and a non-blank title; the summary is the stripped `.post_txt` text, or `''` when missing; the date is the stripped `dl dd` text when present and today otherwise |
| Legacy.Dict | d2_to_notion_complete.py:95-100 | the script's post dictionary has the four fields and no `source` |
| Legacy.Dicts | d2_to_notion_complete.py:95-100 | one dictionary per post, each with a title and a URL |
| Legacy.ParseArticles | d2_to_notion_complete.py:58-104 | the loop returns the first-URL-wins deduplication of the articles' candidates |
| Legacy.Visit | d2_to_notion_complete.py:64-101 | one iteration keeps an article's post exactly when it has one and its URL is unseen |
| Legacy.Fetched | d2_to_notion_complete.py:42-113 | at most ten posts with distinct URLs; a failed load gives none |
| Legacy.FetchD2Posts | d2_to_notion_complete.py:42-113 | a failed load gives `[]`; otherwise the first ten deduplicated posts |
| Legacy.FetchedFacts | d2_to_notion_complete.py:84-109 | at most ten posts with distinct URLs and non-empty titles; a missing date element gives today's date |
| Legacy.CreateNotionPage | d2_to_notion_complete.py:146-222 | no token gives false with nothing sent; otherwise the payload with tag `Articles` is sent and the answer is whether it was accepted |
| Legacy.CreateAgrees | d2_to_notion_complete.py:146-222 | the script builds the same page and gives the same answer as `NotionClient.create_page` |
| Legacy.SaveToCache | d2_to_notion_complete.py:237-240 | appends exactly one line, the URL itself, and keeps every earlier one (one line per URL; see Left out) |
| Legacy.SaveToCacheReload | d2_to_notion_complete.py:229-240 | for a URL without `\n` or `\r`, a later `load_cache` sees what it saw before plus the saved line, stripped if non-blank |
| Legacy.PublishPost | d2_to_notion_complete.py:290-296 | the script's publish of a post is the pipeline's publish of it |
| Legacy.SendOne | d2_to_notion_complete.py:289-303 | one iteration keeps the loop state: attempts, count, and saved file |
| Legacy.PublishAll | d2_to_notion_complete.py:287-303 | one call per new post; `added` counts the successes; the file gains the confirmed URLs in order |
| Legacy.Run | d2_to_notion_complete.py:247-308 | no posts, or no new posts, end the run with the file untouched; otherwise the new posts are the uncached ones, and the file gains their confirmed URLs |
| Legacy.AppendsOnlyNew | d2_to_notion_complete.py:269-297 | a URL saved by the loop was not in the cache when the run began |

## Left out

- Browser rendering (`sync_playwright`, `goto`, `wait_for_selector`, `query_selector`, `inner_text`) is left out. Each page is given as a sequence of element records. A failure to load the page, including a `wait_for_selector` timeout, is `None`.
- HTTP is left out: `_request`, `urlopen`, JSON encoding, `query_notion_database`, and the network part of `query_database`. Each publish is a boolean oracle, and the payload is a datatype, not bytes.
- `feedparser.parse` is an input, together with its `bozo` flag.
- `html.unescape` is an uninterpreted function parameter.
- `email.utils.parsedate_to_datetime` is an uninterpreted function parameter returning an optional date.
- `datetime.now().strftime('%Y.%m.%d')` is a `today` parameter.
- Sleeps, every `print`, `display_posts` and the Windows console setup are left out. They do not affect any value the program keeps.
- `config.py` appears only through its constants: ten posts per source, tag `Articles`, and the database id. `os.getenv` is a token parameter.
- The GC Company and Wanted crawlers are not part of this model. The registry keeps their place in `CRAWLERS`, and their results are inputs like the others.
- File-system errors and concurrent runs are left out, because the code neither locks nor recovers.
- The cache file is a sequence of lines without terminators. This assumes an existing file ends with a newline; if it did not, the first URL appended would join its last line.
- `Cache.URLCache.Add`: the model writes a URL as exactly one line. A URL that contains `\n` or `\r` is written by `f.write(url + '\n')` as several lines, and reading the file in text mode gives it back as several URLs. Such a URL is then not seen as cached on the next run and is published again. The model does not capture this.
- `Cache.ReloadSeesAppended` is stated only for URLs without `\n` or `\r`, because of the line splitting described for `Cache.URLCache.Add`.
- `Legacy.SaveToCache`: the model writes a URL as exactly one line. A URL that contains `\n` or `\r` is written by `f.write(url + '\n')` as several lines, and `load_cache` reads it back as several URLs, so the script does not see it as cached and publishes it again. The model does not capture this.
- `Legacy.SaveToCacheReload` is stated only for URLs without `\n` or `\r`, for the reason given for `Legacy.SaveToCache`.
- `Pipeline.RunTwice` and `Pipeline.RunConfirmingAll` require every crawled URL to be stripped, non-blank and free of line breaks. A padded URL is read back stripped (`Cache.PaddedUrlNotReloaded`), and a URL with a line break is read back in pieces. In both cases the next run sees the URL as new and publishes it again.
- `Cache.URLCache.Valid`: the set and the file are kept equal only up to `strip`. A URL with surrounding whitespace is added as it is but read back stripped (`Cache.PaddedUrlNotReloaded`).
- `Crawler.UrlSplit` models `urlparse` only for the split it is used for: a scheme before the first `:` and an authority after `//`. It leaves out the removal of leading control characters and of embedded tabs and newlines.
- `Kakao.ExtractDate` matches ASCII digits only. Python's `\d` also matches other Unicode decimal digits.
- `FeedCrawler.FormatDate` pads the year to four digits. `strftime('%Y')` may not pad years below 1000.
- `FeedCrawler.ParseDate` treats a timestamp as valid exactly when `datetime(*ts[:6])` would accept it. Other ways `time_struct` could fail are left out.
- `Ridi.ParsePosts` assumes every element and link has `query_selector` and `inner_text`, as Playwright handles do. The `hasattr` guards are therefore always true.
- `Pipeline.Run` requires every post dictionary to have `title` and `url`. Every crawler's `to_dict` provides both.
- The model does not capture the `source` label printed by `add_to_notion`, because it is output only.
- `Legacy.Dict` has no `source` key, because the script's dictionaries do not have one.

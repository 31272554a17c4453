/**
 * The feed crawlers (`crawlers/daangn.py`, `crawlers/coupang.py`, whose
 * entry logic is line for line the same): cleaning an entry's summary,
 * choosing its date, turning an entry into a post, and the `fetch` loop.
 *
 * `feedparser` is not modelled: a feed is given as its `bozo` flag and
 * its entries. `html.unescape` and `email.utils.parsedate_to_datetime`
 * are parameters, and so is today's date.
 */
module FeedCrawler {
  import opened Wrappers
  import opened Text
  import opened Crawler
  import Listing

  /** The first six fields of a `time.struct_time`. */
  datatype TimeStruct = TimeStruct(year: int, month: int, day: int, hour: int, minute: int, second: int)

  /** The date `parsedate_to_datetime` found in a textual date. */
  datatype Date = Date(year: nat, month: nat, day: nat)

  /** A feed entry. A missing text field reads as `""`, which the code
      treats exactly like an empty one. */
  datatype Entry = Entry(
    title: string,
    link: string,
    summary: string,
    description: string,
    publishedParsed: Option<TimeStruct>,
    updatedParsed: Option<TimeStruct>,
    published: string,
    updated: string)

  /** The result of `feedparser.parse`: whether the document was malformed, and what was salvaged. */
  datatype Feed = Feed(bozo: bool, entries: seq<Entry>)

  /** Longest summary kept, and the length of the part kept before `...`. */
  const SummaryMax: nat := 500
  const SummaryCut: nat := 497

  // ----- summary -----

  /** `re.sub(r'<[^>]+>', '', s)`: from each `<` that is followed, after at
      least one other character, by a `>`, everything up to that first `>`
      is removed; other characters are kept. */
  function StripTags(s: string): (r: string)
    ensures |r| <= |s|
    ensures forall c :: c in r ==> c in s
    decreases |s|
  {
    if s == [] then []
    else if s[0] == '<' then
      var k := IndexOf(s[1..], '>');
      if 1 <= k < |s| - 1 then StripTags(s[k + 2..]) else [s[0]] + StripTags(s[1..])
    else [s[0]] + StripTags(s[1..])
  }

  /** No part of `s` matches `<[^>]+>`: every `<` is followed by `>` at once,
      or by no `>` at all. */
  predicate TagFree(s: string) {
    forall i :: 0 <= i < |s| && s[i] == '<' ==>
      (i + 1 < |s| && s[i + 1] == '>') || '>' !in s[i + 1..]
  }

  lemma {:induction false} StripTagsKeepsGt(s: string)
    requires s != [] && s[0] == '>'
    ensures StripTags(s) != [] && StripTags(s)[0] == '>'
  {
  }

  /** After tag stripping nothing tag-shaped is left. */
  lemma {:induction false} StripTagsTagFree(s: string)
    ensures TagFree(StripTags(s))
    decreases |s|
  {
    if s != [] {
      var k := IndexOf(s[1..], '>');
      if s[0] == '<' && 1 <= k < |s| - 1 {
        StripTagsTagFree(s[k + 2..]);
      } else {
        StripTagsTagFree(s[1..]);
        var rest := StripTags(s[1..]);
        var r := [s[0]] + rest;
        assert r == StripTags(s);
        forall i | 0 <= i < |r| && r[i] == '<'
          ensures (i + 1 < |r| && r[i + 1] == '>') || '>' !in r[i + 1..]
        {
          if i == 0 {
            if k < |s| - 1 {
              assert k == 0 && s[1..][0] == '>';
              StripTagsKeepsGt(s[1..]);
            } else {
              assert '>' !in s[1..];
              assert r[1..] == rest;
            }
          } else {
            assert rest[i - 1] == '<';
            assert r[i + 1..] == rest[i..];
          }
        }
      }
    }
  }

  lemma TagFreeTail(s: string)
    requires s != [] && TagFree(s)
    ensures TagFree(s[1..])
  {
    forall i | 0 <= i < |s| - 1 && s[1..][i] == '<'
      ensures (i + 1 < |s| - 1 && s[1..][i + 1] == '>') || '>' !in s[1..][i + 1..]
    {
      assert s[i + 1] == '<' && s[1..][i + 1..] == s[i + 2..];
    }
  }

  /** Text with nothing tag-shaped in it is kept whole. */
  lemma {:induction false} TagFreeKept(s: string)
    requires TagFree(s)
    ensures StripTags(s) == s
    decreases |s|
  {
    if s != [] {
      TagFreeTail(s);
      TagFreeKept(s[1..]);
      if s[0] == '<' {
        var k := IndexOf(s[1..], '>');
        assert !(1 <= k < |s| - 1);
      }
    }
  }

  /** Tag stripping leaves a string unchanged exactly when it holds no tag. */
  lemma StripTagsFixedIff(s: string)
    ensures StripTags(s) == s <==> TagFree(s)
  {
    if TagFree(s) {
      TagFreeKept(s);
    }
    StripTagsTagFree(s);
  }

  /** A tag `<t>` after `<`-free text is removed and the text before it kept. */
  lemma {:induction false} StripTagsRemovesTag(a: string, t: string, b: string)
    requires '<' !in a && t != [] && '>' !in t
    ensures StripTags(a + "<" + t + ">" + b) == a + StripTags(b)
    decreases |a|
  {
    var s := a + "<" + t + ">" + b;
    if a == [] {
      var k := IndexOf(s[1..], '>');
      assert s[1..][|t|] == '>';
      assert forall j :: 0 <= j < |t| ==> s[1..][j] == t[j];
      assert k == |t|;
      assert s[k + 2..] == b;
    } else {
      StripTagsRemovesTag(a[1..], t, b);
      assert s[1..] == a[1..] + "<" + t + ">" + b;
    }
  }

  /** A match starts at the first `<`, so a `<` before the tag is swallowed
      with it: `<x<y>` is removed whole although `<x` alone holds no tag. */
  lemma TagStartsAtFirstLt()
    ensures TagFree("<x") && StripTags("<x<y>") == []
  {
    var s := "<x<y>";
    var k := IndexOf(s[1..], '>');
    assert s[1..][3] == '>' && s[1..][0] != '>' && s[1..][1] != '>' && s[1..][2] != '>';
    assert k == 3;
    assert s[5..] == [];
  }

  /** `re.sub(r'\s+', ' ', s)`: every run of whitespace becomes one space. */
  function CollapseSpaces(s: string): (r: string)
    ensures |r| <= |s|
    ensures r == [] <==> s == []
    decreases |s|
  {
    if s == [] then []
    else if IsSpace(s[0]) then [' '] + CollapseSpaces(LStrip(s))
    else [s[0]] + CollapseSpaces(s[1..])
  }

  /** The non-whitespace characters of `s`, in order. */
  function Visible(s: string): string {
    if s == [] then [] else (if IsSpace(s[0]) then [] else [s[0]]) + Visible(s[1..])
  }

  /** Single spaces only: no whitespace other than `' '`, never two in a row. */
  predicate Collapsed(s: string) {
    (forall i :: 0 <= i < |s| && IsSpace(s[i]) ==> s[i] == ' ') &&
    (forall i :: 0 <= i < |s| - 1 ==> !(IsSpace(s[i]) && IsSpace(s[i + 1])))
  }

  lemma {:induction false} VisibleConcat(a: string, b: string)
    ensures Visible(a + b) == Visible(a) + Visible(b)
  {
    if a != [] {
      VisibleConcat(a[1..], b);
      assert (a + b)[0] == a[0];
      assert (a + b)[1..] == a[1..] + b;
    } else {
      assert a + b == b;
    }
  }

  lemma {:induction false} VisibleOfSpaces(s: string)
    requires AllSpace(s)
    ensures Visible(s) == []
  {
    if s != [] {
      VisibleOfSpaces(s[1..]);
    }
  }

  lemma {:induction false} CollapseStartsVisible(s: string)
    requires s != [] && !IsSpace(s[0])
    ensures CollapseSpaces(s) != [] && CollapseSpaces(s)[0] == s[0]
  {
  }

  /** Collapsing leaves single spaces and keeps every visible character. */
  lemma {:induction false} CollapseFacts(s: string)
    ensures Collapsed(CollapseSpaces(s))
    ensures Visible(CollapseSpaces(s)) == Visible(s)
    decreases |s|
  {
    if s != [] {
      if IsSpace(s[0]) {
        var t := LStrip(s);
        LStripIsSuffix(s);
        CollapseFacts(t);
        var c := CollapseSpaces(t);
        if t != [] { CollapseStartsVisible(t); }
        assert CollapseSpaces(s) == [' '] + c;
        VisibleConcat([' '], c);
        assert s == s[..|s| - |t|] + t;
        VisibleConcat(s[..|s| - |t|], t);
        VisibleOfSpaces(s[..|s| - |t|]);
      } else {
        CollapseFacts(s[1..]);
        var c := CollapseSpaces(s[1..]);
        assert CollapseSpaces(s) == [s[0]] + c;
        VisibleConcat([s[0]], c);
        assert s == [s[0]] + s[1..];
        VisibleConcat([s[0]], s[1..]);
      }
    }
  }

  /** `re.sub(r'\s+', ' ', s).strip()`. */
  function Normalize(s: string): (r: string)
    ensures |r| <= |s| && IsStripped(r)
  {
    Strip(CollapseSpaces(s))
  }

  lemma CollapsedSlice(c: string, i: nat, n: nat)
    requires i + n <= |c| && Collapsed(c)
    ensures Collapsed(c[i..i + n])
  {
    var r := c[i..i + n];
    assert forall j :: 0 <= j < |r| ==> r[j] == c[i + j];
  }

  /** Stripping removes only whitespace. */
  lemma VisibleStrip(c: string)
    ensures Visible(Strip(c)) == Visible(c)
  {
    var i := StripIsSlice(c);
    var r := Strip(c);
    assert c == c[..i] + r + c[i + |r|..];
    VisibleConcat(c[..i] + r, c[i + |r|..]);
    VisibleConcat(c[..i], r);
    VisibleOfSpaces(c[..i]);
    VisibleOfSpaces(c[i + |r|..]);
  }

  /** Normalised text has single spaces, no whitespace at either end, and
      the same visible characters as its input. */
  lemma NormalizeFacts(s: string)
    ensures var r := Normalize(s);
      Collapsed(r) && IsStripped(r) && Visible(r) == Visible(s)
  {
    var c := CollapseSpaces(s);
    CollapseFacts(s);
    var i := StripIsSlice(c);
    var r := Strip(c);
    CollapsedSlice(c, i, |r|);
    VisibleStrip(c);
  }

  /** The 500-character cap: 497 characters and `...` when longer. */
  function Cap(s: string): (r: string)
    ensures |r| <= SummaryMax
    ensures |s| <= SummaryMax ==> r == s
    ensures |s| > SummaryMax ==> |r| == SummaryMax && r[..SummaryCut] == s[..SummaryCut] && r[SummaryCut..] == "..."
    ensures IsStripped(s) ==> IsStripped(r)
  {
    if |s| > SummaryMax then s[..SummaryCut] + "..." else s
  }

  /** `_extract_summary`: `summary`, or `description` when that is empty;
      tags removed, entities decoded, whitespace normalised, capped. */
  function ExtractSummary(e: Entry, unescape: string -> string): (r: string)
    ensures |r| <= SummaryMax && IsStripped(r)
  {
    var raw := if e.summary != [] then e.summary else e.description;
    Cap(Normalize(unescape(StripTags(raw))))
  }

  /** The cleaned summary is at most 500 characters; text that fits is kept
      whole, longer text keeps its first 497 characters followed by `...`;
      in both cases single-spaced with no whitespace at either end. */
  lemma SummaryFacts(e: Entry, unescape: string -> string)
    ensures var raw := if e.summary != [] then e.summary else e.description;
      var clean := Normalize(unescape(StripTags(raw)));
      var r := ExtractSummary(e, unescape);
      |r| <= SummaryMax && Collapsed(r) && IsStripped(r) &&
      (|clean| <= SummaryMax ==> r == clean) &&
      (|clean| > SummaryMax ==> |r| == SummaryMax && r[..SummaryCut] == clean[..SummaryCut] && r[SummaryCut..] == "...")
  {
    var raw := if e.summary != [] then e.summary else e.description;
    var clean := Normalize(unescape(StripTags(raw)));
    NormalizeFacts(unescape(StripTags(raw)));
    var r := ExtractSummary(e, unescape);
    if |clean| > SummaryMax {
      assert r == clean[..SummaryCut] + "...";
      assert forall i :: 0 <= i < SummaryCut ==> r[i] == clean[i];
      assert forall i :: SummaryCut <= i < |r| ==> r[i] == '.';
    }
  }

  // ----- date -----

  function DaysInMonth(year: int, month: int): int
    requires 1 <= month <= 12
  {
    if month == 2 then
      (if (year % 4 == 0 && year % 100 != 0) || year % 400 == 0 then 29 else 28)
    else if month in {4, 6, 9, 11} then 30
    else 31
  }

  /** Whether `datetime(*time_struct[:6])` succeeds. */
  predicate ValidDateTime(t: TimeStruct) {
    1 <= t.year <= 9999 && 1 <= t.month <= 12 && 1 <= t.day <= DaysInMonth(t.year, t.month) &&
    0 <= t.hour <= 23 && 0 <= t.minute <= 59 && 0 <= t.second <= 59
  }

  function Pow10(k: nat): (p: nat)
    ensures p > 0
  {
    if k == 0 then 1 else 10 * Pow10(k - 1)
  }

  /** The number a string of decimal digits denotes, most significant first. */
  function DigitsValue(s: string): int {
    if s == [] then 0 else 10 * DigitsValue(s[..|s| - 1]) + (s[|s| - 1] as int - '0' as int)
  }

  lemma {:induction false} ModUnique(n: int, m: int, a: int, b: int)
    requires m > 0 && n == m * a + b && 0 <= b < m
    ensures n % m == b
  {
    var k := a - n / m;
    assert m * k == n % m - b;
  }

  /** The low decimal digit splits off a remainder modulo `10 * p`. */
  lemma ModTen(n: nat, p: nat)
    requires p > 0
    ensures (n / 10 % p) * 10 + n % 10 == n % (10 * p)
  {
    var q, d := n / 10, n % 10;
    ModUnique(n, 10 * p, q / p, (q % p) * 10 + d);
  }

  /** `n` as exactly `width` decimal digits, zero-padded (the low digits if it is wider):
      the digits read back as `n` modulo `10^width`. */
  function Fixed(n: nat, width: nat): (r: string)
    ensures |r| == width
    ensures forall i :: 0 <= i < |r| ==> IsDigit(r[i])
    ensures DigitsValue(r) == n % Pow10(width)
  {
    if width == 0 then []
    else
      var r := Fixed(n / 10, width - 1) + [('0' as int + n % 10) as char];
      assert r[..|r| - 1] == Fixed(n / 10, width - 1);
      ModTen(n, Pow10(width - 1));
      r
  }

  /** `strftime('%Y.%m.%d')`: the three fields are the year, month and day,
      each reduced to its field width. */
  function FormatDate(year: nat, month: nat, day: nat): (r: string)
    ensures IsDateWith(r, '.')
    ensures DigitsValue(r[..4]) == year % 10000
    ensures DigitsValue(r[5..7]) == month % 100 && DigitsValue(r[8..]) == day % 100
  {
    var r := Fixed(year, 4) + "." + Fixed(month, 2) + "." + Fixed(day, 2);
    assert r[..4] == Fixed(year, 4) && r[5..7] == Fixed(month, 2) && r[8..] == Fixed(day, 2);
    assert Pow10(4) == 10000 && Pow10(2) == 100;
    r
  }

  /** The structured timestamp the code looks at: `published_parsed`, or
      `updated_parsed` when the former is absent. */
  function TimeStructOf(e: Entry): Option<TimeStruct> {
    if e.publishedParsed.Some? then e.publishedParsed else e.updatedParsed
  }

  /** The textual date it falls back to: `published`, or `updated` when that is empty. */
  function DateTextOf(e: Entry): string {
    if e.published != [] then e.published else e.updated
  }

  /** `_parse_date`: the structured timestamp if it makes a valid datetime,
      else the RFC 2822 text if it parses, else today. */
  function ParseDate(e: Entry, rfc2822: string -> Option<Date>, today: string): (r: string)
    ensures r == today || IsDateWith(r, '.')
    ensures TimeStructOf(e).Some? && ValidDateTime(TimeStructOf(e).value) ==> IsDateWith(r, '.')
  {
    var ts := TimeStructOf(e);
    if ts.Some? && ValidDateTime(ts.value) then
      FormatDate(ts.value.year, ts.value.month, ts.value.day)
    else
      var text := DateTextOf(e);
      if text != [] && rfc2822(text).Some? then
        var d := rfc2822(text).value;
        FormatDate(d.year, d.month, d.day)
      else today
  }

  /** The date fallback chain: the timestamp wins when valid; then the text;
      today only when neither gives a date. Every date but today's is `YYYY.MM.DD`. */
  lemma DateFallback(e: Entry, rfc2822: string -> Option<Date>, today: string)
    ensures var r := ParseDate(e, rfc2822, today);
      var ts := TimeStructOf(e);
      var text := DateTextOf(e);
      (ts.Some? && ValidDateTime(ts.value) ==> r == FormatDate(ts.value.year, ts.value.month, ts.value.day)) &&
      (!(ts.Some? && ValidDateTime(ts.value)) && text != [] && rfc2822(text).Some? ==>
        r == FormatDate(rfc2822(text).value.year, rfc2822(text).value.month, rfc2822(text).value.day)) &&
      (!(ts.Some? && ValidDateTime(ts.value)) && (text == [] || rfc2822(text).None?) ==> r == today) &&
      (r == today || IsDateWith(r, '.'))
  {
  }

  // ----- entries and the fetch loop -----

  /** `_parse_entry`: `None` when the stripped title or link is empty. */
  function ParseEntry(e: Entry, sourceId: string, unescape: string -> string,
                      rfc2822: string -> Option<Date>, today: string): (r: Option<Post>)
    ensures r.None? <==> Strip(e.title) == [] || Strip(e.link) == []
    ensures r.Some? ==>
      r.value.title == Strip(e.title) && r.value.url == Strip(e.link) &&
      r.value.summary == ExtractSummary(e, unescape) &&
      r.value.date == ParseDate(e, rfc2822, today) &&
      r.value.source == sourceId && |r.value.summary| <= SummaryMax
  {
    var title := Strip(e.title);
    var url := Strip(e.link);
    if title == [] || url == [] then None
    else
      SummaryFacts(e, unescape);
      Some(MakePost(title, url, ExtractSummary(e, unescape), ParseDate(e, rfc2822, today), sourceId, today))
  }

  /** The posts `fetch` builds: valid entries among the first `max_posts`, in feed order. */
  function Entries(feed: Feed, maxPosts: nat): seq<Entry> {
    Take(feed.entries, maxPosts)
  }

  function FetchedPosts(feed: Option<Feed>, sourceId: string, maxPosts: nat, unescape: string -> string,
                        rfc2822: string -> Option<Date>, today: string): (ps: seq<Post>)
    ensures |ps| <= maxPosts
    ensures feed.None? || (feed.value.bozo && feed.value.entries == []) ==> ps == []
  {
    match feed
    case None => []
    case Some(f) =>
      if f.bozo && f.entries == [] then []
      else Listing.Collect(Entries(f, maxPosts), e => ParseEntry(e, sourceId, unescape, rfc2822, today))
  }

  /** `fetch` for a feed. `feed` is `None` when an exception escaped (the result is then `[]`). */
  method Fetch(feed: Option<Feed>, sourceId: string, maxPosts: nat, unescape: string -> string,
               rfc2822: string -> Option<Date>, today: string) returns (posts: seq<PostDict>)
    ensures posts == Dicts(FetchedPosts(feed, sourceId, maxPosts, unescape, rfc2822, today))
  {
    if feed.None? {
      return [];
    }
    var f := feed.value;
    if f.bozo && f.entries == [] {
      return [];
    }
    var entries := Entries(f, maxPosts);
    var candidate := e => ParseEntry(e, sourceId, unescape, rfc2822, today);
    posts := [];
    var i := 0;
    while i < |entries|
      invariant 0 <= i <= |entries|
      invariant posts == Dicts(Listing.Collect(entries[..i], candidate))
    {
      var post := ParseEntry(entries[i], sourceId, unescape, rfc2822, today);
      CollectDictsStep(entries, i, candidate, post, posts);
      if post.Some? {
        posts := posts + [ToDict(post.value)];
      }
      i := i + 1;
    }
    assert entries[..i] == entries;
  }

  /** One iteration of the `fetch` loop: a parsed entry appends its dictionary. */
  lemma CollectDictsStep<E>(es: seq<E>, i: nat, candidate: E -> Option<Post>, post: Option<Post>,
                            posts: seq<PostDict>)
    requires i < |es| && post == candidate(es[i])
    requires posts == Dicts(Listing.Collect(es[..i], candidate))
    ensures post.None? ==> Dicts(Listing.Collect(es[..i + 1], candidate)) == posts
    ensures post.Some? ==> Dicts(Listing.Collect(es[..i + 1], candidate)) == posts + [ToDict(post.value)]
  {
    Listing.CollectStep(es, i, candidate);
    if post.Some? {
      DictsAppend(Listing.Collect(es[..i], candidate), post.value);
    }
  }

  /** What a feed fetch returns: at most `max_posts` posts, each from one of
      the first `max_posts` entries with non-empty title and link, tagged
      with the source, with a capped summary. A malformed feed with no
      entries gives nothing. */
  lemma FetchedFacts(feed: Option<Feed>, sourceId: string, maxPosts: nat, unescape: string -> string,
                     rfc2822: string -> Option<Date>, today: string)
    ensures var ps := FetchedPosts(feed, sourceId, maxPosts, unescape, rfc2822, today);
      |ps| <= maxPosts &&
      (feed.Some? && feed.value.bozo && feed.value.entries == [] ==> ps == []) &&
      forall p :: p in ps ==>
        p.source == sourceId && p.title != [] && p.url != [] && |p.summary| <= SummaryMax &&
        exists i :: 0 <= i < |feed.value.entries| && i < maxPosts &&
          Some(p) == ParseEntry(feed.value.entries[i], sourceId, unescape, rfc2822, today)
  {
    var ps := FetchedPosts(feed, sourceId, maxPosts, unescape, rfc2822, today);
    if feed.Some? && !(feed.value.bozo && feed.value.entries == []) {
      var es := Entries(feed.value, maxPosts);
      var candidate := e => ParseEntry(e, sourceId, unescape, rfc2822, today);
      forall p | p in ps
        ensures p.source == sourceId && p.title != [] && p.url != [] && |p.summary| <= SummaryMax &&
          exists i :: 0 <= i < |feed.value.entries| && i < maxPosts &&
            Some(p) == ParseEntry(feed.value.entries[i], sourceId, unescape, rfc2822, today)
      {
        Listing.CollectFrom(es, candidate, p);
        var i :| 0 <= i < |es| && candidate(es[i]) == Some(p);
        assert es[i] == feed.value.entries[i];
        assert Some(p) == ParseEntry(es[i], sourceId, unescape, rfc2822, today);
      }
    }
  }

  /** The same facts for the dictionaries `fetch` returns. */
  lemma FetchedDictFacts(feed: Option<Feed>, sourceId: string, maxPosts: nat, unescape: string -> string,
                         rfc2822: string -> Option<Date>, today: string)
    ensures var ds := Dicts(FetchedPosts(feed, sourceId, maxPosts, unescape, rfc2822, today));
      |ds| <= maxPosts &&
      forall i :: 0 <= i < |ds| ==> ds[i]["source"] == sourceId && ds[i]["title"] != [] && ds[i]["url"] != []
  {
    var ps := FetchedPosts(feed, sourceId, maxPosts, unescape, rfc2822, today);
    FetchedFacts(feed, sourceId, maxPosts, unescape, rfc2822, today);
    forall i | 0 <= i < |ps|
      ensures ToDict(ps[i])["source"] == sourceId && ToDict(ps[i])["title"] != [] && ToDict(ps[i])["url"] != []
    {
      assert ps[i] in ps;
      DictFields(ps[i]);
    }
  }
}

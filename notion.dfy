/**
 * The Notion client of `notion_client.py`: whether a token is configured,
 * the create-page payload, and how a page creation turns into success or
 * failure. The HTTP request itself is an oracle: `accepted` says whether
 * the API call returned a response body (`_request` gave a non-`None` result).
 */
module Notion {
  import opened Wrappers
  import opened Text

  /** `DEFAULT_TAG`. */
  const DefaultTag: string := "Articles"
  /** `WEBLINKS_DATABASE_ID`. */
  const WeblinksDatabaseId: string := "89728ea5-acb0-423c-b047-14ef6ce4ca83"
  /** Notion's limit on a rich-text content, applied to the summary. */
  const SummaryLimit: nat := 2000

  /** A client holds its bearer token; the empty string means none was set. */
  datatype Client = Client(token: string)

  /** `is_configured`: a client is usable exactly when its token is non-empty. */
  predicate IsConfigured(c: Client): (b: bool)
    ensures b <==> |c.token| > 0
  {
    c.token != []
  }

  /** The page-creation body: parent database and the page properties. */
  datatype Payload = Payload(databaseId: string, properties: Properties)

  /** `Name` (title), `URL`, `Tags` (select), and the optional `Summary`
      (rich text) and `Published Date` (date start). */
  datatype Properties = Properties(
    name: string,
    url: string,
    tags: string,
    summary: Option<string>,
    publishedDate: Option<string>)

  /** `_build_page_payload`. */
  function BuildPagePayload(databaseId: string, title: string, url: string,
                            summary: string, date: string, tag: string): (p: Payload)
    ensures p.databaseId == databaseId
    ensures p.properties.name == title && p.properties.url == url && p.properties.tags == tag
    ensures p.properties.summary.Some? <==> summary != []
    ensures p.properties.summary.Some? ==>
      var content := p.properties.summary.value;
      |content| <= SummaryLimit && |content| <= |summary| && content == summary[..|content|] &&
      (|summary| <= SummaryLimit ==> content == summary) &&
      (|summary| > SummaryLimit ==> |content| == SummaryLimit)
    ensures p.properties.publishedDate.Some? <==> date != []
    ensures p.properties.publishedDate.Some? ==>
      var start := p.properties.publishedDate.value;
      |start| == |date| && '.' !in start &&
      (forall i :: 0 <= i < |date| && date[i] == '.' ==> start[i] == '-') &&
      (forall i :: 0 <= i < |date| && date[i] != '.' ==> start[i] == date[i])
  {
    Payload(databaseId, Properties(
      title, url, tag,
      if summary != [] then Some(Take(summary, SummaryLimit)) else None,
      if date != [] then Some(ReplaceChar(date, '.', '-')) else None))
  }

  /** A `YYYY.MM.DD` date reaches Notion as `YYYY-MM-DD`. */
  lemma PublishedDateIsIso(date: string, databaseId: string, title: string, url: string,
                           summary: string, tag: string)
    requires IsDateWith(date, '.')
    ensures var p := BuildPagePayload(databaseId, title, url, summary, date, tag);
      p.properties.publishedDate.Some? && IsDateWith(p.properties.publishedDate.value, '-')
  {
    var p := BuildPagePayload(databaseId, title, url, summary, date, tag);
    var start := p.properties.publishedDate.value;
    forall i | 0 <= i < 10 && i != 4 && i != 7 ensures IsDigit(start[i]) {
      assert date[i] != '.';
    }
  }

  /** One call of `create_page`: the request it sent, if any, and its verdict. */
  datatype Attempt = Attempt(request: Option<Payload>, ok: bool)

  /** `create_page`: with no token, nothing is sent and the answer is `False`;
      otherwise the payload is sent and the answer is whether the API accepted it. */
  function CreatePage(c: Client, title: string, url: string, databaseId: string,
                      summary: string, date: string, tag: string, accepted: bool): (a: Attempt)
    ensures !IsConfigured(c) ==> a == Attempt(None, false)
    ensures IsConfigured(c) ==>
      a.request == Some(BuildPagePayload(databaseId, title, url, summary, date, tag))
    ensures a.ok <==> c.token != [] && accepted
  {
    if !IsConfigured(c) then Attempt(None, false)
    else Attempt(Some(BuildPagePayload(databaseId, title, url, summary, date, tag)), accepted)
  }

  /** The decoded body of a database query; `results` is absent in some error bodies. */
  datatype QueryResponse<R> = QueryResponse(results: Option<seq<R>>)

  /** `query_database`: no token gives `[]`; so does a failed request or a body without results. */
  function QueryDatabase<R>(c: Client, response: Option<QueryResponse<R>>): (rows: seq<R>)
    ensures c.token == [] ==> rows == []
    ensures response.None? ==> rows == []
    ensures c.token != [] && response.Some? && response.value.results.Some? ==>
      rows == response.value.results.value
    ensures response.Some? && response.value.results.None? ==> rows == []
  {
    if !IsConfigured(c) then []
    else match response
      case None => []
      case Some(body) => body.results.GetOr([])
  }
}

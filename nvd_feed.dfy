/**
  The upstream feed client: the NVD 2.0 response shape, the outcome of the one HTTP call,
  and the mapping of the response's vulnerabilities to feed items.
 */
module NvdFeed {
  import opened Wrappers
  import opened Text
  import opened Json
  import opened Scoring

  /** The `cve` object of one NVD vulnerability; every field may be missing. */
  datatype CveEntry = CveEntry(
    id: Option<string>,
    published: Option<string>,
    descriptions: Option<seq<Description>>,
    metrics: Option<map<string, Json>>)

  datatype Vulnerability = Vulnerability(cve: Option<CveEntry>)

  /** The parsed response body; `vulnerabilities` is None when it is not an array. */
  datatype NvdResponse = NvdResponse(vulnerabilities: Option<seq<Vulnerability>>)

  /** What the feed client asks NVD for: the page size. The 14-day publication window,
      which depends on the clock, is not part of this model. */
  datatype NvdRequest = NvdRequest(resultsPerPage: int)

  /** The outcome of the HTTP call: the transport failed, or a status and a body that did
      (Some) or did not (None) parse as JSON. */
  datatype UpstreamReply = Unreachable | Responded(status: int, body: Option<NvdResponse>)

  /** One normalised-but-unscaled record (the intermediate fetch result). */
  datatype FeedItem = FeedItem(
    cveId: string,
    publishedAt: int,
    description: string,
    cvssScore: real,
    metrics: map<string, Json>)

  datatype FetchResult = Fetched(items: seq<FeedItem>) | FetchFailed(message: string)

  const UnreachableMessage := "Unable to reach NVD right now."
  const InvalidJsonMessage := "NVD response was not valid JSON."

  function BadStatusMessage(status: int): string {
    "NVD returned " + IntToString(status) + ". Try again shortly."
  }

  /** `Math.min(Math.max(limit, 1), 200)`: the page size requested from NVD. */
  function PageSize(limit: int): (n: int)
    ensures 1 <= n <= 200
    ensures 1 <= limit <= 200 ==> n == limit
    ensures limit < 1 ==> n == 1
    ensures limit > 200 ==> n == 200
  {
    if limit < 1 then 1 else if limit > 200 then 200 else limit
  }

  /** A response status `fetch` reports as `ok`. */
  predicate IsOkStatus(status: int) {
    200 <= status <= 299
  }

  /** The publication time: an absent or blank `published` is the epoch (`new Date(0)`),
      otherwise the host's date parser decides, None for an invalid date. */
  function PublishedAt(published: Option<string>, p: Parsers): (r: Option<int>)
    ensures AllWhitespace(published.GetOr("")) ==> r == Some(0)
    ensures !AllWhitespace(published.GetOr("")) ==> r == p.parseDate(Trim(published.GetOr("")))
  {
    TrimEmpty(published.GetOr(""));
    var s := Trim(published.GetOr(""));
    if s == "" then Some(0) else p.parseDate(s)
  }

  /** The mapping lambda followed by the final filter, for one present `cve`: None when the
      entry is dropped. */
  function MapEntry(cve: CveEntry, p: Parsers): (r: Option<FeedItem>)
    ensures r.None? <==> Trim(cve.id.GetOr("")) == "" || PublishedAt(cve.published, p).None?
    ensures r.Some? ==>
      && r.value.cveId == Trim(cve.id.GetOr(""))
      && r.value.cveId != ""
      && IsTrimmed(r.value.cveId)
      && Some(r.value.publishedAt) == PublishedAt(cve.published, p)
      && r.value.description == PickDescription(cve.descriptions)
      && r.value.metrics == cve.metrics.GetOr(map[])
      && r.value.cvssScore == CvssBaseScore(Some(cve.metrics.GetOr(map[])), p)
  {
    var cveId := Trim(cve.id.GetOr(""));
    var publishedAt := PublishedAt(cve.published, p);
    var metrics := cve.metrics.GetOr(map[]);
    if cveId != "" && publishedAt.Some? then
      Some(FeedItem(cveId, publishedAt.value, PickDescription(cve.descriptions), CvssBaseScore(Some(metrics), p), metrics))
    else None
  }

  /** Every item has a non-empty id with no surrounding whitespace. */
  predicate HasCleanIds(items: seq<FeedItem>) {
    forall i | 0 <= i < |items| :: items[i].cveId != "" && IsTrimmed(items[i].cveId)
  }

  /** What one vulnerability contributes: nothing when its `cve` is missing or dropped. */
  function MapOne(v: Vulnerability, p: Parsers): (r: seq<FeedItem>)
    ensures |r| <= 1
    ensures HasCleanIds(r)
  {
    if v.cve.None? then []
    else match MapEntry(v.cve.value, p)
      case None => []
      case Some(item) => [item]
  }

  /** `vulns.map(v => v.cve).filter(Boolean).map(...).filter(...)`. */
  function MapVulnerabilities(vulns: seq<Vulnerability>, p: Parsers): (items: seq<FeedItem>)
    ensures |items| <= |vulns|
    ensures HasCleanIds(items)
  {
    if vulns == [] then [] else MapOne(vulns[0], p) + MapVulnerabilities(vulns[1..], p)
  }

  lemma MapVulnerabilitiesCons(v: Vulnerability, rest: seq<Vulnerability>, p: Parsers)
    ensures MapVulnerabilities([v] + rest, p) == MapOne(v, p) + MapVulnerabilities(rest, p)
  {
    assert ([v] + rest)[1..] == rest;
  }

  /** The pipeline works entry by entry, so it keeps upstream order: mapping a
      concatenation is concatenating the mappings. */
  lemma {:induction false} MapVulnerabilitiesAppend(a: seq<Vulnerability>, b: seq<Vulnerability>, p: Parsers)
    ensures MapVulnerabilities(a + b, p) == MapVulnerabilities(a, p) + MapVulnerabilities(b, p)
    decreases |a|
  {
    if a == [] {
      assert a + b == b;
    } else {
      var x, t := a[0], a[1..];
      assert a == [x] + t;
      assert a + b == [x] + (t + b);
      var m, mt, mb := MapOne(x, p), MapVulnerabilities(t, p), MapVulnerabilities(b, p);
      calc {
        MapVulnerabilities(a + b, p);
        { MapVulnerabilitiesCons(x, t + b, p); }
        m + MapVulnerabilities(t + b, p);
        { MapVulnerabilitiesAppend(t, b, p); }
        m + (mt + mb);
        (m + mt) + mb;
        { MapVulnerabilitiesCons(x, t, p); }
        MapVulnerabilities(a, p) + mb;
      }
    }
  }

  /** An entry with a `cve`, a non-blank id and no (or a blank) `published` is kept, with
      the epoch as its publication time. */
  lemma MissingPublishedIsKept(v: Vulnerability, p: Parsers)
    requires v.cve.Some? && Trim(v.cve.value.id.GetOr("")) != ""
    requires AllWhitespace(v.cve.value.published.GetOr(""))
    ensures |MapVulnerabilities([v], p)| == 1
    ensures MapVulnerabilities([v], p)[0].publishedAt == 0
  {
    assert [v][1..] == [];
  }

  /** An entry is dropped exactly when its `cve` is missing, its trimmed id is empty, or its
      non-blank `published` does not parse. */
  lemma DroppedExactly(v: Vulnerability, p: Parsers)
    ensures MapVulnerabilities([v], p) == [] <==>
      || v.cve.None?
      || Trim(v.cve.value.id.GetOr("")) == ""
      || (!AllWhitespace(v.cve.value.published.GetOr("")) && p.parseDate(Trim(v.cve.value.published.GetOr(""))).None?)
  {
    assert [v][1..] == [];
    if v.cve.Some? {
      TrimEmpty(v.cve.value.published.GetOr(""));
    }
  }

  /** `fetchNvdRecentCves(limit)`, with the network reduced to `upstream`: one request for
      `PageSize(limit)` results; an unreachable host, a non-OK status and an unparsable body
      each fail with a message and no items. */
  function FetchNvdRecentCves(limit: int, upstream: NvdRequest -> UpstreamReply, p: Parsers): (r: FetchResult)
    ensures r.FetchFailed? ==> r.message != ""
    ensures r.Fetched? <==>
      upstream(NvdRequest(PageSize(limit))).Responded?
      && IsOkStatus(upstream(NvdRequest(PageSize(limit))).status)
      && upstream(NvdRequest(PageSize(limit))).body.Some?
    ensures upstream(NvdRequest(PageSize(limit))).Unreachable? ==> r == FetchFailed(UnreachableMessage)
    ensures upstream(NvdRequest(PageSize(limit))).Responded? && !IsOkStatus(upstream(NvdRequest(PageSize(limit))).status) ==>
      r == FetchFailed(BadStatusMessage(upstream(NvdRequest(PageSize(limit))).status))
    ensures var reply := upstream(NvdRequest(PageSize(limit)));
      reply.Responded? && IsOkStatus(reply.status) && reply.body.None? ==> r == FetchFailed(InvalidJsonMessage)
    ensures r.Fetched? ==> r.items == MapVulnerabilities(upstream(NvdRequest(PageSize(limit))).body.value.vulnerabilities.GetOr([]), p)
    ensures r.Fetched? ==> |r.items| <= |upstream(NvdRequest(PageSize(limit))).body.value.vulnerabilities.GetOr([])|
  {
    match upstream(NvdRequest(PageSize(limit)))
    case Unreachable => FetchFailed(UnreachableMessage)
    case Responded(status, body) =>
      if !IsOkStatus(status) then FetchFailed(BadStatusMessage(status))
      else if body.None? then FetchFailed(InvalidJsonMessage)
      else Fetched(MapVulnerabilities(body.value.vulnerabilities.GetOr([]), p))
  }

  /** The failure message for a rejected request names its status: two statuses give the
      same message only if they are equal. */
  lemma BadStatusMessageNamesStatus(a: int, b: int)
    requires BadStatusMessage(a) == BadStatusMessage(b)
    ensures a == b
  {
    var prefix := "NVD returned ";
    var sa, sb := IntToString(a), IntToString(b);
    var suffix := ". Try again shortly.";
    assert BadStatusMessage(a) == prefix + sa + suffix;
    assert BadStatusMessage(b) == prefix + sb + suffix;
    assert |sa| == |sb|;
    assert sa == BadStatusMessage(a)[|prefix|..|prefix| + |sa|];
    assert sb == BadStatusMessage(b)[|prefix|..|prefix| + |sb|];
    IntToStringInjective(a, b);
  }
}

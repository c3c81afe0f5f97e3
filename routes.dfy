/**
  The server side of the threat feed: the normalisation of fetched items into stored rows,
  start-up seeding, and the decision logic of the latest and refresh handlers, each
  sequencing one upstream fetch and the store's upsert and read.
 */
module Routes {
  import opened Wrappers
  import opened Json
  import opened Scoring
  import opened Schema
  import opened NvdFeed
  import opened Storage
  import opened ApiContract

  const DefaultLimit := 25
  const PlaceholderDescription := "No description provided."

  /** The mapping applied to every fetched item before it is upserted: the score is clamped
      into [0, 10], stored times ten rounded half up, the severity is that of the clamped
      score, and an empty description becomes the placeholder. */
  function Normalise(item: FeedItem): (row: Cve)
    ensures row.cveId == item.cveId && row.publishedAt == item.publishedAt && row.metrics == item.metrics
    ensures 0 <= row.cvssScoreX10 <= 100
    ensures -0.05 < row.cvssScoreX10 as real / 10.0 - Clamp(item.cvssScore) <= 0.05
    ensures row.severity == SeverityFromScore(Clamp(item.cvssScore))
    ensures item.description == "" ==> row.description == PlaceholderDescription
    ensures item.description != "" ==> row.description == item.description
    ensures row.description != ""
  {
    var score := Clamp(item.cvssScore);
    Cve(item.cveId, ScoreX10(item.cvssScore), SeverityFromScore(score), item.publishedAt,
        if item.description == "" then PlaceholderDescription else item.description, item.metrics)
  }

  /** `items.map(...)` with the normalisation: one row per item, in order. */
  function NormaliseAll(items: seq<FeedItem>): (rows: seq<Cve>)
    ensures |rows| == |items|
    ensures forall i | 0 <= i < |items| :: rows[i] == Normalise(items[i])
  {
    seq(|items|, i requires 0 <= i < |items| => Normalise(items[i]))
  }

  /** A score with one decimal place in [0, 10] is stored exactly and keeps a severity that
      agrees with the stored value. */
  lemma NormaliseExactForTenths(item: FeedItem, tenths: int)
    requires 0 <= tenths <= 100 && item.cvssScore == tenths as real / 10.0
    ensures Normalise(item).cvssScoreX10 == tenths
    ensures Normalise(item).severity == SeverityFromScore(tenths as real / 10.0)
  {
    ScoreX10Exact(tenths);
  }

  /** A 9.8 score with an English description is stored as 98, `Critical`, with that
      description. */
  lemma NormaliseCriticalExample(publishedAt: int, metrics: map<string, Json>)
    ensures var row := Normalise(FeedItem("CVE-2025-0001", publishedAt, "Remote code execution", 9.8, metrics));
      row.cvssScoreX10 == 98 && row.severity == Critical && row.description == "Remote code execution"
  {
    NormaliseExactForTenths(FeedItem("CVE-2025-0001", publishedAt, "Remote code execution", 9.8, metrics), 98);
  }

  /** `seedThreatFeedIfEmpty`: only an empty store is seeded, from one fetch of 25. */
  method SeedThreatFeedIfEmpty(store: DatabaseStorage, upstream: NvdRequest -> UpstreamReply, p: Parsers)
    requires store.Valid()
    modifies store
    ensures store.Valid()
    ensures old(store.cves) != map[] ==> store.cves == old(store.cves)
    ensures FetchNvdRecentCves(DefaultLimit, upstream, p).FetchFailed? ==> store.cves == old(store.cves)
    ensures old(store.cves) == map[] && FetchNvdRecentCves(DefaultLimit, upstream, p).Fetched? ==>
      store.cves == Upserted(map[], NormaliseAll(FetchNvdRecentCves(DefaultLimit, upstream, p).items))
  {
    var existing := store.GetLatestCves(1);
    if |existing| > 0 {
      return;
    }
    var result := FetchNvdRecentCves(DefaultLimit, upstream, p);
    if result.FetchFailed? {
      return;
    }
    var _, _ := store.UpsertCves(NormaliseAll(result.items));
  }

  /** The limit and source the latest handler uses: the parsed values, 25 and `cache` for
      the ones left out, and 25 and `cache` outright when the query fails validation. */
  function EffectiveQuery(query: map<string, string>, p: Parsers): (r: (nat, Source))
    ensures 1 <= r.0 <= 200
    ensures ParseLatestQuery(query, p).None? ==> r == (DefaultLimit, Cache)
    ensures ParseLatestQuery(query, p).Some? ==>
      var q := ParseLatestQuery(query, p).value;
      r.0 == q.limit.GetOr(DefaultLimit) && r.1 == q.source.GetOr(Cache)
  {
    match ParseLatestQuery(query, p)
    case None => (DefaultLimit, Cache)
    case Some(q) => (q.limit.GetOr(DefaultLimit), q.source.GetOr(Cache))
  }

  /** The 502 body both handlers send for a failed fetch. */
  function UpstreamFailureBody<T>(message: string): Body<T> {
    UpstreamFailure(UpstreamErrorBody(message, Some("nvd")))
  }

  /** GET latest. An invalid query never answers 400: it falls back to the defaults. With
      source `nvd` a failed fetch answers 502 and leaves the store alone; otherwise the
      answer is the newest `limit` rows, read after upserting the live items when the
      source is `nvd`. */
  method HandleLatest(store: DatabaseStorage, query: map<string, string>, upstream: NvdRequest -> UpstreamReply, p: Parsers)
    returns (resp: Response<seq<Cve>>)
    requires store.Valid()
    modifies store
    ensures store.Valid()
    ensures resp.status == 200 || resp.status == 502
    ensures var (limit, source) := EffectiveQuery(query, p);
      var live := FetchNvdRecentCves(limit, upstream, p);
      if source == Nvd && live.FetchFailed? then
        resp == Response(502, UpstreamFailureBody(live.message)) && store.cves == old(store.cves)
      else
        && store.cves == (if source == Nvd then Upserted(old(store.cves), NormaliseAll(live.items)) else old(store.cves))
        && resp.status == 200 && resp.body.Data?
        && IsLatest(resp.body.value, store.cves, limit)
  {
    var (limit, source) := EffectiveQuery(query, p);
    if source == Nvd {
      var live := FetchNvdRecentCves(limit, upstream, p);
      if live.FetchFailed? {
        return Response(502, UpstreamFailureBody(live.message));
      }
      var _, _ := store.UpsertCves(NormaliseAll(live.items));
    }
    var items := store.GetLatestCves(limit);
    return Response(200, Data(items));
  }

  /** POST refresh. A body that fails validation answers 400 with its first issue's message
      and dotted path; a failed fetch answers 502; both leave the store alone. Otherwise the
      live items are upserted and the answer reports the counts, `total` being their sum. */
  method HandleRefresh(store: DatabaseStorage, body: Json, upstream: NvdRequest -> UpstreamReply, p: Parsers)
    returns (resp: Response<RefreshCounts>)
    requires store.Valid()
    modifies store
    ensures store.Valid()
    ensures ParseRefreshBody(body, p).Rejected? ==>
      var issue := ParseRefreshBody(body, p).first;
      && resp == Response(400, BadRequest(ValidationErrorBody(issue.message, Some(Text.Join(issue.path, '.')))))
      && store.cves == old(store.cves)
    ensures ParseRefreshBody(body, p).Accepted? ==>
      var live := FetchNvdRecentCves(ParseRefreshBody(body, p).value.limit.GetOr(DefaultLimit), upstream, p);
      if live.FetchFailed? then
        resp == Response(502, UpstreamFailureBody(live.message)) && store.cves == old(store.cves)
      else
        var rows := NormaliseAll(live.items);
        && store.cves == Upserted(old(store.cves), rows)
        && resp.status == 200 && resp.body.Data?
        && resp.body.value.inserted == CountNew(rows, old(store.cves).Keys)
        && resp.body.value.updated == |rows| - resp.body.value.inserted
        && resp.body.value.total == |rows|
        && ValidRefreshCounts(resp.body.value)
  {
    var parsed := ParseRefreshBody(body, p);
    if parsed.Rejected? {
      return Response(400, BadRequest(ValidationErrorBody(parsed.first.message, Some(Text.Join(parsed.first.path, '.')))));
    }
    var limit := parsed.value.limit.GetOr(DefaultLimit);
    var live := FetchNvdRecentCves(limit, upstream, p);
    if live.FetchFailed? {
      return Response(502, UpstreamFailureBody(live.message));
    }
    var inserted, updated := store.UpsertCves(NormaliseAll(live.items));
    return Response(200, Data(RefreshCounts(inserted, updated, inserted + updated)));
  }

  /** A limit field that is present but rejected is reported under the path "limit". */
  lemma RejectedLimitNamesField(fields: map<string, Json>, p: Parsers)
    requires "limit" in fields && LimitIssue(ToNumber(Some(fields["limit"]), p)).Some?
    ensures ParseRefreshBody(JObj(fields), p).Rejected?
    ensures Text.Join(ParseRefreshBody(JObj(fields), p).first.path, '.') == "limit"
  {
  }

  /** A body that is not an object is reported at the root, as an empty field path. */
  lemma NonObjectBodyHasEmptyField(body: Json, p: Parsers)
    requires !body.JObj?
    ensures ParseRefreshBody(body, p).Rejected?
    ensures Text.Join(ParseRefreshBody(body, p).first.path, '.') == ""
  {
  }
}

/**
  The client's data hooks for the threat feed: the query string and the cache key of the
  latest query, the classification of each endpoint's reply into data or an error message,
  and the client-side validation of the refresh body.
 */
module ClientHooks {
  import opened Wrappers
  import opened Text
  import opened Json
  import opened NvdFeed
  import opened ApiContract

  // ---------------------------------------------------------------------------
  // buildQueryString
  // ---------------------------------------------------------------------------

  /** The `URLSearchParams` after the two conditional `set` calls: `limit` when it is a
      number, then `source` when it is set. */
  function SearchParams(q: LatestQuery): seq<(string, string)> {
    (if q.limit.Some? then [("limit", IntToString(q.limit.value))] else [])
    + (if q.source.Some? then [("source", q.source.value.Name())] else [])
  }

  /** `params.toString()`: `key=value` pairs joined by `&`. Keys and values here are made of
      digits, `-` and ASCII letters, which form encoding leaves as they are. */
  function SerializeParams(ps: seq<(string, string)>): string {
    Join(seq(|ps|, i requires 0 <= i < |ps| => ps[i].0 + "=" + ps[i].1), '&')
  }

  /** `buildQueryString(input)`: "" without input or without parameters, otherwise "?"
      followed by the serialized parameters. */
  function BuildQueryString(input: Option<LatestQuery>): (r: string)
    ensures input.None? ==> r == ""
    ensures r == "" <==> input.None? || (input.value.limit.None? && input.value.source.None?)
    ensures r != "" ==> r[0] == '?'
  {
    if input.None? then ""
    else
      var ps := SearchParams(input.value);
      var qs := SerializeParams(ps);
      assert ps != [] ==> qs != [] by {
        if ps != [] {
          assert |qs| >= |ps[0].0 + "=" + ps[0].1|;
        }
      }
      if qs == "" then "" else "?" + qs
  }

  /** The query object a query string stands for, as the server's query parser reads it:
      `key=value` pairs separated by `&`, a later key overriding an earlier one. */
  function QueryMap(qs: string): map<string, string> {
    if qs == "" || qs[0] != '?' then map[] else PairsMap(Split(qs[1..], '&'))
  }

  function PairsMap(parts: seq<string>): map<string, string>
    decreases |parts|
  {
    if parts == [] then map[]
    else
      var rest := PairsMap(parts[..|parts| - 1]);
      var kv := Split(parts[|parts| - 1], '=');
      if |kv| == 2 then rest[kv[0] := kv[1]] else rest
  }

  /** The query object the client means to send. */
  function QueryObject(input: Option<LatestQuery>): map<string, string> {
    var q := input.GetOr(LatestQuery(None, None));
    var withLimit := if q.limit.Some? then map["limit" := IntToString(q.limit.value)] else map[];
    if q.source.Some? then withLimit["source" := q.source.value.Name()] else withLimit
  }

  lemma IntToStringHasNoSeparator(n: int, sep: char)
    requires sep == '&' || sep == '='
    ensures sep !in IntToString(n)
  {
    var s := IntToString(n);
    if n >= 0 {
      assert forall i | 0 <= i < |s| :: IsDigit(s[i]);
    } else {
      assert forall i | 1 <= i < |s| :: s[1..][i - 1] == s[i];
    }
  }

  lemma SourceNameHasNoSeparator(s: Source, sep: char)
    requires sep == '&' || sep == '='
    ensures sep !in s.Name()
  {
  }

  lemma SplitPair(k: string, v: string)
    requires '=' !in k && '=' !in v
    ensures Split(k + "=" + v, '=') == [k, v]
  {
    assert Join([k, v], '=') == k + "=" + v by {
      assert [k, v][1..] == [v];
    }
    SplitJoin([k, v], '=');
  }

  /** Serialized pairs read back as the map they spell, when no key or value holds a
      separator. */
  lemma PairsRoundTrip(ps: seq<(string, string)>)
    requires 1 <= |ps| <= 2
    requires forall i | 0 <= i < |ps| :: '&' !in ps[i].0 + "=" + ps[i].1 && '=' !in ps[i].0 && '=' !in ps[i].1
    ensures QueryMap("?" + SerializeParams(ps)) ==
      if |ps| == 1 then map[ps[0].0 := ps[0].1] else map[ps[0].0 := ps[0].1][ps[1].0 := ps[1].1]
  {
    var texts := seq(|ps|, i requires 0 <= i < |ps| => ps[i].0 + "=" + ps[i].1);
    var qs := "?" + SerializeParams(ps);
    assert qs[1..] == Join(texts, '&');
    SplitJoin(texts, '&');
    assert Split(qs[1..], '&') == texts;
    assert [] + [texts[0]] == [texts[0]];
    PairsMapSnoc([], ps[0].0, ps[0].1);
    if |ps| == 2 {
      assert texts == [texts[0]] + [texts[1]];
      PairsMapSnoc([texts[0]], ps[1].0, ps[1].1);
    } else {
      assert texts == [texts[0]];
    }
  }

  /** One more `key=value` part sets that key. */
  lemma PairsMapSnoc(parts: seq<string>, k: string, v: string)
    requires '=' !in k && '=' !in v
    ensures PairsMap(parts + [k + "=" + v]) == PairsMap(parts)[k := v]
  {
    var all := parts + [k + "=" + v];
    assert all[..|all| - 1] == parts;
    SplitPair(k, v);
  }

  /** The query string carries exactly the parameters the client set: reading it back
      gives the intended query object. */
  lemma QueryStringRoundTrip(input: Option<LatestQuery>)
    ensures QueryMap(BuildQueryString(input)) == QueryObject(input)
  {
    if input.Some? && BuildQueryString(input) != "" {
      var q := input.value;
      if q.limit.Some? {
        IntToStringHasNoSeparator(q.limit.value, '&');
        IntToStringHasNoSeparator(q.limit.value, '=');
      }
      if q.source.Some? {
        SourceNameHasNoSeparator(q.source.value, '&');
        SourceNameHasNoSeparator(q.source.value, '=');
      }
      PairsRoundTrip(SearchParams(q));
    }
  }

  /** A server that reads integers in their decimal form. */
  ghost predicate ReadsDecimalIntegers(p: Parsers) {
    forall n: int :: p.stringToNumber(IntToString(n)) == Some(n as real)
  }

  /** A valid query reaches the latest handler unchanged. */
  lemma ServerReadsClientQuery(q: LatestQuery, p: Parsers)
    requires ValidLimit(q.limit) && ReadsDecimalIntegers(p)
    ensures ParseLatestQuery(QueryMap(BuildQueryString(Some(q))), p) == Some(q)
  {
    QueryStringRoundTrip(Some(q));
    var query := QueryMap(BuildQueryString(Some(q)));
    if q.limit.Some? {
      assert p.stringToNumber(IntToString(q.limit.value)) == Some(q.limit.value as real);
    }
  }

  // ---------------------------------------------------------------------------
  // threatFeedLatestKey
  // ---------------------------------------------------------------------------

  /** One element of a query key: a string, a number or `null`. */
  datatype KeyPart = KeyText(s: string) | KeyNumber(n: int) | KeyNull

  /** `threatFeedLatestKey(input)`: the path, then the limit or null, then the source or
      null. */
  function ThreatFeedLatestKey(input: Option<LatestQuery>): (key: seq<KeyPart>)
    ensures |key| == 3 && key[0] == KeyText(LatestPath)
  {
    var q := input.GetOr(LatestQuery(None, None));
    [KeyText(LatestPath),
     if q.limit.Some? then KeyNumber(q.limit.value) else KeyNull,
     if q.source.Some? then KeyText(q.source.value.Name()) else KeyNull]
  }

  /** The key a successful refresh invalidates. */
  const RefreshInvalidationKey: seq<KeyPart> := [KeyText(LatestPath)]

  /** A query key matches an invalidation key when that key is a prefix of it. */
  predicate MatchesPrefix(prefix: seq<KeyPart>, key: seq<KeyPart>) {
    |prefix| <= |key| && key[..|prefix|] == prefix
  }

  /** A refresh invalidates every latest query, whatever its parameters. */
  lemma RefreshInvalidatesEveryLatestQuery(input: Option<LatestQuery>)
    ensures MatchesPrefix(RefreshInvalidationKey, ThreatFeedLatestKey(input))
  {
  }

  /** Two inputs share a cache entry exactly when they ask for the same parameters (no
      input and an empty input are the same query). */
  lemma LatestKeyIdentifiesQuery(a: Option<LatestQuery>, b: Option<LatestQuery>)
    ensures ThreatFeedLatestKey(a) == ThreatFeedLatestKey(b) <==>
      a.GetOr(LatestQuery(None, None)) == b.GetOr(LatestQuery(None, None))
  {
    var qa, qb := a.GetOr(LatestQuery(None, None)), b.GetOr(LatestQuery(None, None));
    if ThreatFeedLatestKey(a) == ThreatFeedLatestKey(b) {
      assert ThreatFeedLatestKey(a)[2] == ThreatFeedLatestKey(b)[2];
      if qa.source.Some? && qb.source.Some? {
        assert qa.source.value.Name() == qb.source.value.Name();
      }
    }
  }

  /** Two inputs share a cache entry exactly when they request the same URL. */
  lemma LatestKeyMatchesRequest(a: Option<LatestQuery>, b: Option<LatestQuery>)
    ensures ThreatFeedLatestKey(a) == ThreatFeedLatestKey(b) <==> BuildQueryString(a) == BuildQueryString(b)
  {
    LatestKeyIdentifiesQuery(a, b);
    var qa, qb := a.GetOr(LatestQuery(None, None)), b.GetOr(LatestQuery(None, None));
    assert BuildQueryString(a) == BuildQueryString(Some(qa));
    assert BuildQueryString(b) == BuildQueryString(Some(qb));
    if BuildQueryString(a) == BuildQueryString(b) {
      QueryStringRoundTrip(a);
      QueryStringRoundTrip(b);
      assert QueryObject(a) == QueryObject(b);
      assert ("limit" in QueryObject(a)) == qa.limit.Some?;
      assert ("limit" in QueryObject(b)) == qb.limit.Some?;
      if qa.limit.Some? && qb.limit.Some? {
        assert QueryObject(a)["limit"] == IntToString(qa.limit.value);
        assert QueryObject(b)["limit"] == IntToString(qb.limit.value);
        IntToStringInjective(qa.limit.value, qb.limit.value);
      }
      assert ("source" in QueryObject(a)) == qa.source.Some?;
      if qa.source.Some? && qb.source.Some? {
        assert QueryObject(a)["source"] == qa.source.value.Name();
        assert QueryObject(b)["source"] == qb.source.value.Name();
      }
    }
  }

  // ---------------------------------------------------------------------------
  // Reply classification
  // ---------------------------------------------------------------------------

  /** What a query or mutation function ends in: the parsed data, an `Error` with its
      message, or the validation error a reply that does not match its schema raises. */
  datatype Outcome<T> = Success(value: T) | Failure(message: string) | SchemaRejected

  const UpstreamFallbackMessage := "Upstream error"
  const LatestFailedMessage := "Failed to fetch latest threat feed"
  const RefreshFailedMessage := "Failed to refresh threat feed"

  /** `fetch`'s `ok`. */
  predicate IsOk(status: int) {
    200 <= status <= 299
  }

  /** A 502 reply read with the upstream error schema `{message, upstream?}`: an object with
      a string `message` passes (other fields are stripped); the message, or the fallback
      when it is empty, becomes the error. */
  function UpstreamOutcome<T>(body: Body<T>): (r: Outcome<T>)
    ensures body.Data? <==> r.SchemaRejected?
    ensures !body.Data? ==> r.Failure?
    ensures body.UpstreamFailure? ==>
      r.message == if body.upstreamError.message == "" then UpstreamFallbackMessage else body.upstreamError.message
    ensures body.BadRequest? ==>
      r.message == if body.validationError.message == "" then UpstreamFallbackMessage else body.validationError.message
    ensures r.Failure? ==> r.message != ""
  {
    match body
    case UpstreamFailure(e) => Failure(if e.message == "" then UpstreamFallbackMessage else e.message)
    case BadRequest(e) => Failure(if e.message == "" then UpstreamFallbackMessage else e.message)
    case Data(_) => SchemaRejected
  }

  /** The latest query function's handling of a reply: 502 carries the upstream message,
      any other non-OK status a fixed message, and an OK reply must be an array of rows. */
  function ClassifyLatest<T>(resp: Response<seq<T>>): (r: Outcome<seq<T>>)
    ensures r.Success? <==> IsOk(resp.status) && resp.body.Data?
    ensures r.Success? ==> r.value == resp.body.value
    ensures resp.status != 502 && !IsOk(resp.status) ==> r == Failure(LatestFailedMessage)
    ensures resp.status == 502 ==> r == UpstreamOutcome(resp.body)
  {
    if resp.status == 502 then UpstreamOutcome(resp.body)
    else if !IsOk(resp.status) then Failure(LatestFailedMessage)
    else if resp.body.Data? then Success(resp.body.value)
    else SchemaRejected
  }

  /** The refresh mutation function's handling of a reply: as for the latest query, except
      that an OK reply must hold three non-negative integer counts. */
  function ClassifyRefresh(resp: Response<RefreshCounts>): (r: Outcome<RefreshCounts>)
    ensures r.Success? <==> IsOk(resp.status) && resp.body.Data? && ValidRefreshCounts(resp.body.value)
    ensures r.Success? ==> r.value == resp.body.value
    ensures resp.status != 502 && !IsOk(resp.status) ==> r == Failure(RefreshFailedMessage)
    ensures resp.status == 502 ==> r == UpstreamOutcome(resp.body)
  {
    if resp.status == 502 then UpstreamOutcome(resp.body)
    else if !IsOk(resp.status) then Failure(RefreshFailedMessage)
    else if resp.body.Data? && ValidRefreshCounts(resp.body.value) then Success(resp.body.value)
    else SchemaRejected
  }

  /** The URL the latest query function requests. */
  function LatestRequestUrl(input: Option<LatestQuery>): (url: string)
    ensures |url| >= |LatestPath| && url[..|LatestPath|] == LatestPath
    ensures url == LatestPath <==> BuildQueryString(input) == ""
  {
    LatestPath + BuildQueryString(input)
  }

  /** The latest query function: one request to the latest path followed by the query
      string, its reply classified. */
  function LatestQueryFn<T>(input: Option<LatestQuery>, server: string -> Response<seq<T>>): (r: Outcome<seq<T>>)
    ensures var reply := server(LatestPath + BuildQueryString(input));
      && (r.Success? <==> IsOk(reply.status) && reply.body.Data?)
      && (r.Success? ==> r.value == reply.body.value)
      && (reply.status != 502 && !IsOk(reply.status) ==> r == Failure(LatestFailedMessage))
      && (reply.status == 502 ==> r == UpstreamOutcome(reply.body))
  {
    ClassifyLatest(server(LatestRequestUrl(input)))
  }

  /** The refresh mutation function: the body is validated on the client first, so an
      invalid limit fails before any request; a valid one is sent as JSON. */
  function RefreshMutationFn(limit: Option<real>, server: Json -> Response<RefreshCounts>): (r: Outcome<RefreshCounts>)
    ensures limit.Some? && LimitIssue(limit).Some? ==> r.SchemaRejected?
    ensures !(limit.Some? && LimitIssue(limit).Some?) ==>
      var reply := server(RefreshBodyJson(RefreshBody(if limit.Some? then Some(limit.value.Floor) else None)));
      && (r.Success? <==> IsOk(reply.status) && reply.body.Data? && ValidRefreshCounts(reply.body.value))
      && (r.Success? ==> r.value == reply.body.value)
      && (reply.status != 502 && !IsOk(reply.status) ==> r == Failure(RefreshFailedMessage))
      && (reply.status == 502 ==> r == UpstreamOutcome(reply.body))
  {
    if limit.Some? && LimitIssue(limit).Some? then SchemaRejected
    else ClassifyRefresh(server(RefreshBodyJson(RefreshBody(if limit.Some? then Some(limit.value.Floor) else None))))
  }

  /** The body the refresh mutation sends always passes the server's validation, so the
      client never draws a 400 from it. */
  lemma SentRefreshBodyIsAccepted(limit: Option<real>, p: Parsers)
    requires limit.None? || LimitIssue(limit).None?
    ensures var sent := RefreshBody(if limit.Some? then Some(limit.value.Floor) else None);
      ParseRefreshBody(RefreshBodyJson(sent), p) == Accepted(sent)
  {
    var sent := RefreshBody(if limit.Some? then Some(limit.value.Floor) else None);
    RefreshBodyRoundTrip(sent, p);
  }

  /** Every failure the feed client reports reaches the user as it is: its message is never
      empty, so the "Upstream error" fallback never shows for it. */
  lemma FetchFailureShownVerbatim(limit: int, upstream: NvdRequest -> UpstreamReply, p: Parsers)
    requires FetchNvdRecentCves(limit, upstream, p).FetchFailed?
    ensures var m := FetchNvdRecentCves(limit, upstream, p).message;
      && ClassifyLatest<int>(Response(502, UpstreamFailure(UpstreamErrorBody(m, Some("nvd"))))) == Failure(m)
      && ClassifyRefresh(Response(502, UpstreamFailure(UpstreamErrorBody(m, Some("nvd"))))) == Failure(m)
  {
  }

  /** A 400 from refresh loses the server's message: the client shows its fixed text. */
  lemma BadRequestMessageNotShown(e: ValidationErrorBody)
    ensures ClassifyRefresh(Response(400, BadRequest(e))) == Failure(RefreshFailedMessage)
  {
  }

  /** Counts the refresh handler reports pass the client's schema. */
  lemma HandlerCountsAccepted(inserted: nat, updated: nat)
    ensures ClassifyRefresh(Response(200, Data(RefreshCounts(inserted, updated, inserted + updated))))
      == Success(RefreshCounts(inserted, updated, inserted + updated))
  {
  }
}

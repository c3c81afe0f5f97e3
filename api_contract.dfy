/**
  The shared HTTP contract of the threat feed: the two endpoint paths, the request schemas
  as validators (the `limit` / `source` constraints and the first issue a rejected body
  reports), the response shapes, and `buildUrl`'s `:key` placeholder substitution.
 */
module ApiContract {
  import opened Wrappers
  import opened Text
  import opened Json

  const LatestPath := "/api/threat-feed/latest"
  const RefreshPath := "/api/threat-feed/refresh"

  // ---------------------------------------------------------------------------
  // Request schemas
  // ---------------------------------------------------------------------------

  /** Where the latest endpoint reads from. */
  datatype Source = Nvd | Cache {
    function Name(): string {
      match this
      case Nvd => "nvd"
      case Cache => "cache"
    }
  }

  /** `z.enum(["nvd", "cache"])`: only the exact names are accepted. */
  function SourceNamed(s: string): (r: Option<Source>)
    ensures r.Some? <==> s == "nvd" || s == "cache"
    ensures r.Some? ==> r.value.Name() == s
  {
    if s == "nvd" then Some(Nvd) else if s == "cache" then Some(Cache) else None
  }

  /** The validated latest query: each field is optional. */
  datatype LatestQuery = LatestQuery(limit: Option<int>, source: Option<Source>)

  /** The validated refresh body. */
  datatype RefreshBody = RefreshBody(limit: Option<int>)

  predicate IsInteger(x: real) {
    x.Floor as real == x
  }

  /** A `limit` the schemas accept once validated: an integer in [1, 200]. */
  predicate ValidLimit(limit: Option<int>) {
    limit.Some? ==> 1 <= limit.value <= 200
  }

  const NanMessage := "Expected number, received nan"
  const FloatMessage := "Expected integer, received float"
  const TooSmallMessage := "Number must be greater than or equal to 1"
  const TooBigMessage := "Number must be less than or equal to 200"

  /** `z.coerce.number().int().min(1).max(200)` on an already coerced number (None for NaN):
      the message of the first issue, None when the value is accepted. The integer, minimum
      and maximum checks all run and report in that order. */
  function LimitIssue(n: Option<real>): (r: Option<string>)
    ensures r.None? <==> n.Some? && IsInteger(n.value) && 1.0 <= n.value <= 200.0
    ensures n.None? ==> r == Some(NanMessage)
    ensures n.Some? && !IsInteger(n.value) ==> r == Some(FloatMessage)
    ensures n.Some? && IsInteger(n.value) && n.value < 1.0 ==> r == Some(TooSmallMessage)
    ensures n.Some? && IsInteger(n.value) && n.value > 200.0 ==> r == Some(TooBigMessage)
  {
    match n
    case None => Some(NanMessage)
    case Some(x) =>
      if !IsInteger(x) then Some(FloatMessage)
      else if x < 1.0 then Some(TooSmallMessage)
      else if x > 200.0 then Some(TooBigMessage)
      else None
  }

  /** `api.threatFeed.latest.input.safeParse(req.query)` over a query of string values:
      None when it fails. Keys other than `limit` and `source` are ignored. */
  function ParseLatestQuery(query: map<string, string>, p: Parsers): (r: Option<LatestQuery>)
    ensures r.Some? <==>
      && ("limit" in query ==> LimitIssue(p.stringToNumber(query["limit"])).None?)
      && ("source" in query ==> query["source"] == "nvd" || query["source"] == "cache")
    ensures r.Some? ==> ValidLimit(r.value.limit)
    ensures r.Some? ==> (r.value.limit.Some? <==> "limit" in query)
    ensures r.Some? && "limit" in query ==> p.stringToNumber(query["limit"]) == Some(r.value.limit.value as real)
    ensures r.Some? ==> (r.value.source.Some? <==> "source" in query)
    ensures r.Some? && "source" in query ==> r.value.source.value.Name() == query["source"]
  {
    var limitOk := "limit" !in query || LimitIssue(p.stringToNumber(query["limit"])).None?;
    var sourceOk := "source" !in query || SourceNamed(query["source"]).Some?;
    if limitOk && sourceOk then
      Some(LatestQuery(
        if "limit" in query then Some(p.stringToNumber(query["limit"]).value.Floor) else None,
        if "source" in query then SourceNamed(query["source"]) else None))
    else None
  }

  /** One zod issue: its message and its path from the root of the parsed value. */
  datatype Issue = Issue(message: string, path: seq<string>)

  datatype Parsed<T> = Accepted(value: T) | Rejected(first: Issue)

  /** The type name zod reports for a value that is not an object. */
  function TypeName(v: Json): string {
    match v
    case JNull => "null"
    case JBool(_) => "boolean"
    case JNum(_) => "number"
    case JStr(_) => "string"
    case JArr(_) => "array"
    case JObj(_) => "object"
  }

  /** `api.threatFeed.refresh.input.parse(req.body)`: the body must be an object; its
      `limit`, when present, is coerced with `Number(...)` and checked. */
  function ParseRefreshBody(body: Json, p: Parsers): (r: Parsed<RefreshBody>)
    ensures !body.JObj? ==> r == Rejected(Issue("Expected object, received " + TypeName(body), []))
    ensures body.JObj? && "limit" !in body.fields ==> r == Accepted(RefreshBody(None))
    ensures body.JObj? && "limit" in body.fields ==>
      match LimitIssue(ToNumber(Some(body.fields["limit"]), p))
      case Some(m) => r == Rejected(Issue(m, ["limit"]))
      case None => r.Accepted? && r.value.limit.Some? && ToNumber(Some(body.fields["limit"]), p) == Some(r.value.limit.value as real)
    ensures r.Accepted? ==> ValidLimit(r.value.limit)
  {
    if !body.JObj? then Rejected(Issue("Expected object, received " + TypeName(body), []))
    else if "limit" !in body.fields then Accepted(RefreshBody(None))
    else
      var n := ToNumber(Some(body.fields["limit"]), p);
      match LimitIssue(n)
      case Some(m) => Rejected(Issue(m, ["limit"]))
      case None => Accepted(RefreshBody(Some(n.value.Floor)))
  }

  /** The refresh body a client sends, as JSON: `limit` is present only when set. */
  function RefreshBodyJson(b: RefreshBody): Json {
    if b.limit.Some? then JObj(map["limit" := JNum(b.limit.value as real)]) else JObj(map[])
  }

  /** A valid refresh body survives being sent: the server reads back the same body. */
  lemma RefreshBodyRoundTrip(b: RefreshBody, p: Parsers)
    requires ValidLimit(b.limit)
    ensures ParseRefreshBody(RefreshBodyJson(b), p) == Accepted(b)
  {
    if b.limit.Some? {
      assert ToNumber(Some(JNum(b.limit.value as real)), p) == Some(b.limit.value as real);
    }
  }

  // ---------------------------------------------------------------------------
  // Response shapes
  // ---------------------------------------------------------------------------

  datatype UpstreamErrorBody = UpstreamErrorBody(message: string, upstream: Option<string>)
  datatype ValidationErrorBody = ValidationErrorBody(message: string, field: Option<string>)
  datatype RefreshCounts = RefreshCounts(inserted: int, updated: int, total: int)

  /** What a response carries: the endpoint's data, an upstream failure or a rejected
      request. */
  datatype Body<T> = Data(value: T) | UpstreamFailure(upstreamError: UpstreamErrorBody) | BadRequest(validationError: ValidationErrorBody)

  datatype Response<T> = Response(status: int, body: Body<T>)

  /** The refresh 200 schema: three integers, none negative. */
  predicate ValidRefreshCounts(c: RefreshCounts) {
    c.inserted >= 0 && c.updated >= 0 && c.total >= 0
  }

  // ---------------------------------------------------------------------------
  // buildUrl
  // ---------------------------------------------------------------------------

  datatype ParamValue = StrValue(s: string) | NumValue(n: int)

  /** `String(value)`. */
  function ValueText(v: ParamValue): string {
    match v
    case StrValue(s) => s
    case NumValue(n) => IntToString(n)
  }

  /** One step of the `forEach`: when `":" + key` occurs in the url, its first occurrence is
      replaced by `String(value)`, with `String.prototype.replace`'s `$` patterns. */
  function SubstituteParam(url: string, key: string, value: ParamValue): (r: string)
    ensures !Includes(url, ":" + key) ==> r == url
  {
    if Includes(url, ":" + key) then ReplaceFirst(url, ":" + key, ValueText(value)) else url
  }

  /** The url after every parameter, in entry order. */
  function SubstituteAll(url: string, params: seq<(string, ParamValue)>): string
    decreases |params|
  {
    if params == [] then url else SubstituteAll(SubstituteParam(url, params[0].0, params[0].1), params[1..])
  }

  /** `buildUrl(path, params)`: the `let url` reassigned inside the loop over the entries. */
  method BuildUrl(path: string, params: Option<seq<(string, ParamValue)>>) returns (url: string)
    ensures params.None? ==> url == path
    ensures params.Some? ==> url == SubstituteAll(path, params.value)
  {
    url := path;
    if params.Some? {
      var entries := params.value;
      for i := 0 to |entries|
        invariant SubstituteAll(url, entries[i..]) == SubstituteAll(path, entries)
      {
        assert entries[i..][1..] == entries[i + 1..];
        var (key, value) := entries[i];
        if Includes(url, ":" + key) {
          url := ReplaceFirst(url, ":" + key, ValueText(value));
        }
      }
      assert entries[|entries|..] == [];
    }
  }

  /** With no parameters the path comes back unchanged. */
  lemma NoParamsKeepsPath(path: string)
    ensures SubstituteAll(path, []) == path
  {
  }

  /** A parameter whose placeholder does not occur in the url has no effect. */
  lemma AbsentPlaceholderIgnored(url: string, key: string, value: ParamValue, rest: seq<(string, ParamValue)>)
    requires !Includes(url, ":" + key)
    ensures SubstituteAll(url, [(key, value)] + rest) == SubstituteAll(url, rest)
  {
    assert ([(key, value)] + rest)[1..] == rest;
  }

  /** A value without `$` replaces the first placeholder literally. */
  lemma LiteralValueSubstituted(url: string, key: string, value: ParamValue)
    requires Includes(url, ":" + key) && '$' !in ValueText(value)
    ensures var i := IndexOf(url, ":" + key).value;
      SubstituteParam(url, key, value) == url[..i] + ValueText(value) + url[i + |key| + 1..]
  {
    var i := IndexOf(url, ":" + key).value;
    SubstitutionLiteral(ValueText(value), ":" + key, url[..i], url[i + |key| + 1..]);
  }

  /** Only the first occurrence is replaced: whatever the value, a later `:key` survives,
      shifted by the length difference between the placeholder and the text inserted for it
      (the value with its `$` patterns expanded). */
  lemma LaterPlaceholderSurvives(url: string, key: string, value: ParamValue, j: int)
    requires Includes(url, ":" + key)
    requires j >= IndexOf(url, ":" + key).value + |":" + key| && OccursAt(url, ":" + key, j)
    ensures var pat := ":" + key; var i := IndexOf(url, pat).value;
      var inserted := Substitution(ValueText(value), pat, url[..i], url[i + |pat|..]);
      OccursAt(SubstituteParam(url, key, value), pat, j - |pat| + |inserted|)
  {
    var pat := ":" + key;
    var i := IndexOf(url, pat).value;
    SubstituteParamSplices(url, key, value);
    OccurrenceAfterSplice(url, pat, Substitution(ValueText(value), pat, url[..i], url[i + |pat|..]), i, j);
  }

  /** A placeholder that occurs is replaced at its first occurrence by the expanded value. */
  lemma SubstituteParamSplices(url: string, key: string, value: ParamValue)
    requires Includes(url, ":" + key)
    ensures var pat := ":" + key; var i := IndexOf(url, pat).value;
      SubstituteParam(url, key, value)
        == url[..i] + Substitution(ValueText(value), pat, url[..i], url[i + |pat|..]) + url[i + |pat|..]
  {
  }

  /** Splicing `v` over the occurrence of `pat` at `i` shifts a later occurrence at `j` by
      the length difference. */
  lemma OccurrenceAfterSplice(url: string, pat: string, v: string, i: nat, j: int)
    requires i + |pat| <= j && OccursAt(url, pat, j)
    ensures OccursAt(url[..i] + v + url[i + |pat|..], pat, j - |pat| + |v|)
  {
    var head, tail := url[..i] + v, url[i + |pat|..];
    var k := j - |pat| + |v|;
    SliceAfterPrefix(head, tail, k, k + |pat|);
    assert tail[j - i - |pat|..j - i] == url[j..j + |pat|];
  }

  lemma SliceAfterPrefix(x: string, y: string, from: int, to: int)
    requires |x| <= from <= to <= |x| + |y|
    ensures (x + y)[from..to] == y[from - |x|..to - |x|]
  {
  }

  /** `$&` in a value stands for the matched placeholder, so the placeholder stays. */
  lemma ReplacementPatternInValue()
    ensures SubstituteAll("/cves/:id", [("id", StrValue("$&"))]) == "/cves/:id"
  {
    var url := "/cves/:id";
    assert OccursAt(url, ":id", 6);
    forall j | 0 <= j < 6 ensures !OccursAt(url, ":id", j) {
      assert url[j] != ':';
    }
    assert IndexOf(url, ":id") == Some(6);
    assert Substitution("$&", ":id", "/cves/", "") == ":id" + Substitution("", ":id", "/cves/", "");
  }
}

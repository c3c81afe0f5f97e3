/**
  The scoring and description helpers of the NVD ingestion path: the CVSS severity bands,
  `safeNumber`, the English-first description choice, the newest-first CVSS base score
  extraction, and the clamp / scale / round applied before a score is stored.
 */
module Scoring {
  import opened Wrappers
  import opened Text
  import opened Json

  // ---------------------------------------------------------------------------
  // Severity
  // ---------------------------------------------------------------------------

  datatype Severity = Low | Medium | High | Critical {

    /** The label stored in the `severity` column and shown by the client. */
    function Label(): string {
      match this
      case Low => "Low"
      case Medium => "Medium"
      case High => "High"
      case Critical => "Critical"
    }

    function Rank(): nat {
      match this
      case Low => 0
      case Medium => 1
      case High => 2
      case Critical => 3
    }
  }

  /** The four labels in the order the client lists them. */
  const AllSeverities: seq<Severity> := [Low, Medium, High, Critical]

  /** The qualitative bands of CVSS v3.1 (section 5 of its specification), except that a
      score of 0.0 is `Low` rather than `None`. Total on every real number. */
  function SeverityFromScore(score: real): (r: Severity)
    ensures r == Critical <==> score >= 9.0
    ensures r == High <==> 7.0 <= score < 9.0
    ensures r == Medium <==> 4.0 <= score < 7.0
    ensures r == Low <==> score < 4.0
  {
    if score >= 9.0 then Critical
    else if score >= 7.0 then High
    else if score >= 4.0 then Medium
    else Low
  }

  /** A higher score never gets a lower band. */
  lemma SeverityMonotone(a: real, b: real)
    requires a <= b
    ensures SeverityFromScore(a).Rank() <= SeverityFromScore(b).Rank()
  {
  }

  // ---------------------------------------------------------------------------
  // safeNumber
  // ---------------------------------------------------------------------------

  /** `safeNumber(n, fallback)`: `Number(n)` when that is finite, otherwise the fallback
      (None stands for NaN). */
  function SafeNumber(n: Option<Json>, fallback: Option<real>, p: Parsers): (r: Option<real>)
    ensures ToNumber(n, p).Some? ==> r == ToNumber(n, p)
    ensures ToNumber(n, p).None? ==> r == fallback
  {
    match ToNumber(n, p)
    case Some(x) => Some(x)
    case None => fallback
  }

  // ---------------------------------------------------------------------------
  // pickDescription
  // ---------------------------------------------------------------------------

  /** One entry of an NVD `descriptions` list; `value` is Some exactly when it is a string. */
  datatype Description = Description(lang: Option<string>, value: Option<string>)

  /** The entry the first search wants (`english`) or the second one (any text). */
  predicate Wanted(d: Description, english: bool) {
    d.value.Some? && (english ==> d.lang == Some("en"))
  }

  /** `i` is the first index of `ds` whose entry is wanted. */
  predicate IsFirstWanted(ds: seq<Description>, i: int, english: bool) {
    0 <= i < |ds| && Wanted(ds[i], english) && forall j | 0 <= j < i :: !Wanted(ds[j], english)
  }

  /** `ds.find(...)`: the index of the first wanted entry. */
  function FindWanted(ds: seq<Description>, english: bool): (r: Option<nat>)
    ensures r.Some? ==> IsFirstWanted(ds, r.value, english)
    ensures r.None? ==> forall j | 0 <= j < |ds| :: !Wanted(ds[j], english)
  {
    if ds == [] then None
    else if Wanted(ds[0], english) then Some(0)
    else match FindWanted(ds[1..], english)
      case None => None
      case Some(i) => Some(i + 1)
  }

  lemma FirstWantedUnique(ds: seq<Description>, i: int, k: int, english: bool)
    requires IsFirstWanted(ds, i, english) && IsFirstWanted(ds, k, english)
    ensures i == k
  {
  }

  /** `pickDescription(desc)`: the trimmed text of the first English entry with a string
      value, failing that of the first entry with any string value, failing that "". */
  function PickDescription(desc: Option<seq<Description>>): (r: string)
    ensures desc.None? || desc.value == [] ==> r == ""
    ensures desc.Some? ==> forall i | IsFirstWanted(desc.value, i, true) :: r == Trim(desc.value[i].value.value)
    ensures desc.Some? && (forall j | 0 <= j < |desc.value| :: !Wanted(desc.value[j], true)) ==>
      forall i | IsFirstWanted(desc.value, i, false) :: r == Trim(desc.value[i].value.value)
    ensures desc.Some? && (forall j | 0 <= j < |desc.value| :: !Wanted(desc.value[j], false)) ==> r == ""
    ensures IsTrimmed(r)
  {
    if desc.None? || |desc.value| == 0 then ""
    else
      var ds := desc.value;
      var en := FindWanted(ds, true);
      var any := FindWanted(ds, false);
      assert forall i | IsFirstWanted(ds, i, true) :: en == Some(i) by {
        forall i | IsFirstWanted(ds, i, true) ensures en == Some(i) { FirstWantedUnique(ds, i, en.value, true); }
      }
      assert forall i | IsFirstWanted(ds, i, false) :: any == Some(i) by {
        forall i | IsFirstWanted(ds, i, false) ensures any == Some(i) { FirstWantedUnique(ds, i, any.value, false); }
      }
      Trim(if en.Some? then ds[en.value].value.value else if any.Some? then ds[any.value].value.value else "")
  }

  // ---------------------------------------------------------------------------
  // extractCvssBaseScore
  // ---------------------------------------------------------------------------

  /** The metric-set names, newest scoring standard first. */
  const CvssPreference: seq<string> := ["cvssMetricV40", "cvssMetricV31", "cvssMetricV30", "cvssMetricV2"]

  /** The finite base score the metric set under `key` yields: its value must be a
      non-empty array, and only the first element's `cvssData.baseScore` is read. */
  function ScoreUnder(metrics: map<string, Json>, key: string, p: Parsers): Option<real> {
    if key in metrics && metrics[key].JArr? && |metrics[key].elems| > 0 then
      SafeNumber(Field(Field(Some(metrics[key].elems[0]), "cvssData"), "baseScore"), None, p)
    else None
  }

  /** The score of the first key in `keys` that yields one. */
  function FirstScore(metrics: map<string, Json>, keys: seq<string>, p: Parsers): Option<real> {
    if keys == [] then None
    else match ScoreUnder(metrics, keys[0], p)
      case Some(s) => Some(s)
      case None => FirstScore(metrics, keys[1..], p)
  }

  /** The base score `extractCvssBaseScore` returns: 0 without metrics or when no
      preferred metric set yields a finite score. */
  function CvssBaseScore(metrics: Option<map<string, Json>>, p: Parsers): real {
    if metrics.None? then 0.0 else FirstScore(metrics.value, CvssPreference, p).GetOr(0.0)
  }

  lemma {:induction false} FirstScoreAt(metrics: map<string, Json>, keys: seq<string>, i: nat, p: Parsers)
    requires i < |keys| && ScoreUnder(metrics, keys[i], p).Some?
    requires forall j | 0 <= j < i :: ScoreUnder(metrics, keys[j], p).None?
    ensures FirstScore(metrics, keys, p) == ScoreUnder(metrics, keys[i], p)
    decreases i
  {
    if i > 0 {
      FirstScoreAt(metrics, keys[1..], i - 1, p);
    }
  }

  lemma {:induction false} FirstScoreNone(metrics: map<string, Json>, keys: seq<string>, p: Parsers)
    requires forall j | 0 <= j < |keys| :: ScoreUnder(metrics, keys[j], p).None?
    ensures FirstScore(metrics, keys, p).None?
    decreases |keys|
  {
    if keys != [] {
      FirstScoreNone(metrics, keys[1..], p);
    }
  }

  /** The newest metric set that yields a finite score decides: an older one is consulted
      only when every newer one is absent, empty, or has no finite first score. */
  lemma NewestQualifyingScoreWins(metrics: map<string, Json>, i: nat, p: Parsers)
    requires i < |CvssPreference| && ScoreUnder(metrics, CvssPreference[i], p).Some?
    requires forall j | 0 <= j < i :: ScoreUnder(metrics, CvssPreference[j], p).None?
    ensures CvssBaseScore(Some(metrics), p) == ScoreUnder(metrics, CvssPreference[i], p).value
  {
    FirstScoreAt(metrics, CvssPreference, i, p);
  }

  /** With no qualifying metric set (in particular none of the four keys present, or all
      of them empty arrays) the score is 0. */
  lemma NoQualifyingScoreIsZero(metrics: map<string, Json>, p: Parsers)
    requires forall j | 0 <= j < |CvssPreference| :: ScoreUnder(metrics, CvssPreference[j], p).None?
    ensures CvssBaseScore(Some(metrics), p) == 0.0
  {
    FirstScoreNone(metrics, CvssPreference, p);
  }

  /** `extractCvssBaseScore(metrics)`: the `for` loop over the preference list that returns
      at the first qualifying metric set. */
  method ExtractCvssBaseScore(metrics: Option<map<string, Json>>, p: Parsers) returns (score: real)
    ensures score == CvssBaseScore(metrics, p)
  {
    if metrics.None? {
      return 0.0;
    }
    var m := metrics.value;
    var order := CvssPreference;
    for i := 0 to |order|
      invariant FirstScore(m, order, p) == FirstScore(m, order[i..], p)
    {
      assert order[i..][1..] == order[i + 1..];
      if order[i] in m && m[order[i]].JArr? && |m[order[i]].elems| > 0 {
        var first := m[order[i]].elems[0];
        var base := SafeNumber(Field(Field(Some(first), "cvssData"), "baseScore"), None, p);
        if base.Some? {
          return base.value;
        }
      }
    }
    assert order[|order|..] == [];
    return 0.0;
  }

  // ---------------------------------------------------------------------------
  // Normalisation before storage
  // ---------------------------------------------------------------------------

  /** `Math.max(0, Math.min(10, score))`. */
  function Clamp(score: real): (r: real)
    ensures 0.0 <= r <= 10.0
    ensures 0.0 <= score <= 10.0 ==> r == score
    ensures score < 0.0 ==> r == 0.0
    ensures score > 10.0 ==> r == 10.0
  {
    if score > 10.0 then 10.0 else if score < 0.0 then 0.0 else score
  }

  /** `Math.round(x)`: the nearest integer, halves rounded up. */
  function Round(x: real): (r: int)
    ensures x - 0.5 < r as real <= x + 0.5
  {
    (x + 0.5).Floor
  }

  /** `Math.round(Math.max(0, Math.min(10, score)) * 10)`: the stored fixed-point score. It
      lies in [0, 100] and, divided by 10, is within a twentieth of the clamped score: above
      it by at most a twentieth, below it by strictly less, so a tie rounds up. */
  function ScoreX10(score: real): (x10: int)
    ensures 0 <= x10 <= 100
    ensures -0.05 < x10 as real / 10.0 - Clamp(score) <= 0.05
  {
    Round(Clamp(score) * 10.0)
  }

  /** A score with one decimal place, as NVD publishes them, is stored exactly. */
  lemma ScoreX10Exact(tenths: int)
    requires 0 <= tenths <= 100
    ensures ScoreX10(tenths as real / 10.0) == tenths
  {
    assert Clamp(tenths as real / 10.0) * 10.0 == tenths as real;
  }

  /** For a score with one decimal place, the stored severity agrees with the stored
      fixed-point score read back as `x10 / 10`. */
  lemma SeverityMatchesStoredScore(tenths: int)
    requires 0 <= tenths <= 100
    ensures SeverityFromScore(Clamp(tenths as real / 10.0)) == SeverityFromScore(ScoreX10(tenths as real / 10.0) as real / 10.0)
  {
    ScoreX10Exact(tenths);
  }

  /** With two decimal places they can disagree: 8.96 is stored as 90 (9.0, `Critical` when
      read back) with severity `High`. */
  lemma SeverityCanDisagreeWithRoundedScore()
    ensures ScoreX10(8.96) == 90
    ensures SeverityFromScore(Clamp(8.96)) == High
    ensures SeverityFromScore(ScoreX10(8.96) as real / 10.0) == Critical
  {
    assert Clamp(8.96) * 10.0 + 0.5 == 90.1;
  }
}

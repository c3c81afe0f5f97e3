/**
  The triage view of the threat feed page: the score decode, the severity and minimum
  score filters followed by the newest-first sort, the count of selected severities, the
  filter reset, and the per-row expand toggle.
 */
module ThreatFeedPage {
  import opened Wrappers
  import opened Text
  import opened Scoring
  import opened Schema

  /** `scoreFromX10(x10)`: the stored fixed-point score read back, clamped into [0, 10]. */
  function ScoreFromX10(x10: int): (r: real)
    ensures 0.0 <= r <= 10.0
    ensures 0 <= x10 <= 100 ==> r == x10 as real / 10.0
    ensures x10 < 0 ==> r == 0.0
    ensures x10 > 100 ==> r == 10.0
  {
    Clamp(x10 as real / 10.0)
  }

  /** Reading back a stored score is within a twentieth of the clamped original. */
  lemma StoredScoreReadsBack(score: real)
    ensures -0.05 <= ScoreFromX10(ScoreX10(score)) - Clamp(score) <= 0.05
  {
  }

  /** A score with one decimal place in [0, 10] reads back exactly. */
  lemma StoredScoreReadsBackExactly(tenths: int)
    requires 0 <= tenths <= 100
    ensures ScoreFromX10(ScoreX10(tenths as real / 10.0)) == tenths as real / 10.0
  {
    ScoreX10Exact(tenths);
  }

  // ---------------------------------------------------------------------------
  // Filter state
  // ---------------------------------------------------------------------------

  /** The severity checkboxes. */
  datatype SevFlags = SevFlags(low: bool, medium: bool, high: bool, critical: bool) {
    function Selected(s: Severity): bool {
      match s
      case Low => low
      case Medium => medium
      case High => high
      case Critical => critical
    }
  }

  datatype Filters = Filters(minCvss: real, sev: SevFlags)

  /** The filter state the page starts with. */
  const InitialFilters := Filters(0.0, SevFlags(true, true, true, true))

  /** The severities in `ss` whose checkbox is ticked, in order. */
  function SelectedAmong(ss: seq<Severity>, flags: SevFlags): (r: seq<Severity>)
    ensures |r| <= |ss|
    ensures forall s :: s in r <==> s in ss && flags.Selected(s)
  {
    if ss == [] then []
    else (if flags.Selected(ss[0]) then [ss[0]] else []) + SelectedAmong(ss[1..], flags)
  }

  /** `severities.filter((s) => selectedSev[s])`. */
  function SelectedSeverities(flags: SevFlags): seq<Severity> {
    SelectedAmong(AllSeverities, flags)
  }

  /** `selectedSevCount`: how many checkboxes are ticked. */
  function SelectedSevCount(flags: SevFlags): (n: nat)
    ensures n <= 4
    ensures n == 4 <==> forall s :: flags.Selected(s)
    ensures n == 0 <==> forall s :: !flags.Selected(s)
  {
    var r := SelectedSeverities(flags);
    assert [Critical][1..] == [];
    assert |SelectedAmong([Critical], flags)| == (if flags.critical then 1 else 0);
    assert [High, Critical][1..] == [Critical];
    assert |SelectedAmong([High, Critical], flags)| == (if flags.high then 1 else 0) + (if flags.critical then 1 else 0);
    assert [Medium, High, Critical][1..] == [High, Critical];
    assert |SelectedAmong([Medium, High, Critical], flags)| ==
      (if flags.medium then 1 else 0) + (if flags.high then 1 else 0) + (if flags.critical then 1 else 0);
    assert AllSeverities[0] == Low && AllSeverities[1..] == [Medium, High, Critical];
    assert |r| == (if flags.low then 1 else 0) + (if flags.medium then 1 else 0)
      + (if flags.high then 1 else 0) + (if flags.critical then 1 else 0);
    assert (forall s :: flags.Selected(s)) <==> flags.low && flags.medium && flags.high && flags.critical by {
      assert flags.Selected(Low) == flags.low && flags.Selected(Medium) == flags.medium;
      assert flags.Selected(High) == flags.high && flags.Selected(Critical) == flags.critical;
    }
    assert (forall s :: !flags.Selected(s)) <==> !flags.low && !flags.medium && !flags.high && !flags.critical by {
      assert flags.Selected(Low) == flags.low && flags.Selected(Medium) == flags.medium;
      assert flags.Selected(High) == flags.high && flags.Selected(Critical) == flags.critical;
    }
    |r|
  }

  /** `resetFilters`: every severity ticked and no minimum score, as when the page opens. */
  function ResetFilters(): (f: Filters)
    ensures f.minCvss == 0.0
    ensures forall s :: f.sev.Selected(s)
    ensures SelectedSevCount(f.sev) == 4
    ensures f == InitialFilters
  {
    Filters(0.0, SevFlags(true, true, true, true))
  }

  // ---------------------------------------------------------------------------
  // The filtered pipeline
  // ---------------------------------------------------------------------------

  /** A row as the page holds it: the severity is whatever string the reply carried. */
  datatype FeedRow = FeedRow(cveId: string, cvssScoreX10: int, severity: Option<string>, publishedAt: int, description: string)

  /** A stored row as the client receives it. */
  function ToFeedRow(c: Cve): FeedRow {
    FeedRow(c.cveId, c.cvssScoreX10, Some(c.severity.Label()), c.publishedAt, c.description)
  }

  /** The `allowed` set: the lower-cased labels of the ticked severities. */
  function AllowedLabels(flags: SevFlags): set<string> {
    set s | s in SelectedSeverities(flags) :: AsciiLower(s.Label())
  }

  /** Both filters: the lower-cased severity (a missing one reads as "") is allowed and the
      decoded score reaches the minimum. */
  predicate Passes(x: FeedRow, f: Filters) {
    AsciiLower(x.severity.GetOr("")) in AllowedLabels(f.sev) && ScoreFromX10(x.cvssScoreX10) >= f.minCvss
  }

  /** The two `filter` calls, keeping order. */
  function KeepPassing(xs: seq<FeedRow>, f: Filters): (r: seq<FeedRow>)
    ensures forall x :: multiset(r)[x] == if Passes(x, f) then multiset(xs)[x] else 0
  {
    if xs == [] then []
    else
      assert xs == [xs[0]] + xs[1..];
      (if Passes(xs[0], f) then [xs[0]] else []) + KeepPassing(xs[1..], f)
  }

  predicate SortedNewestFirst(xs: seq<FeedRow>) {
    forall i, j | 0 <= i < j < |xs| :: xs[i].publishedAt >= xs[j].publishedAt
  }

  /** Places `x` before the first row of a sorted list that is not newer than it. */
  function InsertByDate(x: FeedRow, xs: seq<FeedRow>): (r: seq<FeedRow>)
    requires SortedNewestFirst(xs)
    ensures SortedNewestFirst(r)
    ensures multiset(r) == multiset(xs) + multiset{x}
    ensures r[0] == x || (xs != [] && r[0] == xs[0])
  {
    if xs == [] || xs[0].publishedAt <= x.publishedAt then
      ConsSorted(x, xs);
      [x] + xs
    else
      assert xs == [xs[0]] + xs[1..];
      var rest := InsertByDate(x, xs[1..]);
      ConsSorted(xs[0], rest);
      [xs[0]] + rest
  }

  /** A row no older than the head of a sorted list can go in front of it. */
  lemma ConsSorted(y: FeedRow, rest: seq<FeedRow>)
    requires SortedNewestFirst(rest)
    requires rest == [] || rest[0].publishedAt <= y.publishedAt
    ensures SortedNewestFirst([y] + rest)
  {
    var r := [y] + rest;
    forall i, j | 0 <= i < j < |r| ensures r[i].publishedAt >= r[j].publishedAt {
      if i == 0 {
        assert r[j] == rest[j - 1];
        if j > 1 {
          assert rest[0].publishedAt >= rest[j - 1].publishedAt;
        }
      } else {
        assert r[i] == rest[i - 1] && r[j] == rest[j - 1];
      }
    }
  }

  /** `sort((a, b) => b.publishedAt - a.publishedAt)`: newest first; rows with equal
      timestamps keep their order, as the array sort is stable. */
  function SortNewestFirst(xs: seq<FeedRow>): (r: seq<FeedRow>)
    ensures SortedNewestFirst(r)
    ensures multiset(r) == multiset(xs)
  {
    if xs == [] then []
    else
      assert xs == [xs[0]] + xs[1..];
      InsertByDate(xs[0], SortNewestFirst(xs[1..]))
  }

  /** `filtered`: the rows that pass both filters, each as often as in the reply and no
      other, sorted newest first. Without data there is nothing to show. */
  function Filtered(data: Option<seq<FeedRow>>, f: Filters): (r: seq<FeedRow>)
    ensures SortedNewestFirst(r)
    ensures forall x :: multiset(r)[x] == if Passes(x, f) then multiset(data.GetOr([]))[x] else 0
    ensures forall i | 0 <= i < |r| :: Passes(r[i], f)
  {
    var r := SortNewestFirst(KeepPassing(data.GetOr([]), f));
    assert forall i | 0 <= i < |r| :: multiset(r)[r[i]] > 0;
    r
  }

  /** A row whose severity is missing, or is not one of the four labels in any letter case,
      never shows. */
  lemma UnknownSeverityNeverShown(x: FeedRow, f: Filters, data: Option<seq<FeedRow>>)
    requires forall s: Severity :: AsciiLower(x.severity.GetOr("")) != AsciiLower(s.Label())
    ensures x !in Filtered(data, f)
  {
    assert !Passes(x, f);
    assert multiset(Filtered(data, f))[x] == 0;
  }

  /** The label comparison ignores letter case: "HIGH" passes when High is ticked. */
  lemma SeverityMatchIgnoresCase(x: FeedRow, f: Filters, s: Severity)
    requires AsciiLower(x.severity.GetOr("")) == AsciiLower(s.Label()) && f.sev.Selected(s)
    requires ScoreFromX10(x.cvssScoreX10) >= f.minCvss
    ensures Passes(x, f)
  {
    assert s in SelectedSeverities(f.sev);
  }

  /** When every row passes, every row is shown, as often as it was received. */
  lemma AllPassingShown(xs: seq<FeedRow>, f: Filters)
    requires forall i | 0 <= i < |xs| :: Passes(xs[i], f)
    ensures multiset(Filtered(Some(xs), f)) == multiset(xs)
  {
    forall x ensures multiset(Filtered(Some(xs), f))[x] == multiset(xs)[x] {
      if !Passes(x, f) {
        assert x !in xs;
      }
    }
  }

  /** After a reset every row the server stores is shown: nothing is filtered out. */
  lemma ResetShowsEveryStoredRow(rows: seq<Cve>)
    ensures var shown := seq(|rows|, i requires 0 <= i < |rows| => ToFeedRow(rows[i]));
      multiset(Filtered(Some(shown), ResetFilters())) == multiset(shown)
  {
    var shown := seq(|rows|, i requires 0 <= i < |rows| => ToFeedRow(rows[i]));
    forall i | 0 <= i < |shown| ensures Passes(shown[i], ResetFilters()) {
      StoredRowPassesReset(rows[i]);
    }
    AllPassingShown(shown, ResetFilters());
  }

  lemma StoredRowPassesReset(c: Cve)
    ensures Passes(ToFeedRow(c), ResetFilters())
  {
    SeverityMatchIgnoresCase(ToFeedRow(c), ResetFilters(), c.severity);
  }

  // ---------------------------------------------------------------------------
  // Expand toggle
  // ---------------------------------------------------------------------------

  /** `!!expanded[cveId]`: an id never toggled is collapsed. */
  function IsExpanded(expanded: map<string, bool>, id: string): bool {
    id in expanded && expanded[id]
  }

  /** `{ ...p, [id]: !p[id] }`: flips the displayed state of that row and of no other. */
  function Toggle(expanded: map<string, bool>, id: string): (r: map<string, bool>)
    ensures IsExpanded(r, id) == !IsExpanded(expanded, id)
    ensures forall other | other != id :: IsExpanded(r, other) == IsExpanded(expanded, other)
  {
    expanded[id := !IsExpanded(expanded, id)]
  }

  /** Toggling a row twice shows every row as before. */
  lemma ToggleTwice(expanded: map<string, bool>, id: string)
    ensures forall other :: IsExpanded(Toggle(Toggle(expanded, id), id), other) == IsExpanded(expanded, other)
  {
  }
}

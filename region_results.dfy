/**
 * The region results panel (`AutoRefreshRegionResults`): it coerces each
 * candidate's `total_votes` to a number, sums them, marks the first
 * `representativeCount` rows as elected, and counts down from 90 seconds
 * to the next refresh.
 */
module RegionResultsView {
  import opened Wrappers
  import opened JsText
  import opened Schema
  import ElectionData

  /* ---------------- vote coercion and totals ---------------- */

  /** `total_votes: unknown`: the driver may hand the sum over as a number, as text, or as something else. */
  datatype JsValue = JsNumber(n: int) | JsString(s: string) | JsOther

  /** One row of the results the panel receives, in the order the query returned them. */
  datatype CandidateResult = CandidateResult(candidateId: int, candidateName: string, candidateNumber: int, totalVotes: JsValue)

  /** `getTotalVotes`: a number as is, text through `Number` with NaN read as 0, anything else 0. */
  function GetTotalVotes(candidate: CandidateResult): int {
    match candidate.totalVotes
    case JsNumber(n) => n
    case JsString(s) =>
      (match StringToNumber(s)
       case Some(parsed) => parsed
       case None => 0)
    case JsOther => 0
  }

  /** `results.reduce((sum, candidate) => sum + getTotalVotes(candidate), 0)`. */
  function TotalVotes(results: seq<CandidateResult>): int {
    if results == [] then 0
    else TotalVotes(results[..|results| - 1]) + GetTotalVotes(results[|results| - 1])
  }

  /** A count that reaches the panel as its decimal text is read back unchanged. */
  lemma CountAsTextReadsBack(c: CandidateResult, count: int)
    requires c.totalVotes == JsString(IntToDecimal(count))
    ensures GetTotalVotes(c) == count
  {
    StringToNumberOfDecimal(count);
  }

  /** Text that `Number` rejects counts as 0, even when it starts with digits (unlike `parseInt`). */
  lemma NonNumericTextCountsZero()
    ensures GetTotalVotes(CandidateResult(0, "", 0, JsString("12abc"))) == 0
    ensures GetTotalVotes(CandidateResult(0, "", 0, JsString(""))) == 0
    ensures GetTotalVotes(CandidateResult(0, "", 0, JsOther)) == 0
  {
    NumberRejectsInnerNonDigit("12abc", 2);
  }

  /** How the query's rows reach the panel: every sum as a number, or every sum as text. */
  function Delivered(rows: seq<ElectionData.RegionResult>, asText: bool): (results: seq<CandidateResult>)
    ensures |results| == |rows|
  {
    seq(|rows|, i requires 0 <= i < |rows| =>
      CandidateResult(rows[i].candidateId, rows[i].candidateName, rows[i].candidateNumber,
                      if asText then JsString(IntToDecimal(rows[i].totalVotes)) else JsNumber(rows[i].totalVotes)))
  }

  /** The panel's grand total is the sum of the query's totals, however they were delivered. */
  lemma {:induction false} TotalVotesOfDelivered(rows: seq<ElectionData.RegionResult>, asText: bool)
    ensures TotalVotes(Delivered(rows, asText)) == ElectionData.SumTotals(rows)
    decreases |rows|
  {
    if rows != [] {
      var n := |rows|;
      var results := Delivered(rows, asText);
      assert results[..n - 1] == Delivered(rows[..n - 1], asText);
      TotalVotesOfDelivered(rows[..n - 1], asText);
      if asText {
        CountAsTextReadsBack(results[n - 1], rows[n - 1].totalVotes);
      }
      SumTotalsSnoc(rows);
    }
  }

  /** The sum of totals, split before the last row. */
  lemma {:induction false} SumTotalsSnoc(rows: seq<ElectionData.RegionResult>)
    requires rows != []
    ensures ElectionData.SumTotals(rows) == ElectionData.SumTotals(rows[..|rows| - 1]) + rows[|rows| - 1].totalVotes
  {
    if |rows| > 1 {
      assert rows[1..][..|rows| - 2] == rows[..|rows| - 1][1..];
      SumTotalsSnoc(rows[1..]);
    }
  }

  /**
   * So the grand total the panel shows for a region is the number of votes
   * recorded for the region's candidates.
   */
  lemma GrandTotalIsRegionVotes(regionCandidates: seq<Candidate>, votes: seq<Vote>,
                                rows: seq<ElectionData.RegionResult>, asText: bool)
    requires ElectionData.IsElectionResults(regionCandidates, votes, rows)
    requires ElectionData.DistinctIds(regionCandidates)
    ensures TotalVotes(Delivered(rows, asText)) == ElectionData.VotesFor(votes, ElectionData.IdsOf(regionCandidates))
  {
    TotalVotesOfDelivered(rows, asText);
    ElectionData.ElectionResultsSum(regionCandidates, votes, rows);
  }

  /* ---------------- ranks, percentages and the elected cutoff ---------------- */

  /** The number of seats when the region does not say. */
  const DefaultRepresentatives: int := 6

  /** `region?.total_representatives ?? 6`: only an absent region or a null column falls back; 0 stays 0. */
  function RepresentativeCount(region: Option<Region>): int {
    match region
    case None => DefaultRepresentatives
    case Some(r) =>
      match r.totalRepresentatives
      case None => DefaultRepresentatives
      case Some(n) => n
  }

  /** `isRepresentative`: purely positional, ties at the cutoff are decided by the row order. */
  predicate IsRepresentative(index: int, representativeCount: int) {
    index < representativeCount
  }

  /** The percentage cell: "0.00%" when the grand total is not positive, else this row's share. */
  datatype Percentage = ZeroPercent | Share(votes: int, total: int)

  /** One table row: rank, ballot number, name, votes, percentage and the elected badge. */
  datatype Row = Row(rank: int, number: int, name: string, votes: int, percentage: Percentage, elected: bool)

  function RowAt(results: seq<CandidateResult>, index: nat, totalVotes: int, representativeCount: int): Row
    requires index < |results|
  {
    var candidate := results[index];
    var votes := GetTotalVotes(candidate);
    Row(index + 1, candidate.candidateNumber, candidate.candidateName, votes,
        if totalVotes > 0 then Share(votes, totalVotes) else ZeroPercent,
        IsRepresentative(index, representativeCount))
  }

  /** `results.map((candidate, index) => <tr>...)`. */
  function TableRows(results: seq<CandidateResult>, region: Option<Region>): (rows: seq<Row>)
    ensures |rows| == |results|
  {
    var total := TotalVotes(results);
    var count := RepresentativeCount(region);
    seq(|results|, i requires 0 <= i < |results| => RowAt(results, i, total, count))
  }

  /** How many rows carry the elected badge. */
  function CountElected(rows: seq<Row>): nat {
    if rows == [] then 0
    else CountElected(rows[..|rows| - 1]) + (if rows[|rows| - 1].elected then 1 else 0)
  }

  /** Rows whose badge is set exactly below a cutoff hold min(n, cutoff) badges (none for a cutoff <= 0). */
  lemma {:induction false} CountElectedPrefix(rows: seq<Row>, cutoff: int)
    requires forall i :: 0 <= i < |rows| ==> (rows[i].elected <==> i < cutoff)
    ensures CountElected(rows) == if cutoff <= 0 then 0 else if |rows| < cutoff then |rows| else cutoff
  {
    if rows != [] {
      CountElectedPrefix(rows[..|rows| - 1], cutoff);
    }
  }

  /**
   * Ranks run 1..n in result order, each row shows its coerced count, the
   * elected rows form a prefix of length min(n, representativeCount), and
   * with no positive grand total every percentage is "0.00%".
   */
  lemma TableRowsProperties(results: seq<CandidateResult>, region: Option<Region>)
    ensures var rows := TableRows(results, region);
      && (forall i :: 0 <= i < |rows| ==> rows[i].rank == i + 1 && rows[i].votes == GetTotalVotes(results[i]))
      && (forall i :: 0 <= i < |rows| ==> (rows[i].elected <==> i < RepresentativeCount(region)))
      && (forall i, j :: 0 <= i < j < |rows| && rows[j].elected ==> rows[i].elected)
      && (TotalVotes(results) <= 0 ==> forall i :: 0 <= i < |rows| ==> rows[i].percentage == ZeroPercent)
  {
  }

  /** The number of elected rows. */
  lemma ElectedCount(results: seq<CandidateResult>, region: Option<Region>)
    ensures var n := RepresentativeCount(region);
      CountElected(TableRows(results, region)) == if n <= 0 then 0 else if |results| < n then |results| else n
  {
    CountElectedPrefix(TableRows(results, region), RepresentativeCount(region));
  }

  /** A region without a configured count elects six; an explicit 0 elects nobody. */
  lemma RepresentativeDefaults(id: int, name: string, stations: int)
    ensures RepresentativeCount(None) == 6
    ensures RepresentativeCount(Some(Region(id, name, stations, None))) == 6
    ensures RepresentativeCount(Some(Region(id, name, stations, Some(0)))) == 0
  {
  }

  /* ---------------- the panel ---------------- */

  /** What the panel shows. */
  datatype View =
    | LoadingView
    | NoResultsView
    | ResultsTable(regionName: Option<string>, representativeCount: int, refreshLabel: string, rows: seq<Row>)

  /** The render: a spinner while the first load runs, a notice when there is nothing, else the table. */
  function Render(isLoading: bool, results: Option<seq<CandidateResult>>, region: Option<Region>, countdown: nat): (view: View)
    ensures view.ResultsTable? <==> results.Some? && results.value != []
    ensures view.LoadingView? <==> isLoading && results.None?
    ensures view.ResultsTable? ==> view.regionName == if region.Some? then Some(region.value.name) else None
    ensures view.ResultsTable? ==> view.rows == TableRows(results.value, region)
    ensures view.ResultsTable? ==> view.representativeCount == RepresentativeCount(region)
    ensures view.ResultsTable? ==> view.refreshLabel == CountdownLabel(countdown)
  {
    if isLoading && results.None? then LoadingView
    else if results.None? || results.value == [] then NoResultsView
    else
      ResultsTable(if region.Some? then Some(region.value.name) else None,
                   RepresentativeCount(region), CountdownLabel(countdown), TableRows(results.value, region))
  }

  /* ---------------- the refresh countdown ---------------- */

  /** The countdown's starting value, in seconds. */
  const CountdownStart: int := 90

  /** What one timer firing does: the next countdown value and whether it triggers a refresh. */
  datatype Tick = Tick(next: int, refresh: bool)

  /** The `setCountdown(prev => ...)` updater. */
  function CountdownTick(prev: int): Tick {
    if prev <= 1 then Tick(CountdownStart, true) else Tick(prev - 1, false)
  }

  /** `ticks` firings from `start`: the countdown then and the number of refreshes triggered. */
  function Run(start: int, ticks: nat): (int, nat) {
    if ticks == 0 then (start, 0)
    else
      var (value, refreshes) := Run(start, ticks - 1);
      var t := CountdownTick(value);
      (t.next, refreshes + if t.refresh then 1 else 0)
  }

  /**
   * From 90, after k firings the countdown shows 90 - k mod 90 (so it stays
   * within 1..90) and exactly k div 90 refreshes have fired.
   */
  lemma {:induction false} CountdownCycle(k: nat)
    ensures Run(CountdownStart, k) == (CountdownStart - k % CountdownStart, k / CountdownStart)
    ensures 1 <= Run(CountdownStart, k).0 <= CountdownStart
  {
    if k > 0 {
      CountdownCycle(k - 1);
      if (k - 1) % CountdownStart == CountdownStart - 1 {
        assert k % CountdownStart == 0 && k / CountdownStart == (k - 1) / CountdownStart + 1;
      } else {
        assert k % CountdownStart == (k - 1) % CountdownStart + 1 && k / CountdownStart == (k - 1) / CountdownStart;
      }
    }
  }

  /** The k-th firing (counting from 1) refreshes exactly when k is a multiple of 90. */
  lemma RefreshEveryNinetyTicks(k: nat)
    requires k >= 1
    ensures CountdownTick(Run(CountdownStart, k - 1).0).refresh <==> k % CountdownStart == 0
  {
    CountdownCycle(k - 1);
  }

  /** The countdown state of a mounted panel, advanced by the one-second interval. */
  class Countdown {
    var countdown: int
    /** How many times `handleRefresh` has been called. */
    var refreshes: nat
    /** How many times the interval has fired. */
    ghost var ticks: nat

    ghost predicate Valid()
      reads this
    {
      (countdown, refreshes) == Run(CountdownStart, ticks)
    }

    constructor ()
      ensures Valid() && ticks == 0 && countdown == CountdownStart && refreshes == 0
    {
      countdown, refreshes, ticks := CountdownStart, 0, 0;
    }

    /** One interval firing: applies the updater and calls `handleRefresh` when it says so. */
    method OnInterval() returns (refreshed: bool)
      requires Valid()
      modifies this
      ensures Valid() && ticks == old(ticks) + 1
      ensures refreshed <==> old(countdown) <= 1
      ensures countdown == if refreshed then CountdownStart else old(countdown) - 1
      ensures refreshes == old(refreshes) + if refreshed then 1 else 0
      ensures 1 <= countdown <= CountdownStart
      ensures refreshes == ticks / CountdownStart
    {
      var t := CountdownTick(countdown);
      if t.refresh {
        refreshes := refreshes + 1;
      }
      countdown := t.next;
      refreshed := t.refresh;
      ticks := ticks + 1;
      CountdownCycle(ticks);
    }
  }

  /** The "m:ss" label: whole minutes, a colon, and the seconds padded to two digits with "0". */
  function CountdownLabel(countdown: nat): string {
    NatToDecimal(countdown / 60) + ":" + PadStart(NatToDecimal(countdown % 60), 2, '0')
  }

  /** A leading zero does not change the value of a digit string. */
  lemma {:induction false} LeadingZeroValue(s: string)
    requires AllDigits(s)
    ensures AllDigits("0" + s) && DigitsValue("0" + s) == DigitsValue(s)
  {
    if s != [] {
      var z := "0" + s;
      assert z[..|z| - 1] == "0" + s[..|s| - 1];
      LeadingZeroValue(s[..|s| - 1]);
    }
  }

  /** The decimal text of a number below 100 has at most two digits. */
  lemma ShortDecimal(n: nat)
    requires n < 100
    ensures |NatToDecimal(n)| <= 2
  {
    if n >= 10 {
      assert |NatToDecimal(n / 10)| == 1;
    }
  }

  /** The label reads back: its minutes are `countdown div 60` and its two-digit seconds `countdown mod 60`. */
  lemma LabelReadsBack(countdown: nat)
    ensures var shown := CountdownLabel(countdown);
      var minutes := NatToDecimal(countdown / 60);
      && |shown| == |minutes| + 3
      && shown[..|minutes|] == minutes && DigitsValue(minutes) == countdown / 60
      && shown[|minutes|] == ':'
      && AllDigits(shown[|minutes| + 1..]) && DigitsValue(shown[|minutes| + 1..]) == countdown % 60
  {
    var secs := NatToDecimal(countdown % 60);
    ShortDecimal(countdown % 60);
    var padded := PadStart(secs, 2, '0');
    if |secs| < 2 {
      assert padded == "0" + secs;
      LeadingZeroValue(secs);
    }
    var shown := CountdownLabel(countdown);
    var minutes := NatToDecimal(countdown / 60);
    assert shown == minutes + ":" + padded;
    assert shown[|minutes| + 1..] == padded;
  }

  /** The label at the start of a cycle. */
  lemma LabelAtStart()
    ensures CountdownLabel(90) == "1:30"
  {
    assert 90 / 60 == 1 && 90 % 60 == 30;
    assert NatToDecimal(1) == "1";
    assert NatToDecimal(3) == "3";
    assert NatToDecimal(30) == "30";
    assert PadStart("30", 2, '0') == "30";
  }

  /** The label five seconds before a refresh: the seconds get a leading zero. */
  lemma LabelNearRefresh()
    ensures CountdownLabel(5) == "0:05"
  {
    assert NatToDecimal(0) == "0";
    assert NatToDecimal(5) == "5";
    var padded := PadStart("5", 2, '0');
    assert padded[0] == '0' && padded[1..] == "5";
    assert padded == "05";
  }
}

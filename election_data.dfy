/**
 * The result aggregator of `src/server/data-cache.ts`: the station-by-station
 * breakdown built by a loop over the region's stations, and the per-candidate
 * totals of the region query (a left join, a sum per candidate and an
 * ordering by total). Query results are inputs: the region's stations (by
 * name), its candidates (by number) and the votes table in query order.
 */
module ElectionData {
  import opened Schema

  /* ---------------- getStationResultsByRegion ---------------- */

  /** One cell of the breakdown: a region candidate and its count at the station. */
  datatype CandidateVotes = CandidateVotes(candidate: Candidate, voteCount: int)

  /** One station of the breakdown. */
  datatype StationResult = StationResult(station: Station, totalVotes: int, votes: seq<CandidateVotes>)

  /** Whether some row is for candidate `candidateId`. */
  predicate HasCandidate(rows: seq<Vote>, candidateId: int) {
    exists v :: v in rows && v.candidateId == candidateId
  }

  /** The vote rows whose station is `stationId`, in query order. */
  function VotesAtStation(votes: seq<Vote>, stationId: int): (rows: seq<Vote>)
    ensures forall v :: v in rows <==> v in votes && v.stationId == stationId
  {
    if votes == [] then []
    else (if votes[0].stationId == stationId then [votes[0]] else []) + VotesAtStation(votes[1..], stationId)
  }

  /**
   * The candidate-id to count record that `forEach` fills, one row after
   * the other: a later row for the same candidate overwrites an earlier one.
   */
  function VoteTable(rows: seq<Vote>): (t: map<int, int>)
    ensures forall c :: c in t <==> HasCandidate(rows, c)
  {
    if rows == [] then map[]
    else
      var last := rows[|rows| - 1];
      assert rows == rows[..|rows| - 1] + [last];
      VoteTable(rows[..|rows| - 1])[last.candidateId := last.voteCount]
  }

  /** `candidateVotes[candidate.id] ?? 0`. */
  function CountOrZero(t: map<int, int>, candidateId: int): int {
    if candidateId in t then t[candidateId] else 0
  }

  /** `regionCandidates.map(...)`: every region candidate, in order, with its count or 0. */
  function CandidateVotesFor(regionCandidates: seq<Candidate>, t: map<int, int>): (cells: seq<CandidateVotes>)
    ensures |cells| == |regionCandidates|
    ensures forall j :: 0 <= j < |cells| ==>
      cells[j].candidate == regionCandidates[j] && cells[j].voteCount == CountOrZero(t, regionCandidates[j].id)
  {
    if regionCandidates == [] then []
    else
      [CandidateVotes(regionCandidates[0], CountOrZero(t, regionCandidates[0].id))]
      + CandidateVotesFor(regionCandidates[1..], t)
  }

  /**
   * The station total as a sum over rows: each row counts unless a later
   * row is for the same candidate. It is the sum of the filled record's
   * values (StationTotalIsTableSum).
   */
  function LastRowsSum(rows: seq<Vote>): int {
    if rows == [] then 0
    else
      (if HasCandidate(rows[1..], rows[0].candidateId) then 0 else rows[0].voteCount)
      + LastRowsSum(rows[1..])
  }

  /** The entry the loop pushes for one station. */
  function StationEntry(station: Station, regionCandidates: seq<Candidate>, votes: seq<Vote>): StationResult {
    var rows := VotesAtStation(votes, station.id);
    StationResult(station, LastRowsSum(rows), CandidateVotesFor(regionCandidates, VoteTable(rows)))
  }

  /** The whole breakdown: one entry per station, in station order. */
  function StationResults(regionStations: seq<Station>, regionCandidates: seq<Candidate>, votes: seq<Vote>): (r: seq<StationResult>)
    ensures |r| == |regionStations|
  {
    if regionStations == [] then []
    else
      StationResults(regionStations[..|regionStations| - 1], regionCandidates, votes)
      + [StationEntry(regionStations[|regionStations| - 1], regionCandidates, votes)]
  }

  /** A map with a positive size has a key. */
  lemma SomeKey(t: map<int, int>)
    requires |t| != 0
    ensures exists k :: k in t
  {
    if forall k :: k !in t {
      assert false;
    }
  }

  /** The sum of a map's values, in no particular order. */
  ghost function SumValues(t: map<int, int>): int
    decreases |t|
  {
    if |t| == 0 then 0
    else
      SomeKey(t);
      var k :| k in t;
      t[k] + SumValues(t - {k})
  }

  /** Removing two keys gives the same map in either order. */
  lemma RemoveTwoKeys(t: map<int, int>, j: int, k: int)
    ensures t - {j} - {k} == t - {k} - {j}
  {
    assert forall x :: x in t - {j} - {k} <==> x in t - {k} - {j};
  }

  /** The key the sum of a non-empty map starts with. */
  lemma SumValuesFirstKey(t: map<int, int>) returns (j: int)
    requires |t| != 0
    ensures j in t && SumValues(t) == t[j] + SumValues(t - {j})
  {
    SomeKey(t);
    j :| j in t && SumValues(t) == t[j] + SumValues(t - {j});
  }

  /** The sum of a map's values may start with any of its keys. */
  lemma {:induction false} SumValuesRemove(t: map<int, int>, k: int)
    requires k in t
    ensures SumValues(t) == t[k] + SumValues(t - {k})
    decreases |t|
  {
    var j := SumValuesFirstKey(t);
    if j != k {
      SumValuesRemove(t - {j}, k);
      SumValuesRemove(t - {k}, j);
      RemoveTwoKeys(t, j, k);
    }
  }

  /**
   * `Object.values(candidateVotes).reduce((sum, count) => sum + count, 0)`:
   * visits the keys one by one and adds their values.
   */
  method SumOfValues(t: map<int, int>) returns (total: int)
    ensures total == SumValues(t)
  {
    total := 0;
    var rest := t;
    while |rest| != 0
      invariant total + SumValues(rest) == SumValues(t)
      decreases |rest|
    {
      SomeKey(rest);
      var k :| k in rest;
      SumValuesRemove(rest, k);
      total := total + rest[k];
      rest := rest - {k};
    }
  }

  /** Processing one row first and then the rest fills what the rest alone fills, plus that row if its candidate is new. */
  lemma {:induction false} VoteTableCons(r: Vote, s: seq<Vote>)
    ensures VoteTable([r] + s) ==
      if HasCandidate(s, r.candidateId) then VoteTable(s) else VoteTable(s)[r.candidateId := r.voteCount]
  {
    if s == [] {
      assert VoteTable([r]) == VoteTable([])[r.candidateId := r.voteCount] by {
        assert [r][..0] == [];
      }
    } else {
      var init, last := s[..|s| - 1], s[|s| - 1];
      assert ([r] + s)[..|s|] == [r] + init;
      assert s == init + [last];
      VoteTableCons(r, init);
      assert HasCandidate(s, r.candidateId) <==> HasCandidate(init, r.candidateId) || last.candidateId == r.candidateId;
    }
  }

  /** The station total the loop computes equals the last-row sum. */
  lemma {:induction false} StationTotalIsTableSum(rows: seq<Vote>)
    ensures SumValues(VoteTable(rows)) == LastRowsSum(rows)
  {
    if rows == [] {
    } else {
      var r, s := rows[0], rows[1..];
      assert rows == [r] + s;
      VoteTableCons(r, s);
      StationTotalIsTableSum(s);
      if !HasCandidate(s, r.candidateId) {
        var t := VoteTable(s)[r.candidateId := r.voteCount];
        SumValuesRemove(t, r.candidateId);
        assert t - {r.candidateId} == VoteTable(s);
      }
    }
  }

  /** `stationVoteRecords.forEach(...)`: writes each row's count under its candidate id, in order. */
  method FillVoteTable(stationVoteRecords: seq<Vote>) returns (candidateVotes: map<int, int>)
    ensures candidateVotes == VoteTable(stationVoteRecords)
  {
    candidateVotes := map[];
    for j := 0 to |stationVoteRecords|
      invariant candidateVotes == VoteTable(stationVoteRecords[..j])
    {
      var vote := stationVoteRecords[j];
      assert stationVoteRecords[..j + 1][..j] == stationVoteRecords[..j];
      candidateVotes := candidateVotes[vote.candidateId := vote.voteCount];
    }
    assert stationVoteRecords[..|stationVoteRecords|] == stationVoteRecords;
  }

  /** `getStationResultsByRegion`: the loop over stations that pushes one entry each. */
  method GetStationResultsByRegion(regionStations: seq<Station>, regionCandidates: seq<Candidate>, votes: seq<Vote>)
    returns (resultArray: seq<StationResult>)
    ensures resultArray == StationResults(regionStations, regionCandidates, votes)
  {
    resultArray := [];
    for i := 0 to |regionStations|
      invariant resultArray == StationResults(regionStations[..i], regionCandidates, votes)
    {
      var station := regionStations[i];
      var stationVoteRecords := VotesAtStation(votes, station.id);

      var candidateVotes := FillVoteTable(stationVoteRecords);
      var stationTotalVotes := SumOfValues(candidateVotes);
      StationTotalIsTableSum(stationVoteRecords);

      var stationData := StationResult(station, stationTotalVotes, CandidateVotesFor(regionCandidates, candidateVotes));
      assert regionStations[..i + 1][..i] == regionStations[..i];
      resultArray := resultArray + [stationData];
    }
    assert regionStations[..|regionStations|] == regionStations;
  }

  /* ---------------- properties of the station breakdown ---------------- */

  /** Candidate ids are the table's primary keys, so the region's candidates have distinct ids. */
  predicate DistinctIds(regionCandidates: seq<Candidate>) {
    forall i, j :: 0 <= i < j < |regionCandidates| ==> regionCandidates[i].id != regionCandidates[j].id
  }

  /** The ids of a list of candidates. */
  function IdsOf(regionCandidates: seq<Candidate>): set<int> {
    set c | c in regionCandidates :: c.id
  }

  /** The sum of the counts emitted for a station. */
  function EmittedSum(cells: seq<CandidateVotes>): int {
    if cells == [] then 0 else cells[0].voteCount + EmittedSum(cells[1..])
  }

  /**
   * One entry per station, in station order, each listing every region
   * candidate in candidate order.
   */
  lemma {:induction false} StationResultsShape(regionStations: seq<Station>, regionCandidates: seq<Candidate>, votes: seq<Vote>)
    ensures |StationResults(regionStations, regionCandidates, votes)| == |regionStations|
    ensures forall i :: 0 <= i < |regionStations| ==>
      StationResults(regionStations, regionCandidates, votes)[i] == StationEntry(regionStations[i], regionCandidates, votes)
    ensures forall i :: 0 <= i < |regionStations| ==>
      IsEntryFor(StationResults(regionStations, regionCandidates, votes)[i], regionStations[i], regionCandidates)
  {
    if regionStations != [] {
      var n := |regionStations|;
      StationResultsShape(regionStations[..n - 1], regionCandidates, votes);
    }
    forall i | 0 <= i < |regionStations|
      ensures IsEntryFor(StationEntry(regionStations[i], regionCandidates, votes), regionStations[i], regionCandidates)
    {
      StationEntryShape(regionStations[i], regionCandidates, votes);
    }
  }

  /** An entry for `station` with one cell per region candidate, in candidate order. */
  predicate IsEntryFor(entry: StationResult, station: Station, regionCandidates: seq<Candidate>) {
    entry.station == station && |entry.votes| == |regionCandidates|
    && forall j :: 0 <= j < |regionCandidates| ==> entry.votes[j].candidate == regionCandidates[j]
  }

  /** Each station's entry lists every region candidate once, in order. */
  lemma StationEntryShape(station: Station, regionCandidates: seq<Candidate>, votes: seq<Vote>)
    ensures IsEntryFor(StationEntry(station, regionCandidates, votes), station, regionCandidates)
  {
  }

  /** A region candidate without a vote row at the station is listed with 0. */
  lemma NoRowMeansZero(station: Station, regionCandidates: seq<Candidate>, votes: seq<Vote>, j: nat)
    requires j < |regionCandidates|
    requires forall v :: v in votes && v.stationId == station.id ==> v.candidateId != regionCandidates[j].id
    ensures StationEntry(station, regionCandidates, votes).votes[j].voteCount == 0
  {
    var rows := VotesAtStation(votes, station.id);
    assert !HasCandidate(rows, regionCandidates[j].id);
  }

  /** Of several rows for one candidate, the last one decides the record's value. */
  lemma {:induction false} LastWriteWins(rows: seq<Vote>, i: nat)
    requires i < |rows|
    requires forall j :: i < j < |rows| ==> rows[j].candidateId != rows[i].candidateId
    ensures rows[i].candidateId in VoteTable(rows)
    ensures VoteTable(rows)[rows[i].candidateId] == rows[i].voteCount
  {
    if i < |rows| - 1 {
      LastWriteWins(rows[..|rows| - 1], i);
    }
  }

  /** So the station entry shows the count of the candidate's last row at that station. */
  lemma LastRowDecidesCount(station: Station, regionCandidates: seq<Candidate>, votes: seq<Vote>, j: nat, i: nat)
    requires j < |regionCandidates|
    requires i < |VotesAtStation(votes, station.id)|
    requires VotesAtStation(votes, station.id)[i].candidateId == regionCandidates[j].id
    requires forall k :: i < k < |VotesAtStation(votes, station.id)| ==>
      VotesAtStation(votes, station.id)[k].candidateId != regionCandidates[j].id
    ensures StationEntry(station, regionCandidates, votes).votes[j].voteCount == VotesAtStation(votes, station.id)[i].voteCount
  {
    LastWriteWins(VotesAtStation(votes, station.id), i);
  }

  /** The ids of a list that starts with `c` are `c`'s id and the ids of the rest. */
  lemma IdsOfCons(regionCandidates: seq<Candidate>)
    requires regionCandidates != []
    ensures IdsOf(regionCandidates) == {regionCandidates[0].id} + IdsOf(regionCandidates[1..])
    ensures DistinctIds(regionCandidates) ==> regionCandidates[0].id !in IdsOf(regionCandidates[1..])
  {
    assert regionCandidates == [regionCandidates[0]] + regionCandidates[1..];
  }

  /** Removing a set of keys and then one more is removing their union. */
  lemma RemoveKeysThenOne(t: map<int, int>, keys: set<int>, k: int)
    ensures t - ({k} + keys) == (t - keys) - {k}
  {
  }

  /** What a list of candidates emits is the first one's count plus what the rest emit. */
  lemma EmittedSumCons(regionCandidates: seq<Candidate>, t: map<int, int>)
    requires regionCandidates != []
    ensures EmittedSum(CandidateVotesFor(regionCandidates, t))
         == CountOrZero(t, regionCandidates[0].id) + EmittedSum(CandidateVotesFor(regionCandidates[1..], t))
  {
    assert CandidateVotesFor(regionCandidates, t)[1..] == CandidateVotesFor(regionCandidates[1..], t);
  }

  /** Taking one more candidate's key out of the record takes its count out of the sum. */
  lemma SumValuesWithoutOneMore(regionCandidates: seq<Candidate>, t: map<int, int>)
    requires regionCandidates != [] && DistinctIds(regionCandidates)
    ensures SumValues(t - IdsOf(regionCandidates[1..]))
         == CountOrZero(t, regionCandidates[0].id) + SumValues(t - IdsOf(regionCandidates))
  {
    var c, rest := regionCandidates[0], regionCandidates[1..];
    var left := t - IdsOf(rest);
    IdsOfCons(regionCandidates);
    RemoveKeysThenOne(t, IdsOf(rest), c.id);
    assert t - IdsOf(regionCandidates) == left - {c.id};
    if c.id in t {
      assert c.id in left && left[c.id] == t[c.id];
      SumValuesRemove(left, c.id);
    } else {
      assert left - {c.id} == left;
    }
  }

  /** The values left after taking out the region candidates' keys, plus what they emit, make up the whole sum. */
  lemma {:induction false} SumValuesSplit(regionCandidates: seq<Candidate>, t: map<int, int>)
    requires DistinctIds(regionCandidates)
    ensures SumValues(t) == EmittedSum(CandidateVotesFor(regionCandidates, t)) + SumValues(t - IdsOf(regionCandidates))
  {
    if regionCandidates == [] {
      assert t - IdsOf(regionCandidates) == t;
    } else {
      assert DistinctIds(regionCandidates[1..]);
      SumValuesSplit(regionCandidates[1..], t);
      EmittedSumCons(regionCandidates, t);
      SumValuesWithoutOneMore(regionCandidates, t);
    }
  }

  /** A map whose values are all non-negative sums to a non-negative total. */
  lemma {:induction false} SumValuesNonNegative(t: map<int, int>)
    requires forall k :: k in t ==> t[k] >= 0
    ensures SumValues(t) >= 0
    decreases |t|
  {
    if |t| != 0 {
      SomeKey(t);
      var k :| k in t;
      SumValuesRemove(t, k);
      SumValuesNonNegative(t - {k});
    }
  }

  /** Every value in the filled record is the count of one of the rows. */
  lemma {:induction false} VoteTableValues(rows: seq<Vote>)
    requires forall v :: v in rows ==> v.voteCount >= 0
    ensures forall c :: c in VoteTable(rows) ==> VoteTable(rows)[c] >= 0
  {
    if rows != [] {
      VoteTableValues(rows[..|rows| - 1]);
    }
  }

  /**
   * With non-negative counts, a station's total is at least the sum of the
   * counts shown for the region candidates.
   */
  lemma TotalCoversEmitted(station: Station, regionCandidates: seq<Candidate>, votes: seq<Vote>)
    requires DistinctIds(regionCandidates)
    requires forall v :: v in votes ==> v.voteCount >= 0
    ensures EmittedSum(StationEntry(station, regionCandidates, votes).votes) <= StationEntry(station, regionCandidates, votes).totalVotes
  {
    var rows := VotesAtStation(votes, station.id);
    var t := VoteTable(rows);
    StationTotalIsTableSum(rows);
    SumValuesSplit(regionCandidates, t);
    VoteTableValues(rows);
    SumValuesNonNegative(t - IdsOf(regionCandidates));
  }

  /** When every row at the station is for a region candidate, the total is exactly the sum shown. */
  lemma TotalEqualsEmitted(station: Station, regionCandidates: seq<Candidate>, votes: seq<Vote>)
    requires DistinctIds(regionCandidates)
    requires forall v :: v in votes && v.stationId == station.id ==> v.candidateId in IdsOf(regionCandidates)
    ensures EmittedSum(StationEntry(station, regionCandidates, votes).votes) == StationEntry(station, regionCandidates, votes).totalVotes
  {
    var rows := VotesAtStation(votes, station.id);
    var t := VoteTable(rows);
    StationTotalIsTableSum(rows);
    SumValuesSplit(regionCandidates, t);
    assert t - IdsOf(regionCandidates) == map[];
  }

  /** Selecting a station's rows distributes over concatenation of the table. */
  lemma {:induction false} VotesAtStationAppend(a: seq<Vote>, b: seq<Vote>, stationId: int)
    ensures VotesAtStation(a + b, stationId) == VotesAtStation(a, stationId) + VotesAtStation(b, stationId)
  {
    if a == [] {
      assert a + b == b;
    } else {
      assert (a + b)[1..] == a[1..] + b;
      VotesAtStationAppend(a[1..], b, stationId);
    }
  }

  /** A table without rows at the station selects nothing for it. */
  lemma {:induction false} NoRowsAtStation(votes: seq<Vote>, stationId: int)
    requires forall v :: v in votes ==> v.stationId != stationId
    ensures VotesAtStation(votes, stationId) == []
  {
    if votes != [] {
      NoRowsAtStation(votes[1..], stationId);
    }
  }

  /** A station's entry ignores rows recorded at other stations. */
  lemma EntryIgnoresOtherStations(station: Station, regionCandidates: seq<Candidate>, votes: seq<Vote>, extra: seq<Vote>)
    requires forall v :: v in extra ==> v.stationId != station.id
    ensures StationEntry(station, regionCandidates, votes + extra) == StationEntry(station, regionCandidates, votes)
  {
    VotesAtStationAppend(votes, extra, station.id);
    NoRowsAtStation(extra, station.id);
    assert VotesAtStation(votes, station.id) + [] == VotesAtStation(votes, station.id);
  }

  /**
   * Rows recorded at one station change only the entries of that station:
   * every other entry of the breakdown stays as it was.
   */
  lemma RowsAffectOnlyTheirStation(regionStations: seq<Station>, regionCandidates: seq<Candidate>, votes: seq<Vote>,
                                   extra: seq<Vote>, stationId: int)
    requires forall v :: v in extra ==> v.stationId == stationId
    ensures forall i :: 0 <= i < |regionStations| && regionStations[i].id != stationId ==>
      StationResults(regionStations, regionCandidates, votes + extra)[i]
      == StationResults(regionStations, regionCandidates, votes)[i]
  {
    StationResultsShape(regionStations, regionCandidates, votes);
    StationResultsShape(regionStations, regionCandidates, votes + extra);
    forall i | 0 <= i < |regionStations| && regionStations[i].id != stationId
      ensures StationEntry(regionStations[i], regionCandidates, votes + extra)
           == StationEntry(regionStations[i], regionCandidates, votes)
    {
      EntryIgnoresOtherStations(regionStations[i], regionCandidates, votes, extra);
    }
  }

  /* ---------------- getElectionResultsByRegion ---------------- */

  /** One row of the region query: a candidate and its summed votes. */
  datatype RegionResult = RegionResult(candidateId: int, candidateName: string, candidateNumber: int, totalVotes: int)

  /** `COALESCE(SUM(vote_count), 0)` over the vote rows the left join pairs with one candidate. */
  function CandidateTotal(votes: seq<Vote>, candidateId: int): int {
    if votes == [] then 0
    else (if votes[0].candidateId == candidateId then votes[0].voteCount else 0) + CandidateTotal(votes[1..], candidateId)
  }

  /** The grouped row of one candidate. */
  function ResultRow(c: Candidate, votes: seq<Vote>): RegionResult {
    RegionResult(c.id, c.name, c.number, CandidateTotal(votes, c.id))
  }

  /** The rows of the query before its ORDER BY: one per region candidate. */
  function GroupedTotals(regionCandidates: seq<Candidate>, votes: seq<Vote>): seq<RegionResult> {
    seq(|regionCandidates|, i requires 0 <= i < |regionCandidates| => ResultRow(regionCandidates[i], votes))
  }

  predicate SortedByVotesDesc(rows: seq<RegionResult>) {
    forall i, j :: 0 <= i < j < |rows| ==> rows[i].totalVotes >= rows[j].totalVotes
  }

  /**
   * What the query may return: the grouped rows ordered by `total_votes DESC`.
   * The order among equal totals is left to the database.
   */
  ghost predicate IsElectionResults(regionCandidates: seq<Candidate>, votes: seq<Vote>, results: seq<RegionResult>) {
    SortedByVotesDesc(results) && multiset(results) == multiset(GroupedTotals(regionCandidates, votes))
  }

  /** The position of the first row of a sorted list that does not beat `row`'s total. */
  function FindSlot(row: RegionResult, sorted: seq<RegionResult>): (k: nat)
    ensures k <= |sorted|
    ensures forall i :: 0 <= i < k ==> sorted[i].totalVotes > row.totalVotes
    ensures k < |sorted| ==> sorted[k].totalVotes <= row.totalVotes
  {
    if sorted == [] || sorted[0].totalVotes <= row.totalVotes then 0
    else FindSlot(row, sorted[1..]) + 1
  }

  /** Puts `row` into a list ordered by votes, before the first row it does not trail. */
  function InsertByVotes(row: RegionResult, sorted: seq<RegionResult>): (r: seq<RegionResult>)
    requires SortedByVotesDesc(sorted)
    ensures SortedByVotesDesc(r)
    ensures multiset(r) == multiset(sorted) + multiset{row}
  {
    var k := FindSlot(row, sorted);
    InsertKeepsOrder(row, sorted, k);
    InsertAddsRow(row, sorted, k);
    sorted[..k] + [row] + sorted[k..]
  }

  /** Putting a row between the rows that beat it and the rest keeps the list ordered. */
  lemma InsertKeepsOrder(row: RegionResult, sorted: seq<RegionResult>, k: nat)
    requires SortedByVotesDesc(sorted) && k <= |sorted|
    requires forall i :: 0 <= i < k ==> sorted[i].totalVotes > row.totalVotes
    requires k < |sorted| ==> sorted[k].totalVotes <= row.totalVotes
    ensures SortedByVotesDesc(sorted[..k] + [row] + sorted[k..])
  {
    var r := sorted[..k] + [row] + sorted[k..];
    forall i, j | 0 <= i < j < |r|
      ensures r[i].totalVotes >= r[j].totalVotes
    {
      if j < k || i > k {
        assert r[i] == sorted[if i < k then i else i - 1];
        assert r[j] == sorted[if j < k then j else j - 1];
      } else if i == k {
        assert r[j] == sorted[j - 1];
      } else {
        assert r[i] == sorted[i];
      }
    }
  }

  /** Putting a row into a list adds one copy of it to the list's multiset. */
  lemma InsertAddsRow(row: RegionResult, sorted: seq<RegionResult>, k: nat)
    requires k <= |sorted|
    ensures multiset(sorted[..k] + [row] + sorted[k..]) == multiset(sorted) + multiset{row}
  {
    assert sorted == sorted[..k] + sorted[k..];
  }

  /** Orders rows by votes, highest first. */
  function SortByVotesDesc(rows: seq<RegionResult>): (r: seq<RegionResult>)
    ensures SortedByVotesDesc(r)
    ensures multiset(r) == multiset(rows)
  {
    if rows == [] then []
    else
      assert rows == [rows[0]] + rows[1..];
      InsertByVotes(rows[0], SortByVotesDesc(rows[1..]))
  }

  /**
   * `getElectionResultsByRegion`: one answer the query may give, the one that
   * keeps tied candidates in candidate order.
   */
  function GetElectionResultsByRegion(regionCandidates: seq<Candidate>, votes: seq<Vote>): (results: seq<RegionResult>)
    ensures IsElectionResults(regionCandidates, votes, results)
  {
    SortByVotesDesc(GroupedTotals(regionCandidates, votes))
  }

  /**
   * Any answer of the query has one row per region candidate, each carrying
   * that candidate's summed votes, and no other rows.
   */
  lemma ElectionResultsRows(regionCandidates: seq<Candidate>, votes: seq<Vote>, results: seq<RegionResult>)
    requires IsElectionResults(regionCandidates, votes, results)
    ensures |results| == |regionCandidates|
    ensures forall c :: c in regionCandidates ==> ResultRow(c, votes) in results
    ensures forall row :: row in results ==>
      row.candidateId in IdsOf(regionCandidates) && row.totalVotes == CandidateTotal(votes, row.candidateId)
  {
    var grouped := GroupedTotals(regionCandidates, votes);
    assert |multiset(results)| == |multiset(grouped)|;
    forall c | c in regionCandidates ensures ResultRow(c, votes) in results {
      var i :| 0 <= i < |regionCandidates| && regionCandidates[i] == c;
      assert grouped[i] == ResultRow(c, votes);
      assert ResultRow(c, votes) in multiset(grouped);
    }
    forall row | row in results
      ensures row.candidateId in IdsOf(regionCandidates) && row.totalVotes == CandidateTotal(votes, row.candidateId)
    {
      assert row in multiset(grouped);
      var i :| 0 <= i < |grouped| && grouped[i] == row;
      assert regionCandidates[i] in regionCandidates;
    }
  }

  /** With distinct candidate ids, each candidate's row appears exactly once. */
  lemma ElectionResultsOncePerCandidate(regionCandidates: seq<Candidate>, votes: seq<Vote>, results: seq<RegionResult>, j: nat)
    requires IsElectionResults(regionCandidates, votes, results)
    requires DistinctIds(regionCandidates) && j < |regionCandidates|
    ensures multiset(results)[ResultRow(regionCandidates[j], votes)] == 1
  {
    var grouped := GroupedTotals(regionCandidates, votes);
    GroupedOccurrences(regionCandidates, votes, j);
  }

  /** In the grouped rows, a candidate's row occurs once when ids are distinct. */
  lemma {:induction false} GroupedOccurrences(regionCandidates: seq<Candidate>, votes: seq<Vote>, j: nat)
    requires DistinctIds(regionCandidates) && j < |regionCandidates|
    ensures multiset(GroupedTotals(regionCandidates, votes))[ResultRow(regionCandidates[j], votes)] == 1
  {
    var n := |regionCandidates|;
    var grouped := GroupedTotals(regionCandidates, votes);
    var init := regionCandidates[..n - 1];
    assert GroupedTotals(init, votes) == grouped[..n - 1];
    assert grouped == grouped[..n - 1] + [grouped[n - 1]];
    var target := ResultRow(regionCandidates[j], votes);
    if j < n - 1 {
      assert init[j] == regionCandidates[j];
      GroupedOccurrences(init, votes, j);
      assert grouped[n - 1] != target;
    } else {
      assert target !in grouped[..n - 1];
    }
  }

  /** A candidate that no vote row names totals 0 (the COALESCE default). */
  lemma {:induction false} NoRowsTotalZero(votes: seq<Vote>, candidateId: int)
    requires forall v :: v in votes ==> v.candidateId != candidateId
    ensures CandidateTotal(votes, candidateId) == 0
  {
    if votes != [] {
      NoRowsTotalZero(votes[1..], candidateId);
    }
  }

  /** The sum of the totals of a list of result rows. */
  function SumTotals(rows: seq<RegionResult>): int {
    if rows == [] then 0 else rows[0].totalVotes + SumTotals(rows[1..])
  }

  /** The sum of the counts of the vote rows whose candidate is in `ids`. */
  function VotesFor(votes: seq<Vote>, ids: set<int>): int {
    if votes == [] then 0
    else (if votes[0].candidateId in ids then votes[0].voteCount else 0) + VotesFor(votes[1..], ids)
  }

  /** Taking a row out of a list takes its total out of the sum. */
  lemma {:induction false} SumTotalsRemove(rows: seq<RegionResult>, i: nat)
    requires i < |rows|
    ensures SumTotals(rows) == rows[i].totalVotes + SumTotals(rows[..i] + rows[i + 1..])
  {
    if i > 0 {
      SumTotalsRemove(rows[1..], i - 1);
      assert rows[..i] + rows[i + 1..] == [rows[0]] + (rows[1..][..i - 1] + rows[1..][i..]);
    } else {
      assert rows[..i] + rows[i + 1..] == rows[1..];
    }
  }

  /** Taking the row at `i` out of a list takes one copy of it out of the list's multiset. */
  lemma MultisetRemoveAt(rows: seq<RegionResult>, i: nat)
    requires i < |rows|
    ensures multiset(rows[..i] + rows[i + 1..]) == multiset(rows) - multiset{rows[i]}
  {
    assert rows == rows[..i] + [rows[i]] + rows[i + 1..];
    assert multiset(rows) == multiset(rows[..i]) + multiset{rows[i]} + multiset(rows[i + 1..]);
  }

  /** Dropping the head of a list drops one copy of it from the list's multiset. */
  lemma MultisetTail(rows: seq<RegionResult>)
    requires rows != []
    ensures multiset(rows[1..]) == multiset(rows) - multiset{rows[0]}
  {
    assert rows == [rows[0]] + rows[1..];
  }

  /** A row that the multiset of a list holds is at some position of the list. */
  lemma IndexOf(rows: seq<RegionResult>, row: RegionResult) returns (i: nat)
    requires row in multiset(rows)
    ensures i < |rows| && rows[i] == row
  {
    assert row in rows;
    i :| 0 <= i < |rows| && rows[i] == row;
  }

  /** Reordering rows does not change the sum of their totals. */
  lemma {:induction false} SumTotalsPermutation(a: seq<RegionResult>, b: seq<RegionResult>)
    requires multiset(a) == multiset(b)
    ensures SumTotals(a) == SumTotals(b)
    decreases |a|
  {
    if a == [] {
      assert |multiset(b)| == 0;
    } else {
      var i := IndexOf(b, a[0]);
      var rest := b[..i] + b[i + 1..];
      MultisetTail(a);
      MultisetRemoveAt(b, i);
      calc {
        multiset(a[1..]);
        multiset(a) - multiset{a[0]};
        { assert b[i] == a[0]; }
        multiset(b) - multiset{b[i]};
        multiset(rest);
      }
      SumTotalsPermutation(a[1..], rest);
      SumTotalsRemove(b, i);
    }
  }

  /** Counting the rows of one more candidate adds that candidate's total. */
  lemma {:induction false} VotesForOneMore(votes: seq<Vote>, candidateId: int, ids: set<int>)
    requires candidateId !in ids
    ensures VotesFor(votes, {candidateId} + ids) == CandidateTotal(votes, candidateId) + VotesFor(votes, ids)
  {
    if votes != [] {
      VotesForOneMore(votes[1..], candidateId, ids);
    }
  }

  /** No candidate, no votes. */
  lemma {:induction false} VotesForNobody(votes: seq<Vote>)
    ensures VotesFor(votes, {}) == 0
  {
    if votes != [] {
      VotesForNobody(votes[1..]);
    }
  }

  /** The grouped totals add up to the votes of the region's candidates. */
  lemma {:induction false} GroupedTotalsSum(regionCandidates: seq<Candidate>, votes: seq<Vote>)
    requires DistinctIds(regionCandidates)
    ensures SumTotals(GroupedTotals(regionCandidates, votes)) == VotesFor(votes, IdsOf(regionCandidates))
  {
    if regionCandidates == [] {
      assert IdsOf(regionCandidates) == {};
      VotesForNobody(votes);
    } else {
      var rest := regionCandidates[1..];
      assert DistinctIds(rest);
      GroupedTotalsSum(rest, votes);
      assert GroupedTotals(regionCandidates, votes)[1..] == GroupedTotals(rest, votes);
      IdsOfCons(regionCandidates);
      VotesForOneMore(votes, regionCandidates[0].id, IdsOf(rest));
    }
  }

  /**
   * The totals of any answer add up to the votes recorded for the region's
   * candidates, across all stations.
   */
  lemma ElectionResultsSum(regionCandidates: seq<Candidate>, votes: seq<Vote>, results: seq<RegionResult>)
    requires IsElectionResults(regionCandidates, votes, results)
    requires DistinctIds(regionCandidates)
    ensures SumTotals(results) == VotesFor(votes, IdsOf(regionCandidates))
  {
    SumTotalsPermutation(results, GroupedTotals(regionCandidates, votes));
    GroupedTotalsSum(regionCandidates, votes);
  }
}

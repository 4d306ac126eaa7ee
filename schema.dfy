/**
 * The four tables of the vote store. Every record carries its primary key
 * `id`; nullable columns are `Option`s.
 */
module Schema {
  import opened Wrappers

  /** A region; `totalRepresentatives` is nullable and the dashboard reads a missing value as 6. */
  datatype Region = Region(id: int, name: string, totalStations: int, totalRepresentatives: Option<int>)

  /** A candidate standing in one region under a ballot number. */
  datatype Candidate = Candidate(id: int, name: string, number: int, regionId: int)

  /** A polling station of one region. */
  datatype Station = Station(id: int, name: string, regionId: int)

  /** The count recorded for one candidate at one station. */
  datatype Vote = Vote(id: int, candidateId: int, stationId: int, voteCount: int)
}

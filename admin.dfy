/**
 * The admin router's `updateFieldName` mutation: the input schema, then a
 * handler that renames one row of the regions, candidates or stations
 * table. The tables are maps from primary key to record.
 */
module AdminRouter {
  import opened Wrappers
  import opened Schema

  /** The four values `tableName` may take. */
  datatype TableName = Regions | Candidates | Stations | Votes

  /** The input as the client sends it. */
  datatype RawInput = RawInput(tableName: string, id: int, fieldName: string, newValue: string)

  /** The input once the schema has accepted it. */
  datatype UpdateFieldNameInput = UpdateFieldNameInput(tableName: TableName, id: int, fieldName: string, newValue: string)

  /** What the schema can object to. */
  datatype SchemaIssue = UnknownTableName | EmptyNewValue

  /** `z.enum(["regions", "candidates", "stations", "votes"])`. */
  function ParseTableName(s: string): Option<TableName> {
    if s == "regions" then Some(Regions)
    else if s == "candidates" then Some(Candidates)
    else if s == "stations" then Some(Stations)
    else if s == "votes" then Some(Votes)
    else None
  }

  /**
   * `updateFieldNameSchema`: the table name must be one of the four, the new
   * value at least one character long; every issue is reported, in field order.
   */
  function ParseInput(raw: RawInput): (r: Result<UpdateFieldNameInput, seq<SchemaIssue>>)
    ensures r.Ok? <==> ParseTableName(raw.tableName).Some? && raw.newValue != ""
    ensures r.Ok? ==> r.value == UpdateFieldNameInput(ParseTableName(raw.tableName).value, raw.id, raw.fieldName, raw.newValue)
    ensures r.Err? ==> r.error != []
    ensures r.Err? ==> (UnknownTableName in r.error <==> ParseTableName(raw.tableName).None?)
    ensures r.Err? ==> (EmptyNewValue in r.error <==> raw.newValue == "")
  {
    var issues := (if ParseTableName(raw.tableName).None? then [UnknownTableName] else [])
                + (if |raw.newValue| < 1 then [EmptyNewValue] else []);
    if issues == [] then Ok(UpdateFieldNameInput(ParseTableName(raw.tableName).value, raw.id, raw.fieldName, raw.newValue))
    else Err(issues)
  }

  /** The errors the handler throws. */
  datatype MutationError = OnlyNameEditable | VotesHaveNoName | InvalidTableName

  /** The text of the `Error` each case throws. */
  function Message(e: MutationError): string {
    match e
    case OnlyNameEditable => "Only the name field can be edited"
    case VotesHaveNoName => "Votes table doesn't have a name field"
    case InvalidTableName => "Invalid table name"
  }

  /** Each thrown error has its own text, so a client can tell them apart by message. */
  lemma MessagesDistinct(a: MutationError, b: MutationError)
    ensures Message(a) == Message(b) <==> a == b
  {
  }

  /** Why a call failed: the schema rejected its input, or the handler threw. */
  datatype AdminError = BadInput(issues: seq<SchemaIssue>) | Thrown(error: MutationError)

  /** `UPDATE table SET ... WHERE id = id`: the row with that key is updated, every other row is kept. */
  function UpdateRow<R>(table: map<int, R>, id: int, update: R -> R): (t: map<int, R>)
    ensures t.Keys == table.Keys
    ensures forall k :: k in table && k != id ==> t[k] == table[k]
    ensures id in table ==> t[id] == update(table[id])
  {
    if id in table then table[id := update(table[id])] else table
  }

  /** An id that matches no row leaves the table as it was. */
  lemma UnknownIdChangesNothing<R>(table: map<int, R>, id: int, update: R -> R)
    requires id !in table
    ensures UpdateRow(table, id, update) == table
  {
  }

  /** Applying an idempotent update twice is applying it once. */
  lemma UpdateRowIdempotent<R>(table: map<int, R>, id: int, update: R -> R)
    requires forall x :: update(update(x)) == update(x)
    ensures UpdateRow(UpdateRow(table, id, update), id, update) == UpdateRow(table, id, update)
  {
  }

  /** The store's tables, keyed by primary key. */
  class Database {
    var regions: map<int, Region>
    var candidates: map<int, Candidate>
    var stations: map<int, Station>
    var votes: map<int, Vote>

    /** Every row is stored under its own id. */
    ghost predicate Valid()
      reads this
    {
      && (forall k :: k in regions ==> regions[k].id == k)
      && (forall k :: k in candidates ==> candidates[k].id == k)
      && (forall k :: k in stations ==> stations[k].id == k)
      && (forall k :: k in votes ==> votes[k].id == k)
    }

    constructor (regions: map<int, Region>, candidates: map<int, Candidate>, stations: map<int, Station>, votes: map<int, Vote>)
      requires forall k :: k in regions ==> regions[k].id == k
      requires forall k :: k in candidates ==> candidates[k].id == k
      requires forall k :: k in stations ==> stations[k].id == k
      requires forall k :: k in votes ==> votes[k].id == k
      ensures Valid()
      ensures this.regions == regions && this.candidates == candidates
      ensures this.stations == stations && this.votes == votes
    {
      this.regions, this.candidates, this.stations, this.votes := regions, candidates, stations, votes;
    }

    /**
     * The handler: rejects any field but "name", then sets the name of the
     * row with the given id in the chosen table. The votes table has no
     * name. A missing id updates nothing and still succeeds.
     */
    method UpdateFieldName(input: UpdateFieldNameInput) returns (r: Result<bool, MutationError>)
      requires Valid()
      modifies this
      ensures Valid()
      ensures input.fieldName != "name" ==> r == Err(OnlyNameEditable)
      ensures input.fieldName == "name" && input.tableName == Votes ==> r == Err(VotesHaveNoName)
      ensures input.fieldName == "name" && input.tableName != Votes ==> r == Ok(true)
      ensures r.Err? ==> unchanged(this)
      ensures regions == if r.Ok? && input.tableName == Regions
        then UpdateRow(old(regions), input.id, (x: Region) => x.(name := input.newValue)) else old(regions)
      ensures candidates == if r.Ok? && input.tableName == Candidates
        then UpdateRow(old(candidates), input.id, (x: Candidate) => x.(name := input.newValue)) else old(candidates)
      ensures stations == if r.Ok? && input.tableName == Stations
        then UpdateRow(old(stations), input.id, (x: Station) => x.(name := input.newValue)) else old(stations)
      ensures votes == old(votes)
    {
      if input.fieldName != "name" {
        return Err(OnlyNameEditable);
      }
      match input.tableName {
        case Regions =>
          regions := UpdateRow(regions, input.id, (x: Region) => x.(name := input.newValue));
        case Candidates =>
          candidates := UpdateRow(candidates, input.id, (x: Candidate) => x.(name := input.newValue));
        case Stations =>
          stations := UpdateRow(stations, input.id, (x: Station) => x.(name := input.newValue));
        case Votes =>
          return Err(VotesHaveNoName);
      }
      r := Ok(true);
    }

    /** A call as the router runs it: the schema first, the handler only on accepted input. */
    method Mutate(raw: RawInput) returns (r: Result<bool, AdminError>)
      requires Valid()
      modifies this
      ensures Valid()
      ensures ParseInput(raw).Err? ==> r == Err(BadInput(ParseInput(raw).error)) && unchanged(this)
      ensures raw.newValue == "" ==> r.Err? && r.error.BadInput? && unchanged(this)
      // accepted input goes to the handler: its result and its errors
      ensures ParseInput(raw).Ok? ==>
        (r.Ok? <==> raw.fieldName == "name" && ParseInput(raw).value.tableName != Votes)
      ensures ParseInput(raw).Ok? && r.Ok? ==> r.value
      ensures ParseInput(raw).Ok? && r.Err? ==>
        r.error == Thrown(if raw.fieldName != "name" then OnlyNameEditable else VotesHaveNoName)
      ensures ParseInput(raw).Ok? && raw.fieldName != "name" ==>
        r.Err? && r.error.Thrown? && Message(r.error.error) == "Only the name field can be edited"
      ensures ParseInput(raw).Ok? && raw.fieldName == "name" && ParseInput(raw).value.tableName == Votes ==>
        r.Err? && r.error.Thrown? && Message(r.error.error) == "Votes table doesn't have a name field"
      ensures r.Err? ==> unchanged(this)
      // and the handler's rename
      ensures regions == if ParseInput(raw).Ok? && r.Ok? && ParseInput(raw).value.tableName == Regions
        then UpdateRow(old(regions), raw.id, (x: Region) => x.(name := raw.newValue)) else old(regions)
      ensures candidates == if ParseInput(raw).Ok? && r.Ok? && ParseInput(raw).value.tableName == Candidates
        then UpdateRow(old(candidates), raw.id, (x: Candidate) => x.(name := raw.newValue)) else old(candidates)
      ensures stations == if ParseInput(raw).Ok? && r.Ok? && ParseInput(raw).value.tableName == Stations
        then UpdateRow(old(stations), raw.id, (x: Station) => x.(name := raw.newValue)) else old(stations)
      ensures votes == old(votes)
    {
      match ParseInput(raw)
      case Err(issues) =>
        r := Err(BadInput(issues));
      case Ok(input) =>
        var handled := UpdateFieldName(input);
        r := match handled
             case Ok(success) => Ok(success)
             case Err(e) => Err(Thrown(e));
    }
  }

  /** Renaming the same row to the same value twice leaves the tables as renaming it once. */
  method RenameTwice(db: Database, input: UpdateFieldNameInput) returns (r1: Result<bool, MutationError>, r2: Result<bool, MutationError>)
    requires db.Valid()
    modifies db
    ensures db.Valid()
    ensures r1 == r2
    ensures r1 == if input.fieldName != "name" then Err(OnlyNameEditable)
      else if input.tableName == Votes then Err(VotesHaveNoName) else Ok(true)
    ensures db.regions == if r1.Ok? && input.tableName == Regions
      then UpdateRow(old(db.regions), input.id, (x: Region) => x.(name := input.newValue)) else old(db.regions)
    ensures db.candidates == if r1.Ok? && input.tableName == Candidates
      then UpdateRow(old(db.candidates), input.id, (x: Candidate) => x.(name := input.newValue)) else old(db.candidates)
    ensures db.stations == if r1.Ok? && input.tableName == Stations
      then UpdateRow(old(db.stations), input.id, (x: Station) => x.(name := input.newValue)) else old(db.stations)
    ensures db.votes == old(db.votes)
  {
    r1 := db.UpdateFieldName(input);
    var regions1, candidates1, stations1 := db.regions, db.candidates, db.stations;
    r2 := db.UpdateFieldName(input);
    UpdateRowIdempotent(regions1, input.id, (x: Region) => x.(name := input.newValue));
    UpdateRowIdempotent(candidates1, input.id, (x: Candidate) => x.(name := input.newValue));
    UpdateRowIdempotent(stations1, input.id, (x: Station) => x.(name := input.newValue));
  }
}

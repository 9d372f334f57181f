/** The player table the dashboard loads once at start-up: one row per
    player-season of the NBA 2013 statistics file, plus the `age_group`
    column derived from `age` when the table is loaded. */
module NbaData {

  /** The columns the dashboard reads: `player`, `age`, `pos`,
      `bref_team_id` (here `team`), `pts`, `ast` and `orb`. */
  datatype Record = Record(
    player: string,
    age: int,
    pos: string,
    team: string,
    pts: nat,
    ast: nat,
    orb: nat)

  /** A row of the loaded frame: the record and its `age_group` cell. */
  datatype Row = Row(record: Record, ageGroup: string)

  const Rookie: string := "rookie"
  const Senior: string := "senior"

  function AgeGroupOf(age: int): string
  {
    if age < 24 then Rookie else Senior
  }

  /** The loaded frame: each record in file order, with its age group added. */
  function WithAgeGroups(records: seq<Record>): (rows: seq<Row>)
    ensures |rows| == |records|
    ensures forall i :: 0 <= i < |rows| ==> rows[i].record == records[i]
    ensures forall i :: 0 <= i < |rows| ==>
      && (rows[i].ageGroup == Rookie <==> records[i].age < 24)
      && (rows[i].ageGroup == Senior <==> records[i].age >= 24)
  {
    seq(|records|, i requires 0 <= i < |records| => Row(records[i], AgeGroupOf(records[i].age)))
  }

  /** Every row of the loaded frame is in one of the two age groups. */
  lemma AgeGroupsPartition(records: seq<Record>)
    ensures forall r | r in WithAgeGroups(records) :: r.ageGroup == Rookie || r.ageGroup == Senior
  {
  }
}

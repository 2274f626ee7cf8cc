/**
 * Record shapes of the persisted entities, one table per entity.
 * Every table's identifier is generated on save: row i of a table has id i.
 * Java's nullable columns are Option; the mandatory links of Delivery are plain ids.
 */
module Entities {
  import opened Base

  /** java.time.LocalDate and LocalDateTime; parsing them is a parameter of the walk. */
  datatype Date = Date(year: int, month: int, day: int)
  datatype DateTime = DateTime(date: Date, hour: int, minute: int, second: int, nano: int)

  datatype Match = Match(
    id: nat,
    eventName: string,
    matchType: string,
    city: string,
    date: Option<Date>,
    venue: string,
    created: Option<DateTime>,
    ballsPerOver: int,
    season: string)

  datatype Team = Team(id: nat, name: string)

  /** totalScore is maintained outside the ingestion walk; a new row starts at 0. */
  datatype Player = Player(id: nat, name: string, totalScore: int)

  datatype MatchPlayer = MatchPlayer(matchId: nat, playerId: nat)

  datatype MatchTeam = MatchTeam(matchId: nat, teamId: nat)

  datatype Inning = Inning(
    id: nat,
    matchId: nat,
    teamId: Option<nat>,
    totalRuns: int,
    totalOvers: int,
    isCompleted: bool)

  datatype Over = Over(id: nat, inningId: nat, overNumber: int)

  /** A persisted delivery row: over_id, inning_id and match_id are NOT NULL columns. */
  datatype DeliveryRecord = DeliveryRecord(
    overId: nat,
    inningId: nat,
    matchId: nat,
    batter: string,
    bowler: string,
    nonStriker: string,
    runsBatter: int,
    runsExtras: int,
    totalRuns: int,
    extras: string)

  datatype Powerplay = Powerplay(inningId: nat, startOver: int, endOver: int)

  datatype Target = Target(inningId: nat, runs: int, overs: int)

  /** The whole store: one sequence of rows per table, in insertion order. */
  datatype Tables = Tables(
    matches: seq<Match>,
    teams: seq<Team>,
    players: seq<Player>,
    matchPlayers: seq<MatchPlayer>,
    matchTeams: seq<MatchTeam>,
    innings: seq<Inning>,
    overs: seq<Over>,
    deliveries: seq<DeliveryRecord>,
    powerplays: seq<Powerplay>,
    targets: seq<Target>)

  const EmptyTables := Tables([], [], [], [], [], [], [], [], [], [])

  /** Generated identifiers are positions. */
  ghost predicate IdsArePositions(t: Tables)
  {
    && (forall i | 0 <= i < |t.matches| :: t.matches[i].id == i)
    && (forall i | 0 <= i < |t.teams| :: t.teams[i].id == i)
    && (forall i | 0 <= i < |t.players| :: t.players[i].id == i)
    && (forall i | 0 <= i < |t.innings| :: t.innings[i].id == i)
    && (forall i | 0 <= i < |t.overs| :: t.overs[i].id == i)
  }

  /** A delivery's three links exist, and its over and its inning agree with it. */
  ghost predicate DeliveryLinked(t: Tables, d: DeliveryRecord)
  {
    && d.matchId < |t.matches|
    && d.inningId < |t.innings|
    && d.overId < |t.overs|
    && t.overs[d.overId].inningId == d.inningId
    && t.innings[d.inningId].matchId == d.matchId
  }

  /** Every foreign key names an existing row. */
  ghost predicate LinksExist(t: Tables)
  {
    && (forall r | r in t.matchPlayers :: r.matchId < |t.matches| && r.playerId < |t.players|)
    && (forall r | r in t.matchTeams :: r.matchId < |t.matches| && r.teamId < |t.teams|)
    && (forall r | r in t.innings :: r.matchId < |t.matches| && (r.teamId.Some? ==> r.teamId.value < |t.teams|))
    && (forall r | r in t.overs :: r.inningId < |t.innings|)
    && (forall d | d in t.deliveries :: DeliveryLinked(t, d))
    && (forall r | r in t.powerplays :: r.inningId < |t.innings|)
    && (forall r | r in t.targets :: r.inningId < |t.innings|)
  }

  /** Referential integrity of the store. */
  ghost predicate Valid(t: Tables)
  {
    IdsArePositions(t) && LinksExist(t)
  }
}

/**
 * What one call of MatchService.saveMatchData appends to the store, as pure
 * functions of the store's contents and the parsed document. Each loop of the
 * walk is a function defined on a prefix of its elements, so that the walk's
 * loops can keep "the store equals the function of the elements done so far"
 * as their invariant.
 *
 * The MatchTeam rows are not part of Ingest: the walk visits its teams through a
 * HashSet, in no specified order, and they are stated separately.
 */
module IngestSpec {
  import opened Base
  import opened Text
  import opened JsonTree
  import opened Entities
  import opened Store
  import opened DeliveryEntity

  /**
   * The foreign parsers the walk relies on: ObjectMapper.readTree (an IOException
   * carries its message), Delivery.isValidJson, LocalDate.parse and LocalDateTime.parse.
   */
  datatype Codec = Codec(
    readTree: string -> Result<Json, string>,
    isValidJson: string -> bool,
    parseDate: string -> Option<Date>,
    parseDateTime: string -> Option<DateTime>)

  // ---------------------------------------------------------------- the Match row

  /**
   * The match date: the text of info.dates[0], parsed; absent when dates is missing,
   * not an array or empty (get(0) is null and the exception is caught), when the
   * text is empty, or when it does not parse.
   */
  function MatchDate(info: Json, parseDate: string -> Option<Date>): (r: Option<Date>)
    ensures !Path(info, "dates").JArr? ==> r.None?
    ensures Path(info, "dates") == JArr([]) ==> r.None?
    ensures r.Some? <==>
      Path(info, "dates").JArr? && |Path(info, "dates").items| > 0 &&
      AsText(Path(info, "dates").items[0]) != "" && parseDate(AsText(Path(info, "dates").items[0])).Some?
    ensures r.Some? ==> r == parseDate(AsText(Path(info, "dates").items[0]))
  {
    match First(Path(info, "dates"))
    case None => None
    case Some(first) =>
      var text := AsText(first);
      if text == "" then None else parseDate(text)
  }

  /** The created timestamp: absent when info.created is missing, empty or does not parse. */
  function MatchCreated(info: Json, parseDateTime: string -> Option<DateTime>): (r: Option<DateTime>)
    ensures !Has(info, "created") ==> r.None?
    ensures r.Some? <==> AsText(Path(info, "created")) != "" && parseDateTime(AsText(Path(info, "created"))).Some?
    ensures r.Some? ==> r == parseDateTime(AsText(Path(info, "created")))
  {
    MissingFieldIsMissing(info, "created");
    var text := AsText(Path(info, "created"));
    if text == "" then None else parseDateTime(text)
  }

  lemma {:induction false} MissingFieldIsMissing(node: Json, name: string)
    ensures !Has(node, name) ==> Path(node, name) == Missing
  {
    if node.JObj? && !Has(node, name) {
      FieldValueAbsent(node.fields, name);
    }
  }

  lemma {:induction false} FieldValueAbsent(fields: seq<Field>, name: string)
    requires forall i | 0 <= i < |fields| :: fields[i].name != name
    ensures FieldValue(fields, name) == Missing
  {
    if fields != [] {
      FieldValueAbsent(fields[1..], name);
    }
  }

  function MatchOf(id: nat, info: Json, codec: Codec): Match
  {
    Match(
      id,
      AsText(Path(Path(info, "event"), "name")),
      AsText(Path(info, "match_type")),
      AsText(Path(info, "city")),
      MatchDate(info, codec.parseDate),
      AsText(Path(info, "venue")),
      MatchCreated(info, codec.parseDateTime),
      AsInt(Path(info, "balls_per_over")),
      AsText(Path(info, "season")))
  }

  // ---------------------------------------------------------------- teams and players

  /** info.players[teamName]: the roster listed for a team. */
  function RosterOf(info: Json, teamName: string): seq<Json>
  {
    Elements(Path(Path(info, "players"), teamName))
  }

  /** One Player row and one MatchPlayer row per roster entry. */
  function PlayersStep(t: Tables, matchId: nat, roster: seq<Json>): Tables
    decreases |roster|
  {
    if roster == [] then t
    else
      var t1 := PlayersStep(t, matchId, roster[..|roster| - 1]);
      var playerId := |t1.players|;
      t1.(players := t1.players + [Player(playerId, AsText(roster[|roster| - 1]), 0)],
          matchPlayers := t1.matchPlayers + [MatchPlayer(matchId, playerId)])
  }

  /** One Team row for a teams entry, then its roster. */
  function TeamStep(t: Tables, matchId: nat, info: Json, teamNode: Json): Tables
  {
    var name := AsText(teamNode);
    PlayersStep(t.(teams := t.teams + [Team(|t.teams|, name)]), matchId, RosterOf(info, name))
  }

  function TeamsStep(t: Tables, matchId: nat, info: Json, teamNodes: seq<Json>): Tables
    decreases |teamNodes|
  {
    if teamNodes == [] then t
    else TeamStep(TeamsStep(t, matchId, info, teamNodes[..|teamNodes| - 1]), matchId, info, teamNodes[|teamNodes| - 1])
  }

  // ---------------------------------------------------------------- extras text

  /** "name: value" for one extras field; the value is read with asInt. */
  function ExtrasEntry(extras: Json, name: string): string
  {
    name + ": " + IntToString(AsInt(Path(extras, name)))
  }

  function ExtrasEntries(extras: Json): (r: seq<string>)
    ensures |r| == |FieldNames(extras)|
  {
    var names := FieldNames(extras);
    seq(|names|, i requires 0 <= i < |names| => ExtrasEntry(extras, names[i]))
  }

  /** The items separated by sep. */
  function Join(items: seq<string>, sep: string): string
    decreases |items|
  {
    if items == [] then ""
    else if |items| == 1 then items[0]
    else Join(items[..|items| - 1], sep) + sep + items[|items| - 1]
  }

  /** Each item followed by sep: what the StringBuilder holds before its last two characters go. */
  function Terminated(items: seq<string>, sep: string): string
    decreases |items|
  {
    if items == [] then "" else Terminated(items[..|items| - 1], sep) + items[|items| - 1] + sep
  }

  /**
   * The extras text given to setExtras: "{}" for a missing or empty node, otherwise
   * "f1: v1, f2: v2, ..., fn: vn" over the node's field names.
   */
  function ExtrasText(extras: Json): string
  {
    if IsMissing(extras) || IsEmpty(extras) then "{}" else Join(ExtrasEntries(extras), ", ")
  }

  // ---------------------------------------------------------------- innings, overs, deliveries

  /** The inning's team: set only when exactly one Team row of the store has the name. */
  function ResolvedTeam(teams: seq<Team>, name: string): (r: Option<nat>)
    ensures r.Some? <==> |TeamsNamed(teams, name)| == 1
    ensures r.Some? ==> r.value == TeamsNamed(teams, name)[0].id
  {
    var found := TeamsNamed(teams, name);
    if |found| == 1 then Some(found[0].id) else None
  }

  function InningRow(id: nat, matchId: nat, teamId: Option<nat>, inningNode: Json): Inning
  {
    Inning(id, matchId, teamId,
           AsInt(Path(inningNode, "total_runs")),
           AsInt(Path(inningNode, "total_overs")),
           AsBoolean(Path(inningNode, "is_completed")))
  }

  function OverNodes(inningNode: Json): seq<Json> { Elements(Path(inningNode, "overs")) }

  function PowerplayNodes(inningNode: Json): seq<Json> { Elements(Path(inningNode, "powerplays")) }

  function DeliveryNodes(overNode: Json): seq<Json> { Elements(Path(overNode, "deliveries")) }

  /** The row saved for one delivery entry: links first, then names, runs and extras. */
  function DeliveryOf(overId: nat, inningId: nat, matchId: nat, node: Json, codec: Codec): DeliveryRecord
  {
    var runs := Path(node, "runs");
    DeliveryRecord(
      overId, inningId, matchId,
      AsText(Path(node, "batter")),
      AsText(Path(node, "bowler")),
      AsText(Path(node, "non_striker")),
      AsInt(Path(runs, "batter")),
      AsInt(Path(runs, "extras")),
      AsInt(Path(runs, "total")),
      StoredExtras(ExtrasText(Path(node, "extras")), codec.isValidJson))
  }

  function DeliveriesOf(overId: nat, inningId: nat, matchId: nat, nodes: seq<Json>, codec: Codec): (r: seq<DeliveryRecord>)
    ensures |r| == |nodes|
    decreases |nodes|
  {
    if nodes == [] then []
    else DeliveriesOf(overId, inningId, matchId, nodes[..|nodes| - 1], codec)
         + [DeliveryOf(overId, inningId, matchId, nodes[|nodes| - 1], codec)]
  }

  function PowerplayOf(inningId: nat, node: Json): Powerplay
  {
    Powerplay(inningId, AsInt(Path(node, "start_over")), AsInt(Path(node, "end_over")))
  }

  function PowerplaysOf(inningId: nat, nodes: seq<Json>): (r: seq<Powerplay>)
    ensures |r| == |nodes|
    decreases |nodes|
  {
    if nodes == [] then [] else PowerplaysOf(inningId, nodes[..|nodes| - 1]) + [PowerplayOf(inningId, nodes[|nodes| - 1])]
  }

  function TargetOf(inningId: nat, inningNode: Json): Target
  {
    var target := Path(inningNode, "target");
    Target(inningId, AsInt(Path(target, "runs")), AsInt(Path(target, "overs")))
  }

  /**
   * One over entry: the Over row, its deliveries, then (inside the over loop, as the
   * code has it) every powerplay of the inning and the inning's target if it has one.
   */
  function OverStep(t: Tables, matchId: nat, inningId: nat, inningNode: Json, overNode: Json, codec: Codec): Tables
  {
    var overId := |t.overs|;
    var t1 := t.(overs := t.overs + [Over(overId, inningId, AsInt(Path(overNode, "over")))]);
    var t2 := t1.(deliveries := t1.deliveries + DeliveriesOf(overId, inningId, matchId, DeliveryNodes(overNode), codec));
    var t3 := t2.(powerplays := t2.powerplays + PowerplaysOf(inningId, PowerplayNodes(inningNode)));
    if Has(inningNode, "target") then t3.(targets := t3.targets + [TargetOf(inningId, inningNode)]) else t3
  }

  function OversStep(t: Tables, matchId: nat, inningId: nat, inningNode: Json, overNodes: seq<Json>, codec: Codec): Tables
    decreases |overNodes|
  {
    if overNodes == [] then t
    else OverStep(OversStep(t, matchId, inningId, inningNode, overNodes[..|overNodes| - 1], codec),
                  matchId, inningId, inningNode, overNodes[|overNodes| - 1], codec)
  }

  /** An inning is written when its team resolved (saved directly) or when it has an over (cascade). */
  predicate InningPersisted(teams: seq<Team>, inningNode: Json)
  {
    ResolvedTeam(teams, AsText(Path(inningNode, "team"))).Some? || OverNodes(inningNode) != []
  }

  /**
   * One innings entry. Its id is the next inning id; the row is appended when the
   * inning is persisted, before any of its overs.
   */
  function InningStep(t: Tables, matchId: nat, inningNode: Json, codec: Codec): Tables
  {
    var teamId := ResolvedTeam(t.teams, AsText(Path(inningNode, "team")));
    var inningId := |t.innings|;
    var t1 := if InningPersisted(t.teams, inningNode)
              then t.(innings := t.innings + [InningRow(inningId, matchId, teamId, inningNode)])
              else t;
    OversStep(t1, matchId, inningId, inningNode, OverNodes(inningNode), codec)
  }

  function InningsStep(t: Tables, matchId: nat, inningNodes: seq<Json>, codec: Codec): Tables
    decreases |inningNodes|
  {
    if inningNodes == [] then t
    else InningStep(InningsStep(t, matchId, inningNodes[..|inningNodes| - 1], codec),
                    matchId, inningNodes[|inningNodes| - 1], codec)
  }

  // ---------------------------------------------------------------- the whole document

  function Info(root: Json): Json { Path(root, "info") }

  function TeamNodes(root: Json): seq<Json> { Elements(Path(Info(root), "teams")) }

  function InningNodes(root: Json): seq<Json> { Elements(Path(root, "innings")) }

  /** The Match row, then teams and players, then innings; MatchTeam rows are left to the caller. */
  function Ingest(t: Tables, root: Json, codec: Codec): Tables
  {
    var matchId := |t.matches|;
    var t1 := t.(matches := t.matches + [MatchOf(matchId, Info(root), codec)]);
    var t2 := TeamsStep(t1, matchId, Info(root), TeamNodes(root));
    InningsStep(t2, matchId, InningNodes(root), codec)
  }

  /** The ids of a set of teams. */
  function TeamIds(teams: set<Team>): (r: set<nat>)
    ensures forall team | team in teams :: team.id in r
  {
    set team | team in teams :: team.id
  }

  /** The rows of a table from position `from` on, as a set: what one call added to it. */
  function RowsFrom<T>(rows: seq<T>, from: nat): (r: set<T>)
    ensures forall k | from <= k < |rows| :: rows[k] in r
  {
    set k | from <= k < |rows| :: rows[k]
  }

  lemma RowsFromAppend<T>(rows: seq<T>, from: nat, x: T)
    requires from <= |rows|
    ensures RowsFrom(rows + [x], from) == RowsFrom(rows, from) + {x}
  {
    var r := rows + [x];
    forall y | y in RowsFrom(r, from) ensures y in RowsFrom(rows, from) + {x} {
      var k :| from <= k < |r| && r[k] == y;
      if k < |rows| { assert rows[k] == y; }
    }
    forall y | y in RowsFrom(rows, from) ensures y in RowsFrom(r, from) {
      var k :| from <= k < |rows| && rows[k] == y;
      assert r[k] == y;
    }
    assert r[|rows|] == x;
  }

  /**
   * The MatchTeam rows appended by the walk: one per team of the HashSet it filled,
   * each linking that team to the match, in any order.
   */
  ghost predicate MatchTeamsAdded(before: seq<MatchTeam>, after: seq<MatchTeam>, matchId: nat, teams: set<Team>)
  {
    && |before| <= |after|
    && after[..|before|] == before
    && |after| - |before| == |teams|
    && (forall r | r in after[|before|..] :: r.matchId == matchId && r.teamId in TeamIds(teams))
    && (forall team | team in teams :: MatchTeam(matchId, team.id) in after[|before|..])
  }
}

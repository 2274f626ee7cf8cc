/**
 * Properties of the ingestion walk, proved about its specification: which rows
 * each level appends, that every table only grows, that referential integrity
 * is kept, and how many rows of each kind one document produces.
 */
module IngestLemmas {
  import opened Base
  import opened Text
  import opened JsonTree
  import opened Entities
  import opened Store
  import opened DeliveryEntity
  import opened IngestSpec

  /** Every table of a is a prefix of the same table of b: rows are only appended. */
  ghost predicate Grows(a: Tables, b: Tables)
  {
    && a.matches <= b.matches && a.teams <= b.teams && a.players <= b.players
    && a.matchPlayers <= b.matchPlayers && a.matchTeams <= b.matchTeams
    && a.innings <= b.innings && a.overs <= b.overs && a.deliveries <= b.deliveries
    && a.powerplays <= b.powerplays && a.targets <= b.targets
  }

  /** Only the Inning, Over, Delivery, Powerplay and Target tables differ. */
  ghost predicate OnlyInningTablesChange(a: Tables, b: Tables)
  {
    b.(innings := a.innings, overs := a.overs, deliveries := a.deliveries,
       powerplays := a.powerplays, targets := a.targets) == a
  }

  /** Only the Team, Player and MatchPlayer tables differ. */
  ghost predicate OnlyRosterTablesChange(a: Tables, b: Tables)
  {
    b.(teams := a.teams, players := a.players, matchPlayers := a.matchPlayers) == a
  }

  // ---------------------------------------------------------------- counting

  function Total(nodes: seq<Json>, count: Json -> nat): nat
    decreases |nodes|
  {
    if nodes == [] then 0 else Total(nodes[..|nodes| - 1], count) + count(nodes[|nodes| - 1])
  }

  function DeliveryCount(overNode: Json): nat { |DeliveryNodes(overNode)| }

  function OverCount(inningNode: Json): nat { |OverNodes(inningNode)| }

  function InningDeliveryCount(inningNode: Json): nat { Total(OverNodes(inningNode), DeliveryCount) }

  /** Powerplays are written once per over of their inning. */
  function PowerplayRowCount(inningNode: Json): nat { |OverNodes(inningNode)| * |PowerplayNodes(inningNode)| }

  /** The target is written once per over of its inning. */
  function TargetRowCount(inningNode: Json): nat
  {
    if Has(inningNode, "target") then |OverNodes(inningNode)| else 0
  }

  function RosterTotal(info: Json, teamNodes: seq<Json>): nat
    decreases |teamNodes|
  {
    if teamNodes == [] then 0
    else RosterTotal(info, teamNodes[..|teamNodes| - 1]) + |RosterOf(info, AsText(teamNodes[|teamNodes| - 1]))|
  }

  // ---------------------------------------------------------------- rows of one over

  lemma {:induction false} DeliveriesOfLinks(overId: nat, inningId: nat, matchId: nat, nodes: seq<Json>, codec: Codec)
    ensures forall j | 0 <= j < |nodes| ::
      var d := DeliveriesOf(overId, inningId, matchId, nodes, codec)[j];
      d.overId == overId && d.inningId == inningId && d.matchId == matchId
  {
    if nodes != [] {
      DeliveriesOfLinks(overId, inningId, matchId, nodes[..|nodes| - 1], codec);
    }
  }

  lemma {:induction false} PowerplaysOfLinks(inningId: nat, nodes: seq<Json>)
    ensures forall j | 0 <= j < |nodes| :: PowerplaysOf(inningId, nodes)[j].inningId == inningId
  {
    if nodes != [] {
      PowerplaysOfLinks(inningId, nodes[..|nodes| - 1]);
    }
  }

  /** One over entry appends one Over, its deliveries, every powerplay of the inning and the target if any. */
  lemma OverStepRows(t: Tables, matchId: nat, inningId: nat, inningNode: Json, overNode: Json, codec: Codec)
    ensures var r := OverStep(t, matchId, inningId, inningNode, overNode, codec);
      && OnlyInningTablesChange(t, r) && Grows(t, r) && r.innings == t.innings
      && |r.overs| == |t.overs| + 1
      && r.overs[|t.overs|] == Over(|t.overs|, inningId, AsInt(Path(overNode, "over")))
      && |r.deliveries| == |t.deliveries| + DeliveryCount(overNode)
      && |r.powerplays| == |t.powerplays| + |PowerplayNodes(inningNode)|
      && |r.targets| == |t.targets| + (if Has(inningNode, "target") then 1 else 0)
      && (forall j | |t.deliveries| <= j < |r.deliveries| ::
            r.deliveries[j].overId == |t.overs| && r.deliveries[j].inningId == inningId && r.deliveries[j].matchId == matchId)
      && (forall j | |t.powerplays| <= j < |r.powerplays| :: r.powerplays[j].inningId == inningId)
      && (forall j | |t.targets| <= j < |r.targets| :: r.targets[j].inningId == inningId)
  {
    DeliveriesOfLinks(|t.overs|, inningId, matchId, DeliveryNodes(overNode), codec);
    PowerplaysOfLinks(inningId, PowerplayNodes(inningNode));
  }

  lemma GrowsTransitive(a: Tables, b: Tables, c: Tables)
    requires Grows(a, b) && Grows(b, c)
    ensures Grows(a, c)
  {
    assert a.matches <= c.matches && a.teams <= c.teams && a.players <= c.players;
    assert a.innings <= c.innings && a.overs <= c.overs && a.deliveries <= c.deliveries;
  }

  /** The over entries of one inning: one Over each, with row counts for the children. */
  lemma {:induction false} OversStepShape(t: Tables, matchId: nat, inningId: nat, inningNode: Json, overNodes: seq<Json>, codec: Codec)
    ensures var r := OversStep(t, matchId, inningId, inningNode, overNodes, codec);
      && OnlyInningTablesChange(t, r) && Grows(t, r) && r.innings == t.innings
      && |r.overs| == |t.overs| + |overNodes|
      && |r.deliveries| == |t.deliveries| + Total(overNodes, DeliveryCount)
      && |r.powerplays| == |t.powerplays| + |overNodes| * |PowerplayNodes(inningNode)|
      && |r.targets| == |t.targets| + (if Has(inningNode, "target") then |overNodes| else 0)
    decreases |overNodes|
  {
    if overNodes != [] {
      var prefix := overNodes[..|overNodes| - 1];
      var last := overNodes[|overNodes| - 1];
      OversStepShape(t, matchId, inningId, inningNode, prefix, codec);
      var r1 := OversStep(t, matchId, inningId, inningNode, prefix, codec);
      OverStepRows(r1, matchId, inningId, inningNode, last, codec);
      var r := OverStep(r1, matchId, inningId, inningNode, last, codec);
      GrowsTransitive(t, r1, r);
      MulSucc(|prefix|, |PowerplayNodes(inningNode)|);
    }
  }

  /** Every row the over entries of one inning append is linked to that inning (and deliveries to the match). */
  lemma {:induction false} OversStepLinks(t: Tables, matchId: nat, inningId: nat, inningNode: Json, overNodes: seq<Json>, codec: Codec)
    ensures var r := OversStep(t, matchId, inningId, inningNode, overNodes, codec);
      && (forall j | |t.overs| <= j < |r.overs| :: r.overs[j].inningId == inningId && r.overs[j].id == j)
      && (forall j | |t.deliveries| <= j < |r.deliveries| ::
            && |t.overs| <= r.deliveries[j].overId < |r.overs|
            && r.deliveries[j].inningId == inningId && r.deliveries[j].matchId == matchId)
      && (forall j | |t.powerplays| <= j < |r.powerplays| :: r.powerplays[j].inningId == inningId)
      && (forall j | |t.targets| <= j < |r.targets| :: r.targets[j].inningId == inningId)
    decreases |overNodes|
  {
    if overNodes != [] {
      var prefix := overNodes[..|overNodes| - 1];
      var last := overNodes[|overNodes| - 1];
      OversStepLinks(t, matchId, inningId, inningNode, prefix, codec);
      OversStepShape(t, matchId, inningId, inningNode, prefix, codec);
      var r1 := OversStep(t, matchId, inningId, inningNode, prefix, codec);
      OverStepRows(r1, matchId, inningId, inningNode, last, codec);
      var r := OverStep(r1, matchId, inningId, inningNode, last, codec);
      forall j | |t.overs| <= j < |r.overs| ensures r.overs[j].inningId == inningId && r.overs[j].id == j {
        if j < |r1.overs| { assert r.overs[j] == r1.overs[j]; }
      }
      forall j | |t.deliveries| <= j < |r.deliveries|
        ensures |t.overs| <= r.deliveries[j].overId < |r.overs|
        ensures r.deliveries[j].inningId == inningId && r.deliveries[j].matchId == matchId
      {
        if j < |r1.deliveries| { assert r.deliveries[j] == r1.deliveries[j]; }
      }
      forall j | |t.powerplays| <= j < |r.powerplays| ensures r.powerplays[j].inningId == inningId {
        if j < |r1.powerplays| { assert r.powerplays[j] == r1.powerplays[j]; }
      }
      forall j | |t.targets| <= j < |r.targets| ensures r.targets[j].inningId == inningId {
        if j < |r1.targets| { assert r.targets[j] == r1.targets[j]; }
      }
    }
  }

  // ---------------------------------------------------------------- one inning

  /**
   * One innings entry. Its row is written iff its team resolved (exactly one Team
   * row of the store has the name) or it has at least one over; the team link is
   * set iff the team resolved. Every over entry gets an Over row either way, and
   * powerplays and the target are written once per over.
   */
  lemma InningStepRows(t: Tables, matchId: nat, inningNode: Json, codec: Codec)
    ensures var r := InningStep(t, matchId, inningNode, codec);
      var found := TeamsNamed(t.teams, AsText(Path(inningNode, "team")));
      && OnlyInningTablesChange(t, r) && Grows(t, r)
      && (|r.innings| == |t.innings| + 1 <==> |found| == 1 || OverNodes(inningNode) != [])
      && (|r.innings| == |t.innings| <==> |found| != 1 && OverNodes(inningNode) == [])
      && (|r.innings| > |t.innings| ==>
            && r.innings[|t.innings|] == InningRow(|t.innings|, matchId, ResolvedTeam(t.teams, AsText(Path(inningNode, "team"))), inningNode)
            && (r.innings[|t.innings|].teamId.Some? <==> |found| == 1))
      && |r.overs| == |t.overs| + OverCount(inningNode)
      && (forall j | |t.overs| <= j < |r.overs| :: r.overs[j].inningId == |t.innings| && r.overs[j].id == j)
      && |r.deliveries| == |t.deliveries| + InningDeliveryCount(inningNode)
      && |r.powerplays| == |t.powerplays| + PowerplayRowCount(inningNode)
      && |r.targets| == |t.targets| + TargetRowCount(inningNode)
  {
    var teamId := ResolvedTeam(t.teams, AsText(Path(inningNode, "team")));
    var t1 := if InningPersisted(t.teams, inningNode)
              then t.(innings := t.innings + [InningRow(|t.innings|, matchId, teamId, inningNode)])
              else t;
    OversStepShape(t1, matchId, |t.innings|, inningNode, OverNodes(inningNode), codec);
    OversStepLinks(t1, matchId, |t.innings|, inningNode, OverNodes(inningNode), codec);
  }

  lemma {:induction false} InningsStepRows(t: Tables, matchId: nat, inningNodes: seq<Json>, codec: Codec)
    ensures var r := InningsStep(t, matchId, inningNodes, codec);
      && OnlyInningTablesChange(t, r) && Grows(t, r)
      && |r.overs| == |t.overs| + Total(inningNodes, OverCount)
      && |r.deliveries| == |t.deliveries| + Total(inningNodes, InningDeliveryCount)
      && |r.powerplays| == |t.powerplays| + Total(inningNodes, PowerplayRowCount)
      && |r.targets| == |t.targets| + Total(inningNodes, TargetRowCount)
    decreases |inningNodes|
  {
    if inningNodes != [] {
      var prefix := inningNodes[..|inningNodes| - 1];
      InningsStepRows(t, matchId, prefix, codec);
      InningStepRows(InningsStep(t, matchId, prefix, codec), matchId, inningNodes[|inningNodes| - 1], codec);
    }
  }

  // ---------------------------------------------------------------- teams and players

  /** A roster appends one Player per name, each with a MatchPlayer row linking it to the match. */
  lemma {:induction false} PlayersStepRows(t: Tables, matchId: nat, roster: seq<Json>)
    ensures var r := PlayersStep(t, matchId, roster);
      && r.(players := t.players, matchPlayers := t.matchPlayers) == t
      && t.players <= r.players && t.matchPlayers <= r.matchPlayers
      && |r.players| == |t.players| + |roster|
      && |r.matchPlayers| == |t.matchPlayers| + |roster|
      && (forall k | 0 <= k < |roster| ::
            && r.players[|t.players| + k] == Player(|t.players| + k, AsText(roster[k]), 0)
            && r.matchPlayers[|t.matchPlayers| + k] == MatchPlayer(matchId, |t.players| + k))
    decreases |roster|
  {
    if roster != [] {
      var prefix := roster[..|roster| - 1];
      PlayersStepRows(t, matchId, prefix);
      var r1 := PlayersStep(t, matchId, prefix);
      var r := PlayersStep(t, matchId, roster);
      forall k | 0 <= k < |roster|
        ensures r.players[|t.players| + k] == Player(|t.players| + k, AsText(roster[k]), 0)
        ensures r.matchPlayers[|t.matchPlayers| + k] == MatchPlayer(matchId, |t.players| + k)
      {
        if k < |prefix| {
          assert r.players[|t.players| + k] == r1.players[|t.players| + k];
          assert r.matchPlayers[|t.matchPlayers| + k] == r1.matchPlayers[|t.matchPlayers| + k];
          assert prefix[k] == roster[k];
        }
      }
    }
  }

  /** The teams entries only touch the Team, Player and MatchPlayer tables, which only grow. */
  lemma {:induction false} TeamsStepShape(t: Tables, matchId: nat, info: Json, teamNodes: seq<Json>)
    ensures var r := TeamsStep(t, matchId, info, teamNodes);
      && OnlyRosterTablesChange(t, r) && Grows(t, r)
      && |r.teams| == |t.teams| + |teamNodes|
      && |r.players| == |t.players| + RosterTotal(info, teamNodes)
      && |r.matchPlayers| - |t.matchPlayers| == |r.players| - |t.players|
    decreases |teamNodes|
  {
    if teamNodes != [] {
      var prefix := teamNodes[..|teamNodes| - 1];
      var last := teamNodes[|teamNodes| - 1];
      TeamsStepShape(t, matchId, info, prefix);
      var r1 := TeamsStep(t, matchId, info, prefix);
      var r2 := r1.(teams := r1.teams + [Team(|r1.teams|, AsText(last))]);
      PlayersStepRows(r2, matchId, RosterOf(info, AsText(last)));
      var r := PlayersStep(r2, matchId, RosterOf(info, AsText(last)));
      assert r == TeamsStep(t, matchId, info, teamNodes);
      assert Grows(r1, r);
      GrowsTransitive(t, r1, r);
    }
  }

  /** The teams entries: one Team row per name, in order. */
  lemma {:induction false} TeamsStepTeamRows(t: Tables, matchId: nat, info: Json, teamNodes: seq<Json>)
    ensures TeamRowsAppended(TeamsStep(t, matchId, info, teamNodes).teams, |t.teams|, teamNodes)
    decreases |teamNodes|
  {
    if teamNodes != [] {
      var prefix := teamNodes[..|teamNodes| - 1];
      var last := teamNodes[|teamNodes| - 1];
      TeamsStepTeamRows(t, matchId, info, prefix);
      var r1 := TeamsStep(t, matchId, info, prefix);
      var r2 := r1.(teams := r1.teams + [Team(|r1.teams|, AsText(last))]);
      var roster := RosterOf(info, AsText(last));
      PlayersStepRows(r2, matchId, roster);
      var r := PlayersStep(r2, matchId, roster);
      assert r == TeamsStep(t, matchId, info, teamNodes);
      assert r.teams == r2.teams;
      assert |r.teams| == |t.teams| + |teamNodes|;
      forall j | |t.teams| <= j < |r.teams| ensures r.teams[j] == Team(j, AsText(teamNodes[j - |t.teams|])) {
        if j < |r1.teams| {
          assert r.teams[j] == r1.teams[j];
          assert prefix[j - |t.teams|] == teamNodes[j - |t.teams|];
        }
      }
    }
  }

  /**
   * The Team table grew by one row per teams entry, in order: the row after
   * `base` + k has id `base` + k and the k-th entry's text as its name.
   */
  predicate TeamRowsAppended(teams: seq<Team>, base: nat, teamNodes: seq<Json>)
  {
    && |teams| == base + |teamNodes|
    && forall j | base <= j < |teams| :: teams[j] == Team(j, AsText(teamNodes[j - base]))
  }

  /** One teams entry: its roster's Player rows have consecutive ids, each linked to the match. */
  lemma TeamStepRosterRows(r1: Tables, matchId: nat, info: Json, teamNode: Json)
    ensures var r := TeamStep(r1, matchId, info, teamNode);
      && r1.players <= r.players && r1.matchPlayers <= r.matchPlayers
      && |r.players| - |r1.players| == |r.matchPlayers| - |r1.matchPlayers|
      && (forall j | |r1.matchPlayers| <= j < |r.matchPlayers| ::
            r.matchPlayers[j] == MatchPlayer(matchId, j - |r1.matchPlayers| + |r1.players|))
  {
    var name := AsText(teamNode);
    var r2 := r1.(teams := r1.teams + [Team(|r1.teams|, name)]);
    var roster := RosterOf(info, name);
    PlayersStepRows(r2, matchId, roster);
    var r := PlayersStep(r2, matchId, roster);
    assert r == TeamStep(r1, matchId, info, teamNode);
    forall j | |r1.matchPlayers| <= j < |r.matchPlayers|
      ensures r.matchPlayers[j] == MatchPlayer(matchId, j - |r1.matchPlayers| + |r1.players|)
    {
      var k := j - |r2.matchPlayers|;
      var entry := roster[k];
    }
  }


  /**
   * The rosters: the k-th new MatchPlayer row links the k-th new player to
   * the match.
   */
  lemma {:induction false} TeamsStepPlayerRows(t: Tables, matchId: nat, info: Json, teamNodes: seq<Json>)
    ensures var r := TeamsStep(t, matchId, info, teamNodes);
      && t.players <= r.players && t.matchPlayers <= r.matchPlayers
      && |r.players| - |t.players| == |r.matchPlayers| - |t.matchPlayers|
      && (forall j | |t.matchPlayers| <= j < |r.matchPlayers| ::
            r.matchPlayers[j] == MatchPlayer(matchId, j - |t.matchPlayers| + |t.players|))
    decreases |teamNodes|
  {
    if teamNodes != [] {
      var prefix := teamNodes[..|teamNodes| - 1];
      TeamsStepPlayerRows(t, matchId, info, prefix);
      var r1 := TeamsStep(t, matchId, info, prefix);
      TeamStepRosterRows(r1, matchId, info, teamNodes[|teamNodes| - 1]);
      var r := TeamsStep(t, matchId, info, teamNodes);
      forall j | |t.matchPlayers| <= j < |r.matchPlayers|
        ensures r.matchPlayers[j] == MatchPlayer(matchId, j - |t.matchPlayers| + |t.players|)
      {
        if j < |r1.matchPlayers| {
          assert r.matchPlayers[j] == r1.matchPlayers[j];
        }
      }
    }
  }

  // ---------------------------------------------------------------- integrity

  /** The rows appended from a onwards have their ids as positions and name existing rows of b. */
  ghost predicate NewRowsLinked(a: Tables, b: Tables)
  {
    && (forall i | |a.matches| <= i < |b.matches| :: b.matches[i].id == i)
    && (forall i | |a.teams| <= i < |b.teams| :: b.teams[i].id == i)
    && (forall i | |a.players| <= i < |b.players| :: b.players[i].id == i)
    && (forall i | |a.innings| <= i < |b.innings| :: b.innings[i].id == i)
    && (forall i | |a.overs| <= i < |b.overs| :: b.overs[i].id == i)
    && (forall i | |a.matchPlayers| <= i < |b.matchPlayers| ::
          b.matchPlayers[i].matchId < |b.matches| && b.matchPlayers[i].playerId < |b.players|)
    && (forall i | |a.matchTeams| <= i < |b.matchTeams| ::
          b.matchTeams[i].matchId < |b.matches| && b.matchTeams[i].teamId < |b.teams|)
    && (forall i | |a.innings| <= i < |b.innings| ::
          b.innings[i].matchId < |b.matches| && (b.innings[i].teamId.Some? ==> b.innings[i].teamId.value < |b.teams|))
    && (forall i | |a.overs| <= i < |b.overs| :: b.overs[i].inningId < |b.innings|)
    && (forall i | |a.deliveries| <= i < |b.deliveries| :: DeliveryLinked(b, b.deliveries[i]))
    && (forall i | |a.powerplays| <= i < |b.powerplays| :: b.powerplays[i].inningId < |b.innings|)
    && (forall i | |a.targets| <= i < |b.targets| :: b.targets[i].inningId < |b.innings|)
  }

  /** Appending rows that are linked keeps a valid store valid. */
  lemma ExtensionValid(a: Tables, b: Tables)
    requires Valid(a) && Grows(a, b) && NewRowsLinked(a, b)
    ensures Valid(b)
  {
    ExtensionIdsArePositions(a, b);
    forall x | x in b.matchPlayers ensures x.matchId < |b.matches| && x.playerId < |b.players| {
      var i :| 0 <= i < |b.matchPlayers| && b.matchPlayers[i] == x;
      if i < |a.matchPlayers| { assert x in a.matchPlayers; }
    }
    forall x | x in b.matchTeams ensures x.matchId < |b.matches| && x.teamId < |b.teams| {
      var i :| 0 <= i < |b.matchTeams| && b.matchTeams[i] == x;
      if i < |a.matchTeams| { assert x in a.matchTeams; }
    }
    forall x | x in b.innings ensures x.matchId < |b.matches| && (x.teamId.Some? ==> x.teamId.value < |b.teams|) {
      var i :| 0 <= i < |b.innings| && b.innings[i] == x;
      if i < |a.innings| { assert x in a.innings; }
    }
    forall x | x in b.overs ensures x.inningId < |b.innings| {
      var i :| 0 <= i < |b.overs| && b.overs[i] == x;
      if i < |a.overs| { assert x in a.overs; }
    }
    ExtensionDeliveriesLinked(a, b);
    forall x | x in b.powerplays ensures x.inningId < |b.innings| {
      var i :| 0 <= i < |b.powerplays| && b.powerplays[i] == x;
      if i < |a.powerplays| { assert x in a.powerplays; }
    }
    forall x | x in b.targets ensures x.inningId < |b.innings| {
      var i :| 0 <= i < |b.targets| && b.targets[i] == x;
      if i < |a.targets| { assert x in a.targets; }
    }
  }

  lemma ExtensionIdsArePositions(a: Tables, b: Tables)
    requires IdsArePositions(a) && Grows(a, b) && NewRowsLinked(a, b)
    ensures IdsArePositions(b)
  {
    forall i | 0 <= i < |a.matches| ensures b.matches[i].id == i { assert b.matches[i] == a.matches[i]; }
    forall i | 0 <= i < |a.teams| ensures b.teams[i].id == i { assert b.teams[i] == a.teams[i]; }
    forall i | 0 <= i < |a.players| ensures b.players[i].id == i { assert b.players[i] == a.players[i]; }
    forall i | 0 <= i < |a.innings| ensures b.innings[i].id == i { assert b.innings[i] == a.innings[i]; }
    forall i | 0 <= i < |a.overs| ensures b.overs[i].id == i { assert b.overs[i] == a.overs[i]; }
  }

  lemma ExtensionDeliveriesLinked(a: Tables, b: Tables)
    requires LinksExist(a) && Grows(a, b) && NewRowsLinked(a, b)
    ensures forall d | d in b.deliveries :: DeliveryLinked(b, d)
  {
    forall d | d in b.deliveries ensures DeliveryLinked(b, d) {
      var i :| 0 <= i < |b.deliveries| && b.deliveries[i] == d;
      if i < |a.deliveries| {
        assert d in a.deliveries;
        assert b.overs[d.overId] == a.overs[d.overId];
        assert b.innings[d.inningId] == a.innings[d.inningId];
      }
    }
  }

  /** Over, Delivery, Powerplay and Target rows appended for one existing inning keep the store valid. */
  lemma InningRowsValid(t: Tables, r: Tables, matchId: nat, inningId: nat)
    requires Valid(t)
    requires inningId < |t.innings| && t.innings[inningId].matchId == matchId
    requires OnlyInningTablesChange(t, r) && Grows(t, r) && r.innings == t.innings
    requires forall j | |t.overs| <= j < |r.overs| :: r.overs[j].inningId == inningId && r.overs[j].id == j
    requires forall j | |t.deliveries| <= j < |r.deliveries| ::
      && |t.overs| <= r.deliveries[j].overId < |r.overs|
      && r.deliveries[j].inningId == inningId && r.deliveries[j].matchId == matchId
    requires forall j | |t.powerplays| <= j < |r.powerplays| :: r.powerplays[j].inningId == inningId
    requires forall j | |t.targets| <= j < |r.targets| :: r.targets[j].inningId == inningId
    ensures Valid(r)
  {
    assert t.innings[inningId] in t.innings;
    forall j | |t.deliveries| <= j < |r.deliveries| ensures DeliveryLinked(r, r.deliveries[j]) {
      assert r.overs[r.deliveries[j].overId].inningId == inningId;
    }
    ExtensionValid(t, r);
  }

  lemma OversStepValid(t: Tables, matchId: nat, inningId: nat, inningNode: Json, overNodes: seq<Json>, codec: Codec)
    requires Valid(t)
    requires overNodes != [] ==> inningId < |t.innings| && t.innings[inningId].matchId == matchId
    ensures Valid(OversStep(t, matchId, inningId, inningNode, overNodes, codec))
  {
    if overNodes != [] {
      OversStepShape(t, matchId, inningId, inningNode, overNodes, codec);
      OversStepLinks(t, matchId, inningId, inningNode, overNodes, codec);
      InningRowsValid(t, OversStep(t, matchId, inningId, inningNode, overNodes, codec), matchId, inningId);
    }
  }

  lemma InningStepValid(t: Tables, matchId: nat, inningNode: Json, codec: Codec)
    requires Valid(t) && matchId < |t.matches|
    ensures Valid(InningStep(t, matchId, inningNode, codec))
  {
    var teamId := ResolvedTeam(t.teams, AsText(Path(inningNode, "team")));
    if teamId.Some? {
      assert TeamsNamed(t.teams, AsText(Path(inningNode, "team")))[0] in t.teams;
    }
    var t1 := if InningPersisted(t.teams, inningNode)
              then t.(innings := t.innings + [InningRow(|t.innings|, matchId, teamId, inningNode)])
              else t;
    if InningPersisted(t.teams, inningNode) {
      ExtensionValid(t, t1);
    }
    OversStepValid(t1, matchId, |t.innings|, inningNode, OverNodes(inningNode), codec);
  }

  lemma {:induction false} InningsStepValid(t: Tables, matchId: nat, inningNodes: seq<Json>, codec: Codec)
    requires Valid(t) && matchId < |t.matches|
    ensures Valid(InningsStep(t, matchId, inningNodes, codec))
    decreases |inningNodes|
  {
    if inningNodes != [] {
      var prefix := inningNodes[..|inningNodes| - 1];
      InningsStepValid(t, matchId, prefix, codec);
      InningsStepRows(t, matchId, prefix, codec);
      InningStepValid(InningsStep(t, matchId, prefix, codec), matchId, inningNodes[|inningNodes| - 1], codec);
    }
  }

  lemma {:induction false} PlayersStepValid(t: Tables, matchId: nat, roster: seq<Json>)
    requires Valid(t) && matchId < |t.matches|
    ensures Valid(PlayersStep(t, matchId, roster))
    decreases |roster|
  {
    if roster != [] {
      var prefix := roster[..|roster| - 1];
      PlayersStepValid(t, matchId, prefix);
      PlayersStepRows(t, matchId, prefix);
      var r1 := PlayersStep(t, matchId, prefix);
      var r := PlayersStep(t, matchId, roster);
      forall d | d in r.deliveries ensures DeliveryLinked(r, d) {
        assert DeliveryLinked(r1, d);
      }
    }
  }

  lemma {:induction false} TeamsStepValid(t: Tables, matchId: nat, info: Json, teamNodes: seq<Json>)
    requires Valid(t) && matchId < |t.matches|
    ensures Valid(TeamsStep(t, matchId, info, teamNodes))
    decreases |teamNodes|
  {
    if teamNodes != [] {
      var prefix := teamNodes[..|teamNodes| - 1];
      TeamsStepValid(t, matchId, info, prefix);
      TeamsStepShape(t, matchId, info, prefix);
      var r1 := TeamsStep(t, matchId, info, prefix);
      var r2 := r1.(teams := r1.teams + [Team(|r1.teams|, AsText(teamNodes[|teamNodes| - 1]))]);
      assert Valid(r2) by {
        forall d | d in r2.deliveries ensures DeliveryLinked(r2, d) {
          assert DeliveryLinked(r1, d);
        }
      }
      PlayersStepValid(r2, matchId, RosterOf(info, AsText(teamNodes[|teamNodes| - 1])));
    }
  }

  // ---------------------------------------------------------------- the whole document

  /**
   * One document writes exactly one Match row (with the date and created fallbacks
   * of MatchOf) and no MatchTeam row (the caller adds those); every table only grows.
   */
  lemma IngestMatchRow(t: Tables, root: Json, codec: Codec)
    ensures var r := Ingest(t, root, codec);
      && Grows(t, r)
      && r.matchTeams == t.matchTeams
      && r.matches == t.matches + [MatchOf(|t.matches|, Info(root), codec)]
  {
    var matchId := |t.matches|;
    var t1 := t.(matches := t.matches + [MatchOf(matchId, Info(root), codec)]);
    TeamsStepShape(t1, matchId, Info(root), TeamNodes(root));
    var t2 := TeamsStep(t1, matchId, Info(root), TeamNodes(root));
    InningsStepRows(t2, matchId, InningNodes(root), codec);
    assert Grows(t, t1);
    GrowsTransitive(t, t1, t2);
    GrowsTransitive(t, t2, InningsStep(t2, matchId, InningNodes(root), codec));
  }

  /** The roster tables of a document are those its teams entries write. */
  lemma IngestRosterTables(t: Tables, root: Json, codec: Codec)
    ensures var t1 := t.(matches := t.matches + [MatchOf(|t.matches|, Info(root), codec)]);
      var t2 := TeamsStep(t1, |t.matches|, Info(root), TeamNodes(root));
      var r := Ingest(t, root, codec);
      r.teams == t2.teams && r.players == t2.players && r.matchPlayers == t2.matchPlayers
  {
    var matchId := |t.matches|;
    var t1 := t.(matches := t.matches + [MatchOf(matchId, Info(root), codec)]);
    var t2 := TeamsStep(t1, matchId, Info(root), TeamNodes(root));
    InningsStepRows(t2, matchId, InningNodes(root), codec);
  }

  /** One document writes one Team row per teams entry, in order. */
  lemma IngestTeams(t: Tables, root: Json, codec: Codec)
    ensures TeamRowsAppended(Ingest(t, root, codec).teams, |t.teams|, TeamNodes(root))
  {
    var t1 := t.(matches := t.matches + [MatchOf(|t.matches|, Info(root), codec)]);
    TeamsStepTeamRows(t1, |t.matches|, Info(root), TeamNodes(root));
    IngestRosterTables(t, root, codec);
  }

  /**
   * One document writes one Player and one MatchPlayer row per roster entry,
   * linking each new player to the new match.
   */
  lemma IngestPlayers(t: Tables, root: Json, codec: Codec)
    ensures var r := Ingest(t, root, codec);
      && |r.players| == |t.players| + RosterTotal(Info(root), TeamNodes(root))
      && |r.matchPlayers| - |t.matchPlayers| == |r.players| - |t.players|
      && (forall j | |t.matchPlayers| <= j < |r.matchPlayers| ::
            r.matchPlayers[j] == MatchPlayer(|t.matches|, j - |t.matchPlayers| + |t.players|))
  {
    var t1 := t.(matches := t.matches + [MatchOf(|t.matches|, Info(root), codec)]);
    TeamsStepShape(t1, |t.matches|, Info(root), TeamNodes(root));
    TeamsStepPlayerRows(t1, |t.matches|, Info(root), TeamNodes(root));
    IngestRosterTables(t, root, codec);
  }

  /**
   * Row counts of one document: an Over row for every over entry of every inning,
   * whether or not the inning resolved its team; powerplays and targets once per
   * over of their inning, so none for an inning without overs.
   */
  lemma IngestCounts(t: Tables, root: Json, codec: Codec)
    ensures var r := Ingest(t, root, codec);
      && |r.overs| == |t.overs| + Total(InningNodes(root), OverCount)
      && |r.deliveries| == |t.deliveries| + Total(InningNodes(root), InningDeliveryCount)
      && |r.powerplays| == |t.powerplays| + Total(InningNodes(root), PowerplayRowCount)
      && |r.targets| == |t.targets| + Total(InningNodes(root), TargetRowCount)
  {
    var matchId := |t.matches|;
    var t1 := t.(matches := t.matches + [MatchOf(matchId, Info(root), codec)]);
    TeamsStepShape(t1, matchId, Info(root), TeamNodes(root));
    var t2 := TeamsStep(t1, matchId, Info(root), TeamNodes(root));
    InningsStepRows(t2, matchId, InningNodes(root), codec);
  }

  /** Ingesting a document keeps the store's referential integrity. */
  lemma IngestValid(t: Tables, root: Json, codec: Codec)
    requires Valid(t)
    ensures Valid(Ingest(t, root, codec))
  {
    var matchId := |t.matches|;
    var t1 := t.(matches := t.matches + [MatchOf(matchId, Info(root), codec)]);
    assert Valid(t1) by {
      forall d | d in t1.deliveries ensures DeliveryLinked(t1, d) {
        assert DeliveryLinked(t, d);
      }
    }
    TeamsStepValid(t1, matchId, Info(root), TeamNodes(root));
    TeamsStepShape(t1, matchId, Info(root), TeamNodes(root));
    InningsStepValid(TeamsStep(t1, matchId, Info(root), TeamNodes(root)), matchId, InningNodes(root), codec);
  }

  // ---------------------------------------------------------------- one more entry

  // Each walk function applied to one more entry is the step applied to the
  // result for the entries before it: what each loop iteration of the walk adds.

  lemma PlayersStepAppend(t: Tables, matchId: nat, roster: seq<Json>, k: nat)
    requires k < |roster|
    ensures PlayersStep(t, matchId, roster[..k + 1])
         == var t1 := PlayersStep(t, matchId, roster[..k]);
            t1.(players := t1.players + [Player(|t1.players|, AsText(roster[k]), 0)],
                matchPlayers := t1.matchPlayers + [MatchPlayer(matchId, |t1.players|)])
  {
    assert roster[..k + 1][..k] == roster[..k];
  }

  lemma TeamsStepAppend(t: Tables, matchId: nat, info: Json, teamNodes: seq<Json>, i: nat)
    requires i < |teamNodes|
    ensures TeamsStep(t, matchId, info, teamNodes[..i + 1])
         == TeamStep(TeamsStep(t, matchId, info, teamNodes[..i]), matchId, info, teamNodes[i])
  {
    assert teamNodes[..i + 1][..i] == teamNodes[..i];
  }

  lemma DeliveriesOfAppend(overId: nat, inningId: nat, matchId: nat, nodes: seq<Json>, i: nat, codec: Codec)
    requires i < |nodes|
    ensures DeliveriesOf(overId, inningId, matchId, nodes[..i + 1], codec)
         == DeliveriesOf(overId, inningId, matchId, nodes[..i], codec) + [DeliveryOf(overId, inningId, matchId, nodes[i], codec)]
  {
    assert nodes[..i + 1][..i] == nodes[..i];
  }

  lemma PowerplaysOfAppend(inningId: nat, nodes: seq<Json>, i: nat)
    requires i < |nodes|
    ensures PowerplaysOf(inningId, nodes[..i + 1]) == PowerplaysOf(inningId, nodes[..i]) + [PowerplayOf(inningId, nodes[i])]
  {
    assert nodes[..i + 1][..i] == nodes[..i];
  }

  lemma OversStepAppend(t: Tables, matchId: nat, inningId: nat, inningNode: Json, overNodes: seq<Json>, j: nat, codec: Codec)
    requires j < |overNodes|
    ensures OversStep(t, matchId, inningId, inningNode, overNodes[..j + 1], codec)
         == OverStep(OversStep(t, matchId, inningId, inningNode, overNodes[..j], codec), matchId, inningId, inningNode, overNodes[j], codec)
  {
    assert overNodes[..j + 1][..j] == overNodes[..j];
  }

  lemma InningsStepAppend(t: Tables, matchId: nat, inningNodes: seq<Json>, i: nat, codec: Codec)
    requires i < |inningNodes|
    ensures InningsStep(t, matchId, inningNodes[..i + 1], codec)
         == InningStep(InningsStep(t, matchId, inningNodes[..i], codec), matchId, inningNodes[i], codec)
  {
    assert inningNodes[..i + 1][..i] == inningNodes[..i];
  }

  lemma TerminatedAppend(items: seq<string>, sep: string, i: nat)
    requires i < |items|
    ensures Terminated(items[..i + 1], sep) == Terminated(items[..i], sep) + items[i] + sep
  {
    assert items[..i + 1][..i] == items[..i];
  }

  // ---------------------------------------------------------------- MatchTeam rows

  /** The MatchTeam rows the walk adds between teams and innings keep the store's integrity. */
  lemma AddedMatchTeamsValid(t: Tables, mt: seq<MatchTeam>, matchId: nat, teams: set<Team>)
    requires Valid(t)
    requires MatchTeamsAdded(t.matchTeams, mt, matchId, teams)
    requires matchId < |t.matches|
    requires forall team | team in teams :: team.id < |t.teams|
    ensures Valid(t.(matchTeams := mt))
  {
    var r := t.(matchTeams := mt);
    forall x | x in mt ensures x.matchId < |r.matches| && x.teamId < |r.teams| {
      var k :| 0 <= k < |mt| && mt[k] == x;
      if k < |t.matchTeams| {
        assert x == mt[..|t.matchTeams|][k];
      } else {
        assert x in mt[|t.matchTeams|..];
      }
    }
    forall d | d in r.deliveries ensures DeliveryLinked(r, d) {
      assert DeliveryLinked(t, d);
    }
  }

  /**
   * A document ingested into a valid store, followed by its MatchTeam rows (one
   * per Team row the document added), leaves the store valid.
   */
  lemma IngestWithMatchTeamsValid(t: Tables, root: Json, codec: Codec, mt: seq<MatchTeam>, teams: set<Team>)
    requires Valid(t)
    requires MatchTeamsAdded(t.matchTeams, mt, |t.matches|, teams)
    requires teams == RowsFrom(Ingest(t, root, codec).teams, |t.teams|)
    ensures Valid(Ingest(t, root, codec).(matchTeams := mt))
  {
    var r := Ingest(t, root, codec);
    IngestValid(t, root, codec);
    IngestMatchRow(t, root, codec);
    forall team | team in teams ensures team.id < |r.teams| {
      var k :| |t.teams| <= k < |r.teams| && r.teams[k] == team;
    }
    AddedMatchTeamsValid(r, mt, |t.matches|, teams);
  }

  /** The innings entries neither read nor write the MatchTeam table. */
  lemma OverStepIgnoresMatchTeams(t: Tables, mt: seq<MatchTeam>, matchId: nat, inningId: nat, inningNode: Json, overNode: Json, codec: Codec)
    ensures OverStep(t.(matchTeams := mt), matchId, inningId, inningNode, overNode, codec)
         == OverStep(t, matchId, inningId, inningNode, overNode, codec).(matchTeams := mt)
  {
  }

  lemma {:induction false} OversStepIgnoresMatchTeams(t: Tables, mt: seq<MatchTeam>, matchId: nat, inningId: nat, inningNode: Json, overNodes: seq<Json>, codec: Codec)
    ensures OversStep(t.(matchTeams := mt), matchId, inningId, inningNode, overNodes, codec)
         == OversStep(t, matchId, inningId, inningNode, overNodes, codec).(matchTeams := mt)
    decreases |overNodes|
  {
    if overNodes != [] {
      var prefix := overNodes[..|overNodes| - 1];
      OversStepIgnoresMatchTeams(t, mt, matchId, inningId, inningNode, prefix, codec);
      OverStepIgnoresMatchTeams(OversStep(t, matchId, inningId, inningNode, prefix, codec), mt,
                                matchId, inningId, inningNode, overNodes[|overNodes| - 1], codec);
    }
  }

  lemma InningStepIgnoresMatchTeams(t: Tables, mt: seq<MatchTeam>, matchId: nat, inningNode: Json, codec: Codec)
    ensures InningStep(t.(matchTeams := mt), matchId, inningNode, codec)
         == InningStep(t, matchId, inningNode, codec).(matchTeams := mt)
  {
    var teamId := ResolvedTeam(t.teams, AsText(Path(inningNode, "team")));
    var t1 := if InningPersisted(t.teams, inningNode)
              then t.(innings := t.innings + [InningRow(|t.innings|, matchId, teamId, inningNode)])
              else t;
    OversStepIgnoresMatchTeams(t1, mt, matchId, |t.innings|, inningNode, OverNodes(inningNode), codec);
  }

  lemma {:induction false} InningsStepIgnoresMatchTeams(t: Tables, mt: seq<MatchTeam>, matchId: nat, inningNodes: seq<Json>, codec: Codec)
    ensures InningsStep(t.(matchTeams := mt), matchId, inningNodes, codec)
         == InningsStep(t, matchId, inningNodes, codec).(matchTeams := mt)
    decreases |inningNodes|
  {
    if inningNodes != [] {
      var prefix := inningNodes[..|inningNodes| - 1];
      InningsStepIgnoresMatchTeams(t, mt, matchId, prefix, codec);
      InningStepIgnoresMatchTeams(InningsStep(t, matchId, prefix, codec), mt, matchId, inningNodes[|inningNodes| - 1], codec);
    }
  }

  // ---------------------------------------------------------------- the extras text

  /** Appending "entry, " per entry and then cutting the last separator gives the joined entries. */
  lemma {:induction false} TerminatedIsJoinThenSep(items: seq<string>, sep: string)
    requires items != []
    ensures Terminated(items, sep) == Join(items, sep) + sep
    decreases |items|
  {
    var prefix, last := items[..|items| - 1], items[|items| - 1];
    if |items| == 1 {
      assert Terminated(prefix, sep) == "";
      assert "" + last + sep == last + sep;
    } else {
      TerminatedIsJoinThenSep(prefix, sep);
      var j := Join(prefix, sep);
      assert Terminated(items, sep) == (j + sep) + last + sep;
      assert (j + sep) + last + sep == (j + sep + last) + sep;
    }
  }

  /** The joined text begins with the first item. */
  lemma {:induction false} JoinStartsWithFirst(items: seq<string>, sep: string)
    requires items != []
    ensures items[0] <= Join(items, sep)
    decreases |items|
  {
    if |items| > 1 {
      var prefix := items[..|items| - 1];
      JoinStartsWithFirst(prefix, sep);
      assert items[0] == prefix[0];
    }
  }

  predicate IsLetter(c: char) { 'a' <= c <= 'z' || 'A' <= c <= 'Z' }

  /** The text begins with one of the JSON literals true, false and null. */
  predicate StartsWithLiteral(s: string)
  {
    "true" <= s || "false" <= s || "null" <= s
  }

  /**
   * A JSON validator in Jackson's default mode: a text that starts with a letter
   * and does not start with one of the literals true, false and null is not JSON.
   */
  ghost predicate RejectsBareWords(isValidJson: string -> bool)
  {
    forall s: string | s != "" && IsLetter(s[0]) && !StartsWithLiteral(s) :: !isValidJson(s)
  }

  /** A literal is all letters, so a text that starts "name:" starts with one only if the name does. */
  lemma NameThenColon(name: string, t: string)
    requires name + ":" <= t
    requires !StartsWithLiteral(name)
    ensures !StartsWithLiteral(t)
  {
    assert t[..|name|] == name && t[|name|] == ':' by {
      assert t[..|name| + 1] == name + ":";
    }
    NotPrefixThroughColon(name, t, "true");
    NotPrefixThroughColon(name, t, "false");
    NotPrefixThroughColon(name, t, "null");
  }

  lemma NotPrefixThroughColon(name: string, t: string, word: string)
    requires |name| < |t| && t[..|name|] == name && t[|name|] == ':'
    requires !(word <= name)
    requires forall i | 0 <= i < |word| :: IsLetter(word[i])
    ensures !(word <= t)
  {
    if |word| <= |name| {
      assert t[..|word|] == name[..|word|];
    } else {
      assert IsLetter(word[|name|]);
    }
  }

  /** The extras text of a non-empty object begins with "name:" for its first field. */
  lemma ExtrasTextStartsWithFirstName(extras: Json)
    requires extras.JObj? && extras.fields != []
    ensures extras.fields[0].name + ":" <= ExtrasText(extras)
  {
    var name := extras.fields[0].name;
    var entries := ExtrasEntries(extras);
    assert FieldNames(extras)[0] == name;
    assert entries[0] == name + ": " + IntToString(AsInt(Path(extras, name)));
    JoinStartsWithFirst(entries, ", ");
    PrefixOfPrefix(name + ":", entries[0], ExtrasText(extras));
  }

  lemma PrefixOfPrefix(a: string, b: string, c: string)
    requires |a| <= |b| && b[..|a|] == a && b <= c
    ensures a <= c
  {
    assert c[..|a|] == b[..|a|];
  }

  /**
   * The extras text is "name: value, ..." without braces or quotes. When the
   * first field name starts with a letter and not with true, false or null (as
   * wides, noballs, byes, legbyes and penalty do), the validator rejects the
   * text and setExtras stores "{}": the extras are not kept.
   */
  lemma ExtrasOfNamedFieldsAreDropped(extras: Json, isValidJson: string -> bool)
    requires RejectsBareWords(isValidJson)
    requires extras.JObj? && extras.fields != []
    requires extras.fields[0].name != "" && IsLetter(extras.fields[0].name[0])
    requires !StartsWithLiteral(extras.fields[0].name)
    ensures StoredExtras(ExtrasText(extras), isValidJson) == "{}"
  {
    var name := extras.fields[0].name;
    var text := ExtrasText(extras);
    ExtrasTextStartsWithFirstName(extras);
    NameThenColon(name, text);
    assert text[0] == name[0];
    assert !isValidJson(text);
  }
}

/**
 * MatchService.saveMatchData: the walk over a parsed match document that appends
 * rows to the store, one loop per level of the document. Each method is proved
 * equal to the corresponding function of IngestSpec applied to the store it
 * started from; what the walk adds is then read off the lemmas of IngestLemmas.
 */
module MatchService {
  import opened Base
  import opened Text
  import opened JsonTree
  import opened Entities
  import opened Store
  import opened DeliveryEntity
  import opened IngestSpec
  import opened IngestLemmas

  /** How a call of saveMatchData ends: normally, with an IOException, or with any other exception. */
  datatype SaveOutcome = Saved | IoFailure(message: string) | Unexpected(message: string)

  /**
   * The extras StringBuilder: "{}" for a missing or empty node, otherwise
   * "name: value, " per field name with the last two characters cut.
   */
  method BuildExtras(extras: Json) returns (text: string)
    ensures text == ExtrasText(extras)
  {
    if IsMissing(extras) || IsEmpty(extras) {
      return "{}";
    }
    var names := FieldNames(extras);
    ghost var entries := ExtrasEntries(extras);
    var builder := "";
    for i := 0 to |names|
      invariant builder == Terminated(entries[..i], ", ")
    {
      var value := AsInt(Path(extras, names[i]));
      var entry := names[i] + ": " + IntToString(value);
      builder := builder + entry + ", ";
      TerminatedAppend(entries, ", ", i);
    }
    assert entries[..|names|] == entries;
    if |builder| > 0 {
      if entries != [] {
        TerminatedIsJoinThenSep(entries, ", ");
      }
      builder := builder[..|builder| - 2];
    }
    text := builder;
  }

  /**
   * The Delivery entity of one delivery entry: linked to its over, inning and
   * match, the three null checks (which never fire), the copied names and runs,
   * and setExtras with the extras text.
   */
  method NewDeliveryEntity(overId: nat, inningId: nat, matchId: nat, batter: string, bowler: string, nonStriker: string,
                           runsBatter: int, runsExtras: int, totalRuns: int, extrasText: string, isValidJson: string -> bool)
    returns (delivery: Delivery)
    ensures fresh(delivery) && delivery.Linked()
    ensures delivery.Record()
         == DeliveryRecord(overId, inningId, matchId, batter, bowler, nonStriker, runsBatter, runsExtras, totalRuns,
                           StoredExtras(extrasText, isValidJson))
  {
    delivery := new Delivery();
    delivery.over := Some(overId);
    delivery.inning := Some(inningId);
    delivery.matchRef := Some(matchId);
    if delivery.matchRef.None? {
      assert false;
    }
    if delivery.inning.None? {
      assert false;
    }
    if delivery.over.None? {
      assert false;
    }
    delivery.batter := batter;
    delivery.bowler := bowler;
    delivery.nonStriker := nonStriker;
    delivery.runsBatter := runsBatter;
    delivery.runsExtras := runsExtras;
    delivery.totalRuns := totalRuns;
    delivery.SetExtras(extrasText, isValidJson);
  }

  /** One delivery entry: its fields read from the entry, then deliveryRepository.save. */
  method SaveDeliveryEntry(store: Store, overId: nat, inningId: nat, matchId: nat, node: Json, codec: Codec)
    modifies store`deliveries
    ensures store.deliveries == old(store.deliveries) + [DeliveryOf(overId, inningId, matchId, node, codec)]
  {
    var runs := Path(node, "runs");
    var extrasText := BuildExtras(Path(node, "extras"));
    var delivery := NewDeliveryEntity(overId, inningId, matchId,
      AsText(Path(node, "batter")), AsText(Path(node, "bowler")), AsText(Path(node, "non_striker")),
      AsInt(Path(runs, "batter")), AsInt(Path(runs, "extras")), AsInt(Path(runs, "total")),
      extrasText, codec.isValidJson);
    store.SaveDelivery(delivery.Record());
  }

  /** The deliveries loop of one over. */
  method SaveDeliveryEntries(store: Store, overId: nat, inningId: nat, matchId: nat, nodes: seq<Json>, codec: Codec)
    modifies store`deliveries
    ensures store.deliveries == old(store.deliveries) + DeliveriesOf(overId, inningId, matchId, nodes, codec)
  {
    ghost var before := store.deliveries;
    for i := 0 to |nodes|
      invariant store.deliveries == before + DeliveriesOf(overId, inningId, matchId, nodes[..i], codec)
    {
      SaveDeliveryEntry(store, overId, inningId, matchId, nodes[i], codec);
      DeliveriesOfAppend(overId, inningId, matchId, nodes, i, codec);
    }
    assert nodes[..|nodes|] == nodes;
  }

  /** The powerplays loop, run once per over of the inning. */
  method SavePowerplayEntries(store: Store, inningId: nat, nodes: seq<Json>)
    modifies store`powerplays
    ensures store.powerplays == old(store.powerplays) + PowerplaysOf(inningId, nodes)
  {
    ghost var before := store.powerplays;
    for i := 0 to |nodes|
      invariant store.powerplays == before + PowerplaysOf(inningId, nodes[..i])
    {
      var node := nodes[i];
      store.SavePowerplay(Powerplay(inningId, AsInt(Path(node, "start_over")), AsInt(Path(node, "end_over"))));
      PowerplaysOfAppend(inningId, nodes, i);
    }
    assert nodes[..|nodes|] == nodes;
  }

  /**
   * One over entry: its Over row, its deliveries, and then every powerplay of the
   * inning and the inning's target, inside the over loop. Saving the over persists
   * its inning by cascade when the inning has not been saved (inningId is None):
   * the inning row is written first and gets the next inning id.
   */
  method SaveOverEntry(store: Store, matchId: nat, inning: Inning, inningId: Option<nat>, inningNode: Json, overNode: Json, codec: Codec)
    returns (savedId: nat)
    modifies store`innings, store`overs, store`deliveries, store`powerplays, store`targets
    ensures inningId.Some? ==> savedId == inningId.value
    ensures inningId.Some? ==> store.State() == OverStep(old(store.State()), matchId, savedId, inningNode, overNode, codec)
    ensures inningId.None? ==> savedId == |old(store.innings)|
    ensures inningId.None? ==>
      store.State() == OverStep(old(store.State()).(innings := old(store.innings) + [inning.(id := savedId)]),
                                matchId, savedId, inningNode, overNode, codec)
  {
    if inningId.None? {
      var saved := store.SaveInning(inning);
      savedId := saved.id;
    } else {
      savedId := inningId.value;
    }
    SaveOverRows(store, matchId, savedId, inningNode, overNode, codec);
  }

  /** The rows of one over entry once its inning has the id inningId. */
  method SaveOverRows(store: Store, matchId: nat, inningId: nat, inningNode: Json, overNode: Json, codec: Codec)
    modifies store`overs, store`deliveries, store`powerplays, store`targets
    ensures store.State() == OverStep(old(store.State()), matchId, inningId, inningNode, overNode, codec)
  {
    var overId := SaveOverRow(store, inningId, overNode);
    SaveDeliveryEntries(store, overId, inningId, matchId, DeliveryNodes(overNode), codec);
    SavePowerplayEntries(store, inningId, PowerplayNodes(inningNode));
    SaveTargetEntry(store, inningId, inningNode);
  }

  /** The Over row of an over entry, with the next over id. */
  method SaveOverRow(store: Store, inningId: nat, overNode: Json) returns (overId: nat)
    modifies store`overs
    ensures overId == |old(store.overs)|
    ensures store.overs == old(store.overs) + [Over(overId, inningId, AsInt(Path(overNode, "over")))]
  {
    var over := store.SaveOver(Over(0, inningId, AsInt(Path(overNode, "over"))));
    overId := over.id;
  }

  /** The inning's target, saved when the innings entry has one. */
  method SaveTargetEntry(store: Store, inningId: nat, inningNode: Json)
    modifies store`targets
    ensures Has(inningNode, "target") ==> store.targets == old(store.targets) + [TargetOf(inningId, inningNode)]
    ensures !Has(inningNode, "target") ==> store.targets == old(store.targets)
  {
    if Has(inningNode, "target") {
      var target := Path(inningNode, "target");
      store.SaveTarget(Target(inningId, AsInt(Path(target, "runs")), AsInt(Path(target, "overs"))));
    }
  }

  /**
   * The overs loop of one innings entry. inningId is None while the inning is
   * unsaved; the first over then saves it by cascade, with the next inning id.
   */
  method SaveOverEntries(store: Store, matchId: nat, inning: Inning, inningId: Option<nat>, inningNode: Json, overNodes: seq<Json>, codec: Codec)
    modifies store`innings, store`overs, store`deliveries, store`powerplays, store`targets
    ensures inningId.Some? ==>
      store.State() == OversStep(old(store.State()), matchId, inningId.value, inningNode, overNodes, codec)
    ensures inningId.None? && overNodes == [] ==> store.State() == old(store.State())
    ensures inningId.None? && overNodes != [] ==>
      store.State() == OversStep(old(store.State()).(innings := old(store.innings) + [inning.(id := |old(store.innings)|)]),
                                 matchId, |old(store.innings)|, inningNode, overNodes, codec)
  {
    ghost var t := store.State();
    ghost var id := if inningId.Some? then inningId.value else |t.innings|;
    ghost var base := if inningId.Some? then t else t.(innings := t.innings + [inning.(id := id)]);
    var current := inningId;
    for j := 0 to |overNodes|
      invariant current.Some? <==> inningId.Some? || j > 0
      invariant current.Some? ==> current.value == id
      invariant current.Some? ==> store.State() == OversStep(base, matchId, id, inningNode, overNodes[..j], codec)
      invariant current.None? ==> store.State() == t
    {
      var savedId := SaveOverEntry(store, matchId, inning, current, inningNode, overNodes[j], codec);
      OversStepAppend(base, matchId, id, inningNode, overNodes, j, codec);
      current := Some(savedId);
    }
    assert overNodes[..|overNodes|] == overNodes;
  }

  /**
   * One innings entry. The inning is saved when exactly one Team row has its team
   * name; otherwise it stays unsaved until its first over is saved, which persists
   * it by cascade with no team.
   */
  method SaveInningEntry(store: Store, matchId: nat, inningNode: Json, codec: Codec)
    modifies store`innings, store`overs, store`deliveries, store`powerplays, store`targets
    ensures store.State() == InningStep(old(store.State()), matchId, inningNode, codec)
  {
    ghost var t := store.State();
    var teamName := AsText(Path(inningNode, "team"));
    var teamList := TeamsNamed(store.teams, teamName);
    var teamId: Option<nat> := None;
    if |teamList| == 1 {
      teamId := Some(teamList[0].id);
    }
    assert teamId == ResolvedTeam(t.teams, teamName);
    var inning := InningRow(0, matchId, teamId, inningNode);
    var inningId: Option<nat> := None;
    if teamId.Some? {
      var saved := store.SaveInning(inning);
      inningId := Some(saved.id);
    }
    SaveOverEntries(store, matchId, inning, inningId, inningNode, OverNodes(inningNode), codec);
  }

  /** The players loop of one team: a Player row and a MatchPlayer row per roster name. */
  method SaveRoster(store: Store, matchId: nat, roster: seq<Json>)
    modifies store`players, store`matchPlayers
    ensures store.State() == PlayersStep(old(store.State()), matchId, roster)
  {
    ghost var t := store.State();
    for k := 0 to |roster|
      invariant store.State() == PlayersStep(t, matchId, roster[..k])
    {
      var player := store.SavePlayer(AsText(roster[k]));
      store.SaveMatchPlayer(MatchPlayer(matchId, player.id));
      PlayersStepAppend(t, matchId, roster, k);
    }
    assert roster[..|roster|] == roster;
  }

  /**
   * The teams entries: a Team row per name, added to the HashSet, then a Player
   * and a MatchPlayer row per name of that team's roster.
   */
  method SaveTeamsAndPlayers(store: Store, matchId: nat, info: Json) returns (teams: set<Team>)
    modifies store`teams, store`players, store`matchPlayers
    ensures store.State() == TeamsStep(old(store.State()), matchId, info, Elements(Path(info, "teams")))
    ensures teams == RowsFrom(store.teams, |old(store.teams)|)
  {
    ghost var t := store.State();
    var teamNodes := Elements(Path(info, "teams"));
    teams := {};
    for i := 0 to |teamNodes|
      invariant store.State() == TeamsStep(t, matchId, info, teamNodes[..i])
      invariant |store.teams| == |t.teams| + i
      invariant teams == RowsFrom(store.teams, |t.teams|)
    {
      var name := AsText(teamNodes[i]);
      ghost var before := store.State();
      var team := store.SaveTeam(name);
      teams := teams + {team};
      RowsFromAppend(before.teams, |t.teams|, team);
      SaveRoster(store, matchId, Elements(Path(Path(info, "players"), name)));
      TeamsStepAppend(t, matchId, info, teamNodes, i);
    }
    assert teamNodes[..|teamNodes|] == teamNodes;
  }

  /** One MatchTeam row per team of the HashSet, in the set's (unspecified) iteration order. */
  method SaveMatchTeams(store: Store, matchId: nat, teams: set<Team>)
    modifies store`matchTeams
    ensures MatchTeamsAdded(old(store.matchTeams), store.matchTeams, matchId, teams)
  {
    ghost var before := store.matchTeams;
    var rest := teams;
    while rest != {}
      invariant rest <= teams
      invariant |before| <= |store.matchTeams| && store.matchTeams[..|before|] == before
      invariant |store.matchTeams| - |before| == |teams| - |rest|
      invariant forall r | r in store.matchTeams[|before|..] :: r.matchId == matchId && r.teamId in TeamIds(teams)
      invariant forall team | team in teams - rest :: MatchTeam(matchId, team.id) in store.matchTeams[|before|..]
      decreases |rest|
    {
      var team :| team in rest;
      ghost var added := store.matchTeams[|before|..];
      store.SaveMatchTeam(MatchTeam(matchId, team.id));
      assert store.matchTeams[|before|..] == added + [MatchTeam(matchId, team.id)];
      rest := rest - {team};
    }
  }

  /** The innings loop. */
  method SaveInningEntries(store: Store, matchId: nat, inningNodes: seq<Json>, codec: Codec)
    modifies store`innings, store`overs, store`deliveries, store`powerplays, store`targets
    ensures store.State() == InningsStep(old(store.State()), matchId, inningNodes, codec)
  {
    ghost var t := store.State();
    for i := 0 to |inningNodes|
      invariant store.State() == InningsStep(t, matchId, inningNodes[..i], codec)
    {
      SaveInningEntry(store, matchId, inningNodes[i], codec);
      InningsStepAppend(t, matchId, inningNodes, i, codec);
    }
    assert inningNodes[..|inningNodes|] == inningNodes;
  }

  /**
   * saveMatchData: parse, then the Match row, teams and players, MatchTeam rows,
   * and innings. A document that does not parse fails before any write.
   */
  method SaveMatchData(store: Store, jsonContent: string, codec: Codec) returns (outcome: SaveOutcome)
    modifies store
    ensures !outcome.Unexpected?
    ensures codec.readTree(jsonContent).Failure? ==>
      outcome == IoFailure(codec.readTree(jsonContent).error) && store.State() == old(store.State())
    ensures codec.readTree(jsonContent).Success? ==>
      && outcome == Saved
      && store.State().(matchTeams := old(store.matchTeams))
         == Ingest(old(store.State()), codec.readTree(jsonContent).value, codec)
      && MatchTeamsAdded(old(store.matchTeams), store.matchTeams, |old(store.matches)|,
                         RowsFrom(store.teams, |old(store.teams)|))
    ensures Valid(old(store.State())) ==> Valid(store.State())
  {
    ghost var t := store.State();
    var parsed := codec.readTree(jsonContent);
    if parsed.Failure? {
      return IoFailure(parsed.error);
    }
    var root := parsed.value;
    var info := Path(root, "info");

    var saved := store.SaveMatch(MatchOf(0, info, codec));
    var matchId := saved.id;
    ghost var t1 := store.State();

    var teams := SaveTeamsAndPlayers(store, matchId, info);
    ghost var t2 := store.State();

    SaveMatchTeams(store, matchId, teams);
    ghost var mt := store.matchTeams;
    assert store.State() == t2.(matchTeams := mt);

    SaveInningEntries(store, matchId, Elements(Path(root, "innings")), codec);
    InningsStepIgnoresMatchTeams(t2, mt, matchId, InningNodes(root), codec);
    ghost var r := InningsStep(t2, matchId, InningNodes(root), codec);
    assert r == Ingest(t, root, codec);
    assert store.State() == r.(matchTeams := mt);
    IngestMatchRow(t, root, codec);
    IngestRosterTables(t, root, codec);
    assert store.teams == r.teams;
    if Valid(t) {
      IngestWithMatchTeamsValid(t, root, codec, mt, teams);
    }
    outcome := Saved;
  }
}

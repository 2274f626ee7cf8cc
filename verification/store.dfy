/**
 * The repositories as one in-memory store: each `save` appends a row to its
 * table and hands out the next identifier of that table.
 */
module Store {
  import opened Base
  import opened Entities

  /** teamRepository.findByName: every Team row, of any upload, with exactly that name. */
  function TeamsNamed(teams: seq<Team>, name: string): (r: seq<Team>)
    ensures forall x | x in r :: x in teams && x.name == name
    ensures forall x | x in teams && x.name == name :: x in r
    ensures |r| <= |teams|
  {
    if teams == [] then []
    else (if teams[0].name == name then [teams[0]] else []) + TeamsNamed(teams[1..], name)
  }

  class Store {
    var matches: seq<Match>
    var teams: seq<Team>
    var players: seq<Player>
    var matchPlayers: seq<MatchPlayer>
    var matchTeams: seq<MatchTeam>
    var innings: seq<Inning>
    var overs: seq<Over>
    var deliveries: seq<DeliveryRecord>
    var powerplays: seq<Powerplay>
    var targets: seq<Target>

    constructor ()
      ensures State() == EmptyTables
    {
      matches, teams, players, matchPlayers, matchTeams := [], [], [], [], [];
      innings, overs, deliveries, powerplays, targets := [], [], [], [], [];
    }

    /** The store's contents as a value. */
    function State(): Tables
      reads this
    {
      Tables(matches, teams, players, matchPlayers, matchTeams, innings, overs, deliveries, powerplays, targets)
    }

    method SaveMatch(m: Match) returns (saved: Match)
      modifies this`matches
      ensures saved == m.(id := |old(matches)|)
      ensures matches == old(matches) + [saved]
    {
      saved := m.(id := |matches|);
      matches := matches + [saved];
    }

    method SaveTeam(name: string) returns (saved: Team)
      modifies this`teams
      ensures saved == Team(|old(teams)|, name)
      ensures teams == old(teams) + [saved]
    {
      saved := Team(|teams|, name);
      teams := teams + [saved];
    }

    method SavePlayer(name: string) returns (saved: Player)
      modifies this`players
      ensures saved == Player(|old(players)|, name, 0)
      ensures players == old(players) + [saved]
    {
      saved := Player(|players|, name, 0);
      players := players + [saved];
    }

    method SaveMatchPlayer(row: MatchPlayer)
      modifies this`matchPlayers
      ensures matchPlayers == old(matchPlayers) + [row]
    {
      matchPlayers := matchPlayers + [row];
    }

    method SaveMatchTeam(row: MatchTeam)
      modifies this`matchTeams
      ensures matchTeams == old(matchTeams) + [row]
    {
      matchTeams := matchTeams + [row];
    }

    method SaveInning(i: Inning) returns (saved: Inning)
      modifies this`innings
      ensures saved == i.(id := |old(innings)|)
      ensures innings == old(innings) + [saved]
    {
      saved := i.(id := |innings|);
      innings := innings + [saved];
    }

    method SaveOver(o: Over) returns (saved: Over)
      modifies this`overs
      ensures saved == o.(id := |old(overs)|)
      ensures overs == old(overs) + [saved]
    {
      saved := o.(id := |overs|);
      overs := overs + [saved];
    }

    method SaveDelivery(d: DeliveryRecord)
      modifies this`deliveries
      ensures deliveries == old(deliveries) + [d]
    {
      deliveries := deliveries + [d];
    }

    method SavePowerplay(p: Powerplay)
      modifies this`powerplays
      ensures powerplays == old(powerplays) + [p]
    {
      powerplays := powerplays + [p];
    }

    method SaveTarget(x: Target)
      modifies this`targets
      ensures targets == old(targets) + [x]
    {
      targets := targets + [x];
    }
  }
}

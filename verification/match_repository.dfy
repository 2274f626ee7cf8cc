/**
 * The three JPQL queries of MatchRepository as functions of the tables.
 *
 * findMatchesByPlayerName is an inner join Match x MatchPlayer x Player with no
 * DISTINCT: a match is returned once for every (MatchPlayer, Player) pair that
 * links it to a player of that name. The order of a JPQL result without ORDER BY
 * is not specified; the model lists the stored matches in table order, and its
 * contracts speak of membership and multiplicity only.
 */
module MatchRepository {
  import opened Base
  import opened Entities

  // ---------------------------------------------------------------- findMatchesByPlayerName

  /** Player rows with this id and this name: the Player side of the join for one link. */
  function PlayerRowsNamed(players: seq<Player>, playerId: nat, name: string): (n: nat)
    ensures n > 0 <==> exists j :: 0 <= j < |players| && players[j].id == playerId && players[j].name == name
    ensures n <= |players|
    decreases |players|
  {
    if players == [] then 0
    else
      var last := players[|players| - 1];
      var n := PlayerRowsNamed(players[..|players| - 1], playerId, name);
      assert forall j | 0 <= j < |players| - 1 :: players[..|players| - 1][j] == players[j];
      n + (if last.id == playerId && last.name == name then 1 else 0)
  }

  /** The (MatchPlayer, Player) pairs that join the match with this id to a player of that name. */
  function JoinHits(links: seq<MatchPlayer>, players: seq<Player>, matchId: nat, name: string): (n: nat)
    ensures n > 0 <==> (exists k, j :: 0 <= k < |links| && 0 <= j < |players| &&
                         links[k].matchId == matchId && links[k].playerId == players[j].id && players[j].name == name)
    decreases |links|
  {
    if links == [] then 0
    else
      var last := links[|links| - 1];
      var n := JoinHits(links[..|links| - 1], players, matchId, name);
      assert forall k | 0 <= k < |links| - 1 :: links[..|links| - 1][k] == links[k];
      n + (if last.matchId == matchId then PlayerRowsNamed(players, last.playerId, name) else 0)
  }

  function Repeat(m: Match, n: nat): (r: seq<Match>)
    ensures |r| == n && forall k | 0 <= k < n :: r[k] == m
  {
    seq(n, _ => m)
  }

  /** The join restricted to the given Match rows. */
  function JoinedMatches(matches: seq<Match>, t: Tables, name: string): seq<Match>
    decreases |matches|
  {
    if matches == [] then []
    else
      var last := matches[|matches| - 1];
      JoinedMatches(matches[..|matches| - 1], t, name) + Repeat(last, JoinHits(t.matchPlayers, t.players, last.id, name))
  }

  /** SELECT m FROM Match m JOIN MatchPlayer mp ON m.id = mp.match.id JOIN Player p ON mp.player.id = p.id WHERE p.name = :playerName */
  function FindMatchesByPlayerName(t: Tables, playerName: string): (r: seq<Match>)
  {
    JoinedMatches(t.matches, t, playerName)
  }

  /**
   * No DISTINCT: each stored match occurs once per joining (MatchPlayer, Player)
   * pair, times the number of its own copies in the table.
   */
  lemma {:induction false} JoinedMatchesCount(matches: seq<Match>, t: Tables, name: string, m: Match)
    ensures multiset(JoinedMatches(matches, t, name))[m] == multiset(matches)[m] * JoinHits(t.matchPlayers, t.players, m.id, name)
    decreases |matches|
  {
    if matches != [] {
      var prefix, last := matches[..|matches| - 1], matches[|matches| - 1];
      JoinedMatchesCount(prefix, t, name, m);
      var hits := JoinHits(t.matchPlayers, t.players, last.id, name);
      RepeatCount(last, hits, m);
      assert multiset(JoinedMatches(matches, t, name))[m]
          == multiset(JoinedMatches(prefix, t, name))[m] + multiset(Repeat(last, hits))[m];
      assert matches == prefix + [last];
      var c := multiset(prefix)[m];
      var h := JoinHits(t.matchPlayers, t.players, m.id, name);
      if last == m {
        assert multiset(matches)[m] == c + 1;
        MulSucc(c, h);
      } else {
        assert multiset(matches)[m] == c;
      }
    }
  }

  lemma {:induction false} RepeatCount(x: Match, n: nat, m: Match)
    ensures multiset(Repeat(x, n))[m] == if x == m then n else 0
    decreases n
  {
    if n > 0 {
      RepeatCount(x, n - 1, m);
      assert Repeat(x, n) == Repeat(x, n - 1) + [x];
    }
  }

  /** findMatchesByPlayerName(n) holds m exactly as often as m's copies times its joining pairs. */
  lemma FindMatchesByPlayerNameCount(t: Tables, playerName: string, m: Match)
    ensures multiset(FindMatchesByPlayerName(t, playerName))[m]
         == multiset(t.matches)[m] * JoinHits(t.matchPlayers, t.players, m.id, playerName)
  {
    JoinedMatchesCount(t.matches, t, playerName, m);
  }

  /**
   * Every returned match is stored and is linked by a MatchPlayer row to a player
   * named exactly playerName; every such match is returned.
   */
  lemma FindMatchesByPlayerNameMembers(t: Tables, playerName: string, m: Match)
    ensures m in FindMatchesByPlayerName(t, playerName) <==>
      m in t.matches &&
      exists k, j :: 0 <= k < |t.matchPlayers| && 0 <= j < |t.players| &&
        t.matchPlayers[k].matchId == m.id && t.matchPlayers[k].playerId == t.players[j].id &&
        t.players[j].name == playerName
  {
    FindMatchesByPlayerNameCount(t, playerName, m);
    var r := FindMatchesByPlayerName(t, playerName);
    assert m in r <==> multiset(r)[m] > 0;
    assert m in t.matches <==> multiset(t.matches)[m] > 0;
  }

  /** A name no Player row carries finds nothing. */
  lemma UnknownPlayerFindsNoMatch(t: Tables, playerName: string)
    requires forall j | 0 <= j < |t.players| :: t.players[j].name != playerName
    ensures FindMatchesByPlayerName(t, playerName) == []
  {
    var r := FindMatchesByPlayerName(t, playerName);
    if r != [] {
      FindMatchesByPlayerNameMembers(t, playerName, r[0]);
      assert false;
    }
  }

  // ---------------------------------------------------------------- findMatchesByDate

  /** SELECT m FROM Match m WHERE m.date = :date, in table order. A null date never equals. */
  function FindMatchesByDate(t: Tables, date: Date): (r: seq<Match>)
  {
    MatchesOn(t.matches, date)
  }

  function MatchesOn(matches: seq<Match>, date: Date): (r: seq<Match>)
    ensures forall m :: multiset(r)[m] == if m.date == Some(date) then multiset(matches)[m] else 0
    ensures forall m | m in r :: m.date == Some(date)
    decreases |matches|
  {
    if matches == [] then []
    else
      var prefix, last := matches[..|matches| - 1], matches[|matches| - 1];
      assert matches == prefix + [last];
      MatchesOn(prefix, date) + (if last.date == Some(date) then [last] else [])
  }

  /** Exactly the stored matches of that date, each as often as it is stored; none without a date. */
  lemma FindMatchesByDateMembers(t: Tables, date: Date, m: Match)
    ensures m in FindMatchesByDate(t, date) <==> m in t.matches && m.date == Some(date)
    ensures m.date.None? ==> m !in FindMatchesByDate(t, date)
    ensures multiset(FindMatchesByDate(t, date))[m] == if m.date == Some(date) then multiset(t.matches)[m] else 0
  {
    var r := FindMatchesByDate(t, date);
    assert m in r <==> multiset(r)[m] > 0;
    assert m in t.matches <==> multiset(t.matches)[m] > 0;
  }

  // ---------------------------------------------------------------- findScoresByMatchId

  /** SELECT i.totalRuns FROM Inning i WHERE i.match.id = :matchId, in table order. */
  function FindScoresByMatchId(t: Tables, matchId: nat): (r: seq<int>)
  {
    ScoresOf(t.innings, matchId)
  }

  function ScoresOf(innings: seq<Inning>, matchId: nat): (r: seq<int>)
    ensures |r| <= |innings|
    ensures r == [] <==> forall i | 0 <= i < |innings| :: innings[i].matchId != matchId
    ensures forall x :: x in r <==> exists i :: 0 <= i < |innings| && innings[i].matchId == matchId && innings[i].totalRuns == x
    decreases |innings|
  {
    if innings == [] then []
    else
      var prefix, last := innings[..|innings| - 1], innings[|innings| - 1];
      var r := ScoresOf(prefix, matchId) + (if last.matchId == matchId then [last.totalRuns] else []);
      assert forall i | 0 <= i < |prefix| :: prefix[i] == innings[i];
      r
  }

  /** The scores of a match are the totalRuns of its innings, one per inning row, in table order. */
  lemma {:induction false} ScoresOfInnings(innings: seq<Inning>, matchId: nat)
    ensures ScoresOf(innings, matchId) == seq(|InningsOfMatch(innings, matchId)|, k requires 0 <= k < |InningsOfMatch(innings, matchId)| => InningsOfMatch(innings, matchId)[k].totalRuns)
    decreases |innings|
  {
    if innings != [] {
      ScoresOfInnings(innings[..|innings| - 1], matchId);
    }
  }

  /** The Inning rows of one match, in table order. */
  function InningsOfMatch(innings: seq<Inning>, matchId: nat): (r: seq<Inning>)
    ensures forall i | i in r :: i in innings && i.matchId == matchId
    decreases |innings|
  {
    if innings == [] then []
    else
      var last := innings[|innings| - 1];
      InningsOfMatch(innings[..|innings| - 1], matchId) + (if last.matchId == matchId then [last] else [])
  }
}

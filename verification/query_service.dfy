/**
 * QueryService: five cached queries in front of the repositories, and the two
 * eviction methods.
 *
 * The Spring caches are one map from (cache name, key) to the cached value. A
 * getter looks its key up first: a hit returns the stored value and does not
 * touch the repositories; a miss runs the query, stores the result under the
 * key and returns it. A ghost counter of repository queries makes "a hit does
 * not query the store" a postcondition. The store is only read here.
 */
module QueryService {
  import opened Base
  import opened Text
  import opened Entities
  import opened Store
  import opened MatchRepository
  import opened PlayerRepository

  // ---------------------------------------------------------------- cache entries

  /** The five @Cacheable names. */
  datatype CacheName = MatchesByPlayerName | CumulativeScoreByPlayerName | MatchesByDate | ScoresByDate | TopBatsmen

  /** A cache key: a String (player name, or the page key) or a LocalDate. */
  datatype Key = TextKey(text: string) | DateKey(date: Date)

  datatype CacheKey = CacheKey(cache: CacheName, key: Key)

  /** What a getter returns: List<Match>, Integer, Map<Long, List<Integer>> or Page<Player>. */
  datatype CacheValue =
    | Matches(matches: seq<Match>)
    | Score(score: int)
    | Scores(scores: map<nat, seq<int>>)
    | PlayerPage(page: Page)

  /** Each cache holds the key type and the value type of its getter. */
  predicate EntryTyped(k: CacheKey, v: CacheValue)
  {
    match k.cache
    case MatchesByPlayerName => k.key.TextKey? && v.Matches?
    case CumulativeScoreByPlayerName => k.key.TextKey? && v.Score?
    case MatchesByDate => k.key.DateKey? && v.Matches?
    case ScoresByDate => k.key.DateKey? && v.Scores?
    case TopBatsmen => k.key.TextKey? && v.PlayerPage?
  }

  /** The cached value is what the getter would compute from the tables now. */
  ghost predicate EntryHolds(k: CacheKey, v: CacheValue, t: Tables)
  {
    match k.cache
    case MatchesByPlayerName => k.key.TextKey? && v == Matches(FindMatchesByPlayerName(t, k.key.text))
    case CumulativeScoreByPlayerName => k.key.TextKey? && v == Score(CumulativeScore(t, k.key.text))
    case MatchesByDate => k.key.DateKey? && v == Matches(FindMatchesByDate(t, k.key.date))
    case ScoresByDate => k.key.DateKey? && v == Scores(ScoresOnDate(t, k.key.date))
    case TopBatsmen =>
      k.key.TextKey? &&
      exists pageNumber: nat, pageSize: nat | pageSize >= 1 && k.key.text == TopBatsmenKey(pageNumber, pageSize) ::
        v == PlayerPage(FindTopBatsmen(t.players, pageNumber, pageSize))
  }

  /** No cached value is stale with respect to the tables. */
  ghost predicate CoherentWith(cache: map<CacheKey, CacheValue>, t: Tables)
  {
    forall k | k in cache :: EntryHolds(k, cache[k], t)
  }

  // ---------------------------------------------------------------- the computations

  /** getCumulativeScoreByPlayerName on a miss: the found player's totalScore, else 0. */
  function CumulativeScore(t: Tables, playerName: string): (r: int)
    ensures (forall p | p in t.players :: p.name != playerName) ==> r == 0
    ensures (exists p | p in t.players :: p.name == playerName) ==>
              exists p | p in t.players :: p.name == playerName && p.totalScore == r
  {
    match FindByName(t.players, playerName)
    case Some(p) => p.totalScore
    case None => 0
  }

  /** When one Player row carries the name, the cumulative score is that player's totalScore. */
  lemma CumulativeScoreOfOnlyPlayer(t: Tables, p: Player)
    requires p in t.players
    requires forall q | q in t.players && q.name == p.name :: q == p
    ensures CumulativeScore(t, p.name) == p.totalScore
  {
  }

  /** The page key "pageNumber-pageSize". */
  function TopBatsmenKey(pageNumber: nat, pageSize: nat): (k: string)
  {
    NatToString(pageNumber) + "-" + NatToString(pageSize)
  }

  /** Two pageables share a topBatsmen entry exactly when their number and size agree. */
  lemma TopBatsmenKeyInjective(n1: nat, s1: nat, n2: nat, s2: nat)
    ensures TopBatsmenKey(n1, s1) == TopBatsmenKey(n2, s2) <==> n1 == n2 && s1 == s2
  {
    if TopBatsmenKey(n1, s1) == TopBatsmenKey(n2, s2) {
      SplitAtDash(NatToString(n1), NatToString(s1), NatToString(n2), NatToString(s2));
      ParseNatRoundTrip(n1);
      ParseNatRoundTrip(n2);
      ParseNatRoundTrip(s1);
      ParseNatRoundTrip(s2);
    }
  }

  /** The first '-' of a digits-dash-rest string is right after the digits. */
  lemma SplitAtDash(a1: string, b1: string, a2: string, b2: string)
    requires AllDigits(a1) && AllDigits(a2)
    requires a1 + "-" + b1 == a2 + "-" + b2
    ensures a1 == a2 && b1 == b2
  {
    var k := a1 + "-" + b1;
    FirstDash(a1, b1);
    FirstDash(a2, b2);
    assert |a1| == |a2|;
    assert a1 == k[..|a1|] && a2 == k[..|a2|];
    assert b1 == k[|a1| + 1..] && b2 == k[|a2| + 1..];
  }

  /** In digits + "-" + rest, the dash after the digits is the first one. */
  lemma FirstDash(a: string, b: string)
    requires AllDigits(a)
    ensures (a + "-" + b)[|a|] == '-'
    ensures forall i | 0 <= i < |a| :: (a + "-" + b)[i] != '-'
  {
    forall i | 0 <= i < |a| ensures (a + "-" + b)[i] != '-' {
      assert (a + "-" + b)[i] == a[i] && IsDigit(a[i]);
    }
  }

  /** In a coherent cache, the entry under a page's key is that page. */
  lemma CoherentTopBatsmenHit(cache: map<CacheKey, CacheValue>, t: Tables, pageNumber: nat, pageSize: nat)
    requires pageSize >= 1
    requires CoherentWith(cache, t)
    requires CacheKey(TopBatsmen, TextKey(TopBatsmenKey(pageNumber, pageSize))) in cache
    ensures cache[CacheKey(TopBatsmen, TextKey(TopBatsmenKey(pageNumber, pageSize)))]
         == PlayerPage(FindTopBatsmen(t.players, pageNumber, pageSize))
  {
    var key := CacheKey(TopBatsmen, TextKey(TopBatsmenKey(pageNumber, pageSize)));
    assert EntryHolds(key, cache[key], t);
    var n: nat, s: nat :| s >= 1 && key.key.text == TopBatsmenKey(n, s)
                         && cache[key] == PlayerPage(FindTopBatsmen(t.players, n, s));
    TopBatsmenKeyInjective(n, s, pageNumber, pageSize);
  }

  /** The map the getScoresByDate loop builds: each match's id to findScoresByMatchId of it. */
  function ScoresOfMatches(t: Tables, matches: seq<Match>): (r: map<nat, seq<int>>)
    decreases |matches|
  {
    if matches == [] then map[]
    else
      var last := matches[|matches| - 1];
      ScoresOfMatches(t, matches[..|matches| - 1])[last.id := FindScoresByMatchId(t, last.id)]
  }

  /** getScoresByDate on a miss, with the inner getMatchesByDate read straight from the store. */
  function ScoresOnDate(t: Tables, date: Date): (r: map<nat, seq<int>>)
  {
    ScoresOfMatches(t, FindMatchesByDate(t, date))
  }

  /** The keys are the ids of the given matches, each mapped to its scores. */
  lemma {:induction false} ScoresOfMatchesEntries(t: Tables, matches: seq<Match>)
    ensures ScoresOfMatches(t, matches).Keys == set m | m in matches :: m.id
    ensures forall id | id in ScoresOfMatches(t, matches) :: ScoresOfMatches(t, matches)[id] == FindScoresByMatchId(t, id)
    decreases |matches|
  {
    if matches != [] {
      var prefix, last := matches[..|matches| - 1], matches[|matches| - 1];
      ScoresOfMatchesEntries(t, prefix);
      assert matches == prefix + [last];
      assert (set m | m in matches :: m.id) == (set m | m in prefix :: m.id) + {last.id};
    }
  }

  /**
   * The keys of getScoresByDate(d) are the ids of the stored matches on d, and
   * each value lists the totalRuns of exactly the innings of that match.
   */
  lemma ScoresOnDateEntries(t: Tables, date: Date, id: nat)
    ensures id in ScoresOnDate(t, date) <==> exists m | m in t.matches :: m.id == id && m.date == Some(date)
    ensures id in ScoresOnDate(t, date) ==>
      && ScoresOnDate(t, date)[id] == FindScoresByMatchId(t, id)
      && forall x :: x in ScoresOnDate(t, date)[id] <==>
           exists i :: 0 <= i < |t.innings| && t.innings[i].matchId == id && t.innings[i].totalRuns == x
  {
    var matches := FindMatchesByDate(t, date);
    ScoresOfMatchesEntries(t, matches);
    forall m | m in t.matches && m.date == Some(date) ensures m.id in ScoresOnDate(t, date) {
      FindMatchesByDateMembers(t, date, m);
    }
    if id in ScoresOnDate(t, date) {
      var m :| m in matches && m.id == id;
      FindMatchesByDateMembers(t, date, m);
    }
  }

  /** Appending one match to the loop's input puts (or overwrites) its entry. */
  lemma ScoresOfMatchesAppend(t: Tables, matches: seq<Match>, i: nat)
    requires i < |matches|
    ensures ScoresOfMatches(t, matches[..i + 1])
         == ScoresOfMatches(t, matches[..i])[matches[i].id := FindScoresByMatchId(t, matches[i].id)]
  {
    assert matches[..i + 1][..i] == matches[..i];
  }

  // ---------------------------------------------------------------- the service

  class QueryService {
    const store: Store
    var cache: map<CacheKey, CacheValue>
    /** Repository queries made so far. */
    ghost var storeQueries: nat

    /** Every entry has its cache's key and value type. */
    ghost predicate Valid()
      reads this
    {
      forall k | k in cache :: EntryTyped(k, cache[k])
    }

    /** Every cached value equals what its getter would compute from the store now. */
    ghost predicate Coherent()
      reads this, store
    {
      CoherentWith(cache, store.State())
    }

    constructor (store: Store)
      ensures this.store == store && cache == map[] && storeQueries == 0
      ensures Valid() && Coherent()
    {
      this.store := store;
      cache := map[];
      storeQueries := 0;
    }

    /** getMatchesByPlayerName: cached findMatchesByPlayerName. */
    method GetMatchesByPlayerName(playerName: string) returns (r: seq<Match>)
      requires Valid()
      modifies this`cache, this`storeQueries
      ensures Valid()
      ensures var key := CacheKey(MatchesByPlayerName, TextKey(playerName));
        if key in old(cache) then
          old(cache)[key] == Matches(r) && cache == old(cache) && storeQueries == old(storeQueries)
        else
          && r == FindMatchesByPlayerName(store.State(), playerName)
          && cache == old(cache)[key := Matches(r)] && storeQueries == old(storeQueries) + 1
      ensures old(Coherent()) ==> Coherent() && r == FindMatchesByPlayerName(store.State(), playerName)
    {
      var key := CacheKey(MatchesByPlayerName, TextKey(playerName));
      if key in cache {
        r := cache[key].matches;
        return;
      }
      r := FindMatchesByPlayerName(store.State(), playerName);
      storeQueries := storeQueries + 1;
      cache := cache[key := Matches(r)];
    }

    /** getCumulativeScoreByPlayerName: cached findByName's totalScore, 0 for an unknown name. */
    method GetCumulativeScoreByPlayerName(playerName: string) returns (r: int)
      requires Valid()
      modifies this`cache, this`storeQueries
      ensures Valid()
      ensures var key := CacheKey(CumulativeScoreByPlayerName, TextKey(playerName));
        if key in old(cache) then
          old(cache)[key] == Score(r) && cache == old(cache) && storeQueries == old(storeQueries)
        else
          && r == CumulativeScore(store.State(), playerName)
          && cache == old(cache)[key := Score(r)] && storeQueries == old(storeQueries) + 1
      ensures old(Coherent()) ==> Coherent() && r == CumulativeScore(store.State(), playerName)
    {
      var key := CacheKey(CumulativeScoreByPlayerName, TextKey(playerName));
      if key in cache {
        r := cache[key].score;
        return;
      }
      var found := FindByName(store.players, playerName);
      storeQueries := storeQueries + 1;
      if found.Some? {
        r := found.value.totalScore;
      } else {
        r := 0;
      }
      cache := cache[key := Score(r)];
    }

    /** getMatchesByDate: cached findMatchesByDate. */
    method GetMatchesByDate(date: Date) returns (r: seq<Match>)
      requires Valid()
      modifies this`cache, this`storeQueries
      ensures Valid()
      ensures var key := CacheKey(MatchesByDate, DateKey(date));
        if key in old(cache) then
          old(cache)[key] == Matches(r) && cache == old(cache) && storeQueries == old(storeQueries)
        else
          && r == FindMatchesByDate(store.State(), date)
          && cache == old(cache)[key := Matches(r)] && storeQueries == old(storeQueries) + 1
      ensures old(Coherent()) ==> Coherent() && r == FindMatchesByDate(store.State(), date)
    {
      var key := CacheKey(MatchesByDate, DateKey(date));
      if key in cache {
        r := cache[key].matches;
        return;
      }
      r := FindMatchesByDate(store.State(), date);
      storeQueries := storeQueries + 1;
      cache := cache[key := Matches(r)];
    }

    /**
     * getScoresByDate: on a miss, the matches of the date (a self-call, so read
     * from the store without going through the matchesByDate cache), then one
     * findScoresByMatchId per match, put into the result map. Only the
     * scoresByDate entry is added.
     */
    method GetScoresByDate(date: Date) returns (r: map<nat, seq<int>>)
      requires Valid()
      modifies this`cache, this`storeQueries
      ensures Valid()
      ensures var key := CacheKey(ScoresByDate, DateKey(date));
        if key in old(cache) then
          old(cache)[key] == Scores(r) && cache == old(cache) && storeQueries == old(storeQueries)
        else
          && r == ScoresOnDate(store.State(), date)
          && cache == old(cache)[key := Scores(r)]
          && storeQueries == old(storeQueries) + 1 + |FindMatchesByDate(store.State(), date)|
      ensures old(Coherent()) ==> Coherent() && r == ScoresOnDate(store.State(), date)
    {
      var key := CacheKey(ScoresByDate, DateKey(date));
      if key in cache {
        r := cache[key].scores;
        return;
      }
      var matches := FindMatchesByDate(store.State(), date);
      storeQueries := storeQueries + 1;
      var scoresMap: map<nat, seq<int>> := map[];
      for i := 0 to |matches|
        invariant scoresMap == ScoresOfMatches(store.State(), matches[..i])
        invariant storeQueries == old(storeQueries) + 1 + i
        invariant cache == old(cache)
      {
        var m := matches[i];
        var scores := FindScoresByMatchId(store.State(), m.id);
        storeQueries := storeQueries + 1;
        scoresMap := scoresMap[m.id := scores];
        ScoresOfMatchesAppend(store.State(), matches, i);
      }
      assert matches[..|matches|] == matches;
      r := scoresMap;
      cache := cache[key := Scores(r)];
    }

    /** getTopBatsmen: cached findTopBatsmen under the key "pageNumber-pageSize". */
    method GetTopBatsmen(pageNumber: nat, pageSize: nat) returns (r: Page)
      requires pageSize >= 1
      requires Valid()
      modifies this`cache, this`storeQueries
      ensures Valid()
      ensures var key := CacheKey(TopBatsmen, TextKey(TopBatsmenKey(pageNumber, pageSize)));
        if key in old(cache) then
          old(cache)[key] == PlayerPage(r) && cache == old(cache) && storeQueries == old(storeQueries)
        else
          && r == FindTopBatsmen(store.State().players, pageNumber, pageSize)
          && cache == old(cache)[key := PlayerPage(r)] && storeQueries == old(storeQueries) + 1
      ensures old(Coherent()) ==> Coherent() && r == FindTopBatsmen(store.State().players, pageNumber, pageSize)
    {
      var key := CacheKey(TopBatsmen, TextKey(TopBatsmenKey(pageNumber, pageSize)));
      if key in cache {
        r := cache[key].page;
        if Coherent() {
          CoherentTopBatsmenHit(cache, store.State(), pageNumber, pageSize);
        }
        return;
      }
      r := FindTopBatsmen(store.players, pageNumber, pageSize);
      storeQueries := storeQueries + 1;
      cache := cache[key := PlayerPage(r)];
    }

    /** clearCache(playerName): evicts the matchesByPlayerName entry of that name and nothing else. */
    method ClearCache(playerName: string)
      requires Valid()
      modifies this`cache
      ensures Valid()
      ensures cache == old(cache) - {CacheKey(MatchesByPlayerName, TextKey(playerName))}
      ensures old(Coherent()) ==> Coherent()
    {
      cache := cache - {CacheKey(MatchesByPlayerName, TextKey(playerName))};
      assert forall k | k in cache :: k in old(cache) && cache[k] == old(cache)[k];
    }

    /** clearAllCaches: evicts every entry of the five caches. */
    method ClearAllCaches()
      modifies this`cache
      ensures cache == map[]
      ensures Valid() && Coherent()
    {
      cache := map[];
    }
  }
}

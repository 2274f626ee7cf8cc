/**
 * The queries of PlayerRepository as functions of the Player table.
 *
 * findTopBatsmen is ORDER BY totalScore DESC with a Pageable: the model sorts
 * stably (players with equal scores keep their table order, which is id order)
 * and returns the slice of the requested page together with the total count.
 */
module PlayerRepository {
  import opened Base
  import opened Entities

  // ---------------------------------------------------------------- ORDER BY totalScore DESC

  /** Scores never increase along the sequence. */
  predicate ByScoreDescending(s: seq<Player>)
  {
    forall i, j | 0 <= i < j < |s| :: s[i].totalScore >= s[j].totalScore
  }

  /** p inserted after every player scoring at least as much, so earlier equal scores stay first. */
  function InsertByScore(sorted: seq<Player>, p: Player): (r: seq<Player>)
    requires ByScoreDescending(sorted)
    ensures multiset(r) == multiset(sorted) + multiset{p}
    ensures |r| == |sorted| + 1
    decreases |sorted|
  {
    if sorted == [] || sorted[|sorted| - 1].totalScore >= p.totalScore then
      sorted + [p]
    else
      var prefix, last := sorted[..|sorted| - 1], sorted[|sorted| - 1];
      assert sorted == prefix + [last];
      InsertByScore(prefix, p) + [last]
  }

  /** Inserting keeps a lower bound that both the ranking and the new player meet. */
  lemma {:induction false} InsertKeepsBound(sorted: seq<Player>, p: Player, bound: int)
    requires ByScoreDescending(sorted)
    requires forall i | 0 <= i < |sorted| :: sorted[i].totalScore >= bound
    requires p.totalScore >= bound
    ensures forall i | 0 <= i < |InsertByScore(sorted, p)| :: InsertByScore(sorted, p)[i].totalScore >= bound
    decreases |sorted|
  {
    if !(sorted == [] || sorted[|sorted| - 1].totalScore >= p.totalScore) {
      InsertKeepsBound(sorted[..|sorted| - 1], p, bound);
    }
  }

  /** Inserting into a ranking gives a ranking. */
  lemma {:induction false} InsertByScoreRanked(sorted: seq<Player>, p: Player)
    requires ByScoreDescending(sorted)
    ensures ByScoreDescending(InsertByScore(sorted, p))
    decreases |sorted|
  {
    if !(sorted == [] || sorted[|sorted| - 1].totalScore >= p.totalScore) {
      var prefix, last := sorted[..|sorted| - 1], sorted[|sorted| - 1];
      InsertByScoreRanked(prefix, p);
      InsertKeepsBound(prefix, p, last.totalScore);
      var r1 := InsertByScore(prefix, p);
      assert InsertByScore(sorted, p) == r1 + [last];
    }
  }

  /** The Player table in ORDER BY totalScore DESC order, ties in table order. */
  function SortedByScore(players: seq<Player>): (r: seq<Player>)
    ensures ByScoreDescending(r)
    ensures multiset(r) == multiset(players)
    ensures |r| == |players|
    decreases |players|
  {
    if players == [] then []
    else
      var prefix, last := players[..|players| - 1], players[|players| - 1];
      assert players == prefix + [last];
      var ranked := SortedByScore(prefix);
      InsertByScoreRanked(ranked, last);
      InsertByScore(ranked, last)
  }

  // ---------------------------------------------------------------- paging

  /** Page<Player>: the content of one page and the total number of rows. */
  datatype Page = Page(content: seq<Player>, totalElements: nat, pageNumber: nat, pageSize: nat)

  /**
   * findTopBatsmen(PageRequest.of(pageNumber, pageSize)): the sorted table from
   * the page's offset on, at most pageSize rows. PageRequest refuses a page size
   * below one.
   */
  function FindTopBatsmen(players: seq<Player>, pageNumber: nat, pageSize: nat): (r: Page)
    requires pageSize >= 1
  {
    Page(Slice(SortedByScore(players), PageOffset(pageNumber, pageSize), pageSize), |players|, pageNumber, pageSize)
  }

  /** Pageable.getOffset: the rows taken by the pages before this one. */
  function PageOffset(pageNumber: nat, pageSize: nat): nat
  {
    if pageNumber == 0 then 0 else PageOffset(pageNumber - 1, pageSize) + pageSize
  }

  /** The offset is pageNumber * pageSize. */
  lemma {:induction false} PageOffsetIsProduct(pageNumber: nat, pageSize: nat)
    ensures PageOffset(pageNumber, pageSize) == pageNumber * pageSize
  {
    if pageNumber > 0 {
      PageOffsetIsProduct(pageNumber - 1, pageSize);
      MulSucc(pageNumber - 1, pageSize);
    }
  }

  /** A later page starts no earlier than an earlier page ends. */
  lemma {:induction false} LaterPageStartsAfter(earlier: nat, later: nat, pageSize: nat)
    requires earlier < later
    ensures PageOffset(earlier, pageSize) + pageSize <= PageOffset(later, pageSize)
    decreases later
  {
    if earlier + 1 < later {
      LaterPageStartsAfter(earlier, later - 1, pageSize);
    }
  }

  /** At most size rows of s from offset on; nothing when offset is past the end. */
  function Slice(s: seq<Player>, offset: nat, size: nat): seq<Player>
  {
    if offset >= |s| then [] else s[offset..Min(offset + size, |s|)]
  }

  function Min(a: int, b: int): int { if a <= b then a else b }

  lemma SliceRows(s: seq<Player>, offset: nat, size: nat)
    ensures var r := Slice(s, offset, size);
      && |r| == (if offset >= |s| then 0 else Min(size, |s| - offset))
      && (forall k | 0 <= k < |r| :: r[k] == s[offset + k])
  {
  }

  /**
   * A page holds min(pageSize, remaining) rows, the ranked rows from its offset
   * on; the total is the size of the table.
   */
  lemma TopBatsmenPageRows(players: seq<Player>, pageNumber: nat, pageSize: nat)
    requires pageSize >= 1
    ensures var page := FindTopBatsmen(players, pageNumber, pageSize);
      && page.totalElements == |players|
      && var offset := PageOffset(pageNumber, pageSize);
      && |page.content| == (if offset >= |players| then 0 else Min(pageSize, |players| - offset))
      && (forall k | 0 <= k < |page.content| :: page.content[k] == SortedByScore(players)[offset + k])
  {
    var sorted := SortedByScore(players);
    var offset := PageOffset(pageNumber, pageSize);
    assert FindTopBatsmen(players, pageNumber, pageSize).content == Slice(sorted, offset, pageSize);
    SliceRows(sorted, offset, pageSize);
  }

  /** A page is in non-increasing score order and holds only stored players. */
  lemma TopBatsmenPageRanked(players: seq<Player>, pageNumber: nat, pageSize: nat)
    requires pageSize >= 1
    ensures var page := FindTopBatsmen(players, pageNumber, pageSize);
      && ByScoreDescending(page.content)
      && (forall p | p in page.content :: p in players)
  {
    SliceOfRanking(SortedByScore(players), players, PageOffset(pageNumber, pageSize), pageSize);
  }

  /** Any slice of a ranking of the table is itself ranked and holds only stored players. */
  lemma SliceOfRanking(sorted: seq<Player>, players: seq<Player>, offset: nat, size: nat)
    requires ByScoreDescending(sorted) && multiset(sorted) == multiset(players)
    ensures ByScoreDescending(Slice(sorted, offset, size))
    ensures forall p | p in Slice(sorted, offset, size) :: p in players
  {
    var content := Slice(sorted, offset, size);
    SliceRows(sorted, offset, size);
    forall p | p in content ensures p in players {
      assert p in multiset(sorted);
    }
    forall i, j | 0 <= i < j < |content| ensures content[i].totalScore >= content[j].totalScore {
      assert content[i] == sorted[offset + i] && content[j] == sorted[offset + j];
    }
  }

  /** Every player of an earlier page scores at least as much as every player of a later one. */
  lemma EarlierPagesScoreHigher(players: seq<Player>, earlier: nat, later: nat, pageSize: nat)
    requires pageSize >= 1 && earlier < later
    ensures forall p, q | p in FindTopBatsmen(players, earlier, pageSize).content &&
                          q in FindTopBatsmen(players, later, pageSize).content ::
              p.totalScore >= q.totalScore
  {
    LaterPageStartsAfter(earlier, later, pageSize);
    DisjointSlicesRanked(SortedByScore(players), PageOffset(earlier, pageSize), PageOffset(later, pageSize), pageSize);
  }

  /** In a ranking, a slice that ends before another starts scores at least as much. */
  lemma DisjointSlicesRanked(sorted: seq<Player>, o1: nat, o2: nat, size: nat)
    requires ByScoreDescending(sorted) && o1 + size <= o2
    ensures forall p, q | p in Slice(sorted, o1, size) && q in Slice(sorted, o2, size) ::
              p.totalScore >= q.totalScore
  {
    var a, b := Slice(sorted, o1, size), Slice(sorted, o2, size);
    SliceRows(sorted, o1, size);
    SliceRows(sorted, o2, size);
    forall p, q | p in a && q in b ensures p.totalScore >= q.totalScore {
      var i :| 0 <= i < |a| && a[i] == p;
      var j :| 0 <= j < |b| && b[j] == q;
      assert sorted[o1 + i] == p && sorted[o2 + j] == q;
    }
  }

  /** The player at position i of the ranking is on page i / pageSize, at position i % pageSize. */
  lemma RankedPlayerIsOnItsPage(players: seq<Player>, pageSize: nat, i: nat)
    requires pageSize >= 1 && i < |players|
    ensures var page := FindTopBatsmen(players, i / pageSize, pageSize);
      i % pageSize < |page.content| && page.content[i % pageSize] == SortedByScore(players)[i]
  {
    DivModSplit(i, pageSize);
    PageOffsetIsProduct(i / pageSize, pageSize);
    SliceRows(SortedByScore(players), PageOffset(i / pageSize, pageSize), pageSize);
  }

  lemma DivModSplit(i: nat, size: nat)
    requires size >= 1
    ensures (i / size) * size + i % size == i && i % size < size
  {
  }

  // ---------------------------------------------------------------- by name

  /** findByName (a derived query): the first Player row with that exact name, null (None) when there is none. */
  function FindByName(players: seq<Player>, name: string): (r: Option<Player>)
    ensures r.Some? ==> r.value in players && r.value.name == name
    ensures r.None? <==> forall p | p in players :: p.name != name
    decreases |players|
  {
    if players == [] then None
    else if players[0].name == name then Some(players[0])
    else
      var r := FindByName(players[1..], name);
      assert forall p | p in players :: p == players[0] || p in players[1..];
      r
  }

  /** The rows of SELECT p FROM Player p WHERE p.name = :name, in table order. */
  function PlayersNamed(players: seq<Player>, name: string): (r: seq<Player>)
    decreases |players|
  {
    if players == [] then []
    else PlayersNamed(players[..|players| - 1], name)
         + (if players[|players| - 1].name == name then [players[|players| - 1]] else [])
  }

  /** findPlayerByName (the JPQL query): the first selected row, or null (None). */
  function FindPlayerByName(players: seq<Player>, name: string): (r: Option<Player>)
  {
    var rows := PlayersNamed(players, name);
    if rows == [] then None else Some(rows[0])
  }

  /** The JPQL query and the derived query select the same player. */
  lemma {:induction false} FindPlayerByNameIsFindByName(players: seq<Player>, name: string)
    ensures FindPlayerByName(players, name) == FindByName(players, name)
    decreases |players|
  {
    if players != [] {
      var rows := PlayersNamed(players, name);
      PlayersNamedFront(players, name);
      if players[0].name != name {
        FindPlayerByNameIsFindByName(players[1..], name);
      }
    }
  }

  /** Selecting from a non-empty table: the first row if it has the name, then the rest. */
  lemma {:induction false} PlayersNamedFront(players: seq<Player>, name: string)
    requires players != []
    ensures PlayersNamed(players, name)
         == (if players[0].name == name then [players[0]] else []) + PlayersNamed(players[1..], name)
    decreases |players|
  {
    if |players| > 1 {
      var prefix := players[..|players| - 1];
      PlayersNamedFront(prefix, name);
      assert prefix[1..] == players[1..][..|players[1..]| - 1];
      assert prefix[0] == players[0];
    } else {
      assert players[1..] == [];
    }
  }
}
